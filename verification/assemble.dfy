/** Building a multisig descriptor from a set of keys: packages/core/src/descriptor/assemble.ts. */
module Assemble {
  import opened Text
  import opened Checksum
  import opened Burst
  import opened Keys
  import opened Spelling
  import opened Canonical
  import opened Suffix
  import opened Arguments
  import opened Script
  import opened KeyPrinting
  import opened RoundTrip
  import opened Placement
  import opened Descriptors
  import opened Order
  import opened Lists
  import opened Quorums

  datatype AssembleRefusal =
    | TooFewMembers | TooManyMembers | ThresholdTooLow | ThresholdTooHigh
    | Unreadable(why: Refusal) | RawMember | NoOrigin | SameKeyTwice | SuffixesDisagree
    | NotRewritten(cause: CanonicalRefusal) | UnwritableText

  datatype Assembled = Assembled(
    descriptor: string, checksum: string, threshold: nat, total: nat, nested: bool, keys: seq<string>)

  /** One member as parsed, with assertExtendedWithOrigin. */
  function ReadMember(lib: Library, raw: string): (r: Result<KeyExpression, AssembleRefusal>)
    ensures r.Ok? ==> r.value.ExtendedKey? && r.value.origin.Some? && ParseKeyExpression(lib, Trim(raw)) == Ok(r.value)
  {
    match ParseKeyExpression(lib, Trim(raw))
    case Err(why) => Err(Unreadable(why))
    case Ok(key) =>
      if key.RawKey? then Err(RawMember)
      else if key.origin.None? then Err(NoOrigin)
      else Ok(key)
  }

  /** What a member is recognised by: its key material, whatever its prefix. */
  function MemberPayload(lib: Library, key: KeyExpression): string {
    KeyPayload(lib, MaterialText(key))
  }

  function Payloads(lib: Library, keys: seq<KeyExpression>): (r: seq<string>)
    ensures |r| == |keys| && forall i :: 0 <= i < |r| ==> r[i] == MemberPayload(lib, keys[i])
  {
    seq(|keys|, i requires 0 <= i < |keys| => MemberPayload(lib, keys[i]))
  }

  predicate NoRepeats(items: seq<string>) {
    forall i, j :: 0 <= i < j < |items| ==> items[i] != items[j]
  }

  function Numbers(values: seq<nat>): (r: seq<string>)
    ensures |r| == |values| && forall i :: 0 <= i < |r| ==> r[i] == OfNat(values[i])
  {
    seq(|values|, i requires 0 <= i < |values| => OfNat(values[i]))
  }

  /** The text two members' suffixes are compared by. */
  function SuffixShape(key: KeyExpression): string {
    if key.RawKey? then ""
    else (if key.ranged then "ranged" else "fixed") + ":" + Join(Numbers(if key.multipath.Some? then key.multipath.value else []), ';')
  }

  predicate OneShape(keys: seq<KeyExpression>) {
    forall i, j :: 0 <= i < |keys| && 0 <= j < |keys| ==> SuffixShape(keys[i]) == SuffixShape(keys[j])
  }

  /** A member as it will be written, and the text it is ordered by. */
  datatype Entry = Entry(order: string, text: string)

  function WriteMember(lib: Library, raw: string): Result<Entry, AssembleRefusal> {
    match CanonicalKeyExpression(lib, Trim(raw))
    case Err(cause) => Err(NotRewritten(cause))
    case Ok(text) =>
      match ParseKeyExpression(lib, text)
      case Err(why) => Err(Unreadable(why))
      case Ok(key) => Ok(Entry(if key.ExtendedKey? then key.xpub else text, text))
  }

  function Codes(entry: Entry): seq<int> {
    seq(|entry.order|, i requires 0 <= i < |entry.order| => entry.order[i] as int)
  }

  function Texts(entries: seq<Entry>): (r: seq<string>)
    ensures |r| == |entries| && forall i :: 0 <= i < |r| ==> r[i] == entries[i].text
  {
    seq(|entries|, i requires 0 <= i < |entries| => entries[i].text)
  }

  /** wsh(sortedmulti(k,...)) or sh(wsh(sortedmulti(k,...))). */
  function QuorumBody(threshold: nat, nested: bool, texts: seq<string>): string {
    var inner := CallText(OfMulti(SortedMulti), [OfNat(threshold)] + texts);
    var segwit := CallText(OfScript(Wsh), [inner]);
    if nested then CallText(OfScript(Sh), [segwit]) else segwit
  }

  function AfterHash(descriptor: string): string {
    descriptor[LastIndexOf(descriptor, '#') + 1..]
  }

  /** The part after the members are known: order them, write them and add the checksum. */
  function WriteQuorum(threshold: nat, nested: bool, entries: seq<Entry>): Result<Assembled, AssembleRefusal> {
    var texts := Texts(Sort(entries, Codes));
    match WithChecksum(QuorumBody(threshold, nested, texts))
    case Err(_) => Err(UnwritableText)
    case Ok(descriptor) => Ok(Assembled(descriptor, AfterHash(descriptor), threshold, |entries|, nested, texts))
  }

  function AssembleQuorum(lib: Library, threshold: int, keys: seq<string>, nested: bool): Result<Assembled, AssembleRefusal> {
    if |keys| < 2 then Err(TooFewMembers)
    else if |keys| > MAX_MULTISIG_KEYS then Err(TooManyMembers)
    else if threshold < 1 then Err(ThresholdTooLow)
    else if threshold > |keys| then Err(ThresholdTooHigh)
    else
      var parsed :- MapOk(keys, raw => ReadMember(lib, raw));
      if !NoRepeats(Payloads(lib, parsed)) then Err(SameKeyTwice)
      else if !OneShape(parsed) then Err(SuffixesDisagree)
      else
        var entries :- MapOk(keys, raw => WriteMember(lib, raw));
        WriteQuorum(threshold, nested, entries)
  }

  /** assembleQuorum, with the map of the payloads seen so far. */
  method AssembleQuorumLoop(lib: Library, threshold: int, keys: seq<string>, nested: bool)
    returns (r: Result<Assembled, AssembleRefusal>)
    ensures r == AssembleQuorum(lib, threshold, keys, nested)
  {
    hide ReadMember, WriteMember, MemberPayload, WriteQuorum, SuffixShape, MapOk;
    if |keys| < 2 {
      return Err(TooFewMembers);
    }
    if |keys| > MAX_MULTISIG_KEYS {
      return Err(TooManyMembers);
    }
    if threshold < 1 {
      return Err(ThresholdTooLow);
    }
    if threshold > |keys| {
      return Err(ThresholdTooHigh);
    }
    var parsed := MapOk(keys, raw => ReadMember(lib, raw));
    if parsed.Err? {
      return Err(parsed.error);
    }
    var repeated := FindRepeat(Payloads(lib, parsed.value));
    if repeated {
      return Err(SameKeyTwice);
    }
    var shapes := set i | 0 <= i < |parsed.value| :: SuffixShape(parsed.value[i]);
    OneShapeMeans(parsed.value, shapes);
    if |shapes| > 1 {
      return Err(SuffixesDisagree);
    }
    var entries := MapOk(keys, raw => WriteMember(lib, raw));
    if entries.Err? {
      return Err(entries.error);
    }
    return WriteQuorum(threshold, nested, entries.value);
  }

  /** The loop over the members, keeping the index each payload was seen at. */
  method FindRepeat(payloads: seq<string>) returns (repeated: bool)
    ensures repeated == !NoRepeats(payloads)
  {
    var seen: map<string, nat> := map[];
    for i := 0 to |payloads|
      invariant NoRepeats(payloads[..i])
      invariant forall k :: 0 <= k < i ==> payloads[k] in seen
      invariant forall p :: p in seen ==> seen[p] < i && payloads[seen[p]] == p
    {
      if payloads[i] in seen {
        return true;
      }
      seen := seen[payloads[i] := i];
    }
    assert payloads[..|payloads|] == payloads;
    return false;
  }

  /** The set of the shapes has one element exactly when they all agree. */
  lemma OneShapeMeans(keys: seq<KeyExpression>, shapes: set<string>)
    requires keys != [] && shapes == set i | 0 <= i < |keys| :: SuffixShape(keys[i])
    ensures |shapes| > 1 <==> !OneShape(keys)
  {
    hide SuffixShape;
    var first := SuffixShape(keys[0]);
    assert first in shapes;
    var others := shapes - {first};
    assert shapes == {first} + others;
    if OneShape(keys) {
      assert forall s :: s in shapes ==> s == first;
      assert others == {};
    } else {
      var i, j :| 0 <= i < |keys| && 0 <= j < |keys| && SuffixShape(keys[i]) != SuffixShape(keys[j]);
      assert SuffixShape(keys[i]) in others || SuffixShape(keys[j]) in others;
    }
  }

  // ----- what is written for one member

  ghost predicate ReadsBack(lib: Library, entry: Entry, key: KeyExpression) {
    && key.ExtendedKey? && key.origin.Some? && AssertExtendedKey(lib, key.xpub).Ok?
    && ParseKeyExpression(lib, entry.text) == Ok(key) && entry.order == key.xpub
    && Whole(entry.text) && '#' !in entry.text
  }

  /** The member with its key under the standard prefix. */
  function Member(lib: Library, raw: string): KeyExpression
    requires ReadMember(lib, raw).Ok?
  {
    var key := ReadMember(lib, raw).value;
    ParsedKeyDecodes(lib, Trim(raw));
    Standardised(lib, key)
  }

  lemma NoHashConcat(a: string, b: string)
    requires '#' !in a && '#' !in b
    ensures '#' !in a + b
  {
  }

  lemma SuffixPlain(suffix: string)
    requires Shaped(suffix)
    ensures Plain(suffix) && '#' !in suffix
  {
  }

  lemma AlphanumericPlain(s: string)
    requires AllAlphanumeric(s)
    ensures Plain(s) && '#' !in s
  {
  }

  lemma OriginNoHash(origin: Option<KeyOrigin>)
    requires OriginOk(origin)
    ensures '#' !in OriginText(origin)
  {
    hide BracketOk, Drop, BracketText;
    if origin.Some? {
      BracketNoHash(origin.value);
    }
  }

  lemma BracketNoHash(o: KeyOrigin)
    requires BracketOk(o)
    ensures '#' !in BracketText(o)
  {
    hide BracketOk, Drop;
    BracketRoundTrip(o);
    FingerprintHex(o);
    assert '#' !in o.fingerprint by {
      HexNoHash(o.fingerprint);
    }
    assert '#' !in Drop(o.path, 1);
  }

  lemma HexNoHash(s: string)
    requires AllHex(s)
    ensures '#' !in s
  {
  }

  /** A canonical text can stand in an argument list and in a descriptor's body. */
  lemma CanonicalWhole(lib: Library, trimmed: string)
    requires Lawful(lib) && Trimmed(trimmed) && ParseKeyExpression(lib, trimmed).Ok?
    requires ParseKeyExpression(lib, trimmed).value.ExtendedKey?
    requires lib.decode58(ParseKeyExpression(lib, trimmed).value.xpub).Some?
    requires |lib.decode58(ParseKeyExpression(lib, trimmed).value.xpub).value| == 82
    ensures var written := Rewritten(lib, trimmed, ParseKeyExpression(lib, trimmed).value);
            Whole(written) && '#' !in written
  {
    hide *;
    var key := ParseKeyExpression(lib, trimmed).value;
    ExtendedPieces(lib, trimmed);
    var suffix := Drop(AfterOrigin(trimmed), |key.xpub|);
    WrittenPieces(lib, trimmed, key, suffix);
    StandardPrefixOk(lib, key.xpub);
    ExtendedRewrites(lib, trimmed);
    RewriteTicks(suffix);
    TicksDerivation(suffix, RewriteMarkers(suffix));
    AcceptedShaped(RewriteMarkers(suffix));
    SuffixPlain(RewriteMarkers(suffix));
    AlphanumericPlain(StandardPrefix(lib, key.xpub));
    PlainConcat(StandardPrefix(lib, key.xpub), RewriteMarkers(suffix));
    NoHashConcat(StandardPrefix(lib, key.xpub), RewriteMarkers(suffix));
    OriginWhole(key.origin, StandardPrefix(lib, key.xpub) + RewriteMarkers(suffix));
    OriginNoHash(key.origin);
    NoHashConcat(OriginText(key.origin), StandardPrefix(lib, key.xpub) + RewriteMarkers(suffix));
  }

  lemma WrittenPieces(lib: Library, trimmed: string, key: KeyExpression, suffix: string)
    requires key.ExtendedKey? && WrittenFrom(lib, trimmed, key, suffix)
    ensures OriginOk(key.origin) && AssertExtendedKey(lib, key.xpub).Ok? && ParseDerivation(suffix).Ok?
    ensures AllAlphanumeric(key.xpub) && AfterOrigin(trimmed) == key.xpub + suffix && (suffix == "" || suffix[0] == '/')
  {
  }

  lemma MemberWritten(lib: Library, raw: string)
    requires Lawful(lib) && ReadMember(lib, raw).Ok?
    ensures WriteMember(lib, raw).Ok? && ReadsBack(lib, WriteMember(lib, raw).value, Member(lib, raw))
    ensures SuffixShape(Member(lib, raw)) == SuffixShape(ReadMember(lib, raw).value)
  {
    hide ParseKeyExpression, Trim, Rewritten, StandardPrefix, AssertExtendedKey, Whole, Join, Lawful, CanonicalKeyExpression;
    var trimmed := Trim(raw);
    var key := ReadMember(lib, raw).value;
    ParsedKeyDecodes(lib, trimmed);
    RewrittenReads(lib, trimmed);
    CanonicalWhole(lib, trimmed);
    StandardPrefixOk(lib, key.xpub);
  }

  // ----- build, then read

  /** An accepted run of the builder, step by step. */
  ghost predicate Built(lib: Library, threshold: int, keys: seq<string>, nested: bool, parsed: seq<KeyExpression>,
                        entries: seq<Entry>, result: Assembled) {
    && 2 <= |keys| <= MAX_MULTISIG_KEYS && 1 <= threshold <= |keys|
    && MapOk(keys, raw => ReadMember(lib, raw)) == Ok(parsed)
    && NoRepeats(Payloads(lib, parsed)) && OneShape(parsed)
    && MapOk(keys, raw => WriteMember(lib, raw)) == Ok(entries)
    && WriteQuorum(threshold, nested, entries) == Ok(result)
  }

  lemma BuiltParts(lib: Library, threshold: int, keys: seq<string>, nested: bool)
    returns (parsed: seq<KeyExpression>, entries: seq<Entry>)
    requires AssembleQuorum(lib, threshold, keys, nested).Ok?
    ensures Built(lib, threshold, keys, nested, parsed, entries, AssembleQuorum(lib, threshold, keys, nested).value)
  {
    hide ReadMember, WriteMember, WriteQuorum, MapOk, NoRepeats, OneShape;
    parsed := MapOk(keys, raw => ReadMember(lib, raw)).value;
    entries := MapOk(keys, raw => WriteMember(lib, raw)).value;
  }

  /** Each entry is its member, written. */
  lemma EntriesRead(lib: Library, threshold: int, keys: seq<string>, nested: bool, parsed: seq<KeyExpression>,
                    entries: seq<Entry>, result: Assembled)
    requires Lawful(lib) && Built(lib, threshold, keys, nested, parsed, entries, result)
    ensures |entries| == |parsed| == |keys|
    ensures forall i :: 0 <= i < |keys| ==>
              ReadMember(lib, keys[i]) == Ok(parsed[i]) && WriteMember(lib, keys[i]) == Ok(entries[i]) &&
              ReadsBack(lib, entries[i], Member(lib, keys[i])) && SuffixShape(Member(lib, keys[i])) == SuffixShape(parsed[i])
  {
    hide ReadMember, WriteMember, WriteQuorum, MapOk, NoRepeats, OneShape, Lawful, ReadsBack, SuffixShape, Member, Payloads;
    var read, write := raw => ReadMember(lib, raw), raw => WriteMember(lib, raw);
    MapOkEach(keys, read);
    MapOkEach(keys, write);
    forall i | 0 <= i < |keys|
      ensures ReadMember(lib, keys[i]) == Ok(parsed[i]) && WriteMember(lib, keys[i]) == Ok(entries[i])
      ensures ReadsBack(lib, entries[i], Member(lib, keys[i])) && SuffixShape(Member(lib, keys[i])) == SuffixShape(parsed[i])
    {
      assert read(keys[i]) == ReadMember(lib, keys[i]) && write(keys[i]) == WriteMember(lib, keys[i]);
      MemberWritten(lib, keys[i]);
    }
  }

  /** A list of entries that read back, all with one suffix shape. */
  ghost predicate AllReadBack(lib: Library, entries: seq<Entry>, shape: string) {
    forall i :: 0 <= i < |entries| ==> ReadsBackShaped(lib, entries[i], shape)
  }

  ghost predicate ReadsBackShaped(lib: Library, entry: Entry, shape: string) {
    exists key :: ReadsBack(lib, entry, key) && SuffixShape(key) == shape
  }

  lemma SortedReadBack(lib: Library, entries: seq<Entry>, shape: string)
    requires AllReadBack(lib, entries, shape)
    ensures AllReadBack(lib, Sort(entries, Codes), shape) && |Sort(entries, Codes)| == |entries|
  {
    hide ReadsBackShaped, Sort;
    SortBag(entries, Codes);
    var sorted := Sort(entries, Codes);
    forall i | 0 <= i < |sorted|
      ensures ReadsBackShaped(lib, sorted[i], shape)
    {
      BagMember(sorted[i], sorted, entries);
      var j :| 0 <= j < |entries| && entries[j] == sorted[i];
    }
  }

  lemma {:induction false} TextsRead(lib: Library, entries: seq<Entry>, shape: string) returns (keys: seq<KeyExpression>)
    requires AllReadBack(lib, entries, shape)
    ensures |keys| == |entries| && ParseKeys(lib, Texts(entries)) == Ok(keys)
    ensures AllWhole(Texts(entries))
    ensures forall i :: 0 <= i < |entries| ==> ReadsBack(lib, entries[i], keys[i]) && SuffixShape(keys[i]) == shape
  {
    hide ReadsBack, SuffixShape, Whole, ParseKeyExpression;
    if entries == [] {
      keys := [];
    } else {
      var rest := entries[1..];
      forall i | 0 <= i < |rest|
        ensures ReadsBackShaped(lib, rest[i], shape)
      {
        assert rest[i] == entries[i + 1];
      }
      var more := TextsRead(lib, rest, shape);
      assert ReadsBackShaped(lib, entries[0], shape);
      var key :| ReadsBack(lib, entries[0], key) && SuffixShape(key) == shape;
      keys := [key] + more;
      ReadsBackText(lib, entries[0], key);
      FirstText(lib, entries, key, more);
      forall i | 0 <= i < |entries|
        ensures ReadsBack(lib, entries[i], keys[i]) && SuffixShape(keys[i]) == shape
      {
        assert i > 0 ==> entries[i] == rest[i - 1];
      }
    }
  }

  lemma FirstText(lib: Library, entries: seq<Entry>, key: KeyExpression, more: seq<KeyExpression>)
    requires entries != [] && ParseKeyExpression(lib, entries[0].text) == Ok(key) && Whole(entries[0].text)
    requires ParseKeys(lib, Texts(entries[1..])) == Ok(more) && AllWhole(Texts(entries[1..]))
    ensures ParseKeys(lib, Texts(entries)) == Ok([key] + more) && AllWhole(Texts(entries))
  {
    hide Whole, ParseKeyExpression;
    assert Texts(entries)[1..] == Texts(entries[1..]);
    assert forall i :: 0 < i < |entries| ==> Texts(entries)[i] == Texts(entries)[1..][i - 1];
  }

  lemma NoneHashed(lib: Library, entries: seq<Entry>, keys: seq<KeyExpression>)
    requires |keys| == |entries| && forall i :: 0 <= i < |entries| ==> ReadsBack(lib, entries[i], keys[i])
    ensures forall i :: 0 <= i < |entries| ==> '#' !in Texts(entries)[i]
  {
    hide Whole, ParseKeyExpression, AssertExtendedKey;
  }

  lemma ReadsBackText(lib: Library, entry: Entry, key: KeyExpression)
    requires ReadsBack(lib, entry, key)
    ensures ParseKeyExpression(lib, entry.text) == Ok(key) && Whole(entry.text) && '#' !in entry.text && key.ExtendedKey?
    ensures entry.order == key.xpub
  {
  }

  function QuorumScript(nested: bool, threshold: nat, keys: seq<KeyExpression>): ScriptNode {
    var segwit := Wrapped(Wsh, Multisig(SortedMulti, threshold, keys));
    if nested then Wrapped(Sh, segwit) else segwit
  }

  lemma ListReads(lib: Library, threshold: nat, texts: seq<string>, keys: seq<KeyExpression>)
    requires 1 <= threshold <= |keys| && ParseKeys(lib, texts) == Ok(keys) && AllWhole(texts)
    ensures ReadsAs(lib, CallText(OfMulti(SortedMulti), [OfNat(threshold)] + texts), Ok(Multisig(SortedMulti, threshold, keys)))
  {
    hide Whole, CallText, ParseKeys, ReadsAs, Join, SplitArguments, OfNat, Trim, ToNat;
    NumberWhole(threshold);
    NatRoundTrip(threshold);
    var parts := [OfNat(threshold)] + texts;
    CallReads(lib, OfMulti(SortedMulti), parts);
    assert parts[1..] == texts;
    assert ParseMulti(lib, SortedMulti, parts) == Ok(Multisig(SortedMulti, threshold, keys));
  }

  lemma BodyReads(lib: Library, threshold: nat, nested: bool, texts: seq<string>, keys: seq<KeyExpression>)
    requires 1 <= threshold <= |keys| && ParseKeys(lib, texts) == Ok(keys) && AllWhole(texts)
    ensures ReadsAs(lib, QuorumBody(threshold, nested, texts), Ok(QuorumScript(nested, threshold, keys)))
  {
    hide ReadsAs, CallText, AllWhole, OfNat;
    ListReads(lib, threshold, texts, keys);
    var inner := CallText(OfMulti(SortedMulti), [OfNat(threshold)] + texts);
    WrappedReads(lib, Wsh, Multisig(SortedMulti, threshold, keys), inner);
    if nested {
      WrappedReads(lib, Sh, Wrapped(Wsh, Multisig(SortedMulti, threshold, keys)), CallText(OfScript(Wsh), [inner]));
    }
  }

  lemma {:induction false} JoinNoHash(parts: seq<string>)
    requires forall i :: 0 <= i < |parts| ==> '#' !in parts[i]
    ensures '#' !in Join(parts, ',')
  {
    if |parts| > 1 {
      JoinNoHash(parts[1..]);
      JoinMore(parts, ',');
      assert '#' !in parts[0] + [','];
    }
  }

  lemma CallNoHash(f: Function, parts: seq<string>)
    requires forall i :: 0 <= i < |parts| ==> '#' !in parts[i]
    ensures '#' !in CallText(f, parts)
  {
    hide Join, Name;
    JoinNoHash(parts);
    NameShape(f);
    assert '#' !in Name(f);
    NoHashConcat(Name(f), "(");
    NoHashConcat(Name(f) + "(", Join(parts, ','));
  }

  lemma BodyNoHash(threshold: nat, nested: bool, texts: seq<string>)
    requires forall i :: 0 <= i < |texts| ==> '#' !in texts[i]
    ensures '#' !in QuorumBody(threshold, nested, texts)
  {
    hide CallText, OfNat;
    assert '#' !in OfNat(threshold) by {
      DigitsNoHash(OfNat(threshold));
    }
    CallNoHash(OfMulti(SortedMulti), [OfNat(threshold)] + texts);
    var inner := CallText(OfMulti(SortedMulti), [OfNat(threshold)] + texts);
    CallNoHash(OfScript(Wsh), [inner]);
    CallNoHash(OfScript(Sh), [CallText(OfScript(Wsh), [inner])]);
  }

  lemma DigitsNoHash(s: string)
    requires AllDigits(s)
    ensures '#' !in s
  {
  }

  // ----- one suffix shape is one tuple length

  lemma {:induction false} NumbersBack(a: seq<nat>, b: seq<nat>)
    requires Numbers(a) == Numbers(b)
    ensures a == b
  {
    hide Numbers, OfNat;
    forall i | 0 <= i < |a|
      ensures a[i] == b[i]
    {
      NatRoundTrip(a[i]);
      NatRoundTrip(b[i]);
    }
  }

  lemma NumbersJoined(a: seq<nat>, b: seq<nat>)
    requires Join(Numbers(a), ';') == Join(Numbers(b), ';')
    ensures a == b
  {
    hide Join, Split, OfNat;
    JoinedNothing(a);
    JoinedNothing(b);
    if a != [] && b != [] {
      NumbersSplit(a);
      NumbersSplit(b);
      NumbersBack(a, b);
    }
  }

  lemma NumbersSplit(a: seq<nat>)
    requires a != []
    ensures Split(Join(Numbers(a), ';'), ';') == Numbers(a)
  {
    hide Join, Split, OfNat;
    forall p | p in Numbers(a)
      ensures ';' !in p
    {
      var i :| 0 <= i < |a| && Numbers(a)[i] == p;
      assert AllDigits(OfNat(a[i]));
    }
    JoinSplits(Numbers(a), ';');
  }

  lemma JoinedNothing(a: seq<nat>)
    ensures Join(Numbers(a), ';') == "" <==> a == []
  {
    hide OfNat;
    if a != [] {
      assert AllDigits(OfNat(a[0]));
      if |a| == 1 {
        JoinOne(Numbers(a), ';');
      } else {
        JoinMore(Numbers(a), ';');
      }
    }
  }

  /** Members of one suffix shape cover the same branches in the same order, and are ranged alike. */
  lemma ShapeDecides(a: KeyExpression, b: KeyExpression)
    requires a.ExtendedKey? && b.ExtendedKey? && SuffixShape(a) == SuffixShape(b)
    ensures a.ranged == b.ranged
    ensures (if a.multipath.Some? then a.multipath.value else []) == (if b.multipath.Some? then b.multipath.value else [])
  {
    hide Join, Numbers;
    var x := Join(Numbers(if a.multipath.Some? then a.multipath.value else []), ';');
    var y := Join(Numbers(if b.multipath.Some? then b.multipath.value else []), ';');
    ShapeParts(a.ranged, x, b.ranged, y);
    NumbersJoined(if a.multipath.Some? then a.multipath.value else [], if b.multipath.Some? then b.multipath.value else []);
  }

  lemma ShapeParts(r: bool, x: string, s: bool, y: string)
    requires (if r then "ranged" else "fixed") + ":" + x == (if s then "ranged" else "fixed") + ":" + y
    ensures r == s && x == y
  {
    var a, b := (if r then "ranged" else "fixed") + ":", (if s then "ranged" else "fixed") + ":";
    assert (a + x)[0] == if r then 'r' else 'f';
    assert (b + y)[0] == if s then 'r' else 'f';
    assert (a + x)[|a|..] == x && (b + y)[|b|..] == y;
  }

  lemma OneShapeTuples(keys: seq<KeyExpression>, shape: string)
    requires forall i :: 0 <= i < |keys| ==> keys[i].ExtendedKey? && SuffixShape(keys[i]) == shape
    ensures OneTupleLength(keys)
  {
    hide SuffixShape;
    forall i, j | 0 <= i < |keys| && 0 <= j < |keys| && Offers(keys[i]) && Offers(keys[j])
      ensures |keys[i].multipath.value| == |keys[j].multipath.value|
    {
      ShapeDecides(keys[i], keys[j]);
    }
  }

  lemma {:induction false} ExtendedFit(keys: seq<KeyExpression>, under: Under)
    requires forall i :: 0 <= i < |keys| ==> keys[i].ExtendedKey?
    ensures CheckKeys(keys, false, under).Ok?
  {
    if keys != [] {
      ExtendedFit(keys[1..], under);
    }
  }

  lemma QuorumPlaced(lib: Library, nested: bool, threshold: nat, keys: seq<KeyExpression>)
    requires |keys| <= MAX_MULTISIG_KEYS && forall i :: 0 <= i < |keys| ==> keys[i].ExtendedKey?
    ensures CheckPlacement(lib, QuorumScript(nested, threshold, keys), AtTop, Under(false, false)).Ok?
    ensures DescriptorKeys(QuorumScript(nested, threshold, keys)) == keys
  {
    hide CheckKeys;
    ExtendedFit(keys, Under(true, false));
    var quorum := Multisig(SortedMulti, threshold, keys);
    assert CheckPlacement(lib, quorum, InWsh, Under(true, false)).Ok?;
    assert CheckPlacement(lib, Wrapped(Wsh, quorum), InSh, Under(false, false)).Ok?;
    assert DescriptorKeys(Wrapped(Wsh, quorum)) == keys;
  }

  lemma QuorumShape(nested: bool, threshold: nat, keys: seq<KeyExpression>)
    requires 1 <= threshold <= |keys| <= MAX_MULTISIG_KEYS && forall i :: 0 <= i < |keys| ==> keys[i].ExtendedKey?
    ensures MultisigShape(QuorumScript(nested, threshold, keys)) ==
            Ok(Shape(if nested then NestedWitness else WitnessScript, threshold, |keys|, true, keys))
  {
  }

  // ----- the main results

  lemma QuorumReads(lib: Library, threshold: nat, nested: bool, texts: seq<string>, keys: seq<KeyExpression>, shape: string)
    requires 1 <= threshold <= |keys| <= MAX_MULTISIG_KEYS && |texts| == |keys| && ParseKeys(lib, texts) == Ok(keys)
    requires AllWhole(texts) && forall i :: 0 <= i < |texts| ==> '#' !in texts[i]
    requires forall i :: 0 <= i < |keys| ==> keys[i].ExtendedKey? && SuffixShape(keys[i]) == shape
    requires WithChecksum(QuorumBody(threshold, nested, texts)).Ok?
    ensures var body := QuorumBody(threshold, nested, texts);
            && DescriptorChecksum(body).Ok? && WithChecksum(body).value == body + "#" + DescriptorChecksum(body).value
            && AfterHash(WithChecksum(body).value) == DescriptorChecksum(body).value
            && var script := QuorumScript(nested, threshold, keys);
               ParseDescriptor(lib, WithChecksum(body).value, false) ==
               Ok(Descriptor(script, body, Some(DescriptorChecksum(body).value), true, IsRanged(script)))
  {
    hide *;
    var body := QuorumBody(threshold, nested, texts);
    var script := QuorumScript(nested, threshold, keys);
    BodyReads(lib, threshold, nested, texts, keys);
    BodyNoHash(threshold, nested, texts);
    ReadsAsText(lib, body, script);
    OneShapeTuples(keys, shape);
    QuorumPlaced(lib, nested, threshold, keys);
    BodySum(body);
    DescriptorReads(lib, body, script);
  }

  lemma ReadsAsText(lib: Library, body: string, script: ScriptNode)
    requires ReadsAs(lib, body, Ok(script))
    ensures body != "" && !IsSpace(body[0]) && ParseScript(lib, body) == Ok(script)
  {
    hide ParseScript, Whole;
  }

  lemma BodySum(body: string)
    requires '#' !in body && WithChecksum(body).Ok?
    ensures DescriptorChecksum(body).Ok? && WithChecksum(body).value == body + "#" + DescriptorChecksum(body).value
    ensures AfterHash(WithChecksum(body).value) == DescriptorChecksum(body).value
  {
    hide DescriptorChecksum, LastIndexOf;
    assert StripChecksum(body) == body;
    var checksum := DescriptorChecksum(body).value;
    ChecksumText(body);
    StripAppended(body, checksum);
    AppendedParts(body, checksum);
  }

  /** The members of a built quorum, in the order they were written. */
  lemma BuiltReads(lib: Library, threshold: int, keys: seq<string>, nested: bool, parsed: seq<KeyExpression>,
                   entries: seq<Entry>, result: Assembled) returns (members: seq<KeyExpression>)
    requires Lawful(lib) && Built(lib, threshold, keys, nested, parsed, entries, result)
    ensures result.keys == Texts(Sort(entries, Codes)) && |members| == |keys| == |entries|
    ensures ParseKeys(lib, result.keys) == Ok(members) && AllWhole(result.keys)
    ensures forall i :: 0 <= i < |members| ==> ReadsBack(lib, Sort(entries, Codes)[i], members[i])
    ensures forall i :: 0 <= i < |members| ==> '#' !in result.keys[i] && SuffixShape(members[i]) == SuffixShape(parsed[0])
  {
    hide *;
    EntriesRead(lib, threshold, keys, nested, parsed, entries, result);
    BuiltShape(lib, threshold, keys, nested, parsed, entries, result);
    var shape := SuffixShape(parsed[0]);
    SortedReadBack(lib, entries, shape);
    members := TextsRead(lib, Sort(entries, Codes), shape);
    NoneHashed(lib, Sort(entries, Codes), members);
  }

  lemma BuiltShape(lib: Library, threshold: int, keys: seq<string>, nested: bool, parsed: seq<KeyExpression>,
                   entries: seq<Entry>, result: Assembled)
    requires Lawful(lib) && Built(lib, threshold, keys, nested, parsed, entries, result)
    ensures |keys| == |parsed| >= 2 && AllReadBack(lib, entries, SuffixShape(parsed[0]))
    ensures result.keys == Texts(Sort(entries, Codes))
  {
    hide ReadMember, WriteMember, MapOk, NoRepeats, Lawful, ReadsBack, SuffixShape, Member, Payloads, WithChecksum, Sort;
    EntriesRead(lib, threshold, keys, nested, parsed, entries, result);
    forall i | 0 <= i < |entries|
      ensures ReadsBackShaped(lib, entries[i], SuffixShape(parsed[0]))
    {
      assert ReadsBack(lib, entries[i], Member(lib, keys[i]));
    }
  }

  lemma QuorumText(threshold: nat, nested: bool, texts: seq<string>)
    requires texts != []
    ensures QuorumBody(threshold, nested, texts) ==
            (if nested then "sh(wsh(sortedmulti(" else "wsh(sortedmulti(") + OfNat(threshold) + "," + Join(texts, ',') +
            (if nested then ")))" else "))")
  {
    hide OfNat, CallText, Join;
    var parts := [OfNat(threshold)] + texts;
    JoinHead(OfNat(threshold), texts);
    var inner := CallText(OfMulti(SortedMulti), parts);
    SortedCall(parts);
    WrapText(inner);
    WrapText(CallText(OfScript(Wsh), [inner]));
    NestText("sortedmulti(" + Join(parts, ',') + ")");
    InnerText(OfNat(threshold), Join(texts, ','));
  }

  lemma JoinHead(head: string, texts: seq<string>)
    requires texts != []
    ensures Join([head] + texts, ',') == head + "," + Join(texts, ',')
  {
    assert ([head] + texts)[1..] == texts;
  }

  lemma SortedCall(parts: seq<string>)
    ensures CallText(OfMulti(SortedMulti), parts) == "sortedmulti(" + Join(parts, ',') + ")"
  {
    hide Join;
    assert "sortedmulti" + "(" == "sortedmulti(";
  }

  lemma WrapText(inner: string)
    ensures CallText(OfScript(Wsh), [inner]) == "wsh(" + inner + ")" && CallText(OfScript(Sh), [inner]) == "sh(" + inner + ")"
  {
    assert "wsh" + "(" == "wsh(" && "sh" + "(" == "sh(";
  }

  lemma NestText(inner: string)
    ensures "sh(" + ("wsh(" + inner + ")") + ")" == "sh(wsh(" + inner + "))"
  {
  }

  lemma InnerText(threshold: string, rest: string)
    ensures "wsh(" + ("sortedmulti(" + (threshold + "," + rest) + ")") + ")" == "wsh(sortedmulti(" + threshold + "," + rest + "))"
    ensures "sh(wsh(" + ("sortedmulti(" + (threshold + "," + rest) + ")") + "))" == "sh(wsh(sortedmulti(" + threshold + "," + rest + ")))"
  {
  }

  /**
   * What the builder writes, letter by letter: the threshold and the members in
   * sortedmulti, in wsh or in sh(wsh), a hash and the eight characters that
   * descriptorChecksum gives for what is before it.
   */
  lemma BuiltText(lib: Library, threshold: int, keys: seq<string>, nested: bool)
    requires Lawful(lib) && AssembleQuorum(lib, threshold, keys, nested).Ok?
    ensures var built := AssembleQuorum(lib, threshold, keys, nested).value;
            var body := (if nested then "sh(wsh(sortedmulti(" else "wsh(sortedmulti(") + OfNat(threshold) + "," +
                        Join(built.keys, ',') + (if nested then ")))" else "))");
            && built.descriptor == body + "#" + built.checksum && DescriptorChecksum(body) == Ok(built.checksum)
            && built.threshold == threshold && built.total == |keys|
  {
    hide *;
    var parsed, entries := BuiltParts(lib, threshold, keys, nested);
    var built := AssembleQuorum(lib, threshold, keys, nested).value;
    BuiltResult(lib, threshold, keys, nested, parsed, entries, built);
    BuiltShape(lib, threshold, keys, nested, parsed, entries, built);
    var members := BuiltReads(lib, threshold, keys, nested, parsed, entries, built);
    QuorumText(threshold, nested, built.keys);
    BodyNoHash(threshold, nested, built.keys);
    BodySum(QuorumBody(threshold, nested, built.keys));
    BuiltThreshold(lib, threshold, keys, nested);
  }

  lemma BuiltThreshold(lib: Library, threshold: int, keys: seq<string>, nested: bool)
    requires AssembleQuorum(lib, threshold, keys, nested).Ok?
    ensures AssembleQuorum(lib, threshold, keys, nested).value.threshold == threshold
    ensures 1 <= threshold && 2 <= |keys|
  {
    hide ReadMember, WriteMember, NoRepeats, OneShape, Payloads, WithChecksum, Sort, QuorumBody, MapOk;
  }

  /**
   * Build, then read: whatever the builder returns, the parser accepts with a
   * valid checksum, the eight characters it returned beside it, and the
   * recogniser finds in it the same threshold, the same number of keys, sorted,
   * and exactly the keys that were written, for either wrapping.
   */
  lemma BuildThenRead(lib: Library, threshold: int, keys: seq<string>, nested: bool)
    requires Lawful(lib) && AssembleQuorum(lib, threshold, keys, nested).Ok?
    ensures var built := AssembleQuorum(lib, threshold, keys, nested).value;
            var members := ParseKeys(lib, built.keys);
            var read := ParseDescriptor(lib, built.descriptor, false);
            && members.Ok? && |members.value| == |keys| == built.total
            && read.Ok? && read.value.checksumValid && read.value.checksum == Some(built.checksum)
            && MultisigShape(read.value.script) ==
               Ok(Shape(if nested then NestedWitness else WitnessScript, threshold, built.total, true, members.value))
  {
    hide *;
    var parsed, entries := BuiltParts(lib, threshold, keys, nested);
    var built := AssembleQuorum(lib, threshold, keys, nested).value;
    var members := BuiltReads(lib, threshold, keys, nested, parsed, entries, built);
    BuiltResult(lib, threshold, keys, nested, parsed, entries, built);
    BuiltShape(lib, threshold, keys, nested, parsed, entries, built);
    AllExtended(lib, Sort(entries, Codes), members);
    QuorumReads(lib, threshold, nested, built.keys, members, SuffixShape(parsed[0]));
    QuorumShape(nested, threshold, members);
  }

  lemma AllExtended(lib: Library, entries: seq<Entry>, members: seq<KeyExpression>)
    requires |entries| == |members| && forall i :: 0 <= i < |members| ==> ReadsBack(lib, entries[i], members[i])
    ensures forall i :: 0 <= i < |members| ==> members[i].ExtendedKey?
  {
  }

  lemma BuiltResult(lib: Library, threshold: int, keys: seq<string>, nested: bool, parsed: seq<KeyExpression>,
                    entries: seq<Entry>, result: Assembled)
    requires Built(lib, threshold, keys, nested, parsed, entries, result)
    ensures 2 <= |keys| <= MAX_MULTISIG_KEYS && 1 <= threshold <= |keys| && |keys| == |entries| == result.total
    ensures WithChecksum(QuorumBody(threshold, nested, result.keys)) == Ok(result.descriptor)
    ensures result.checksum == AfterHash(result.descriptor)
  {
    hide ReadMember, WriteMember, NoRepeats, OneShape, Payloads, WithChecksum, Sort, QuorumBody;
  }

  // ----- exactly which quorums are built

  lemma {:induction false} PositionsConcat(a: string, b: string)
    ensures Positions(a + b).Ok? <==> Positions(a).Ok? && Positions(b).Ok?
    decreases |a|
  {
    hide Position;
    if a == "" {
      assert a + b == b;
    } else {
      assert (a + b)[1..] == a[1..] + b;
      PositionsConcat(a[1..], b);
    }
  }

  /** A text of permitted characters. */
  predicate Permitted(text: string) {
    Positions(text).Ok?
  }

  lemma {:induction false} JoinPermitted(parts: seq<string>)
    ensures Permitted(Join(parts, ',')) <==> forall i :: 0 <= i < |parts| ==> Permitted(parts[i])
  {
    hide Positions, Position;
    CommaPermitted();
    if |parts| == 1 {
    } else if |parts| > 1 {
      hide Permitted;
      JoinMore(parts, ',');
      JoinPermitted(parts[1..]);
      assert forall i :: 0 <= i < |parts| - 1 ==> parts[1..][i] == parts[i + 1];
      PermittedConcat(parts[0], ",");
      PermittedConcat(parts[0] + ",", Join(parts[1..], ','));
      assert (forall i :: 0 <= i < |parts| ==> Permitted(parts[i])) <==>
             Permitted(parts[0]) && forall i :: 0 <= i < |parts[1..]| ==> Permitted(parts[1..][i]) by {
        assert forall i :: 0 < i < |parts| ==> parts[i] == parts[1..][i - 1];
      }
    }
  }

  lemma PermittedConcat(a: string, b: string)
    ensures Permitted(a + b) <==> Permitted(a) && Permitted(b)
  {
    PositionsConcat(a, b);
  }

  lemma CommaPermitted()
    ensures Permitted("") && Permitted(",")
  {
    PunctuationPrintable(',');
    TextPermitted(",");
  }

  lemma CallPermitted(f: Function, parts: seq<string>)
    ensures Permitted(CallText(f, parts)) <==> forall i :: 0 <= i < |parts| ==> Permitted(parts[i])
  {
    hide Positions, Join, Name;
    NameShape(f);
    PrintableChars(Name(f));
    TextPermitted(Name(f));
    PunctuationPrintable('(');
    PunctuationPrintable(')');
    TextPermitted("(");
    TextPermitted(")");
    PermittedConcat(Name(f), "(");
    PermittedConcat(Name(f) + "(", Join(parts, ','));
    PermittedConcat(Name(f) + "(" + Join(parts, ','), ")");
    JoinPermitted(parts);
  }

  lemma BodyPermitted(threshold: nat, nested: bool, texts: seq<string>)
    ensures Permitted(QuorumBody(threshold, nested, texts)) <==> forall i :: 0 <= i < |texts| ==> Permitted(texts[i])
  {
    hide Permitted, CallText, OfNat;
    NumberPermitted(threshold);
    var parts := [OfNat(threshold)] + texts;
    CallPermitted(OfMulti(SortedMulti), parts);
    assert forall i :: 0 <= i < |texts| ==> parts[i + 1] == texts[i];
    assert forall i :: 0 < i < |parts| ==> parts[i] == texts[i - 1];
    var inner := CallText(OfMulti(SortedMulti), parts);
    CallPermitted(OfScript(Wsh), [inner]);
    CallPermitted(OfScript(Sh), [CallText(OfScript(Wsh), [inner])]);
    assert [inner][0] == inner && [CallText(OfScript(Wsh), [inner])][0] == CallText(OfScript(Wsh), [inner]);
  }

  lemma NumberPermitted(n: nat)
    ensures Permitted(OfNat(n))
  {
    hide Positions;
    NumberPrintable(n);
    TextPermitted(OfNat(n));
  }

  lemma BodyWritten(body: string)
    requires '#' !in body
    ensures WithChecksum(body).Ok? <==> Permitted(body)
  {
    hide Positions, LastIndexOf;
    assert StripChecksum(body) == body;
  }

  /** Members cover the same branches and are ranged alike. */
  predicate SameCover(a: KeyExpression, b: KeyExpression) {
    a.ExtendedKey? && b.ExtendedKey? && a.ranged == b.ranged &&
    (if a.multipath.Some? then a.multipath.value else []) == (if b.multipath.Some? then b.multipath.value else [])
  }

  lemma ShapeIsCover(a: KeyExpression, b: KeyExpression)
    requires a.ExtendedKey? && b.ExtendedKey?
    ensures SuffixShape(a) == SuffixShape(b) <==> SameCover(a, b)
  {
    if SuffixShape(a) == SuffixShape(b) {
      ShapeDecides(a, b);
    }
  }

  /** What a list of members is refused for before anything is written. */
  ghost predicate Acceptable(lib: Library, keys: seq<string>) {
    && (forall i :: 0 <= i < |keys| ==> ReadMember(lib, keys[i]).Ok?)
    && (forall i, j :: 0 <= i < j < |keys| ==>
          MemberPayload(lib, ReadMember(lib, keys[i]).value) != MemberPayload(lib, ReadMember(lib, keys[j]).value))
    && (forall i, j :: 0 <= i < |keys| && 0 <= j < |keys| ==>
          SameCover(ReadMember(lib, keys[i]).value, ReadMember(lib, keys[j]).value))
  }

  /** The members of a list, each read. */
  predicate ReadsEach(lib: Library, keys: seq<string>, parsed: seq<KeyExpression>) {
    |parsed| == |keys| && forall i :: 0 <= i < |keys| ==> ReadMember(lib, keys[i]) == Ok(parsed[i])
  }

  lemma OneCover(parsed: seq<KeyExpression>)
    requires forall i :: 0 <= i < |parsed| ==> parsed[i].ExtendedKey?
    ensures OneShape(parsed) <==>
            forall i, j :: 0 <= i < |parsed| && 0 <= j < |parsed| ==> SameCover(parsed[i], parsed[j])
  {
    hide SuffixShape, SameCover;
    forall i, j | 0 <= i < |parsed| && 0 <= j < |parsed|
      ensures SuffixShape(parsed[i]) == SuffixShape(parsed[j]) <==> SameCover(parsed[i], parsed[j])
    {
      ShapeIsCover(parsed[i], parsed[j]);
    }
  }

  lemma ReadsExtended(lib: Library, keys: seq<string>, parsed: seq<KeyExpression>)
    requires ReadsEach(lib, keys, parsed)
    ensures forall i :: 0 <= i < |parsed| ==> parsed[i].ExtendedKey?
  {
    forall i | 0 <= i < |parsed|
      ensures parsed[i].ExtendedKey?
    {
      assert ReadMember(lib, keys[i]) == Ok(parsed[i]);
    }
  }

  lemma ReadsAcceptable(lib: Library, keys: seq<string>, parsed: seq<KeyExpression>)
    requires ReadsEach(lib, keys, parsed)
    ensures NoRepeats(Payloads(lib, parsed)) && OneShape(parsed) <==> Acceptable(lib, keys)
  {
    hide ReadMember, MemberPayload, SameCover, OneShape;
    ReadsExtended(lib, keys, parsed);
    OneCover(parsed);
  }

  lemma ReadAll(lib: Library, keys: seq<string>)
    ensures var parsed := MapOk(keys, raw => ReadMember(lib, raw));
            parsed.Ok? && NoRepeats(Payloads(lib, parsed.value)) && OneShape(parsed.value) <==> Acceptable(lib, keys)
  {
    hide ReadMember, MapOk, NoRepeats, OneShape, Payloads;
    var read := raw => ReadMember(lib, raw);
    MapOkEach(keys, read);
    if MapOk(keys, read).Ok? {
      hide Acceptable;
      var parsed := MapOk(keys, read).value;
      forall i | 0 <= i < |keys|
        ensures ReadMember(lib, keys[i]) == Ok(parsed[i])
      {
        assert read(keys[i]).Ok? && parsed[i] == read(keys[i]).value;
      }
      ReadsAcceptable(lib, keys, parsed);
    } else {
      var i :| 0 <= i < |keys| && !read(keys[i]).Ok?;
      assert !ReadMember(lib, keys[i]).Ok?;
    }
  }

  lemma WriteAll(lib: Library, keys: seq<string>) returns (entries: seq<Entry>)
    requires Lawful(lib) && forall i :: 0 <= i < |keys| ==> ReadMember(lib, keys[i]).Ok?
    ensures MapOk(keys, raw => WriteMember(lib, raw)) == Ok(entries) && |entries| == |keys|
    ensures forall i :: 0 <= i < |keys| ==> WriteMember(lib, keys[i]) == Ok(entries[i]) && '#' !in entries[i].text
  {
    hide ReadMember, WriteMember, MapOk, Lawful;
    var write := raw => WriteMember(lib, raw);
    forall i | 0 <= i < |keys|
      ensures write(keys[i]).Ok? && '#' !in write(keys[i]).value.text
    {
      MemberWritten(lib, keys[i]);
    }
    MapOkEach(keys, write);
    entries := MapOk(keys, write).value;
  }

  lemma SortedTexts(entries: seq<Entry>)
    ensures |Texts(Sort(entries, Codes))| == |entries|
    ensures (forall i :: 0 <= i < |entries| ==> Permitted(Texts(Sort(entries, Codes))[i])) <==>
            (forall i :: 0 <= i < |entries| ==> Permitted(entries[i].text))
    ensures (forall i :: 0 <= i < |entries| ==> '#' !in entries[i].text) ==>
            (forall i :: 0 <= i < |entries| ==> '#' !in Texts(Sort(entries, Codes))[i])
  {
    hide Permitted, Sort;
    SortBag(entries, Codes);
    var sorted := Sort(entries, Codes);
    BagTexts(entries, sorted);
    BagTexts(sorted, entries);
  }

  /** What the texts of a list keep when it is rearranged. */
  lemma BagTexts(a: seq<Entry>, b: seq<Entry>)
    requires multiset(a) == multiset(b)
    ensures (forall i :: 0 <= i < |a| ==> Permitted(a[i].text)) ==> forall i :: 0 <= i < |b| ==> Permitted(b[i].text)
    ensures (forall i :: 0 <= i < |a| ==> '#' !in a[i].text) ==> forall i :: 0 <= i < |b| ==> '#' !in b[i].text
  {
    hide Permitted;
    forall i | 0 <= i < |b|
      ensures exists j :: 0 <= j < |a| && a[j] == b[i]
    {
      BagMember(b[i], b, a);
    }
  }

  /**
   * A quorum is built exactly when it has two to sixteen members and a
   * threshold between one and their number, every member is an extended key
   * with an origin, no two are one key, all cover the same branches, and their
   * canonical texts hold only characters a descriptor may.
   */
  lemma BuiltExactly(lib: Library, threshold: int, keys: seq<string>, nested: bool)
    requires Lawful(lib)
    ensures AssembleQuorum(lib, threshold, keys, nested).Ok? <==>
            && 2 <= |keys| <= 16 && 1 <= threshold <= |keys| && Acceptable(lib, keys)
            && forall i :: 0 <= i < |keys| ==> WriteMember(lib, keys[i]).Ok? && Permitted(WriteMember(lib, keys[i]).value.text)
  {
    hide ReadMember, WriteMember, MapOk, Permitted, Payloads, NoRepeats, OneShape, Acceptable, Lawful, WithChecksum, QuorumBody;
    ReadAll(lib, keys);
    if 2 <= |keys| <= 16 && 1 <= threshold <= |keys| && Acceptable(lib, keys) {
      AcceptableReads(lib, keys);
      var entries := WriteAll(lib, keys);
      SortedTexts(entries);
      var texts := Texts(Sort(entries, Codes));
      BodyNoHash(threshold, nested, texts);
      BodyPermitted(threshold, nested, texts);
      BodyWritten(QuorumBody(threshold, nested, texts));
    }
  }

  lemma AcceptableReads(lib: Library, keys: seq<string>)
    requires Acceptable(lib, keys)
    ensures forall i :: 0 <= i < |keys| ==> ReadMember(lib, keys[i]).Ok?
  {
    hide ReadMember;
  }
}
