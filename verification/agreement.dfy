/**
 * Every device produces the same bytes: the promise of
 * packages/core/src/descriptor/assemble.ts, lines 40 to 54.
 */
module Agreement {
  import opened Text
  import opened Checksum
  import opened Burst
  import opened Keys
  import opened Spelling
  import opened Canonical
  import opened Arguments
  import opened Script
  import opened RoundTrip
  import opened Order
  import opened Lists
  import opened Quorums
  import opened Assemble
  import opened Respelling

  // ----- the order of the members

  lemma NoRepeatsBag(a: seq<string>, b: seq<string>)
    requires multiset(a) == multiset(b) && NoRepeats(a)
    ensures NoRepeats(b)
  {
    forall i, j | 0 <= i < j < |b|
      ensures b[i] != b[j]
    {
      if b[i] == b[j] {
        TwiceInBag(b, i, j);
        BagMember(b[i], b, a);
        var x :| 0 <= x < |a| && a[x] == b[i];
        OnceInBag(a, x);
      }
    }
  }

  lemma PayloadsBag(lib: Library, a: seq<KeyExpression>, b: seq<KeyExpression>)
    requires multiset(a) == multiset(b)
    ensures multiset(Payloads(lib, a)) == multiset(Payloads(lib, b))
  {
    hide MemberPayload, MapOk;
    var f: KeyExpression -> Result<string, Refusal> := key => Ok(MemberPayload(lib, key));
    MapOkEach(a, f);
    MapOkEach(b, f);
    MapOkBag(a, b, f);
    assert MapOk(a, f).value == Payloads(lib, a);
    assert MapOk(b, f).value == Payloads(lib, b);
  }

  lemma OneShapeBag(a: seq<KeyExpression>, b: seq<KeyExpression>)
    requires multiset(a) == multiset(b) && OneShape(a)
    ensures OneShape(b)
  {
    hide SuffixShape;
    forall i, j | 0 <= i < |b| && 0 <= j < |b|
      ensures SuffixShape(b[i]) == SuffixShape(b[j])
    {
      BagMember(b[i], b, a);
      BagMember(b[j], b, a);
      var x :| 0 <= x < |a| && a[x] == b[i];
      var y :| 0 <= y < |a| && a[y] == b[j];
    }
  }

  lemma CodesDecide(x: Entry, y: Entry)
    requires Codes(x) == Codes(y)
    ensures x.order == y.order
  {
    forall i | 0 <= i < |x.order|
      ensures x.order[i] == y.order[i]
    {
      assert Codes(x)[i] == Codes(y)[i];
    }
  }

  /** Refusing a key listed twice makes the order strict: no two entries compare equal. */
  lemma EntriesDecide(lib: Library, threshold: int, keys: seq<string>, nested: bool, parsed: seq<KeyExpression>,
                      entries: seq<Entry>, result: Assembled)
    requires Lawful(lib) && Built(lib, threshold, keys, nested, parsed, entries, result)
    ensures KeyDecides(entries, Codes)
    ensures forall i, j :: 0 <= i < j < |entries| ==> entries[i].order != entries[j].order
  {
    hide *;
    EntriesRead(lib, threshold, keys, nested, parsed, entries, result);
    BuiltDistinct(lib, threshold, keys, nested, parsed, entries, result);
    forall i, j | 0 <= i < j < |entries|
      ensures entries[i].order != entries[j].order
    {
      OrdersDiffer(lib, keys[i], keys[j], entries[i], entries[j], parsed[i], parsed[j]);
    }
    OrdersDecide(entries);
  }

  lemma OrdersDecide(entries: seq<Entry>)
    requires forall i, j :: 0 <= i < j < |entries| ==> entries[i].order != entries[j].order
    ensures KeyDecides(entries, Codes)
  {
    hide Codes;
    forall x, y | x in entries && y in entries && Codes(x) == Codes(y)
      ensures x == y
    {
      CodesDecide(x, y);
      var i :| 0 <= i < |entries| && entries[i] == x;
      var j :| 0 <= j < |entries| && entries[j] == y;
      assert !(i < j) && !(j < i);
    }
  }

  lemma BuiltDistinct(lib: Library, threshold: int, keys: seq<string>, nested: bool, parsed: seq<KeyExpression>,
                      entries: seq<Entry>, result: Assembled)
    requires Built(lib, threshold, keys, nested, parsed, entries, result)
    ensures forall i, j :: 0 <= i < j < |parsed| ==> MemberPayload(lib, parsed[i]) != MemberPayload(lib, parsed[j])
  {
    hide ReadMember, WriteMember, MapOk, OneShape, WriteQuorum, MemberPayload;
    forall i, j | 0 <= i < j < |parsed|
      ensures MemberPayload(lib, parsed[i]) != MemberPayload(lib, parsed[j])
    {
      assert Payloads(lib, parsed)[i] != Payloads(lib, parsed)[j];
    }
  }

  lemma OrdersDiffer(lib: Library, a: string, b: string, x: Entry, y: Entry, p: KeyExpression, q: KeyExpression)
    requires Lawful(lib) && ReadMember(lib, a) == Ok(p) && ReadMember(lib, b) == Ok(q)
    requires ReadsBack(lib, x, Member(lib, a)) && ReadsBack(lib, y, Member(lib, b))
    requires MemberPayload(lib, p) != MemberPayload(lib, q)
    ensures x.order != y.order
  {
    hide ParseKeyExpression, Trim, AssertExtendedKey, KeyPayload, Payload, StandardPrefix, Lawful, Whole;
    ParsedKeyDecodes(lib, Trim(a));
    ParsedKeyDecodes(lib, Trim(b));
    StandardPrefixOk(lib, p.xpub);
    StandardPrefixOk(lib, q.xpub);
    PayloadDecides(lib, p.xpub, q.xpub);
  }

  lemma PermutedBuilds(lib: Library, threshold: int, a: seq<string>, b: seq<string>, nested: bool)
    requires Lawful(lib) && multiset(a) == multiset(b) && AssembleQuorum(lib, threshold, a, nested).Ok?
    ensures AssembleQuorum(lib, threshold, b, nested) == AssembleQuorum(lib, threshold, a, nested)
  {
    hide *;
    var result := AssembleQuorum(lib, threshold, a, nested).value;
    var parsed, entries := BuiltParts(lib, threshold, a, nested);
    EntriesDecide(lib, threshold, a, nested, parsed, entries, result);
    PermutedParts(lib, threshold, a, b, nested, parsed, entries, result);
  }

  lemma PermutedParts(lib: Library, threshold: int, a: seq<string>, b: seq<string>, nested: bool,
                      parsed: seq<KeyExpression>, entries: seq<Entry>, result: Assembled)
    requires multiset(a) == multiset(b) && Built(lib, threshold, a, nested, parsed, entries, result) && KeyDecides(entries, Codes)
    ensures AssembleQuorum(lib, threshold, b, nested) == Ok(result)
  {
    hide ReadMember, WriteMember, MapOk, NoRepeats, OneShape, Payloads, KeyDecides, Sort, WithChecksum, QuorumBody, Texts, Codes;
    assert |a| == |multiset(a)| == |multiset(b)| == |b|;
    var read, write := raw => ReadMember(lib, raw), raw => WriteMember(lib, raw);
    MapOkBag(a, b, read);
    MapOkBag(a, b, write);
    PayloadsBag(lib, parsed, MapOk(b, read).value);
    NoRepeatsBag(Payloads(lib, parsed), Payloads(lib, MapOk(b, read).value));
    OneShapeBag(parsed, MapOk(b, read).value);
    SortIgnoresOrder(entries, MapOk(b, write).value, Codes);
  }

  /**
   * The order the keys were scanned in does not matter: every device accepts
   * the quorum or every device refuses it, and all write the same descriptor,
   * the same checksum and the same key list.
   */
  lemma OrderDoesNotMatter(lib: Library, threshold: int, a: seq<string>, b: seq<string>, nested: bool)
    requires Lawful(lib) && multiset(a) == multiset(b)
    ensures Agree(AssembleQuorum(lib, threshold, a, nested), AssembleQuorum(lib, threshold, b, nested))
  {
    hide *;
    if AssembleQuorum(lib, threshold, a, nested).Ok? {
      PermutedBuilds(lib, threshold, a, b, nested);
    } else if AssembleQuorum(lib, threshold, b, nested).Ok? {
      PermutedBuilds(lib, threshold, b, a, nested);
    }
    AgreeMeans(AssembleQuorum(lib, threshold, a, nested), AssembleQuorum(lib, threshold, b, nested));
  }

  lemma AgreeMeans<T, E>(a: Result<T, E>, b: Result<T, E>)
    requires a.Ok? || b.Ok? ==> a == b
    ensures Agree(a, b)
  {
  }

  // ----- two spellings of one list

  function SpelledTexts(members: seq<Spelled>): (r: seq<string>)
    ensures |r| == |members| && forall i :: 0 <= i < |r| ==> r[i] == members[i].Text()
  {
    seq(|members|, i requires 0 <= i < |members| => members[i].Text())
  }

  ghost predicate AllRespelled(lib: Library, a: seq<Spelled>, b: seq<Spelled>) {
    |a| == |b| && forall i :: 0 <= i < |a| ==> Respelled(lib, a[i], b[i])
  }

  ghost predicate AllMarkersAgree(a: seq<Spelled>, b: seq<Spelled>) {
    |a| == |b| && forall i :: 0 <= i < |a| ==> MarkersAgree(a[i].suffix, b[i].suffix)
  }

  lemma RespelledParsed(lib: Library, a: seq<Spelled>, b: seq<Spelled>, parsed: seq<KeyExpression>)
    returns (again: seq<KeyExpression>)
    requires Lawful(lib) && AllRespelled(lib, a, b) && MapOk(SpelledTexts(a), raw => ReadMember(lib, raw)) == Ok(parsed)
    ensures MapOk(SpelledTexts(b), raw => ReadMember(lib, raw)) == Ok(again) && |again| == |parsed| == |a|
    ensures forall i :: 0 <= i < |a| ==> ReadMember(lib, a[i].Text()) == Ok(parsed[i])
    ensures Payloads(lib, again) == Payloads(lib, parsed) && (OneShape(parsed) ==> OneShape(again))
  {
    hide ReadMember, MapOk, MemberPayload, SuffixShape, Respelled, Lawful;
    var read := raw => ReadMember(lib, raw);
    MapOkEach(SpelledTexts(a), read);
    forall i | 0 <= i < |a|
      ensures ReadMember(lib, a[i].Text()) == Ok(parsed[i]) && read(SpelledTexts(b)[i]).Ok?
      ensures MemberPayload(lib, read(SpelledTexts(b)[i]).value) == MemberPayload(lib, parsed[i])
      ensures SuffixShape(read(SpelledTexts(b)[i]).value) == SuffixShape(parsed[i])
    {
      assert read(SpelledTexts(a)[i]).Ok?;
      RespelledMember(lib, a[i], b[i]);
    }
    MapOkEach(SpelledTexts(b), read);
    again := MapOk(SpelledTexts(b), read).value;
    assert Payloads(lib, again) == Payloads(lib, parsed);
  }

  lemma RespelledEntries(lib: Library, a: seq<Spelled>, b: seq<Spelled>, entries: seq<Entry>)
    returns (again: seq<Entry>)
    requires Lawful(lib) && AllRespelled(lib, a, b) && MapOk(SpelledTexts(a), raw => WriteMember(lib, raw)) == Ok(entries)
    requires forall i :: 0 <= i < |a| ==> ReadMember(lib, a[i].Text()).Ok?
    ensures MapOk(SpelledTexts(b), raw => WriteMember(lib, raw)) == Ok(again) && |again| == |entries| == |a|
    ensures forall i :: 0 <= i < |a| ==> again[i].order == entries[i].order
    ensures forall i :: 0 <= i < |a| ==> (again[i] == entries[i] <==> MarkersAgree(a[i].suffix, b[i].suffix))
  {
    hide ReadMember, WriteMember, MapOk, Respelled, Lawful, MarkersAgree;
    var write := raw => WriteMember(lib, raw);
    MapOkEach(SpelledTexts(a), write);
    forall i | 0 <= i < |a|
      ensures WriteMember(lib, a[i].Text()) == Ok(entries[i]) && write(SpelledTexts(b)[i]).Ok?
      ensures write(SpelledTexts(b)[i]).value.order == entries[i].order
      ensures write(SpelledTexts(b)[i]).value == entries[i] <==> MarkersAgree(a[i].suffix, b[i].suffix)
    {
      assert write(SpelledTexts(a)[i]).Ok?;
      RespelledWrites(lib, a[i], b[i]);
    }
    MapOkEach(SpelledTexts(b), write);
    again := MapOk(SpelledTexts(b), write).value;
  }

  lemma RespelledBuilds(lib: Library, threshold: int, a: seq<Spelled>, b: seq<Spelled>, nested: bool)
    requires Lawful(lib) && AllRespelled(lib, a, b) && AllMarkersAgree(a, b)
    requires AssembleQuorum(lib, threshold, SpelledTexts(a), nested).Ok?
    ensures AssembleQuorum(lib, threshold, SpelledTexts(b), nested) == AssembleQuorum(lib, threshold, SpelledTexts(a), nested)
  {
    hide *;
    var result := AssembleQuorum(lib, threshold, SpelledTexts(a), nested).value;
    var parsed, entries := BuiltParts(lib, threshold, SpelledTexts(a), nested);
    BuiltSteps(lib, threshold, SpelledTexts(a), nested, parsed, entries, result);
    RespelledCount(lib, a, b);
    var readAgain := RespelledParsed(lib, a, b, parsed);
    MembersOk(lib, a, parsed);
    var again := RespelledEntries(lib, a, b, entries);
    SameEntries(a, b, entries, again);
    StepsBuild(lib, threshold, SpelledTexts(b), nested, readAgain, again, result);
  }

  lemma RespelledCount(lib: Library, a: seq<Spelled>, b: seq<Spelled>)
    requires AllRespelled(lib, a, b)
    ensures |a| == |b|
  {
  }

  lemma MembersOk(lib: Library, a: seq<Spelled>, parsed: seq<KeyExpression>)
    requires |parsed| == |a| && forall i :: 0 <= i < |a| ==> ReadMember(lib, a[i].Text()) == Ok(parsed[i])
    ensures forall i :: 0 <= i < |a| ==> ReadMember(lib, a[i].Text()).Ok?
  {
    hide ReadMember;
  }

  lemma SameEntries(a: seq<Spelled>, b: seq<Spelled>, entries: seq<Entry>, again: seq<Entry>)
    requires |a| == |entries| == |again| == |b| && AllMarkersAgree(a, b)
    requires forall i :: 0 <= i < |a| ==> (again[i] == entries[i] <==> MarkersAgree(a[i].suffix, b[i].suffix))
    ensures again == entries
  {
    hide MarkersAgree;
  }

  lemma BuiltSteps(lib: Library, threshold: int, keys: seq<string>, nested: bool, parsed: seq<KeyExpression>,
                   entries: seq<Entry>, result: Assembled)
    requires Built(lib, threshold, keys, nested, parsed, entries, result)
    ensures 2 <= |keys| <= MAX_MULTISIG_KEYS && 1 <= threshold <= |keys| && NoRepeats(Payloads(lib, parsed)) && OneShape(parsed)
    ensures MapOk(keys, raw => ReadMember(lib, raw)) == Ok(parsed) && MapOk(keys, raw => WriteMember(lib, raw)) == Ok(entries)
    ensures WriteQuorum(threshold, nested, entries) == Ok(result)
  {
  }

  lemma StepsBuild(lib: Library, threshold: int, keys: seq<string>, nested: bool, parsed: seq<KeyExpression>,
                   entries: seq<Entry>, result: Assembled)
    requires 2 <= |keys| <= MAX_MULTISIG_KEYS && 1 <= threshold <= |keys| && NoRepeats(Payloads(lib, parsed)) && OneShape(parsed)
    requires MapOk(keys, raw => ReadMember(lib, raw)) == Ok(parsed) && MapOk(keys, raw => WriteMember(lib, raw)) == Ok(entries)
    requires WriteQuorum(threshold, nested, entries) == Ok(result)
    ensures AssembleQuorum(lib, threshold, keys, nested) == Ok(result)
  {
    hide ReadMember, WriteMember, WriteQuorum, MapOk, NoRepeats, OneShape, Payloads;
  }

  lemma RespelledFlip(lib: Library, a: Spelled, b: Spelled)
    requires Respelled(lib, a, b)
    ensures Respelled(lib, b, a) && (MarkersAgree(a.suffix, b.suffix) ==> MarkersAgree(b.suffix, a.suffix))
  {
    hide AssertExtendedKey, LooksExtended, StandardVersion, Version, Payload, Bracketed, SameBracket, WellCut;
    if a != b {
      RespelledCut(lib, a, b);
      OriginFlip(a.origin, b.origin);
      CutSuffix(lib, b);
      assert forall i :: 0 <= i < |a.suffix| ==> SameTick(a.suffix[i], b.suffix[i]);
    }
  }

  lemma CutSuffix(lib: Library, s: Spelled)
    requires WellCut(lib, s)
    ensures SuffixPlaced(s.suffix)
  {
  }

  lemma OriginFlip(x: string, y: string)
    requires SameOrigin(x, y)
    ensures SameOrigin(y, x)
  {
    hide SameBracket;
    if x != "" {
      BracketFlip(x[1..|x| - 1], y[1..|y| - 1]);
    }
  }

  lemma BracketFlip(a: string, b: string)
    requires SameBracket(a, b)
    ensures SameBracket(b, a)
  {
    hide Lower;
  }

  lemma AllFlip(lib: Library, a: seq<Spelled>, b: seq<Spelled>)
    requires AllRespelled(lib, a, b)
    ensures AllRespelled(lib, b, a) && (AllMarkersAgree(a, b) ==> AllMarkersAgree(b, a))
  {
    hide Respelled, MarkersAgree;
    forall i | 0 <= i < |a|
      ensures Respelled(lib, b[i], a[i]) && (MarkersAgree(a[i].suffix, b[i].suffix) ==> MarkersAgree(b[i].suffix, a[i].suffix))
    {
      RespelledFlip(lib, a[i], b[i]);
    }
  }

  /** A member that is read, and whose text may be written. */
  ghost predicate Writable(lib: Library, raw: string) {
    ReadMember(lib, raw).Ok? && WriteMember(lib, raw).Ok? && Permitted(WriteMember(lib, raw).value.text)
  }

  /** Two members of one quorum: they cover the same branches. */
  ghost predicate Fit(lib: Library, x: string, y: string) {
    ReadMember(lib, x).Ok? && ReadMember(lib, y).Ok? && SameCover(ReadMember(lib, x).value, ReadMember(lib, y).value)
  }

  ghost predicate OneKey(lib: Library, x: string, y: string) {
    ReadMember(lib, x).Ok? && ReadMember(lib, y).Ok? &&
    MemberPayload(lib, ReadMember(lib, x).value) == MemberPayload(lib, ReadMember(lib, y).value)
  }

  ghost predicate Buildable(lib: Library, keys: seq<string>) {
    && (forall i :: 0 <= i < |keys| ==> Writable(lib, keys[i]))
    && (forall i, j :: 0 <= i < |keys| && 0 <= j < |keys| ==> Fit(lib, keys[i], keys[j]))
    && (forall i, j :: 0 <= i < j < |keys| ==> !OneKey(lib, keys[i], keys[j]))
  }

  lemma RespelledPair(lib: Library, a: Spelled, b: Spelled, c: Spelled, d: Spelled)
    requires Lawful(lib) && Respelled(lib, a, b) && Respelled(lib, c, d) && ReadMember(lib, a.Text()).Ok? && ReadMember(lib, c.Text()).Ok?
    ensures OneKey(lib, a.Text(), c.Text()) <==> OneKey(lib, b.Text(), d.Text())
    ensures Fit(lib, a.Text(), c.Text()) <==> Fit(lib, b.Text(), d.Text())
  {
    hide ReadMember, Respelled, Lawful, MemberPayload, SameCover, SuffixShape;
    RespelledMember(lib, a, b);
    RespelledMember(lib, c, d);
    MemberExtended(lib, a.Text());
    MemberExtended(lib, b.Text());
    MemberExtended(lib, c.Text());
    MemberExtended(lib, d.Text());
    ShapeIsCover(ReadMember(lib, a.Text()).value, ReadMember(lib, c.Text()).value);
    ShapeIsCover(ReadMember(lib, b.Text()).value, ReadMember(lib, d.Text()).value);
  }

  lemma MemberExtended(lib: Library, raw: string)
    requires ReadMember(lib, raw).Ok?
    ensures ReadMember(lib, raw).value.ExtendedKey?
  {
    hide ParseKeyExpression;
  }

  lemma RespelledWritable(lib: Library, a: Spelled, b: Spelled)
    requires Lawful(lib) && Respelled(lib, a, b) && Writable(lib, a.Text())
    ensures Writable(lib, b.Text())
  {
    hide ReadMember, WriteMember, Permitted, Respelled, MarkersAgree, Lawful;
    RespelledWrites(lib, a, b);
  }

  lemma WritableRead(lib: Library, raw: string)
    requires Writable(lib, raw)
    ensures ReadMember(lib, raw).Ok?
  {
    hide ReadMember, WriteMember, Permitted;
  }

  lemma RespelledBuildable(lib: Library, a: seq<Spelled>, b: seq<Spelled>)
    requires Lawful(lib) && AllRespelled(lib, a, b) && Buildable(lib, SpelledTexts(a))
    ensures Buildable(lib, SpelledTexts(b))
  {
    hide Writable, Fit, OneKey, ReadMember, Respelled, Lawful;
    var x, y := SpelledTexts(a), SpelledTexts(b);
    forall i | 0 <= i < |b|
      ensures Writable(lib, y[i]) && ReadMember(lib, x[i]).Ok?
    {
      assert Writable(lib, x[i]);
      RespelledWritable(lib, a[i], b[i]);
      WritableRead(lib, x[i]);
    }
    forall i, j | 0 <= i < |b| && 0 <= j < |b|
      ensures Fit(lib, y[i], y[j]) && (i < j ==> !OneKey(lib, y[i], y[j]))
    {
      assert ReadMember(lib, x[i]).Ok? && ReadMember(lib, x[j]).Ok?;
      assert Fit(lib, x[i], x[j]) && (i < j ==> !OneKey(lib, x[i], x[j]));
      RespelledPair(lib, a[i], b[i], a[j], b[j]);
    }
  }

  lemma BuildableMeans(lib: Library, keys: seq<string>)
    ensures Buildable(lib, keys) <==>
            && Acceptable(lib, keys)
            && forall i :: 0 <= i < |keys| ==> WriteMember(lib, keys[i]).Ok? && Permitted(WriteMember(lib, keys[i]).value.text)
  {
    hide ReadMember, WriteMember, Permitted, MemberPayload, SameCover;
    if Buildable(lib, keys) {
      assert forall i :: 0 <= i < |keys| ==> Writable(lib, keys[i]);
      forall i, j | 0 <= i < |keys| && 0 <= j < |keys|
        ensures SameCover(ReadMember(lib, keys[i]).value, ReadMember(lib, keys[j]).value)
      {
        assert Fit(lib, keys[i], keys[j]);
      }
      forall i, j | 0 <= i < j < |keys|
        ensures MemberPayload(lib, ReadMember(lib, keys[i]).value) != MemberPayload(lib, ReadMember(lib, keys[j]).value)
      {
        assert !OneKey(lib, keys[i], keys[j]);
      }
    }
  }

  lemma BuiltBuildable(lib: Library, threshold: int, keys: seq<string>, nested: bool)
    requires Lawful(lib)
    ensures AssembleQuorum(lib, threshold, keys, nested).Ok? <==>
            2 <= |keys| <= 16 && 1 <= threshold <= |keys| && Buildable(lib, keys)
  {
    hide AssembleQuorum, Acceptable, WriteMember, Permitted, Buildable;
    BuiltExactly(lib, threshold, keys, nested);
    BuildableMeans(lib, keys);
  }

  /** Whether a quorum is accepted does not depend on the spelling of its members at all. */
  lemma AcceptedAlike(lib: Library, threshold: int, a: seq<Spelled>, b: seq<Spelled>, nested: bool)
    requires Lawful(lib) && AllRespelled(lib, a, b)
    ensures AssembleQuorum(lib, threshold, SpelledTexts(a), nested).Ok? <==> AssembleQuorum(lib, threshold, SpelledTexts(b), nested).Ok?
  {
    hide *;
    RespelledCount(lib, a, b);
    AllFlip(lib, a, b);
    BuiltBuildable(lib, threshold, SpelledTexts(a), nested);
    BuiltBuildable(lib, threshold, SpelledTexts(b), nested);
    if Buildable(lib, SpelledTexts(a)) {
      RespelledBuildable(lib, a, b);
    } else if Buildable(lib, SpelledTexts(b)) {
      RespelledBuildable(lib, b, a);
    }
  }

  /**
   * Nor does the spelling of any member: every respelling by h or ', the case
   * of a fingerprint and the SLIP-132 prefix of a key is accepted or refused
   * alike, and leaves every byte of the result as it was where the spellings
   * agree on the markers that white space follows.
   */
  lemma SpellingDoesNotMatter(lib: Library, threshold: int, a: seq<Spelled>, b: seq<Spelled>, nested: bool)
    requires Lawful(lib) && AllRespelled(lib, a, b)
    ensures var (x, y) := (AssembleQuorum(lib, threshold, SpelledTexts(a), nested), AssembleQuorum(lib, threshold, SpelledTexts(b), nested));
            x.Ok? == y.Ok? && (AllMarkersAgree(a, b) ==> Agree(x, y))
  {
    hide *;
    AcceptedAlike(lib, threshold, a, b, nested);
    if AssembleQuorum(lib, threshold, SpelledTexts(a), nested).Ok? && AllMarkersAgree(a, b) {
      RespelledBuilds(lib, threshold, a, b, nested);
    }
    if AllMarkersAgree(a, b) {
      AgreeMeans(AssembleQuorum(lib, threshold, SpelledTexts(a), nested), AssembleQuorum(lib, threshold, SpelledTexts(b), nested));
    }
  }

  /** Every device: the same members, spelled its own way and scanned in its own order. */
  lemma EveryDeviceAgrees(lib: Library, threshold: int, a: seq<Spelled>, b: seq<Spelled>, scanned: seq<string>, nested: bool)
    requires Lawful(lib) && AllRespelled(lib, a, b) && AllMarkersAgree(a, b) && multiset(scanned) == multiset(SpelledTexts(b))
    ensures Agree(AssembleQuorum(lib, threshold, SpelledTexts(a), nested), AssembleQuorum(lib, threshold, scanned, nested))
  {
    hide Lawful, AllRespelled, AllMarkersAgree, AssembleQuorum, SpelledTexts;
    SpellingDoesNotMatter(lib, threshold, a, b, nested);
    OrderDoesNotMatter(lib, threshold, SpelledTexts(b), scanned, nested);
  }

  // ----- the condition is exact

  /** A descriptor decides the list of the keys written in it. */
  lemma CallInjective(f: Function, x: seq<string>, y: seq<string>)
    requires CallText(f, x) == CallText(f, y) && x != [] && y != [] && AllWhole(x) && AllWhole(y)
    ensures x == y
  {
    hide Whole, Join, SplitArguments, Name;
    var head := Name(f) + "(";
    assert CallText(f, x)[|head|..|CallText(f, x)| - 1] == Join(x, ',');
    assert CallText(f, y)[|head|..|CallText(f, y)| - 1] == Join(y, ',');
    WholeSplits(x);
    WholeSplits(y);
  }

  lemma BodyInjective(lib: Library, threshold: nat, nested: bool, x: seq<string>, y: seq<string>,
                      k: seq<KeyExpression>, m: seq<KeyExpression>)
    requires QuorumBody(threshold, nested, x) == QuorumBody(threshold, nested, y) && AllWhole(x) && AllWhole(y)
    requires ParseKeys(lib, x) == Ok(k) && ParseKeys(lib, y) == Ok(m) && 1 <= threshold <= |k| && threshold <= |m|
    ensures x == y
  {
    hide CallText, ParseKeys, Whole, OfNat, ParseScript, AllWhole;
    ListReads(lib, threshold, x, k);
    ListReads(lib, threshold, y, m);
    var p, q := [OfNat(threshold)] + x, [OfNat(threshold)] + y;
    var i, j := CallText(OfMulti(SortedMulti), p), CallText(OfMulti(SortedMulti), q);
    WrappedReads(lib, Wsh, Multisig(SortedMulti, threshold, k), i);
    WrappedReads(lib, Wsh, Multisig(SortedMulti, threshold, m), j);
    OneWholeText(i);
    OneWholeText(j);
    OneWholeText(CallText(OfScript(Wsh), [i]));
    OneWholeText(CallText(OfScript(Wsh), [j]));
    if nested {
      CallInjective(OfScript(Sh), [CallText(OfScript(Wsh), [i])], [CallText(OfScript(Wsh), [j])]);
    }
    assert CallText(OfScript(Wsh), [i]) == CallText(OfScript(Wsh), [j]);
    CallInjective(OfScript(Wsh), [i], [j]);
    assert i == [i][0] == [j][0] == j;
    PartsWhole(threshold, x);
    PartsWhole(threshold, y);
    CallInjective(OfMulti(SortedMulti), p, q);
    assert p[1..] == x && q[1..] == y;
  }

  lemma OneWholeText(text: string)
    requires Whole(text)
    ensures AllWhole([text])
  {
    hide Whole;
  }

  lemma PartsWhole(threshold: nat, texts: seq<string>)
    requires AllWhole(texts)
    ensures AllWhole([OfNat(threshold)] + texts)
  {
    hide Whole, OfNat;
    NumberWhole(threshold);
  }

  lemma SameBodies(a: string, b: string)
    requires '#' !in a && '#' !in b && WithChecksum(a).Ok? && WithChecksum(a) == WithChecksum(b)
    ensures a == b
  {
    BodySum(a);
    BodySum(b);
    hide WithChecksum, DescriptorChecksum;
    ChecksumText(a);
    ChecksumText(b);
    BodyBack(a, DescriptorChecksum(a).value);
    BodyBack(b, DescriptorChecksum(b).value);
  }

  lemma BodyBack(body: string, checksum: string)
    requires |checksum| == 8
    ensures var d := body + "#" + checksum;
            |d| >= 9 && d[..|d| - 9] == body
  {
  }

  lemma SortedSame(lib: Library, x: seq<Entry>, y: seq<Entry>, members: seq<KeyExpression>)
    requires Texts(Sort(x, Codes)) == Texts(Sort(y, Codes)) && |members| == |x| == |y|
    requires |Sort(x, Codes)| == |Sort(y, Codes)| == |members|
    requires forall i :: 0 <= i < |members| ==> ReadsBack(lib, Sort(x, Codes)[i], members[i])
    requires forall i :: 0 <= i < |members| ==> ReadsBack(lib, Sort(y, Codes)[i], members[i])
    ensures multiset(x) == multiset(y)
  {
    hide Sort, Codes, Whole, ParseKeyExpression, AssertExtendedKey;
    var p, q := Sort(x, Codes), Sort(y, Codes);
    forall i | 0 <= i < |members|
      ensures p[i] == q[i]
    {
      assert Texts(p)[i] == Texts(q)[i];
    }
    assert p == q;
    SortBag(x, Codes);
    SortBag(y, Codes);
  }

  /** Entries in one order, at one place in both lists, are one entry when the lists hold the same entries. */
  lemma SamePlace(x: seq<Entry>, y: seq<Entry>)
    requires |x| == |y| && multiset(x) == multiset(y)
    requires forall i :: 0 <= i < |x| ==> x[i].order == y[i].order
    requires forall i, j :: 0 <= i < j < |y| ==> y[i].order != y[j].order
    ensures x == y
  {
    forall i | 0 <= i < |x|
      ensures x[i] == y[i]
    {
      BagMember(x[i], x, y);
      var j :| 0 <= j < |y| && y[j] == x[i];
      assert y[j].order == y[i].order;
      assert !(i < j) && !(j < i);
    }
  }

  lemma WrittenSame(lib: Library, threshold: int, x: seq<string>, y: seq<string>, nested: bool,
                    p: seq<KeyExpression>, e: seq<Entry>, r: Assembled, q: seq<KeyExpression>, f: seq<Entry>, s: Assembled)
    requires Lawful(lib) && Built(lib, threshold, x, nested, p, e, r) && Built(lib, threshold, y, nested, q, f, s)
    requires r.descriptor == s.descriptor && |x| == |y|
    ensures multiset(e) == multiset(f)
  {
    hide *;
    BuiltResult(lib, threshold, x, nested, p, e, r);
    BuiltResult(lib, threshold, y, nested, q, f, s);
    var k := BuiltReads(lib, threshold, x, nested, p, e, r);
    var m := BuiltReads(lib, threshold, y, nested, q, f, s);
    SortedCount(e);
    SortedCount(f);
    BodyNoHash(threshold, nested, r.keys);
    BodyNoHash(threshold, nested, s.keys);
    SameBodies(QuorumBody(threshold, nested, r.keys), QuorumBody(threshold, nested, s.keys));
    BodyInjective(lib, threshold, nested, r.keys, s.keys, k, m);
    SortedSame(lib, e, f, k);
  }

  lemma SortedCount(entries: seq<Entry>)
    ensures |Sort(entries, Codes)| == |entries| == |Texts(Sort(entries, Codes))|
  {
    hide Sort;
    SortBag(entries, Codes);
  }

  /**
   * The condition is exact: two spellings of one list are accepted or refused
   * alike, and an accepted list is written as the same descriptor if and only
   * if they agree on every hardened marker that white space follows. The
   * rewriting does not look past a space.
   */
  lemma SameBytesExactly(lib: Library, threshold: int, a: seq<Spelled>, b: seq<Spelled>, nested: bool)
    requires Lawful(lib) && AllRespelled(lib, a, b)
    ensures var (x, y) := (AssembleQuorum(lib, threshold, SpelledTexts(a), nested), AssembleQuorum(lib, threshold, SpelledTexts(b), nested));
            && x.Ok? == y.Ok?
            && (x.Ok? ==> (x.value.descriptor == y.value.descriptor <==> AllMarkersAgree(a, b)))
  {
    hide *;
    AcceptedAlike(lib, threshold, a, b, nested);
    if AssembleQuorum(lib, threshold, SpelledTexts(a), nested).Ok? {
      if AllMarkersAgree(a, b) {
        RespelledBuilds(lib, threshold, a, b, nested);
      } else {
        WrittenApart(lib, threshold, a, b, nested);
      }
    }
  }

  lemma WrittenApart(lib: Library, threshold: int, a: seq<Spelled>, b: seq<Spelled>, nested: bool)
    requires Lawful(lib) && AllRespelled(lib, a, b) && !AllMarkersAgree(a, b)
    requires AssembleQuorum(lib, threshold, SpelledTexts(a), nested).Ok? && AssembleQuorum(lib, threshold, SpelledTexts(b), nested).Ok?
    ensures AssembleQuorum(lib, threshold, SpelledTexts(a), nested).value.descriptor !=
            AssembleQuorum(lib, threshold, SpelledTexts(b), nested).value.descriptor
  {
    hide *;
    RespelledCount(lib, a, b);
    var r, s := AssembleQuorum(lib, threshold, SpelledTexts(a), nested).value, AssembleQuorum(lib, threshold, SpelledTexts(b), nested).value;
    if r.descriptor == s.descriptor {
      var p, e := BuiltParts(lib, threshold, SpelledTexts(a), nested);
      var q, f := BuiltParts(lib, threshold, SpelledTexts(b), nested);
      BuiltSteps(lib, threshold, SpelledTexts(a), nested, p, e, r);
      BuiltSteps(lib, threshold, SpelledTexts(b), nested, q, f, s);
      var readAgain := RespelledParsed(lib, a, b, p);
      MembersOk(lib, a, p);
      var again := RespelledEntries(lib, a, b, e);
      WrittenSame(lib, threshold, SpelledTexts(a), SpelledTexts(b), nested, p, e, r, q, f, s);
      EntriesDecide(lib, threshold, SpelledTexts(b), nested, q, f, s);
      SamePlace(e, f);
      AllAgree(a, b, e, again);
    }
  }

  lemma AllAgree(a: seq<Spelled>, b: seq<Spelled>, entries: seq<Entry>, again: seq<Entry>)
    requires |a| == |b| == |entries| && again == entries
    requires forall i :: 0 <= i < |a| ==> (again[i] == entries[i] <==> MarkersAgree(a[i].suffix, b[i].suffix))
    ensures AllMarkersAgree(a, b)
  {
    hide MarkersAgree;
  }

  // ----- what is in the result

  function CanonicalTexts(lib: Library, keys: seq<string>): Result<seq<string>, CanonicalRefusal> {
    MapOk(keys, raw => CanonicalKeyExpression(lib, Trim(raw)))
  }

  lemma {:induction false} TextsBag(a: seq<Entry>, b: seq<Entry>)
    requires multiset(a) == multiset(b)
    ensures multiset(Texts(a)) == multiset(Texts(b))
  {
    hide MapOk;
    var f: Entry -> Result<string, Refusal> := (entry: Entry) => Ok(entry.text);
    MapOkEach(a, f);
    MapOkEach(b, f);
    MapOkBag(a, b, f);
    assert MapOk(a, f).value == Texts(a);
    assert MapOk(b, f).value == Texts(b);
  }

  lemma EntriesCanonical(lib: Library, keys: seq<string>, entries: seq<Entry>)
    requires MapOk(keys, raw => WriteMember(lib, raw)) == Ok(entries)
    ensures CanonicalTexts(lib, keys) == Ok(Texts(entries))
  {
    hide MapOk, CanonicalKeyExpression, ParseKeyExpression, Trim;
    var write, canonical := raw => WriteMember(lib, raw), raw => CanonicalKeyExpression(lib, Trim(raw));
    MapOkEach(keys, write);
    forall i | 0 <= i < |keys|
      ensures canonical(keys[i]) == Ok(entries[i].text)
    {
      assert write(keys[i]).Ok?;
      WrittenText(lib, keys[i]);
    }
    MapOkEach(keys, canonical);
    assert MapOk(keys, canonical).value == Texts(entries);
  }

  /** The order the members are written in: by key text under its standard prefix. */
  function CodesOf(text: string): seq<int> {
    Codes(Entry(text, ""))
  }

  /** One text before another, as strings compare: it is a head of the other, or has the smaller character where they first differ. */
  predicate BeforeAt(s: string, t: string, k: nat) {
    k <= |s| && k <= |t| && s[..k] == t[..k] && (|s| == k < |t| || (k < |s| && k < |t| && s[k] < t[k]))
  }

  ghost predicate Before(s: string, t: string) {
    exists k :: BeforeAt(s, t, k)
  }

  lemma CodesBefore(s: string, t: string)
    requires Compare(CodesOf(s), CodesOf(t)) < 0
    ensures Before(s, t)
  {
    hide Compare;
    var k := CompareBelow(CodesOf(s), CodesOf(t));
    forall i | 0 <= i < k
      ensures s[i] == t[i]
    {
      assert CodesOf(s)[..k][i] == CodesOf(t)[..k][i];
    }
    assert BeforeAt(s, t, k);
  }

  lemma StrictlyOrdered(lib: Library, entries: seq<Entry>, members: seq<KeyExpression>)
    requires forall i, j :: 0 <= i < j < |entries| ==> entries[i].order != entries[j].order
    requires |members| == |entries| == |Sort(entries, Codes)|
    requires forall i :: 0 <= i < |members| ==> ReadsBack(lib, Sort(entries, Codes)[i], members[i])
    ensures forall i, j :: 0 <= i < j < |members| && members[i].ExtendedKey? && members[j].ExtendedKey? ==>
                             Before(members[i].xpub, members[j].xpub)
  {
    hide Sort, Compare, Whole, ParseKeyExpression, AssertExtendedKey, Before;
    SortAscending(entries, Codes);
    SortBag(entries, Codes);
    var sorted := Sort(entries, Codes);
    forall i, j | 0 <= i < j < |members|
      ensures Before(sorted[i].order, sorted[j].order)
    {
      SortedDiffer(entries, sorted, i, j);
      SameCodes(sorted[i]);
      SameCodes(sorted[j]);
      CompareZeroCodes(sorted[i], sorted[j]);
      CodesBefore(sorted[i].order, sorted[j].order);
    }
  }

  lemma SameCodes(entry: Entry)
    ensures CodesOf(entry.order) == Codes(entry)
  {
  }

  lemma CompareZeroCodes(x: Entry, y: Entry)
    requires Compare(Codes(x), Codes(y)) <= 0 && x.order != y.order
    ensures Compare(Codes(x), Codes(y)) < 0
  {
    hide Compare, Codes;
    if Compare(Codes(x), Codes(y)) == 0 {
      CompareZero(Codes(x), Codes(y));
      CodesDecide(x, y);
    }
  }

  /** Two places of a rearrangement hold entries of two places of the list. */
  lemma SortedDiffer(entries: seq<Entry>, sorted: seq<Entry>, i: nat, j: nat)
    requires multiset(sorted) == multiset(entries) && i < j < |sorted|
    requires forall x, y :: 0 <= x < y < |entries| ==> entries[x].order != entries[y].order
    ensures sorted[i].order != sorted[j].order
  {
    if sorted[i].order == sorted[j].order {
      BagMember(sorted[i], sorted, entries);
      BagMember(sorted[j], sorted, entries);
      var x :| 0 <= x < |entries| && entries[x] == sorted[i];
      var y :| 0 <= y < |entries| && entries[y] == sorted[j];
      assert !(x < y) && !(y < x);
      TwiceInBag(sorted, i, j);
      OnceInBag(entries, x);
    }
  }

  /**
   * The keys of a built quorum are the canonical texts of the keys given, each
   * once, in strictly ascending order of the key itself.
   */
  lemma BuiltKeysOrdered(lib: Library, threshold: int, keys: seq<string>, nested: bool)
    requires Lawful(lib) && AssembleQuorum(lib, threshold, keys, nested).Ok?
    ensures var built := AssembleQuorum(lib, threshold, keys, nested).value;
            var members := ParseKeys(lib, built.keys);
            && CanonicalTexts(lib, keys).Ok? && multiset(built.keys) == multiset(CanonicalTexts(lib, keys).value)
            && members.Ok? && |members.value| == |keys|
            && (forall i :: 0 <= i < |members.value| ==> members.value[i].ExtendedKey?)
            && (forall i, j :: 0 <= i < j < |members.value| ==>
                  Before(members.value[i].xpub, members.value[j].xpub))
  {
    hide *;
    var parsed, entries := BuiltParts(lib, threshold, keys, nested);
    var built := AssembleQuorum(lib, threshold, keys, nested).value;
    BuiltSteps(lib, threshold, keys, nested, parsed, entries, built);
    EntriesDecide(lib, threshold, keys, nested, parsed, entries, built);
    var members := BuiltReads(lib, threshold, keys, nested, parsed, entries, built);
    AllExtended(lib, Sort(entries, Codes), members);
    SortedCount(entries);
    StrictlyOrdered(lib, entries, members);
    EntriesCanonical(lib, keys, entries);
    SortBag(entries, Codes);
    TextsBag(Sort(entries, Codes), entries);
  }

  /** The rewriting of a member the builder has read never refuses, so it is never why a quorum is refused. */
  lemma RewritingNeverRefuses(lib: Library, threshold: int, keys: seq<string>, nested: bool)
    requires Lawful(lib)
    ensures var built := AssembleQuorum(lib, threshold, keys, nested);
            built.Err? ==> !built.error.NotRewritten?
  {
    hide MapOk, WriteMember, ReadMember, NoRepeats, OneShape, Payloads, Lawful, WithChecksum, QuorumBody, Sort;
    var read, write := raw => ReadMember(lib, raw), raw => WriteMember(lib, raw);
    ReadErrors(lib, keys);
    if MapOk(keys, read).Err? {
      ReadErrorKinds(lib, keys, MapOk(keys, read).error);
    } else {
      MapOkEach(keys, read);
      forall i | 0 <= i < |keys|
        ensures write(keys[i]).Ok?
      {
        assert read(keys[i]).Ok?;
        MemberWritten(lib, keys[i]);
      }
      MapOkEach(keys, write);
    }
  }

  /** A member is not to be read, is a raw key, or has no origin. */
  ghost predicate MemberRefused(lib: Library, keys: seq<string>, why: AssembleRefusal) {
    exists i :: 0 <= i < |keys| && RefusedAs(lib, keys[i], why)
  }

  predicate RefusedAs(lib: Library, raw: string, why: AssembleRefusal) {
    match ParseKeyExpression(lib, Trim(raw))
    case Err(cause) => why == Unreadable(cause)
    case Ok(key) => (key.RawKey? && why == RawMember) || (key.ExtendedKey? && key.origin.None? && why == NoOrigin)
  }

  lemma {:induction false} ReadErrors(lib: Library, keys: seq<string>)
    ensures MapOk(keys, raw => ReadMember(lib, raw)).Err? ==>
              MemberRefused(lib, keys, MapOk(keys, raw => ReadMember(lib, raw)).error)
  {
    hide ReadMember, RefusedAs;
    if keys != [] {
      var rest := keys[1..];
      ReadErrors(lib, rest);
      ReadError(lib, keys[0]);
      assert forall i :: 0 <= i < |rest| ==> rest[i] == keys[i + 1];
    }
  }

  lemma ReadError(lib: Library, raw: string)
    ensures ReadMember(lib, raw).Err? ==> RefusedAs(lib, raw, ReadMember(lib, raw).error)
  {
    hide ParseKeyExpression, Trim;
  }

  lemma ReadErrorKinds(lib: Library, keys: seq<string>, why: AssembleRefusal)
    requires MemberRefused(lib, keys, why)
    ensures why.Unreadable? || why.RawMember? || why.NoOrigin?
  {
    hide ParseKeyExpression, Trim;
  }

  /** What each refusal of the builder means of the members it was given. */
  ghost predicate Because(lib: Library, threshold: int, keys: seq<string>, why: AssembleRefusal) {
    match why
    case TooFewMembers => |keys| < 2
    case TooManyMembers => |keys| > 16
    case ThresholdTooLow => 2 <= |keys| <= 16 && threshold < 1
    case ThresholdTooHigh => 2 <= |keys| <= 16 && threshold > |keys|
    case SameKeyTwice => exists i, j :: 0 <= i < j < |keys| && SameKeyAs(lib, keys[i], keys[j])
    case SuffixesDisagree => exists i, j :: 0 <= i < |keys| && 0 <= j < |keys| && OtherCover(lib, keys[i], keys[j])
    case UnwritableText =>
      exists i :: 0 <= i < |keys| && WriteMember(lib, keys[i]).Ok? && !Permitted(WriteMember(lib, keys[i]).value.text)
    case NotRewritten(_) => false
    case _ => MemberRefused(lib, keys, why)
  }

  /** Two members are one key, whatever their prefixes. */
  predicate SameKeyAs(lib: Library, a: string, b: string) {
    var (x, y) := (ReadMember(lib, a), ReadMember(lib, b));
    x.Ok? && y.Ok? && MemberPayload(lib, x.value) == MemberPayload(lib, y.value)
  }

  predicate OtherCover(lib: Library, a: string, b: string) {
    var (x, y) := (ReadMember(lib, a), ReadMember(lib, b));
    x.Ok? && y.Ok? && !SameCover(x.value, y.value)
  }

  lemma RepeatRefused(lib: Library, keys: seq<string>, parsed: seq<KeyExpression>)
    requires ReadsEach(lib, keys, parsed) && !NoRepeats(Payloads(lib, parsed))
    ensures exists i, j :: 0 <= i < j < |keys| && SameKeyAs(lib, keys[i], keys[j])
  {
    hide ReadMember, MemberPayload;
    var payloads := Payloads(lib, parsed);
    var i, j :| 0 <= i < j < |payloads| && payloads[i] == payloads[j];
    assert ReadMember(lib, keys[i]) == Ok(parsed[i]) && ReadMember(lib, keys[j]) == Ok(parsed[j]);
    assert SameKeyAs(lib, keys[i], keys[j]);
  }

  lemma CoverRefused(lib: Library, keys: seq<string>, parsed: seq<KeyExpression>)
    requires ReadsEach(lib, keys, parsed) && !OneShape(parsed)
    ensures exists i, j :: 0 <= i < |keys| && 0 <= j < |keys| && OtherCover(lib, keys[i], keys[j])
  {
    hide ReadMember, SameCover, OneShape;
    ReadsExtended(lib, keys, parsed);
    OneCover(parsed);
    var i, j :| 0 <= i < |parsed| && 0 <= j < |parsed| && !SameCover(parsed[i], parsed[j]);
    assert ReadMember(lib, keys[i]) == Ok(parsed[i]) && ReadMember(lib, keys[j]) == Ok(parsed[j]);
    assert OtherCover(lib, keys[i], keys[j]);
  }

  /** Why a quorum is not built: every refusal is one of the members, the threshold or the list that deserves it. */
  lemma RefusedBecause(lib: Library, threshold: int, keys: seq<string>, nested: bool)
    requires Lawful(lib) && AssembleQuorum(lib, threshold, keys, nested).Err?
    ensures Because(lib, threshold, keys, AssembleQuorum(lib, threshold, keys, nested).error)
  {
    hide MapOk, ReadMember, WriteMember, NoRepeats, OneShape, Payloads, Lawful, Permitted, WriteQuorum, MemberRefused, SameKeyAs, OtherCover;
    if 2 <= |keys| <= 16 && 1 <= threshold <= |keys| {
      var read := raw => ReadMember(lib, raw);
      ReadErrors(lib, keys);
      MapOkEach(keys, read);
      if MapOk(keys, read).Err? {
        ReadErrorKinds(lib, keys, MapOk(keys, read).error);
      } else {
        var parsed := MapOk(keys, read).value;
        EachRead(lib, keys);
        if !NoRepeats(Payloads(lib, parsed)) {
          RepeatRefused(lib, keys, parsed);
        } else if !OneShape(parsed) {
          CoverRefused(lib, keys, parsed);
        } else {
          ReadsAcceptable(lib, keys, parsed);
          Unwritable(lib, threshold, keys, nested);
        }
      }
    }
  }

  lemma EachRead(lib: Library, keys: seq<string>)
    requires MapOk(keys, raw => ReadMember(lib, raw)).Ok?
    ensures ReadsEach(lib, keys, MapOk(keys, raw => ReadMember(lib, raw)).value)
  {
    hide ReadMember, MapOk;
    var read := raw => ReadMember(lib, raw);
    MapOkEach(keys, read);
    forall i | 0 <= i < |keys|
      ensures ReadMember(lib, keys[i]) == Ok(MapOk(keys, read).value[i])
    {
      assert read(keys[i]).Ok?;
    }
  }

  lemma Unwritable(lib: Library, threshold: int, keys: seq<string>, nested: bool)
    requires Lawful(lib) && AssembleQuorum(lib, threshold, keys, nested).Err?
    requires 2 <= |keys| <= 16 && 1 <= threshold <= |keys| && Acceptable(lib, keys)
    ensures AssembleQuorum(lib, threshold, keys, nested) == Err(UnwritableText)
    ensures exists i :: 0 <= i < |keys| && WriteMember(lib, keys[i]).Ok? && !Permitted(WriteMember(lib, keys[i]).value.text)
  {
    hide ReadMember, WriteMember, MapOk, NoRepeats, OneShape, Payloads, Lawful, Permitted, Acceptable, WithChecksum, QuorumBody;
    BuiltExactly(lib, threshold, keys, nested);
    AcceptableReads(lib, keys);
    ReadAll(lib, keys);
    var entries := WriteAll(lib, keys);
  }
}
