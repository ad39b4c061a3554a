/** Whole descriptors: packages/core/src/descriptor/parse.ts, lines 655 to 756. */
module Descriptors {
  import opened Text
  import opened Checksum
  import opened Charset
  import opened Burst
  import opened Keys
  import opened Canonical
  import opened Arguments
  import opened Script
  import opened KeyPrinting
  import opened RoundTrip
  import opened Placement

  datatype Descriptor = Descriptor(
    script: ScriptNode, body: string, checksum: Option<string>, checksumValid: bool, ranged: bool)

  /** BIP-389: every multipath element of a descriptor offers the same number of values. */
  predicate OneTupleLength(keys: seq<KeyExpression>) {
    forall i, j :: 0 <= i < |keys| && 0 <= j < |keys| && Offers(keys[i]) && Offers(keys[j]) ==>
                     |keys[i].multipath.value| == |keys[j].multipath.value|
  }

  predicate Offers(key: KeyExpression) {
    key.ExtendedKey? && key.multipath.Some?
  }

  predicate AllOffer(keys: seq<KeyExpression>, n: nat) {
    forall i :: 0 <= i < |keys| && keys[i].ExtendedKey? && keys[i].multipath.Some? ==> |keys[i].multipath.value| == n
  }

  /** It is one number that serves every key with alternatives. */
  lemma OneLengthMeans(keys: seq<KeyExpression>)
    ensures OneTupleLength(keys) <==> exists n: nat :: AllOffer(keys, n)
  {
    if OneTupleLength(keys) {
      if at :| 0 <= at < |keys| && Offers(keys[at]) {
        assert AllOffer(keys, |keys[at].multipath.value|);
      } else {
        assert forall i :: 0 <= i < |keys| ==> !Offers(keys[i]);
        assert AllOffer(keys, 0);
      }
    }
  }

  function ParseDescriptor(lib: Library, input: string, allowBadChecksum: bool): Result<Descriptor, Refusal> {
    var trimmed := Trim(input);
    if trimmed == "" then Err(EmptyDescriptor)
    else match VerifyChecksum(trimmed)
         case Err(_) => Err(UnpermittedCharacter)
         case Ok(verdict) =>
           if !verdict.valid && !allowBadChecksum then Err(BadChecksum)
           else ParseBody(lib, verdict)
  }

  function ParseBody(lib: Library, verdict: Verdict): Result<Descriptor, Refusal> {
    var script :- ParseScript(lib, verdict.body);
    if !OneTupleLength(DescriptorKeys(script)) then Err(UnequalTuples)
    else
      var _ :- CheckPlacement(lib, script, AtTop, Under(false, false));
      Ok(Descriptor(script, verdict.body, verdict.provided, verdict.valid, IsRanged(script)))
  }

  /** What the parser guarantees of every descriptor it returns. */
  ghost predicate Accepted(lib: Library, script: ScriptNode) {
    && NodeOk(lib, script, true)
    && OneTupleLength(DescriptorKeys(script))
    && CheckPlacement(lib, script, AtTop, Under(false, false)).Ok?
  }

  /** An address stands at the top only, where the check decodes it. */
  lemma {:induction false} PlacedNodeStrict(lib: Library, node: ScriptNode, at: Place, under: Under)
    requires Lawful(lib) && NodeOk(lib, node, false) && CheckPlacement(lib, node, at, under).Ok?
    ensures NodeOk(lib, node, true)
    decreases node
  {
    hide KeyOk, KeysOk, AllHex, AllAlphanumeric, CheckKeys, CheckMulti;
    match node
    case Wrapped(Sh, inner) => PlacedNodeStrict(lib, inner, InSh, under);
    case Wrapped(Wsh, inner) => PlacedNodeStrict(lib, inner, InWsh, under.(wsh := true));
    case Tr(_, Some(tree)) => PlacedTreeStrict(lib, tree, under.(tr := true));
    case Addr(address) => assert lib.isAddress(address);
    case _ =>
  }

  lemma {:induction false} PlacedTreeStrict(lib: Library, tree: TapTree, inside: Under)
    requires Lawful(lib) && TreeOk(lib, tree, false) && CheckTree(lib, tree, inside).Ok?
    ensures TreeOk(lib, tree, true)
    decreases tree
  {
    hide NodeOk, CheckPlacement, Lawful;
    match tree
    case Leaf(script) => PlacedNodeStrict(lib, script, InTr, inside);
    case Branch(left, right) =>
      PlacedTreeStrict(lib, left, inside);
      PlacedTreeStrict(lib, right, inside);
  }

  lemma AcceptedDescriptor(lib: Library, input: string, allowBadChecksum: bool)
    requires Lawful(lib) && ParseDescriptor(lib, input, allowBadChecksum).Ok?
    ensures Accepted(lib, ParseDescriptor(lib, input, allowBadChecksum).value.script)
  {
    hide NodeOk, OneTupleLength, CheckPlacement, ParseScript, VerifyChecksum, Lawful, Trim, IsRanged;
    var verdict := VerifyChecksum(Trim(input)).value;
    ParsedNodeOk(lib, verdict.body);
    PlacedNodeStrict(lib, ParseScript(lib, verdict.body).value, AtTop, Under(false, false));
  }

  /** The text before the last hash, and what follows it. */
  predicate HasBody(text: string, body: string, provided: Option<string>) {
    match provided
    case None => text == body && '#' !in text
    case Some(checksum) => text == body + "#" + checksum && '#' !in checksum
  }

  lemma VerdictParts(text: string)
    requires VerifyChecksum(text).Ok?
    ensures HasBody(text, VerifyChecksum(text).value.body, VerifyChecksum(text).value.provided)
  {
    hide DescriptorChecksum, WellFormed, LastIndexOf;
    var hash := LastIndexOf(text, '#');
    if hash != -1 {
      assert text == text[..hash] + "#" + text[hash + 1..];
    }
  }

  /** What a body must be for a descriptor to hold it, checksum aside. */
  ghost predicate Placed(lib: Library, body: string, script: ScriptNode) {
    && ParseScript(lib, body) == Ok(script) && OneTupleLength(DescriptorKeys(script))
    && CheckPlacement(lib, script, AtTop, Under(false, false)).Ok?
  }

  /**
   * Exactly what the parser accepts. Without leave for a bad checksum: a text
   * that is what withChecksum writes for it, with a script that is well placed.
   * With it: any text of permitted characters with such a script, and the
   * descriptor says whether the checksum was right.
   */
  lemma AcceptedExactly(lib: Library, input: string, allowBadChecksum: bool)
    ensures var (text, read) := (Trim(input), ParseDescriptor(lib, input, allowBadChecksum));
            && (read.Ok? ==>
                  && Placed(lib, read.value.body, read.value.script)
                  && HasBody(text, read.value.body, read.value.checksum)
                  && read.value.checksumValid == (WithChecksum(text) == Ok(text))
                  && (allowBadChecksum || WithChecksum(text) == Ok(text)))
            && (read.Ok? <==> text != "" && WithChecksum(text).Ok? && (allowBadChecksum || WithChecksum(text) == Ok(text)) &&
                              exists script :: Placed(lib, StripChecksum(text), script))
  {
    hide ParseScript, OneTupleLength, CheckPlacement, VerifyChecksum, WithChecksum, StripChecksum, Trim, HasBody;
    var text := Trim(input);
    ValidMeansOurs(text);
    if VerifyChecksum(text).Ok? {
      VerdictParts(text);
      if script :| Placed(lib, StripChecksum(text), script) {
        assert ParseScript(lib, StripChecksum(text)) == Ok(script);
      }
      if ParseBody(lib, VerifyChecksum(text).value).Ok? {
        assert Placed(lib, StripChecksum(text), ParseScript(lib, StripChecksum(text)).value);
      }
    }
  }

  /** A body transcribed with up to four characters in a row wrong, under the checksum of the right one, is refused by the parser. */
  lemma MistypedRefused(lib: Library, a: string, b: string, start: nat)
    requires |a| == |b| && a != b && a != "" && !IsSpace(b[0])
    requires forall i :: 0 <= i < |a| && !(start <= i < start + 4) ==> a[i] == b[i]
    requires DescriptorChecksum(a).Ok?
    ensures ParseDescriptor(lib, b + "#" + DescriptorChecksum(a).value, false).Err?
  {
    hide ParseDescriptor, DescriptorChecksum, WithChecksum, VerifyChecksum, Trim, WellFormed, IsSpace;
    var checksum := DescriptorChecksum(a).value;
    var text := b + "#" + checksum;
    TranscriptionErrorRefused(a, b, start);
    ChecksumText(a);
    ChecksumLast(b, checksum);
    assert Trim(text) == text;
    ValidMeansOurs(text);
    AcceptedExactly(lib, text, false);
  }

  // ----- settling keeps every check

  lemma SettledKeeps(key: KeyExpression)
    ensures Settled(key).RawKey? == key.RawKey? && (key.RawKey? ==> Settled(key) == key)
    ensures Offers(Settled(key)) == Offers(key) && (Offers(key) ==> Settled(key).multipath == key.multipath)
    ensures KeyRanged(Settled(key)) == KeyRanged(key)
  {
    hide PathSteps, SettledPath;
  }

  lemma {:induction false} SettledKeysKeep(keys: seq<KeyExpression>)
    ensures forall i :: 0 <= i < |keys| ==> SettledKeys(keys)[i] == Settled(keys[i])
    ensures PushedBytes(SettledKeys(keys)) == PushedBytes(keys)
  {
    hide Settled;
    if keys != [] {
      SettledKeysKeep(keys[1..]);
      SettledKeeps(keys[0]);
      assert SettledKeys(keys)[1..] == SettledKeys(keys[1..]);
    }
  }

  lemma {:induction false} SettledCheckKeys(keys: seq<KeyExpression>, wpkh: bool, under: Under)
    ensures CheckKeys(SettledKeys(keys), wpkh, under) == CheckKeys(keys, wpkh, under)
  {
    hide Settled;
    if keys != [] {
      SettledKeeps(keys[0]);
      SettledCheckKeys(keys[1..], wpkh, under);
      assert SettledKeys(keys)[1..] == SettledKeys(keys[1..]);
    }
  }

  lemma SettledOne(key: KeyExpression)
    ensures SettledKeys([key]) == [Settled(key)]
  {
    assert [key][1..] == [];
  }

  lemma {:induction false} SettledPlacement(lib: Library, node: ScriptNode, at: Place, under: Under)
    ensures CheckPlacement(lib, SettledNode(node), at, under) == CheckPlacement(lib, node, at, under)
    decreases node
  {
    hide Settled, SettledKeys, CheckKeys, PushedBytes;
    match node
    case KeyCall(fn, key) =>
      SettledOne(key);
      SettledCheckKeys([key], fn == Wpkh, under);
    case Wrapped(Sh, inner) => SettledPlacement(lib, inner, InSh, under);
    case Wrapped(Wsh, inner) => SettledPlacement(lib, inner, InWsh, under.(wsh := true));
    case Tr(internal, tree) =>
      SettledOne(internal);
      SettledCheckKeys([internal], false, under.(tr := true));
      if tree.Some? {
        SettledTreePlacement(lib, tree.value, under.(tr := true));
      }
    case Multisig(multi, _, keys) =>
      SettledKeysKeep(keys);
      SettledCheckKeys(keys, false, under);
    case _ =>
  }

  lemma {:induction false} SettledTreePlacement(lib: Library, tree: TapTree, inside: Under)
    ensures CheckTree(lib, SettledTree(tree), inside) == CheckTree(lib, tree, inside)
    decreases tree
  {
    hide CheckPlacement, SettledNode;
    match tree
    case Leaf(script) => SettledPlacement(lib, script, InTr, inside);
    case Branch(left, right) =>
      SettledTreePlacement(lib, left, inside);
      SettledTreePlacement(lib, right, inside);
  }

  lemma {:induction false} SettledDescriptorKeys(node: ScriptNode)
    ensures DescriptorKeys(SettledNode(node)) == SettledKeys(DescriptorKeys(node))
    decreases node
  {
    hide Settled;
    match node
    case KeyCall(_, key) => SettledOne(key);
    case Wrapped(_, inner) => SettledDescriptorKeys(inner);
    case Tr(internal, None) => SettledOne(internal);
    case Tr(internal, Some(tree)) =>
      SettledTreeKeys(tree);
      assert ([internal] + TreeKeys(tree))[1..] == TreeKeys(tree);
    case _ =>
  }

  lemma {:induction false} SettledTreeKeys(tree: TapTree)
    ensures TreeKeys(SettledTree(tree)) == SettledKeys(TreeKeys(tree))
    decreases tree
  {
    hide Settled, SettledKeys, SettledNode, DescriptorKeys;
    match tree
    case Leaf(script) => SettledDescriptorKeys(script);
    case Branch(left, right) =>
      SettledTreeKeys(left);
      SettledTreeKeys(right);
      SettledConcat(TreeKeys(left), TreeKeys(right));
  }

  lemma {:induction false} SettledConcat(a: seq<KeyExpression>, b: seq<KeyExpression>)
    ensures SettledKeys(a + b) == SettledKeys(a) + SettledKeys(b)
  {
    hide Settled;
    if a == [] {
      assert a + b == b;
      assert [] + SettledKeys(b) == SettledKeys(b);
    } else {
      SettledConcat(a[1..], b);
      assert (a + b)[1..] == a[1..] + b;
      Regroup([Settled(a[0])], SettledKeys(a[1..]), SettledKeys(b));
    }
  }

  lemma SettledTuples(keys: seq<KeyExpression>)
    ensures OneTupleLength(SettledKeys(keys)) == OneTupleLength(keys)
  {
    hide Settled, Offers;
    SettledKeysKeep(keys);
    forall i | 0 <= i < |keys|
      ensures Offers(SettledKeys(keys)[i]) == Offers(keys[i])
      ensures Offers(keys[i]) ==> keys[i].ExtendedKey? && SettledKeys(keys)[i].ExtendedKey? &&
                                  SettledKeys(keys)[i].multipath == keys[i].multipath
    {
      SettledKeeps(keys[i]);
      OffersMeans(keys[i]);
      OffersMeans(Settled(keys[i]));
    }
  }

  lemma OffersMeans(key: KeyExpression)
    ensures Offers(key) ==> key.ExtendedKey?
  {
  }

  // ----- printed descriptors hold only permitted characters

  predicate DescriptorChar(c: char) {
    RestChar(c) || PlainPunctuation(c)
  }

  predicate PlainPunctuation(c: char) {
    c == '(' || c == ')' || c == '[' || c == ']' || c == '{' || c == '}' || c == ',' || c == '_'
  }

  ghost predicate Printable(s: string) {
    forall i :: 0 <= i < |s| ==> DescriptorChar(s[i])
  }

  lemma PrintableConcat(a: string, b: string)
    requires Printable(a) && Printable(b)
    ensures Printable(a + b)
  {
  }

  lemma PrintableChars(s: string)
    requires forall c :: c in s ==> RestChar(c) || NameChar(c)
    ensures Printable(s)
  {
    forall i | 0 <= i < |s|
      ensures DescriptorChar(s[i])
    {
      assert s[i] in s;
    }
  }

  lemma PunctuationPrintable(c: char)
    requires PlainPunctuation(c)
    ensures Printable([c])
  {
  }

  lemma {:induction false} JoinPrintable(parts: seq<string>)
    requires forall i :: 0 <= i < |parts| ==> Printable(parts[i])
    ensures Printable(Join(parts, ','))
  {
    hide Printable;
    if |parts| == 0 {
      PrintableChars("");
    } else if |parts| > 1 {
      JoinPrintable(parts[1..]);
      PunctuationPrintable(',');
      PrintableConcat(parts[0], [',']);
      PrintableConcat(parts[0] + [','], Join(parts[1..], ','));
    }
  }

  lemma CallPrintable(f: Function, parts: seq<string>)
    requires forall i :: 0 <= i < |parts| ==> Printable(parts[i])
    ensures Printable(CallText(f, parts))
  {
    hide Printable, Name, Join;
    NameShape(f);
    PrintableChars(Name(f));
    PunctuationPrintable('(');
    PunctuationPrintable(')');
    JoinPrintable(parts);
    PrintableConcat(Name(f), "(");
    PrintableConcat(Name(f) + "(", Join(parts, ','));
    PrintableConcat(Name(f) + "(" + Join(parts, ','), ")");
  }

  lemma KeyPrintable(lib: Library, key: KeyExpression)
    requires KeyOk(lib, key)
    ensures Printable(PrintKey(key))
  {
    hide Printable, RestText, KeyOk, OriginText, PrintKey;
    RestReads(lib, key);
    PrintableChars(RestText(key));
    OriginPrintable(lib, key);
    PrintableConcat(OriginText(key.origin), RestText(key));
    PrintedRest(key);
  }

  lemma OriginPrintable(lib: Library, key: KeyExpression)
    requires KeyOk(lib, key)
    ensures Printable(OriginText(key.origin))
  {
    hide Printable, BracketOk, Drop, AssertExtendedKey, LooksExtended, StepsOk, AllHex;
    if key.origin.Some? {
      var o := key.origin.value;
      BracketRoundTrip(o);
      FingerprintHex(o);
      HexPrintable(o.fingerprint);
      PrintableChars(Drop(o.path, 1));
      PrintableConcat(o.fingerprint, Drop(o.path, 1));
      PunctuationPrintable('[');
      PunctuationPrintable(']');
      PrintableConcat("[", BracketText(o));
      PrintableConcat("[" + BracketText(o), "]");
    } else {
      PrintableChars("");
    }
  }

  lemma HexPrintable(s: string)
    requires AllHex(s)
    ensures Printable(s)
  {
    forall i | 0 <= i < |s|
      ensures DescriptorChar(s[i])
    {
      assert IsHexDigit(s[i]);
    }
  }

  lemma {:induction false} KeysPrintable(lib: Library, keys: seq<KeyExpression>)
    requires KeysOk(lib, keys)
    ensures forall i :: 0 <= i < |keys| ==> Printable(PrintKeys(keys)[i])
  {
    hide Printable, KeyOk, PrintKey;
    if keys != [] {
      KeyPrintable(lib, keys[0]);
      KeysPrintable(lib, keys[1..]);
      assert PrintKeys(keys)[1..] == PrintKeys(keys[1..]);
    }
  }

  lemma NumberPrintable(n: nat)
    ensures Printable(OfNat(n))
  {
    hide OfNat;
    forall i | 0 <= i < |OfNat(n)|
      ensures DescriptorChar(OfNat(n)[i])
    {
      assert IsDigit(OfNat(n)[i]);
    }
  }

  lemma AlphanumericPrintable(s: string)
    requires AllAlphanumeric(s)
    ensures Printable(s)
  {
    forall i | 0 <= i < |s|
      ensures DescriptorChar(s[i])
    {
      assert IsAlphanumeric(s[i]);
    }
  }

  lemma {:induction false} NodePrintable(lib: Library, node: ScriptNode)
    requires NodeOk(lib, node, true)
    ensures Printable(PrintNode(node))
    decreases node
  {
    hide Printable, KeyOk, KeysOk, CallText, PrintKey, PrintKeys, AllHex, AllAlphanumeric, Lower, OfNat;
    match node
    case KeyCall(fn, key) =>
      KeyPrintable(lib, key);
      CallPrintable(OfKey(fn), [PrintKey(key)]);
    case Wrapped(wrapper, inner) =>
      NodePrintable(lib, inner);
      CallPrintable(OfScript(wrapper), [PrintNode(inner)]);
    case Tr(internal, None) =>
      KeyPrintable(lib, internal);
      CallPrintable(OfTr, [PrintKey(internal)]);
    case Tr(internal, Some(tree)) =>
      KeyPrintable(lib, internal);
      TreePrintable(lib, tree);
      CallPrintable(OfTr, [PrintKey(internal), PrintTree(tree)]);
    case Multisig(multi, threshold, keys) =>
      KeysPrintable(lib, keys);
      NumberPrintable(threshold);
      CallPrintable(OfMulti(multi), [OfNat(threshold)] + PrintKeys(keys));
    case Addr(address) =>
      AlphanumericPrintable(address);
      CallPrintable(OfAddr, [address]);
    case RawScript(hex) =>
      HexPrintable(hex);
      CallPrintable(OfRaw, [hex]);
  }

  lemma {:induction false} TreePrintable(lib: Library, tree: TapTree)
    requires TreeOk(lib, tree, true)
    ensures Printable(PrintTree(tree))
    decreases tree
  {
    hide Printable, NodeOk, PrintNode;
    match tree
    case Leaf(script) => NodePrintable(lib, script);
    case Branch(left, right) =>
      TreePrintable(lib, left);
      TreePrintable(lib, right);
      var parts := [PrintTree(left), PrintTree(right)];
      JoinPrintable(parts);
      PunctuationPrintable('{');
      PunctuationPrintable('}');
      PrintableConcat("{", Join(parts, ','));
      PrintableConcat("{" + Join(parts, ','), "}");
  }

  lemma CharPermitted(c: char)
    requires DescriptorChar(c)
    ensures Position(c) != -1 && c != '#'
  {
    hide Position;
    PositionIs(c);
  }

  lemma {:induction false} TextPermitted(s: string)
    requires Printable(s)
    ensures Positions(s).Ok? && '#' !in s
  {
    hide Position, DescriptorChar;
    if s != "" {
      CharPermitted(s[0]);
      TextPermitted(s[1..]);
      assert s == [s[0]] + s[1..];
    }
  }

  // ----- whole descriptors printed and read back

  lemma ChecksumLast(body: string, checksum: string)
    requires body != "" && !IsSpace(body[0]) && WellFormed(checksum)
    ensures Trimmed(body + "#" + checksum) && body + "#" + checksum != ""
  {
    hide IsSpace;
    var whole := body + "#" + checksum;
    assert whole[0] == body[0];
    assert whole[|whole| - 1] == checksum[7];
    CharsetNotSpace(checksum[7]);
  }

  lemma CharsetNotSpace(c: char)
    requires c in CHECKSUM_CHARSET
    ensures !IsSpace(c)
  {
    var i :| 0 <= i < 32 && CHECKSUM_CHARSET[i] == c;
    CharsetAt(i);
  }

  lemma CharsetAt(i: nat)
    requires i < 32
    ensures '0' <= CHECKSUM_CHARSET[i] <= 'z'
  {
  }

  lemma BodyVerifies(body: string)
    requires '#' !in body && DescriptorChecksum(body).Ok?
    ensures WithChecksum(body) == Ok(body + "#" + DescriptorChecksum(body).value)
    ensures VerifyChecksum(body + "#" + DescriptorChecksum(body).value) ==
            Ok(Verdict(true, body, Some(DescriptorChecksum(body).value), DescriptorChecksum(body).value))
  {
    hide DescriptorChecksum, LastIndexOf, WellFormed;
    var checksum := DescriptorChecksum(body).value;
    ChecksumText(body);
    assert LastIndexOf(body, '#') == -1;
    StripAppended(body, checksum);
    AppendedParts(body, checksum);
  }

  /** A body that parses and is well placed makes an accepted descriptor under its checksum. */
  lemma DescriptorReads(lib: Library, body: string, script: ScriptNode)
    requires body != "" && !IsSpace(body[0]) && '#' !in body && DescriptorChecksum(body).Ok?
    requires ParseScript(lib, body) == Ok(script) && OneTupleLength(DescriptorKeys(script))
    requires CheckPlacement(lib, script, AtTop, Under(false, false)).Ok?
    ensures WithChecksum(body).Ok?
    ensures ParseDescriptor(lib, WithChecksum(body).value, false) ==
            Ok(Descriptor(script, body, Some(DescriptorChecksum(body).value), true, IsRanged(script)))
  {
    hide DescriptorChecksum, WithChecksum, VerifyChecksum, ParseScript, OneTupleLength, CheckPlacement, IsRanged, Trimmed, Trim,
         WellFormed, IsSpace;
    ChecksumText(body);
    BodyVerifies(body);
    ChecksumLast(body, DescriptorChecksum(body).value);
  }

  /**
   * Every accepted descriptor, printed and given its checksum, is accepted
   * again, as the same tree with every key settled.
   */
  lemma DescriptorRoundTrip(lib: Library, script: ScriptNode)
    requires Accepted(lib, script)
    ensures var written := WithChecksum(PrintNode(script));
            written.Ok? && ParseDescriptor(lib, written.value, false).Ok? &&
            ParseDescriptor(lib, written.value, false).value.script == SettledNode(script) &&
            ParseDescriptor(lib, written.value, false).value.checksumValid
  {
    hide DescriptorChecksum, WithChecksum, ParseDescriptor, NodeOk, OneTupleLength, CheckPlacement, Printable, PrintNode,
         SettledNode, Whole, IsRanged, Positions, ParseScript, IsSpace;
    var body := PrintNode(script);
    NodeReads(lib, script);
    NodePrintable(lib, script);
    TextPermitted(body);
    SettledPlacement(lib, script, AtTop, Under(false, false));
    SettledDescriptorKeys(script);
    SettledTuples(DescriptorKeys(script));
    PermittedChecksum(body);
    DescriptorReads(lib, body, SettledNode(script));
  }

  lemma PermittedChecksum(body: string)
    requires Positions(body).Ok?
    ensures DescriptorChecksum(body).Ok?
  {
  }

  ghost predicate AllZeroStored(keys: seq<KeyExpression>) {
    forall i :: 0 <= i < |keys| ==> ZeroStored(keys[i])
  }

  lemma SettledSame(lib: Library, key: KeyExpression)
    requires KeyOk(lib, key)
    ensures Settled(key) == key <==> ZeroStored(key)
  {
    hide ParseKeyExpression, PrintKey, KeyOk, Settled, ZeroStored;
    KeyReads(lib, key);
    KeyRoundTrip(lib, key);
  }

  lemma {:induction false} SettledKeysSame(lib: Library, keys: seq<KeyExpression>)
    requires KeysOk(lib, keys)
    ensures SettledKeys(keys) == keys <==> AllZeroStored(keys)
  {
    hide KeyOk, Settled, ZeroStored;
    if keys != [] {
      SettledSame(lib, keys[0]);
      SettledKeysSame(lib, keys[1..]);
      HeadTail(keys);
    }
  }

  lemma HeadTail(keys: seq<KeyExpression>)
    requires keys != []
    ensures SettledKeys(keys) == keys <==> Settled(keys[0]) == keys[0] && SettledKeys(keys[1..]) == keys[1..]
    ensures AllZeroStored(keys) <==> ZeroStored(keys[0]) && AllZeroStored(keys[1..])
  {
    hide Settled, ZeroStored;
    assert keys == [keys[0]] + keys[1..];
    assert SettledKeys(keys)[1..] == SettledKeys(keys[1..]);
    assert forall i :: 0 < i < |keys| ==> keys[i] == keys[1..][i - 1];
  }

  /** Settling changes nothing exactly when every multipath key stores a zero as its last step. */
  lemma {:induction false} SettledNodeSame(lib: Library, node: ScriptNode)
    requires NodeOk(lib, node, true)
    ensures SettledNode(node) == node <==> AllZeroStored(DescriptorKeys(node))
    decreases node
  {
    hide KeyOk, KeysOk, Settled, SettledKeys, ZeroStored, AllZeroStored, AllHex, AllAlphanumeric, Lower;
    match node
    case KeyCall(_, key) =>
      SettledSame(lib, key);
      OneWhole(key);
    case Wrapped(_, inner) => SettledNodeSame(lib, inner);
    case Tr(internal, None) =>
      SettledSame(lib, internal);
      OneWhole(internal);
    case Tr(internal, Some(tree)) =>
      SettledSame(lib, internal);
      SettledTreeSame(lib, tree);
      OneWhole(internal);
      WholeConcat([internal], TreeKeys(tree));
    case Multisig(_, _, keys) => SettledKeysSame(lib, keys);
    case _ => NoneWhole();
  }

  lemma {:induction false} SettledTreeSame(lib: Library, tree: TapTree)
    requires TreeOk(lib, tree, true)
    ensures SettledTree(tree) == tree <==> AllZeroStored(TreeKeys(tree))
    decreases tree
  {
    hide NodeOk, SettledNode, DescriptorKeys, AllZeroStored;
    match tree
    case Leaf(script) => SettledNodeSame(lib, script);
    case Branch(left, right) =>
      SettledTreeSame(lib, left);
      SettledTreeSame(lib, right);
      WholeConcat(TreeKeys(left), TreeKeys(right));
  }

  lemma OneWhole(key: KeyExpression)
    ensures AllZeroStored([key]) <==> ZeroStored(key)
  {
    hide ZeroStored;
    assert [key][0] == key;
  }

  lemma NoneWhole()
    ensures AllZeroStored([])
  {
  }

  lemma WholeConcat(a: seq<KeyExpression>, b: seq<KeyExpression>)
    ensures AllZeroStored(a + b) <==> AllZeroStored(a) && AllZeroStored(b)
  {
    hide ZeroStored;
    if AllZeroStored(a + b) {
      assert forall i :: 0 <= i < |a| ==> a[i] == (a + b)[i];
      assert forall i :: 0 <= i < |b| ==> b[i] == (a + b)[|a| + i];
    }
  }

  /**
   * Reading what is printed from an accepted descriptor gives exactly its tree
   * if and only if every multipath key in it stores a zero as its last step.
   */
  lemma DescriptorRoundTripExact(lib: Library, script: ScriptNode)
    requires Accepted(lib, script)
    ensures WithChecksum(PrintNode(script)).Ok?
    ensures var again := ParseDescriptor(lib, WithChecksum(PrintNode(script)).value, false);
            again.Ok? && (again.value.script == script <==> AllZeroStored(DescriptorKeys(script)))
  {
    hide WithChecksum, ParseDescriptor, NodeOk, OneTupleLength, CheckPlacement, PrintNode, SettledNode, AllZeroStored;
    DescriptorRoundTrip(lib, script);
    SettledNodeSame(lib, script);
  }
}
