/** Multisig descriptors and their addresses: packages/core/src/descriptor/multisig.ts. */
module Quorums {
  import opened Text
  import opened Keys
  import opened Canonical
  import opened Script
  import opened KeyPrinting
  import opened RoundTrip
  import opened Placement
  import opened Descriptors
  import opened Order
  import opened Lists
  import opened Derive

  /** The most keys the script writer takes; the limit is the device's own. */
  const MAX_MULTISIG_KEYS: nat := 16

  /** wsh(...), sh(wsh(...)) and bare sh(...). */
  datatype Kind = WitnessScript | NestedWitness | BareScript

  datatype Shape = Shape(kind: Kind, threshold: nat, total: nat, sorted: bool, keys: seq<KeyExpression>)

  /** The script inside a quorum's wrapping, and the wrapping. */
  function Body(script: ScriptNode): Option<(Kind, ScriptNode)> {
    match script
    case Wrapped(Wsh, inner) => Some((WitnessScript, inner))
    case Wrapped(Sh, Wrapped(Wsh, inner)) => Some((NestedWitness, inner))
    case Wrapped(Sh, inner) => Some((BareScript, inner))
    case _ => None
  }

  predicate Uncompressed(key: KeyExpression) {
    key.RawKey? && key.byteLength == 65
  }

  function MultisigShape(script: ScriptNode): (r: Result<Shape, Refusal>)
    ensures r.Ok? ==> 1 <= r.value.threshold <= r.value.total == |r.value.keys| <= MAX_MULTISIG_KEYS
  {
    match Body(script)
    case None => Err(NotMultisig)
    case Some((kind, body)) =>
      if !body.Multisig? || (body.multi != Multi && body.multi != SortedMulti) then Err(NotMultisig)
      else if body.threshold < 1 || body.threshold > |body.keys| then Err(Unsatisfiable)
      else if kind != BareScript && exists i :: 0 <= i < |body.keys| && Uncompressed(body.keys[i]) then Err(UncompressedKey)
      else if kind == BareScript && |body.keys| > 15 then Err(RedeemScriptTooLong)
      else if |body.keys| > MAX_MULTISIG_KEYS then Err(TooManyKeys)
      else Ok(Shape(kind, body.threshold, |body.keys|, body.multi == SortedMulti, body.keys))
  }

  /** A multi() or sortedmulti() in one of the three wrappings. */
  predicate IsMultisig(script: ScriptNode) {
    Body(script).Some? && Body(script).value.1.Multisig? &&
    (Body(script).value.1.multi == Multi || Body(script).value.1.multi == SortedMulti)
  }

  /**
   * The parser has already made every other refusal: an accepted descriptor is
   * refused here only for not being a multisig, or for more keys than the
   * device's script writer takes.
   */
  lemma AcceptedShape(lib: Library, script: ScriptNode)
    requires Accepted(lib, script)
    ensures MultisigShape(script).Ok? <==> IsMultisig(script) && |DescriptorKeys(script)| <= 16
    ensures MultisigShape(script).Err? ==>
              MultisigShape(script).error == if IsMultisig(script) then TooManyKeys else NotMultisig
    ensures IsMultisig(script) && |DescriptorKeys(script)| > 16 ==> Body(script).value.0 != BareScript
    ensures IsMultisig(script) ==> |DescriptorKeys(script)| <= 20
    ensures MultisigShape(script).Ok? ==> MultisigShape(script).value.keys == DescriptorKeys(script)
  {
    hide Lawful, CheckPlacement, OneTupleLength, NodeOk;
    if IsMultisig(script) {
      var (kind, body) := Body(script).value;
      BodyOk(lib, script);
      QuorumKeysOk(lib, body, kind == BareScript);
    }
  }

  /** What the parser established of a script it established of the quorum inside it. */
  lemma BodyOk(lib: Library, script: ScriptNode)
    requires NodeOk(lib, script, true) && Body(script).Some? && CheckPlacement(lib, script, AtTop, Under(false, false)).Ok?
    ensures var (kind, body) := Body(script).value;
            && NodeOk(lib, body, true) && DescriptorKeys(script) == DescriptorKeys(body)
            && CheckPlacement(lib, body, if kind == BareScript then InSh else InWsh, Under(kind != BareScript, false)).Ok?
  {
    hide KeyOk, Lawful, CheckKeys, CheckMulti;
    if Body(script).value.0 == NestedWitness {
      var inner := script.inner;
      assert NodeOk(lib, inner, true) && DescriptorKeys(script) == DescriptorKeys(inner);
      assert CheckPlacement(lib, inner, InSh, Under(false, false)).Ok?;
    }
  }

  /** What placement leaves of a quorum's keys. */
  lemma QuorumKeysOk(lib: Library, body: ScriptNode, bare: bool)
    requires NodeOk(lib, body, true) && body.Multisig? && (body.multi == Multi || body.multi == SortedMulti)
    requires CheckPlacement(lib, body, if bare then InSh else InWsh, Under(!bare, false)).Ok?
    ensures 1 <= body.threshold <= |body.keys|
    ensures !bare ==> |body.keys| <= 20 && forall i :: 0 <= i < |body.keys| ==> !Uncompressed(body.keys[i])
    ensures bare ==> |body.keys| <= 15
  {
    hide KeyOk, Lawful, PushedBytes, CheckKeys;
    if bare {
      RawLongEnough(lib, body.keys);
      BareShHoldsFifteen(lib, body.multi, body.threshold, body.keys);
    } else {
      assert CheckKeys(body.keys, false, Under(true, false)).Ok?;
      CheckKeysExact(body.keys, false, Under(true, false));
    }
  }

  lemma RawLongEnough(lib: Library, keys: seq<KeyExpression>)
    requires KeysOk(lib, keys)
    ensures forall i :: 0 <= i < |keys| && keys[i].RawKey? ==> keys[i].byteLength >= 32
  {
    hide OriginOk, AssertExtendedKey, StepsOk, AllHex, AllAlphanumeric, LooksExtended;
  }

  // ----- bytes as text

  function HexChar(v: byte): char
    requires v < 16
  {
    if v < 10 then ('0' as int + v) as char else ('a' as int + (v - 10)) as char
  }

  /** Two digits a byte. */
  function HexText(bytes: seq<byte>): (s: string)
    ensures |s| == 2 * |bytes|
  {
    if bytes == [] then "" else [HexChar(bytes[0] / 16), HexChar(bytes[0] % 16)] + HexText(bytes[1..])
  }

  /** The written bytes read back, so different bytes are written differently. */
  lemma {:induction false} HexRoundTrip(bytes: seq<byte>)
    ensures HexBytes(HexText(bytes)) == bytes
  {
    if bytes != [] {
      HexRoundTrip(bytes[1..]);
      assert HexText(bytes)[2..] == HexText(bytes[1..]);
      assert bytes == [bytes[0]] + bytes[1..];
    }
  }

  /** An extended key without its version bytes; text that is not one stands for itself. */
  function KeyPayload(lib: Library, value: string): string {
    match lib.decode58(value)
    case None => value
    case Some(raw) => if |raw| < 78 then value else HexText(raw[4..78])
  }

  /** Two accepted keys are the same device's exactly when their 74 bytes agree, whatever their prefixes. */
  lemma PayloadDecides(lib: Library, x: string, y: string)
    requires AssertExtendedKey(lib, x).Ok? && AssertExtendedKey(lib, y).Ok?
    requires lib.decode58(x).Some? && |lib.decode58(x).value| == 82 && lib.decode58(y).Some? && |lib.decode58(y).value| == 82
    ensures KeyPayload(lib, x) == KeyPayload(lib, y) <==> Payload(lib, x) == Payload(lib, y)
  {
    hide AssertExtendedKey, HexText;
    HexRoundTrip(Payload(lib, x));
    HexRoundTrip(Payload(lib, y));
  }

  // ----- a run of addresses

  function AddressRange<A>(start: nat, count: nat, at: nat -> Result<A, Refusal>): (r: Result<seq<A>, Refusal>)
    ensures r.Ok? ==> |r.value| == count
    decreases count, start
  {
    if count == 0 then Ok([])
    else
      var first :- at(start);
      var rest :- AddressRange(start + 1, count - 1, at);
      Ok([first] + rest)
  }

  /** Every index of the range gets its own address, and one failure fails the whole run. */
  lemma {:induction false} RangeEach<A>(start: nat, count: nat, at: nat -> Result<A, Refusal>)
    ensures AddressRange(start, count, at).Ok? <==> forall i: nat :: start <= i < start + count ==> at(i).Ok?
    ensures AddressRange(start, count, at).Ok? ==>
              forall i :: 0 <= i < count ==> AddressRange(start, count, at).value[i] == at(start + i).value
    decreases count, start
  {
    if count > 0 {
      RangeEach(start + 1, count - 1, at);
      if at(start).Ok? && AddressRange(start + 1, count - 1, at).Ok? {
        var rest := AddressRange(start + 1, count - 1, at).value;
        forall i | 0 <= i < count
          ensures AddressRange(start, count, at).value[i] == at(start + i).value
        {
          assert i > 0 ==> rest[i - 1] == at((start + 1) + (i - 1)).value;
        }
      }
    }
  }

  function ContinueRange<A>(out: seq<A>, rest: Result<seq<A>, Refusal>): Result<seq<A>, Refusal> {
    if rest.Ok? then Ok(out + rest.value) else rest
  }

  lemma RangeNext<A>(out: seq<A>, start: nat, count: nat, at: nat -> Result<A, Refusal>)
    requires count > 0 && at(start).Ok?
    ensures ContinueRange(out, AddressRange(start, count, at)) ==
            ContinueRange(out + [at(start).value], AddressRange(start + 1, count - 1, at))
  {
    var rest := AddressRange(start + 1, count - 1, at);
    if rest.Ok? {
      Regroup(out, [at(start).value], rest.value);
    }
  }

  /** Two runs that agree at every index, up to which refusal they report. */
  lemma RangeAgrees<A>(start: nat, count: nat, at: nat -> Result<A, Refusal>, bt: nat -> Result<A, Refusal>)
    requires forall i: nat :: start <= i < start + count ==> Agree(at(i), bt(i))
    ensures Agree(AddressRange(start, count, at), AddressRange(start, count, bt))
  {
    hide AddressRange;
    RangeEach(start, count, at);
    RangeEach(start, count, bt);
    if AddressRange(start, count, at).Ok? {
      forall i: nat | start <= i < start + count
        ensures bt(i).Ok?
      {
        assert Agree(at(i), bt(i));
      }
      var x, y := AddressRange(start, count, at).value, AddressRange(start, count, bt).value;
      forall i | 0 <= i < count
        ensures x[i] == y[i]
      {
        assert Agree(at(start + i), bt(start + i));
      }
      assert x == y;
    } else {
      var i: nat :| start <= i < start + count && at(i).Err?;
      assert Agree(at(i), bt(i));
    }
  }

  // ----- multisig addresses

  /** The signer library's script writers, on one network: it may refuse what it is given. */
  datatype Encoder = Encoder(
    quorum: (Kind, nat, seq<seq<byte>>) -> Result<string, Refusal>,
    taproot: (seq<byte>, Option<LeafTree>) -> Result<string, Refusal>)

  datatype TapLeaf = OneKey(key: seq<byte>) | QuorumLeaf(threshold: nat, keys: seq<seq<byte>>)

  datatype LeafTree = LeafScript(leaf: TapLeaf) | LeafBranch(left: LeafTree, right: LeafTree)

  datatype MultisigAddress = MultisigAddress(address: string, index: nat, pubkeys: seq<string>)

  const MAX_ADDRESSES: int := 1000

  /** The bytes compareBytes compares. */
  function AsInts(bytes: seq<byte>): seq<int> {
    bytes
  }

  function DerivedKeys(lib: Library, curve: Curve, keys: seq<KeyExpression>, index: nat, change: bool): Result<seq<seq<byte>>, Refusal> {
    MapOk(keys, key => DerivePubkeyAt(lib, curve, key, index, change))
  }

  /** The keys of the script at one index: sorted there, after derivation, when the quorum is sorted. */
  function OrderedKeys(lib: Library, curve: Curve, keys: seq<KeyExpression>, sorted: bool, index: nat, change: bool):
    Result<seq<seq<byte>>, Refusal>
  {
    var derived :- DerivedKeys(lib, curve, keys, index, change);
    Ok(if sorted then Sort(derived, AsInts) else derived)
  }

  function AddressAt(lib: Library, curve: Curve, encoder: Encoder, shape: Shape, index: nat, change: bool):
    Result<MultisigAddress, Refusal>
  {
    var ordered :- OrderedKeys(lib, curve, shape.keys, shape.sorted, index, change);
    var address :- encoder.quorum(shape.kind, shape.threshold, ordered);
    Ok(MultisigAddress(address, index, seq(|ordered|, i requires 0 <= i < |ordered| => HexText(ordered[i]))))
  }

  function DeriveMultisigAddresses(lib: Library, curve: Curve, encoder: Encoder, script: ScriptNode,
                                   change: bool, start: nat, count: int): Result<seq<MultisigAddress>, Refusal> {
    var shape :- MultisigShape(script);
    if count < 0 || count > MAX_ADDRESSES then Err(TooManyAddresses)
    else AddressRange(start, count, index => AddressAt(lib, curve, encoder, shape, index, change))
  }

  /** deriveMultisigAddresses: push one address an index, sorting afresh each time. */
  method DeriveMultisigAddressesLoop(lib: Library, curve: Curve, encoder: Encoder, script: ScriptNode,
                                     change: bool, start: nat, count: int)
    returns (r: Result<seq<MultisigAddress>, Refusal>)
    ensures r == DeriveMultisigAddresses(lib, curve, encoder, script, change, start, count)
  {
    hide MultisigShape, DerivedKeys, Sort, AddressRange;
    var shape := MultisigShape(script);
    if shape.Err? {
      return Err(shape.error);
    }
    if count < 0 || count > MAX_ADDRESSES {
      return Err(TooManyAddresses);
    }
    ghost var at := index => AddressAt(lib, curve, encoder, shape.value, index, change);
    var out: seq<MultisigAddress> := [];
    RangeStart(start, count, at);
    for i := 0 to count
      invariant ContinueRange(out, AddressRange(start + i, count - i, at)) == AddressRange(start, count, at)
    {
      var index := start + i;
      RangeFails(start + i, count - i, at);
      var derived := DerivedKeys(lib, curve, shape.value.keys, index, change);
      if derived.Err? {
        return Err(derived.error);
      }
      var ordered := if shape.value.sorted then Sort(derived.value, AsInts) else derived.value;
      var address := encoder.quorum(shape.value.kind, shape.value.threshold, ordered);
      if address.Err? {
        return Err(address.error);
      }
      RangeNext(out, start + i, count - i, at);
      out := out + [MultisigAddress(address.value, index, seq(|ordered|, k requires 0 <= k < |ordered| => HexText(ordered[k])))];
    }
    RangeEnd(out, start + count, at);
    return Ok(out);
  }

  lemma RangeStart<A>(start: nat, count: nat, at: nat -> Result<A, Refusal>)
    ensures ContinueRange([], AddressRange(start, count, at)) == AddressRange(start, count, at)
  {
    var all := AddressRange(start, count, at);
    if all.Ok? {
      assert [] + all.value == all.value;
    }
  }

  lemma RangeEnd<A>(out: seq<A>, start: nat, at: nat -> Result<A, Refusal>)
    ensures ContinueRange(out, AddressRange(start, 0, at)) == Ok(out)
  {
    assert out + [] == out;
  }

  /** The first refusal is the answer. */
  lemma RangeFails<A>(start: nat, count: nat, at: nat -> Result<A, Refusal>)
    requires count > 0
    ensures at(start).Err? ==> AddressRange(start, count, at) == Err(at(start).error)
  {
  }

  // ----- what the script writer is handed

  /** Byte strings in ascending order, as BIP-67 has it: byte by byte, the smaller first. */
  ghost predicate Lexicographic(keys: seq<seq<byte>>) {
    forall i, j :: 0 <= i < j < |keys| ==> keys[i] == keys[j] || Below(keys[i], keys[j])
  }

  lemma SortedLexicographic(keys: seq<seq<byte>>)
    ensures Lexicographic(Sort(keys, AsInts)) && multiset(Sort(keys, AsInts)) == multiset(keys)
  {
    hide Below, Sort;
    SortMeans(keys, AsInts);
  }

  /** Every member's key at one index and side, in the written order. */
  ghost predicate MembersAt(lib: Library, curve: Curve, keys: seq<KeyExpression>, index: nat, change: bool, derived: seq<seq<byte>>) {
    |derived| == |keys| && forall i :: 0 <= i < |keys| ==> DerivePubkeyAt(lib, curve, keys[i], index, change) == Ok(derived[i])
  }

  /**
   * The keys of a script at one index: every member derived at that very
   * index, in the written order for multi, and those same keys in ascending
   * byte order for sortedmulti.
   */
  ghost predicate KeysInScript(lib: Library, curve: Curve, keys: seq<KeyExpression>, sorted: bool, index: nat, change: bool,
                               ordered: seq<seq<byte>>) {
    if sorted then
      Lexicographic(ordered) &&
      exists derived :: MembersAt(lib, curve, keys, index, change, derived) && multiset(ordered) == multiset(derived)
    else MembersAt(lib, curve, keys, index, change, ordered)
  }

  lemma OrderedKeysMean(lib: Library, curve: Curve, keys: seq<KeyExpression>, sorted: bool, index: nat, change: bool)
    ensures var r := OrderedKeys(lib, curve, keys, sorted, index, change);
            && (r.Ok? <==> forall i :: 0 <= i < |keys| ==> DerivePubkeyAt(lib, curve, keys[i], index, change).Ok?)
            && (r.Ok? ==> KeysInScript(lib, curve, keys, sorted, index, change, r.value))
  {
    hide DerivePubkeyAt, MapOk, Sort, Lexicographic;
    var f := key => DerivePubkeyAt(lib, curve, key, index, change);
    MapOkEach(keys, f);
    assert forall i :: 0 <= i < |keys| ==> f(keys[i]) == DerivePubkeyAt(lib, curve, keys[i], index, change);
    if MapOk(keys, f).Ok? {
      var derived := MapOk(keys, f).value;
      SortedLexicographic(derived);
      assert MembersAt(lib, curve, keys, index, change, derived);
    }
  }

  /** Bytes in hex: of each byte the high digit, then the low one. */
  predicate InHex(text: string, bytes: seq<byte>) {
    |text| == 2 * |bytes| && forall i :: 0 <= i < |bytes| ==>
      text[2 * i] == "0123456789abcdef"[bytes[i] / 16] && text[2 * i + 1] == "0123456789abcdef"[bytes[i] % 16]
  }

  lemma HexDigits(v: byte)
    requires v < 16
    ensures HexChar(v) == "0123456789abcdef"[v]
  {
  }

  lemma HexValues(c: char)
    requires IsHexDigit(c)
    ensures "0123456789abcdef"[HexValue(c)] == LowerChar(c)
  {
  }

  lemma BytePair(high: byte, low: byte)
    requires high < 16 && low < 16
    ensures (high * 16 + low) / 16 == high && (high * 16 + low) % 16 == low
  {
  }

  lemma InHexMore(high: char, low: char, text: string, v: byte, bytes: seq<byte>)
    requires InHex(text, bytes) && high == "0123456789abcdef"[v / 16] && low == "0123456789abcdef"[v % 16]
    ensures InHex([high, low] + text, [v] + bytes)
  {
    var all := [v] + bytes;
    forall i | 0 <= i < |all|
      ensures ([high, low] + text)[2 * i] == "0123456789abcdef"[all[i] / 16]
      ensures ([high, low] + text)[2 * i + 1] == "0123456789abcdef"[all[i] % 16]
    {
      if i > 0 {
        assert all[i] == bytes[i - 1];
        assert ([high, low] + text)[2 * i] == text[2 * (i - 1)] && ([high, low] + text)[2 * i + 1] == text[2 * (i - 1) + 1];
      }
    }
  }

  lemma {:induction false} HexTextMeans(bytes: seq<byte>)
    ensures InHex(HexText(bytes), bytes)
  {
    hide HexChar, InHex;
    if bytes == [] {
      NothingInHex("");
    } else {
      var v, rest := bytes[0], bytes[1..];
      HexTextMeans(rest);
      HexDigits(v / 16);
      HexDigits(v % 16);
      InHexMore(HexChar(v / 16), HexChar(v % 16), HexText(rest), v, rest);
      assert bytes == [v] + rest;
    }
  }

  /** What raw hex in a descriptor stands for, in letters of either case. */
  lemma {:induction false} HexBytesMean(hex: string)
    requires AllHex(hex) && |hex| % 2 == 0
    ensures InHex(Lower(hex), HexBytes(hex))
  {
    hide HexValue, LowerChar, IsHexDigit, InHex, Lower;
    if hex == "" {
      NothingInHex(Lower(hex));
    } else {
      var rest, high, low := hex[2..], HexValue(hex[0]), HexValue(hex[1]);
      HexBytesMean(rest);
      HexValues(hex[0]);
      HexValues(hex[1]);
      BytePair(high, low);
      InHexMore(LowerChar(hex[0]), LowerChar(hex[1]), Lower(rest), high * 16 + low, HexBytes(rest));
      LowerSplit(hex);
    }
  }

  lemma LowerSplit(hex: string)
    requires |hex| >= 2
    ensures Lower(hex) == [LowerChar(hex[0]), LowerChar(hex[1])] + Lower(hex[2..])
  {
    hide LowerChar;
  }

  lemma NothingInHex(text: string)
    requires text == ""
    ensures InHex(text, [])
  {
  }

  /** A quorum as it is written: the script function in its wrapping. */
  predicate WrittenAs(script: ScriptNode, kind: Kind, sorted: bool, threshold: nat, keys: seq<KeyExpression>) {
    var quorum := Multisig(if sorted then SortedMulti else Multi, threshold, keys);
    match kind
    case WitnessScript => script == Wrapped(Wsh, quorum)
    case NestedWitness => script == Wrapped(Sh, Wrapped(Wsh, quorum))
    case BareScript => script == Wrapped(Sh, quorum)
  }

  lemma ShapeWritten(script: ScriptNode)
    requires MultisigShape(script).Ok?
    ensures var s := MultisigShape(script).value;
            WrittenAs(script, s.kind, s.sorted, s.threshold, s.keys) && s.total == |s.keys|
  {
  }

  /** An uncompressed key where a witness program cannot hold one. */
  predicate HoldsUncompressed(kind: Kind, keys: seq<KeyExpression>) {
    kind != BareScript && exists i :: 0 <= i < |keys| && keys[i].RawKey? && keys[i].byteLength == 65
  }

  /** What a written quorum answers: its shape exactly when it can be spent and built, and otherwise why not. */
  lemma WrittenShape(script: ScriptNode, kind: Kind, sorted: bool, threshold: nat, keys: seq<KeyExpression>)
    requires WrittenAs(script, kind, sorted, threshold, keys)
    ensures var r := MultisigShape(script);
            && (r.Ok? <==> 1 <= threshold <= |keys| <= 16 && (kind == BareScript ==> |keys| <= 15) && !HoldsUncompressed(kind, keys))
            && (r == Err(Unsatisfiable) <==> !(1 <= threshold <= |keys|))
            && (r == Err(UncompressedKey) <==> 1 <= threshold <= |keys| && HoldsUncompressed(kind, keys))
            && (r == Err(RedeemScriptTooLong) ==> kind == BareScript && |keys| > 15)
            && (r == Err(TooManyKeys) ==> kind != BareScript && |keys| > 16)
            && r != Err(NotMultisig)
  {
    if HoldsUncompressed(kind, keys) {
      var i :| 0 <= i < |keys| && keys[i].RawKey? && keys[i].byteLength == 65;
      assert Uncompressed(keys[i]);
    }
  }

  /** One address: what the script writer makes of the wrapping, the written threshold and the keys of that index. */
  ghost predicate AddressMade(lib: Library, curve: Curve, encoder: Encoder, script: ScriptNode, change: bool, entry: MultisigAddress) {
    exists kind: Kind, sorted: bool, threshold: nat, keys: seq<KeyExpression>, ordered: seq<seq<byte>> ::
      && WrittenAs(script, kind, sorted, threshold, keys)
      && KeysInScript(lib, curve, keys, sorted, entry.index, change, ordered)
      && encoder.quorum(kind, threshold, ordered) == Ok(entry.address)
      && |entry.pubkeys| == |ordered| && forall i :: 0 <= i < |ordered| ==> InHex(entry.pubkeys[i], ordered[i])
  }

  lemma AddressAtMade(lib: Library, curve: Curve, encoder: Encoder, script: ScriptNode, index: nat, change: bool)
    requires MultisigShape(script).Ok? && AddressAt(lib, curve, encoder, MultisigShape(script).value, index, change).Ok?
    ensures var entry := AddressAt(lib, curve, encoder, MultisigShape(script).value, index, change).value;
            entry.index == index && AddressMade(lib, curve, encoder, script, change, entry)
  {
    hide MultisigShape, OrderedKeys, KeysInScript, WrittenAs, HexText, InHex;
    var s := MultisigShape(script).value;
    ShapeWritten(script);
    OrderedKeysMean(lib, curve, s.keys, s.sorted, index, change);
    var ordered := OrderedKeys(lib, curve, s.keys, s.sorted, index, change).value;
    var entry := AddressAt(lib, curve, encoder, s, index, change).value;
    forall i | 0 <= i < |ordered|
      ensures InHex(entry.pubkeys[i], ordered[i])
    {
      HexTextMeans(ordered[i]);
    }
  }

  /**
   * A run of a quorum's addresses: of each index in turn, the address the
   * script writer makes of what the descriptor says, and its keys in hex.
   */
  lemma AddressesMade(lib: Library, curve: Curve, encoder: Encoder, script: ScriptNode, change: bool, start: nat, count: int)
    requires DeriveMultisigAddresses(lib, curve, encoder, script, change, start, count).Ok?
    ensures var entries := DeriveMultisigAddresses(lib, curve, encoder, script, change, start, count).value;
            && 0 <= count == |entries| <= 1000
            && forall i :: 0 <= i < count ==>
                 entries[i].index == start + i && AddressMade(lib, curve, encoder, script, change, entries[i])
  {
    hide MultisigShape, AddressAt, AddressMade, AddressRange;
    var s := MultisigShape(script).value;
    var at := (index: nat) => AddressAt(lib, curve, encoder, s, index, change);
    RangeEach(start, count, at);
    assert forall i: nat :: at(i) == AddressAt(lib, curve, encoder, s, i, change);
    var entries := DeriveMultisigAddresses(lib, curve, encoder, script, change, start, count).value;
    forall i | 0 <= i < count
      ensures entries[i].index == start + i && AddressMade(lib, curve, encoder, script, change, entries[i])
    {
      assert AddressAt(lib, curve, encoder, s, start + i, change).Ok?;
      AddressAtMade(lib, curve, encoder, script, start + i, change);
    }
  }

  // ----- a sorted quorum does not depend on the order of its keys

  lemma BytesDecide(items: seq<seq<byte>>)
    ensures KeyDecides(items, AsInts)
  {
  }

  /** The keys a sorted quorum puts in its script, whichever order its members were written in. */
  lemma SortedKeysAgree(lib: Library, curve: Curve, a: seq<KeyExpression>, b: seq<KeyExpression>, index: nat, change: bool)
    requires multiset(a) == multiset(b)
    ensures Agree(OrderedKeys(lib, curve, a, true, index, change), OrderedKeys(lib, curve, b, true, index, change))
  {
    hide DerivePubkeyAt, MapOk, Sort;
    var f := key => DerivePubkeyAt(lib, curve, key, index, change);
    if MapOk(a, f).Ok? {
      MapOkBag(a, b, f);
      BytesDecide(MapOk(a, f).value);
      SortIgnoresOrder(MapOk(a, f).value, MapOk(b, f).value, AsInts);
    } else if MapOk(b, f).Ok? {
      MapOkBag(b, a, f);
    }
  }

  lemma AddressAgrees(lib: Library, curve: Curve, encoder: Encoder, a: Shape, b: Shape, index: nat, change: bool)
    requires a.kind == b.kind && a.threshold == b.threshold && a.sorted && b.sorted && multiset(a.keys) == multiset(b.keys)
    ensures Agree(AddressAt(lib, curve, encoder, a, index, change), AddressAt(lib, curve, encoder, b, index, change))
  {
    hide OrderedKeys;
    SortedKeysAgree(lib, curve, a.keys, b.keys, index, change);
  }

  /** BIP-67 keeps its promise: the same members in any order give the same addresses at every index. */
  lemma SortedAddressesAgree(lib: Library, curve: Curve, encoder: Encoder, a: ScriptNode, b: ScriptNode,
                             change: bool, start: nat, count: int)
    requires MultisigShape(a).Ok? && MultisigShape(b).Ok?
    requires MultisigShape(a).value.kind == MultisigShape(b).value.kind
    requires MultisigShape(a).value.threshold == MultisigShape(b).value.threshold
    requires MultisigShape(a).value.sorted && MultisigShape(b).value.sorted
    requires multiset(MultisigShape(a).value.keys) == multiset(MultisigShape(b).value.keys)
    ensures Agree(DeriveMultisigAddresses(lib, curve, encoder, a, change, start, count),
                  DeriveMultisigAddresses(lib, curve, encoder, b, change, start, count))
  {
    hide MultisigShape, AddressAt, AddressRange;
    var x, y := MultisigShape(a).value, MultisigShape(b).value;
    if 0 <= count <= MAX_ADDRESSES {
      forall i: nat
        ensures Agree(AddressAt(lib, curve, encoder, x, i, change), AddressAt(lib, curve, encoder, y, i, change))
      {
        AddressAgrees(lib, curve, encoder, x, y, i, change);
      }
      RangeAgrees(start, count, index => AddressAt(lib, curve, encoder, x, index, change),
                  index => AddressAt(lib, curve, encoder, y, index, change));
    }
  }
}
