/** A key expression as a public key at an index: packages/core/src/descriptor/derive-key.ts. */
module Derive {
  import opened Text
  import opened Path
  import opened Keys
  import opened Canonical
  import opened KeyPrinting

  /**
   * BIP-32 child derivation over 74-byte payloads, as the HD key library does
   * it. A payload is all it sees of an extended key, so the version bytes
   * cannot matter.
   */
  datatype Curve = Curve(
    child: (seq<byte>, nat) -> Option<seq<byte>>,
    publicKey: seq<byte> -> seq<byte>)

  /** A hardened child cannot be taken from a public key. */
  ghost predicate CurveLawful(curve: Curve) {
    forall payload, index :: index >= HARDENED_OFFSET ==> curve.child(payload, index) == None
  }

  function HexValue(c: char): (v: byte)
    ensures v < 16
  {
    if IsDigit(c) then DigitValue(c) % 16
    else if 'a' <= c <= 'f' then (c as int - 'a' as int) + 10
    else if 'A' <= c <= 'F' then (c as int - 'A' as int) + 10
    else 0
  }

  function HexBytes(hex: string): seq<byte> {
    if |hex| < 2 then [] else [HexValue(hex[0]) * 16 + HexValue(hex[1])] + HexBytes(hex[2..])
  }

  /** The segments the loop keeps of a stored path: none for the empty text or the m. */
  function ReadSegments(parts: seq<string>): Result<seq<nat>, Refusal> {
    if parts == [] then Ok([])
    else if parts[0] == "" || parts[0] == "m" then ReadSegments(parts[1..])
    else
      var first :- ReadSegment(parts[0]);
      var rest :- ReadSegments(parts[1..]);
      Ok([first] + rest)
  }

  function ReadSegment(part: string): Result<nat, Refusal>
    requires part != ""
  {
    if IsTick(part[|part| - 1]) then Err(HardenedStep)
    else if !AllDigits(part) then Err(BadDerivation)
    else Ok(ToNat(part))
  }

  /** The last segment replaced by the chosen branch. */
  function TakeBranch(segments: seq<nat>, multipath: Option<seq<nat>>, change: bool): Result<seq<nat>, Refusal> {
    if multipath.None? then Ok(segments)
    else
      var branches := multipath.value;
      var at := if change then 1 else 0;
      if at >= |branches| then Err(NoBranches)
      else if segments == [] then Err(NoBranchSegment)
      else Ok(segments[..|segments| - 1] + [branches[at]])
  }

  /** The child numbers taken from an extended key at an index. */
  function DeriveSteps(key: KeyExpression, index: nat, change: bool): Result<seq<nat>, Refusal>
    requires key.ExtendedKey?
  {
    var segments :- ReadSegments(Split(key.path, '/'));
    var chosen :- TakeBranch(segments, key.multipath, change);
    Ok(if key.ranged then chosen + [index] else chosen)
  }

  function Descend(curve: Curve, payload: seq<byte>, steps: seq<nat>): Option<seq<byte>>
    decreases |steps|
  {
    if steps == [] then Some(payload)
    else match curve.child(payload, steps[0])
         case None => None
         case Some(child) => Descend(curve, child, steps[1..])
  }

  function DerivePubkeyAt(lib: Library, curve: Curve, key: KeyExpression, index: nat, change: bool): Result<seq<byte>, Refusal> {
    if key.RawKey? then Ok(HexBytes(key.hex))
    else
      var steps :- DeriveSteps(key, index, change);
      match lib.decode58(key.xpub)
      case None => Err(NotBase58)
      case Some(raw) =>
        if |raw| != 82 then Err(WrongKeyLength)
        else match Descend(curve, raw[4..78], steps)
             case None => Err(NoPublicKey)
             case Some(payload) => Ok(curve.publicKey(payload))
  }

  // ----- the loops

  function ContinueSegments(read: seq<nat>, rest: Result<seq<nat>, Refusal>): Result<seq<nat>, Refusal> {
    if rest.Ok? then Ok(read + rest.value) else rest
  }

  lemma SegmentsNext(read: seq<nat>, parts: seq<string>)
    requires parts != [] && parts[0] != "" && parts[0] != "m" && ReadSegment(parts[0]).Ok?
    ensures ContinueSegments(read, ReadSegments(parts)) ==
            ContinueSegments(read + [ReadSegment(parts[0]).value], ReadSegments(parts[1..]))
  {
    hide ReadSegment;
    var rest := ReadSegments(parts[1..]);
    if rest.Ok? {
      Regroup(read, [ReadSegment(parts[0]).value], rest.value);
    }
  }

  method SegmentsLoop(path: string) returns (r: Result<seq<nat>, Refusal>)
    ensures r == ReadSegments(Split(path, '/'))
  {
    hide ReadSegment, Split;
    var parts := Split(path, '/');
    var segments: seq<nat> := [];
    ghost var all := ReadSegments(parts);
    assert all.Ok? ==> [] + all.value == all.value;
    for i := 0 to |parts|
      invariant ContinueSegments(segments, ReadSegments(parts[i..])) == all
    {
      var part := parts[i];
      assert parts[i..][0] == part && parts[i..][1..] == parts[i + 1..];
      if part != "" && part != "m" {
        var value := ReadSegment(part);
        if value.Err? {
          return Err(value.error);
        }
        SegmentsNext(segments, parts[i..]);
        segments := segments + [value.value];
      }
    }
    assert segments + [] == segments;
    return Ok(segments);
  }

  method DescendLoop(curve: Curve, payload: seq<byte>, segments: seq<nat>) returns (derived: Option<seq<byte>>)
    ensures derived == Descend(curve, payload, segments)
  {
    var current := payload;
    for i := 0 to |segments|
      invariant Descend(curve, current, segments[i..]) == Descend(curve, payload, segments)
    {
      assert segments[i..][0] == segments[i] && segments[i..][1..] == segments[i + 1..];
      var next := curve.child(current, segments[i]);
      if next.None? {
        return None;
      }
      current := next.value;
    }
    return Some(current);
  }

  /** derivePubkeyAt: push the segments, overwrite the last, push the index, derive. */
  method DerivePubkeyAtLoop(lib: Library, curve: Curve, key: KeyExpression, index: nat, change: bool)
    returns (r: Result<seq<byte>, Refusal>)
    ensures r == DerivePubkeyAt(lib, curve, key, index, change)
  {
    hide ReadSegments, Descend, HexBytes, Split;
    if key.RawKey? {
      return Ok(HexBytes(key.hex));
    }
    var read := SegmentsLoop(key.path);
    if read.Err? {
      return Err(read.error);
    }
    var segments := read.value;
    if key.multipath.Some? {
      var branches := key.multipath.value;
      if (if change then 1 else 0) >= |branches| {
        return Err(NoBranches);
      }
      if segments == [] {
        return Err(NoBranchSegment);
      }
      segments := segments[..|segments| - 1] + [branches[if change then 1 else 0]];
    }
    if key.ranged {
      segments := segments + [index];
    }
    var raw := lib.decode58(key.xpub);
    if raw.None? {
      return Err(NotBase58);
    }
    if |raw.value| != 82 {
      return Err(WrongKeyLength);
    }
    var derived := DescendLoop(curve, raw.value[4..78], segments);
    if derived.None? {
      return Err(NoPublicKey);
    }
    return Ok(curve.publicKey(derived.value));
  }

  // ----- stored paths

  predicate AllPlainSteps(steps: seq<nat>) {
    forall i :: 0 <= i < |steps| ==> steps[i] < HARDENED_OFFSET
  }

  lemma PlainSegment(step: nat)
    requires step < 2 * HARDENED_OFFSET
    ensures StepText(step) != "" && StepText(step) != "m"
    ensures ReadSegment(StepText(step)) == if step < HARDENED_OFFSET then Ok(step) else Err(HardenedStep)
  {
    var text := StepText(step);
    if step < HARDENED_OFFSET {
      NatRoundTrip(step);
      assert IsDigit(text[|text| - 1]);
    }
    assert text[0] in text;
    assert text != "m" by {
      assert text[0] != 'm';
    }
  }

  lemma {:induction false} StepTextsSegments(steps: seq<nat>)
    requires InRange(steps)
    ensures ReadSegments(StepTexts(steps)) == if AllPlainSteps(steps) then Ok(steps) else Err(HardenedStep)
  {
    hide StepText, ReadSegment;
    if steps != [] {
      PlainSegment(steps[0]);
      StepTextsSegments(steps[1..]);
      assert steps == [steps[0]] + steps[1..];
      assert AllPlainSteps(steps) <==> steps[0] < HARDENED_OFFSET && AllPlainSteps(steps[1..]) by {
        assert forall i :: 0 < i < |steps| ==> steps[i] == steps[1..][i - 1];
      }
    }
  }

  /** A stored path is read as its steps, and refused when one of them is hardened. */
  lemma StoredPathSegments(steps: seq<nat>)
    requires InRange(steps)
    ensures ReadSegments(Split(StepPath(steps), '/')) == if AllPlainSteps(steps) then Ok(steps) else Err(HardenedStep)
  {
    hide Split, StepTexts, StepText;
    if steps == [] {
      assert Split("", '/') == [""] by {
        SplitNothing("", '/');
      }
      SkipOnly();
    } else {
      SplitSteps("m", steps);
      SkipRoot(StepTexts(steps));
      StepTextsSegments(steps);
    }
  }

  lemma SkipOnly()
    ensures ReadSegments([""]) == Ok([])
  {
    assert [""][1..] == [];
  }

  lemma SkipRoot(parts: seq<string>)
    ensures ReadSegments(["m"] + parts) == ReadSegments(parts)
  {
    assert (["m"] + parts)[1..] == parts;
  }

  /** What is derived from a key depends on its payload and its steps alone. */
  lemma DeriveByPayload(lib: Library, curve: Curve, a: KeyExpression, b: KeyExpression, index: nat, change: bool)
    requires a.ExtendedKey? && b.ExtendedKey? && a.path == b.path && a.ranged == b.ranged && a.multipath == b.multipath
    requires lib.decode58(a.xpub).Some? && |lib.decode58(a.xpub).value| == 82
    requires lib.decode58(b.xpub).Some? && |lib.decode58(b.xpub).value| == 82
    requires Payload(lib, a.xpub) == Payload(lib, b.xpub)
    ensures DerivePubkeyAt(lib, curve, a, index, change) == DerivePubkeyAt(lib, curve, b, index, change)
  {
    hide ReadSegments, Split;
  }

  /**
   * The canonical text of a key derives what the typed text derives, at every
   * index and on both branches: the rewriting never changes an address.
   */
  lemma CanonicalDerivesSame(lib: Library, curve: Curve, text: string, index: nat, change: bool)
    requires Lawful(lib) && ParseKeyExpression(lib, text).Ok?
    ensures CanonicalKeyExpression(lib, text).Ok?
    ensures var again := ParseKeyExpression(lib, CanonicalKeyExpression(lib, text).value);
            again.Ok? && DerivePubkeyAt(lib, curve, again.value, index, change) ==
                         DerivePubkeyAt(lib, curve, ParseKeyExpression(lib, text).value, index, change)
  {
    hide ParseKeyExpression, CanonicalKeyExpression, DerivePubkeyAt, StandardPrefix, AssertExtendedKey, Lawful, Payload, LooksExtended;
    CanonicalKeepsMeaning(lib, text);
    var key := ParseKeyExpression(lib, text).value;
    if key.ExtendedKey? {
      ParsedKeyDecodes(lib, text);
      StandardPrefixOk(lib, key.xpub);
      ExtendedDecodes(lib, StandardPrefix(lib, key.xpub));
      DeriveByPayload(lib, curve, Standardised(lib, key), key, index, change);
    }
  }
}
