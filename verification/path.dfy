/** BIP-32 derivation paths: packages/core/src/derive/path.ts. */
module Path {
  import opened Text

  /** The first hardened index, 2^31. */
  const HARDENED_OFFSET: nat := 0x8000_0000

  datatype PathError = EmptyPath | NoRoot | EmptyComponent | NotANumber | OutOfRange

  datatype ParsedPath = ParsedPath(canonical: string, indices: seq<nat>)

  /** The two spellings of a hardened step, and the third a plain path reads. */
  predicate IsMarker(c: char) {
    c == '\'' || c == 'h' || c == 'H'
  }

  /** One component of a path, as the index it names. */
  function ParseStep(segment: string): (r: Result<nat, PathError>)
    ensures r.Ok? ==> r.value < 2 * HARDENED_OFFSET
  {
    if segment == "" then Err(EmptyComponent)
    else
      var hardened := IsMarker(segment[|segment| - 1]);
      var digits := if hardened then segment[..|segment| - 1] else segment;
      if !AllDigits(digits) then Err(NotANumber)
      else
        var index := ToNat(digits);
        if index >= HARDENED_OFFSET then Err(OutOfRange)
        else Ok(if hardened then index + HARDENED_OFFSET else index)
  }

  /** An index as the canonical form writes it. */
  function StepText(index: nat): (s: string)
    ensures s != "" && forall c :: c in s ==> IsDigit(c) || c == '\''
  {
    if index >= HARDENED_OFFSET then OfNat(index - HARDENED_OFFSET) + "'" else OfNat(index)
  }

  function ParseSteps(segments: seq<string>): (r: Result<seq<nat>, PathError>)
    ensures r.Ok? ==> |r.value| == |segments| && InRange(r.value)
  {
    if segments == [] then Ok([])
    else
      var first :- ParseStep(segments[0]);
      var rest :- ParseSteps(segments[1..]);
      Ok([first] + rest)
  }

  function StepTexts(indices: seq<nat>): (r: seq<string>) {
    if indices == [] then [] else [StepText(indices[0])] + StepTexts(indices[1..])
  }

  /** The steps below the root, each behind its slash. */
  function StepsText(indices: seq<nat>): string {
    if indices == [] then "" else "/" + StepText(indices[0]) + StepsText(indices[1..])
  }

  /** Indices back to a canonical path string. */
  function FormatPath(indices: seq<nat>): string {
    "m" + StepsText(indices)
  }

  /** What parsePath computes; the loop itself is ParsePathLoop. */
  function ParsePath(path: string): (r: Result<ParsedPath, PathError>)
    ensures r.Ok? ==> InRange(r.value.indices) && r.value.canonical == FormatPath(r.value.indices)
  {
    var trimmed := Trim(path);
    if trimmed == "" then Err(EmptyPath) else ParseSegments(Split(trimmed, '/'))
  }

  function ParseSegments(segments: seq<string>): (r: Result<ParsedPath, PathError>)
    requires segments != []
    ensures r.Ok? ==> InRange(r.value.indices) && r.value.canonical == FormatPath(r.value.indices)
  {
    if segments[0] != "m" && segments[0] != "M" then Err(NoRoot)
    else
      var indices :- ParseSteps(segments[1..]);
      Ok(ParsedPath(FormatPath(indices), indices))
  }

  /** Indices a 32-bit child number can hold. */
  predicate InRange(indices: seq<nat>) {
    forall i :: 0 <= i < |indices| ==> indices[i] < 0x1_0000_0000
  }

  lemma {:induction false} StepTextsAppend(indices: seq<nat>, index: nat)
    ensures StepTexts(indices + [index]) == StepTexts(indices) + [StepText(index)]
  {
    if indices != [] {
      StepTextsAppend(indices[1..], index);
      assert (indices + [index])[1..] == indices[1..] + [index];
    }
  }

  /** Joining a head and the step texts with slashes is writing the path. */
  lemma {:induction false} JoinIsFormat(head: string, indices: seq<nat>)
    ensures Join([head] + StepTexts(indices), '/') == head + StepsText(indices)
    decreases indices
  {
    var parts := [head] + StepTexts(indices);
    if indices != [] {
      JoinIsFormat(StepText(indices[0]), indices[1..]);
      assert parts[1..] == [StepText(indices[0])] + StepTexts(indices[1..]);
    }
  }

  /** What the components still to read add to the ones already read. */
  function Continue(read: seq<nat>, rest: Result<seq<nat>, PathError>): Result<seq<nat>, PathError> {
    match rest
    case Ok(more) => Ok(read + more)
    case Err(e) => Err(e)
  }

  lemma ContinueStep(read: seq<nat>, segments: seq<string>)
    requires segments != [] && ParseStep(segments[0]).Ok?
    ensures Continue(read, ParseSteps(segments)) ==
            Continue(read + [ParseStep(segments[0]).value], ParseSteps(segments[1..]))
  {
    var more := ParseSteps(segments[1..]);
    if more.Ok? {
      var step := ParseStep(segments[0]).value;
      assert read + ([step] + more.value) == (read + [step]) + more.value;
    }
  }

  /** The loop of parsePath, pushing one index and one canonical segment per component. */
  method ReadSteps(segments: seq<string>) returns (r: Result<seq<nat>, PathError>, canonicalSegments: seq<string>)
    requires segments != []
    ensures r == ParseSteps(segments[1..])
    ensures r.Ok? ==> canonicalSegments == ["m"] + StepTexts(r.value)
  {
    var indices: seq<nat> := [];
    canonicalSegments := ["m"];
    assert Continue(indices, ParseSteps(segments[1..])) == ParseSteps(segments[1..]) by {
      var all := ParseSteps(segments[1..]);
      assert all.Ok? ==> [] + all.value == all.value;
    }
    var i := 1;
    while i < |segments|
      invariant 1 <= i <= |segments|
      invariant canonicalSegments == ["m"] + StepTexts(indices)
      invariant Continue(indices, ParseSteps(segments[i..])) == ParseSteps(segments[1..])
    {
      var step := ParseStep(segments[i]);
      assert segments[i..][0] == segments[i] && segments[i..][1..] == segments[i + 1..];
      if step.Err? {
        return Err(step.error), [];
      }
      ContinueStep(indices, segments[i..]);
      StepTextsAppend(indices, step.value);
      indices := indices + [step.value];
      canonicalSegments := canonicalSegments + [StepText(step.value)];
      i := i + 1;
    }
    assert indices + [] == indices;
    r := Ok(indices);
  }

  method ParsePathLoop(path: string) returns (r: Result<ParsedPath, PathError>)
    ensures r == ParsePath(path)
  {
    var trimmed := Trim(path);
    if trimmed == "" {
      return Err(EmptyPath);
    }
    var segments := Split(trimmed, '/');
    if segments[0] != "m" && segments[0] != "M" {
      return Err(NoRoot);
    }
    var indices, canonicalSegments := ReadSteps(segments);
    if indices.Err? {
      return Err(indices.error);
    }
    JoinIsFormat("m", indices.value);
    return Ok(ParsedPath(Join(canonicalSegments, '/'), indices.value));
  }

  lemma StepRoundTrip(index: nat)
    requires index < 2 * HARDENED_OFFSET
    ensures ParseStep(StepText(index)) == Ok(index)
  {
    var text := StepText(index);
    if index >= HARDENED_OFFSET {
      NatRoundTrip(index - HARDENED_OFFSET);
      assert text[..|text| - 1] == OfNat(index - HARDENED_OFFSET);
    } else {
      NatRoundTrip(index);
      assert IsDigit(text[|text| - 1]);
    }
  }

  lemma {:induction false} StepsRoundTrip(indices: seq<nat>)
    requires InRange(indices)
    ensures ParseSteps(StepTexts(indices)) == Ok(indices)
  {
    hide StepText, ParseStep;
    if indices != [] {
      var first, rest := indices[0], indices[1..];
      StepRoundTrip(first);
      StepsRoundTrip(rest);
      var texts := StepTexts(indices);
      assert texts[0] == StepText(first) && texts[1..] == StepTexts(rest);
      assert indices == [first] + rest;
    }
  }

  lemma {:induction false} SplitSteps(head: string, indices: seq<nat>)
    requires '/' !in head
    ensures Split(head + StepsText(indices), '/') == [head] + StepTexts(indices)
    decreases indices
  {
    hide StepText, Split;
    if indices == [] {
      SplitNothing(head, '/');
      assert head + "" == head;
    } else {
      var rest := StepText(indices[0]) + StepsText(indices[1..]);
      assert head + StepsText(indices) == head + "/" + rest;
      SplitSteps(StepText(indices[0]), indices[1..]);
      SplitPrefix(head, rest, '/');
    }
  }

  predicate IsStepChar(c: char) {
    c == '/' || IsDigit(c) || c == '\''
  }

  lemma {:induction false} StepsChars(indices: seq<nat>)
    ensures forall c :: c in StepsText(indices) ==> IsStepChar(c)
    ensures indices != [] ==> StepsText(indices) != "" && StepsText(indices)[0] == '/'
  {
    if indices != [] {
      StepsChars(indices[1..]);
    }
  }

  /** A canonical path needs no trimming. */
  lemma FormatTrimmed(indices: seq<nat>)
    ensures Trimmed(FormatPath(indices))
  {
    StepsChars(indices);
    var text := FormatPath(indices);
    if StepsText(indices) != "" {
      assert text[|text| - 1] in StepsText(indices);
    }
  }

  lemma SegmentsRoundTrip(indices: seq<nat>)
    requires InRange(indices)
    ensures ParseSegments(["m"] + StepTexts(indices)) == Ok(ParsedPath(FormatPath(indices), indices))
  {
    StepsRoundTrip(indices);
    var segments := ["m"] + StepTexts(indices);
    assert segments[1..] == StepTexts(indices);
  }

  /** Every 32-bit index list survives being written and read back. */
  lemma PathRoundTrip(indices: seq<nat>)
    requires InRange(indices)
    ensures ParsePath(FormatPath(indices)) == Ok(ParsedPath(FormatPath(indices), indices))
  {
    FormatTrimmed(indices);
    SplitSteps("m", indices);
    SegmentsRoundTrip(indices);
  }

  /** A step as BIP-32 paths write it: a number below 2^31, and a marker after it when it is hardened. */
  ghost predicate StepWritten(segment: string, index: nat) {
    exists digits, marker :: segment == digits + marker && AllDigits(digits) && ToNat(digits) < 0x8000_0000 &&
      marker in ["", "'", "h", "H"] && index == ToNat(digits) + if marker == "" then 0 else 0x8000_0000
  }

  lemma StepMeans(segment: string, index: nat)
    ensures ParseStep(segment) == Ok(index) <==> StepWritten(segment, index)
  {
    hide ToNat, ParseStep;
    if ParseStep(segment) == Ok(index) {
      StepRead(segment, index);
    }
    if digits, marker :| segment == digits + marker && AllDigits(digits) && ToNat(digits) < 0x8000_0000 &&
                         marker in ["", "'", "h", "H"] && index == ToNat(digits) + if marker == "" then 0 else 0x8000_0000 {
      StepOf(digits, marker);
    }
  }

  lemma StepRead(segment: string, index: nat)
    requires ParseStep(segment) == Ok(index)
    ensures StepWritten(segment, index)
  {
    hide ToNat;
    var last := segment[|segment| - 1];
    if IsMarker(last) {
      assert segment == segment[..|segment| - 1] + [last];
    } else {
      assert segment == segment + "";
    }
  }

  lemma StepOf(digits: string, marker: string)
    requires AllDigits(digits) && ToNat(digits) < 0x8000_0000 && marker in ["", "'", "h", "H"]
    ensures ParseStep(digits + marker) == Ok(ToNat(digits) + if marker == "" then 0 else 0x8000_0000)
  {
    hide ToNat;
    var segment := digits + marker;
    if marker == "" {
      assert segment == digits;
    } else {
      assert segment[..|segment| - 1] == digits && segment[|segment| - 1] == marker[0];
    }
  }

  /** What a path text means, exactly: an m, in either case, and a step behind every slash. */
  lemma PathMeans(path: string, indices: seq<nat>)
    ensures (ParsePath(path).Ok? && ParsePath(path).value.indices == indices) <==>
            var parts := Split(Trim(path), '/');
            && (parts[0] == "m" || parts[0] == "M") && |parts| == |indices| + 1
            && forall i :: 0 <= i < |indices| ==> StepWritten(parts[i + 1], indices[i])
  {
    hide ParseStep, StepWritten, Split, Trim, FormatPath;
    var parts := Split(Trim(path), '/');
    StepsMean(parts[1..], indices);
    assert forall i :: 0 <= i < |parts| - 1 ==> parts[1..][i] == parts[i + 1];
    EmptyParts(path);
  }

  lemma EmptyParts(path: string)
    ensures Trim(path) == "" ==> Split(Trim(path), '/') == [""]
  {
    hide Trim;
  }

  lemma {:induction false} StepsMean(segments: seq<string>, indices: seq<nat>)
    ensures ParseSteps(segments) == Ok(indices) <==>
            |segments| == |indices| && forall i :: 0 <= i < |indices| ==> StepWritten(segments[i], indices[i])
    decreases |segments|
  {
    hide ParseStep, StepWritten;
    if segments != [] && indices != [] {
      StepsMean(segments[1..], indices[1..]);
      StepMeans(segments[0], indices[0]);
      assert indices == [indices[0]] + indices[1..];
      assert forall i :: 0 < i < |segments| ==> segments[i] == segments[1..][i - 1];
      assert forall i :: 0 < i < |indices| ==> indices[i] == indices[1..][i - 1];
      assert forall i :: 0 <= i < |indices| - 1 ==> indices[1..][i] == indices[i + 1];
      assert forall i :: 0 <= i < |segments| - 1 ==> segments[1..][i] == segments[i + 1];
    }
  }

  /**
   * Two readable paths have the same canonical text exactly when they name the
   * same derivation, and the canonical text is its own canonical text.
   */
  lemma CanonicalDecides(a: string, b: string)
    requires ParsePath(a).Ok? && ParsePath(b).Ok?
    ensures ParsePath(a).value.canonical == ParsePath(b).value.canonical <==>
            ParsePath(a).value.indices == ParsePath(b).value.indices
    ensures ParsePath(ParsePath(a).value.canonical) == ParsePath(a)
  {
    PathRoundTrip(ParsePath(a).value.indices);
    PathRoundTrip(ParsePath(b).value.indices);
  }
}
