/**
 * What a multipath element stands for: packages/core/src/descriptor/parse.ts,
 * lines 355 to 441, read with packages/core/src/descriptor/derive-key.ts, lines 32 to 96.
 */
module Multipath {
  import opened Text
  import opened Path
  import opened Keys
  import opened Spelling
  import opened Canonical
  import opened Script
  import opened KeyPrinting
  import opened Derive

  // ----- the textual expansion of BIP-389

  /** A suffix with its multipath element replaced by one of the alternatives. */
  function Expand(suffix: string, which: nat): string {
    var open, close := IndexOf(suffix, '<'), IndexOf(suffix, '>');
    if open == -1 || close < open then suffix
    else
      var options := Split(suffix[open + 1..close], ';');
      if which >= |options| then suffix else suffix[..open] + options[which] + suffix[close + 1..]
  }

  /** What stands between the last slash and the element. */
  function StepHead(suffix: string): string {
    var open := IndexOf(suffix, '<');
    if open == -1 then "" else suffix[LastIndexOf(suffix[..open], '/') + 1..open]
  }

  /** The element replaces a whole step, give or take leading zeros. */
  predicate WholeElement(suffix: string) {
    forall i :: 0 <= i < |StepHead(suffix)| ==> StepHead(suffix)[i] == '0'
  }

  /** A key expression with its suffix expanded. */
  function ExpandedText(trimmed: string, which: nat): string {
    var rest := AfterOrigin(trimmed);
    trimmed[..|trimmed| - |rest|] + (KeyText(rest) + Expand(SuffixText(rest), which))
  }

  // ----- numbers

  lemma {:induction false} ZeroHead(h: string, d: string)
    requires forall i :: 0 <= i < |h + d| ==> IsDigit((h + d)[i])
    ensures (forall i :: 0 <= i < |h| ==> IsDigit(h[i])) && (forall i :: 0 <= i < |d| ==> IsDigit(d[i]))
    ensures ToNat(h) == 0 ==> ToNat(h + d) == ToNat(d)
    ensures ToNat(h) > 0 ==> ToNat(h + d) > ToNat(d)
    decreases |d|
  {
    assert forall i :: 0 <= i < |h| ==> h[i] == (h + d)[i];
    assert forall i :: 0 <= i < |d| ==> d[i] == (h + d)[|h| + i];
    if d == "" {
      assert h + d == h;
    } else {
      assert (h + d)[..|h + d| - 1] == h + d[..|d| - 1];
      ZeroHead(h, d[..|d| - 1]);
    }
  }

  lemma {:induction false} ZeroMeans(h: string)
    requires forall i :: 0 <= i < |h| ==> IsDigit(h[i])
    ensures ToNat(h) == 0 <==> forall i :: 0 <= i < |h| ==> h[i] == '0'
  {
    if h != "" {
      ZeroMeans(h[..|h| - 1]);
    }
  }

  /** An alternative behind leading zeros is the step it names; behind anything else it is another. */
  lemma AlternativeStep(h: string, option: string)
    requires (forall i :: 0 <= i < |h| ==> IsDigit(h[i])) && ParseAlternative(option).Ok?
    ensures ParseStep(h + option) == Ok(ParseAlternative(option).value) <==> forall i :: 0 <= i < |h| ==> h[i] == '0'
  {
    hide ToNat;
    var hardened := IsTick(option[|option| - 1]);
    var digits := if hardened then option[..|option| - 1] else option;
    var segment := h + option;
    assert segment[|segment| - 1] == option[|option| - 1];
    assert (if hardened then segment[..|segment| - 1] else segment) == h + digits;
    assert AllDigits(h + digits) by {
      assert forall i :: 0 <= i < |h + digits| ==> IsDigit((h + digits)[i]);
    }
    assert IsMarker(option[|option| - 1]) == hardened by {
      assert !hardened ==> IsDigit(option[|option| - 1]);
    }
    ZeroHead(h, digits);
    ZeroMeans(h);
  }

  lemma PlaceholderStep(h: string)
    requires ParseStep(h + "0").Ok?
    ensures (forall i :: 0 <= i < |h| ==> IsDigit(h[i])) && ParseStep(h + "0").value < HARDENED_OFFSET
  {
    assert (h + "0")[|h|] == '0';
    assert forall i :: 0 <= i < |h| ==> h[i] == (h + "0")[i];
  }

  // ----- the last step of a path

  lemma SplitStep(s: string, sep: char)
    requires s != ""
    ensures var rest := Split(s[1..], sep);
            Split(s, sep) == if s[0] == sep then [""] + rest else [[s[0]] + rest[0]] + rest[1..]
  {
  }

  lemma {:induction false} SplitLast(a: string, b: string, sep: char)
    requires sep !in b
    ensures Split(a + [sep] + b, sep) == Split(a, sep) + [b]
  {
    hide Split;
    var s := a + [sep] + b;
    SplitStep(s, sep);
    if a == "" {
      assert s[1..] == b;
      SplitNothing(b, sep);
      SplitNothing("", sep);
    } else {
      var tail := a[1..];
      SplitLast(tail, b, sep);
      SplitStep(a, sep);
      assert s[0] == a[0] && s[1..] == tail + [sep] + b;
      var rest := Split(tail, sep);
      assert (rest + [b])[0] == rest[0] && (rest + [b])[1..] == rest[1..] + [b];
    }
  }

  lemma {:induction false} StepsLast(segments: seq<string>, last: string)
    ensures ParseSteps(segments + [last]).Ok? <==> ParseSteps(segments).Ok? && ParseStep(last).Ok?
    ensures ParseSteps(segments + [last]).Ok? ==>
              ParseSteps(segments + [last]).value == ParseSteps(segments).value + [ParseStep(last).value]
    decreases |segments|
  {
    hide ParseStep;
    if segments == [] {
      assert segments + [last] == [last];
      assert [last][1..] == [];
    } else {
      StepsLast(segments[1..], last);
      assert (segments + [last])[1..] == segments[1..] + [last];
    }
  }

  /** The steps before the last slash of a path. */
  function Above(p: string): Result<ParsedPath, PathError> {
    ParseSegments(Split("m" + p, '/'))
  }

  /** A path is the steps before its last slash and then its last step. */
  lemma PathLast(p: string, last: string)
    requires last != "" && !IsSpace(last[|last| - 1]) && '/' !in last
    ensures var whole := ParsePath("m" + p + "/" + last);
            && (whole.Ok? <==> Above(p).Ok? && ParseStep(last).Ok?)
            && (whole.Ok? ==> whole.value.indices == Above(p).value.indices + [ParseStep(last).value])
  {
    hide Split, ParseSteps, ParseStep;
    var path := "m" + p + "/" + last;
    var parts := Split("m" + p, '/');
    assert path[0] == 'm' && path[|path| - 1] == last[|last| - 1];
    assert Trim(path) == path;
    SplitLast("m" + p, last, '/');
    assert (parts + [last])[1..] == parts[1..] + [last];
    StepsLast(parts[1..], last);
  }

  // ----- one suffix and its expansion

  function Tail(ranged: bool): string {
    if ranged then "/*" else ""
  }

  /** An accepted suffix with a multipath element, cut at its last slash and its brackets. */
  ghost predicate Pieces(suffix: string, p: string, h: string, element: string, ranged: bool) {
    && suffix == p + "/" + h + "<" + element + ">" + Tail(ranged)
    && '/' !in h && '<' !in p + "/" + h && '<' !in element && '>' !in p + "/" + h && '>' !in element
    && ParseMultipath(element).Ok? && Above(p).Ok? && ParseStep(h + "0").Ok? && 'H' !in suffix
  }

  lemma PiecesPlaces(suffix: string, p: string, h: string, element: string, ranged: bool)
    requires Pieces(suffix, p, h, element, ranged)
    ensures var open := |p| + 1 + |h|;
            && IndexOf(suffix, '<') == open && IndexOf(suffix, '>') == open + 1 + |element|
            && suffix[..open] == p + "/" + h && suffix[open + 1..open + 1 + |element|] == element
            && suffix[open + 2 + |element|..] == Tail(ranged) && '/' !in h && |suffix| >= open
  {
    hide ParseMultipath, ParseStep, Above, IndexOf;
    Places(p + "/" + h, element, Tail(ranged));
  }

  lemma Places(before: string, element: string, tail: string)
    requires '<' !in before && '>' !in before && '<' !in element && '>' !in element
    ensures var suffix, open := before + "<" + element + ">" + tail, |before|;
            && IndexOf(suffix, '<') == open && IndexOf(suffix, '>') == open + 1 + |element|
            && suffix[..open] == before && suffix[open + 1..open + 1 + |element|] == element
            && suffix[open + 2 + |element|..] == tail
  {
    hide IndexOf;
    var body := before + "<" + element + ">";
    BodyPlaces(before, element);
    BodyAt(body + tail, body, tail);
    IndexOfAt(body + tail, '<', |before|);
    IndexOfAt(body + tail, '>', |before| + 1 + |element|);
    BodySlices(before, element, tail);
  }

  lemma BodySlices(before: string, element: string, tail: string)
    ensures var suffix, open := before + "<" + element + ">" + tail, |before|;
            && suffix[..open] == before && suffix[open + 1..open + 1 + |element|] == element
            && suffix[open + 2 + |element|..] == tail
  {
  }

  lemma BodyAt(suffix: string, body: string, tail: string)
    requires suffix == body + tail
    ensures forall k :: 0 <= k < |body| ==> suffix[k] == body[k]
  {
  }

  lemma PiecesHead(suffix: string, p: string, h: string, element: string, ranged: bool)
    requires Pieces(suffix, p, h, element, ranged)
    ensures StepHead(suffix) == h
  {
    hide *;
    PiecesPlaces(suffix, p, h, element, ranged);
    HeadFrom(suffix, p, h);
  }

  lemma HeadFrom(suffix: string, p: string, h: string)
    requires '/' !in h && |p| + 1 + |h| <= |suffix|
    requires IndexOf(suffix, '<') == |p| + 1 + |h| && suffix[..|p| + 1 + |h|] == p + "/" + h
    ensures StepHead(suffix) == h
  {
    hide *;
    LastSlash(p, h);
    HeadOf(suffix, |p| + 1 + |h|, |p|);
    SliceOf(suffix, |p| + 1 + |h|, |p| + 1);
    AfterSlash(p, h);
  }

  lemma AfterSlash(p: string, h: string)
    ensures (p + "/" + h)[|p| + 1..] == h
  {
  }

  lemma HeadOf(suffix: string, open: nat, slash: nat)
    requires open <= |suffix| && IndexOf(suffix, '<') == open && LastIndexOf(suffix[..open], '/') == slash < open
    ensures StepHead(suffix) == suffix[slash + 1..open]
  {
    hide IndexOf, LastIndexOf;
  }

  lemma SliceOf(s: string, hi: nat, lo: nat)
    requires lo <= hi <= |s|
    ensures s[lo..hi] == s[..hi][lo..]
  {
  }

  lemma LastSlash(p: string, h: string)
    requires '/' !in h
    ensures LastIndexOf(p + "/" + h, '/') == |p|
  {
    hide LastIndexOf;
    var before := p + ("/" + h);
    Regroup(p, "/", h);
    assert before[|p|] == '/';
    assert forall k :: |p| < k < |before| ==> before[k] in h;
  }

  lemma PiecesExpand(suffix: string, p: string, h: string, element: string, ranged: bool, which: nat)
    requires Pieces(suffix, p, h, element, ranged) && which < |Split(element, ';')|
    ensures Expand(suffix, which) == p + "/" + (h + Split(element, ';')[which]) + Tail(ranged)
  {
    hide IndexOf, Split, Pieces, Tail;
    PiecesPlaces(suffix, p, h, element, ranged);
    ExpandAt(suffix, p + "/" + h, element, Tail(ranged), which);
    assert (p + "/" + h) + Split(element, ';')[which] == p + "/" + (h + Split(element, ';')[which]);
  }

  lemma ExpandAt(suffix: string, before: string, element: string, tail: string, which: nat)
    requires var open, close := IndexOf(suffix, '<'), IndexOf(suffix, '>');
             && open == |before| && close == open + 1 + |element| && suffix[..open] == before
             && suffix[open + 1..close] == element && suffix[close + 1..] == tail
    requires which < |Split(element, ';')|
    ensures Expand(suffix, which) == before + Split(element, ';')[which] + tail
  {
    hide IndexOf, Split;
  }

  lemma {:induction false} AlternativeOf(options: seq<string>, which: nat)
    requires ParseAlternatives(options).Ok? && which < |options|
    ensures ParseAlternative(options[which]) == Ok(ParseAlternatives(options).value[which])
    decreases options, which
  {
    hide ParseAlternative;
    if which > 0 {
      AlternativeOf(options[1..], which - 1);
    }
  }

  predicate EndsLikeStep(s: string) {
    s != "" && (IsDigit(s[|s| - 1]) || (|s| >= 2 && IsTick(s[|s| - 1]) && IsDigit(s[|s| - 2])))
  }

  lemma AlternativeEnds(option: string)
    requires ParseAlternative(option).Ok?
    ensures EndsLikeStep(option) && forall c :: c in option ==> IsDigit(c) || IsTick(c)
  {
    var last := |option| - 1;
    if IsTick(option[last]) {
      assert AllDigits(option[..last]);
      assert IsDigit(option[..last][last - 1]);
    }
  }

  lemma EndsLikeStepAfter(a: string, s: string)
    requires EndsLikeStep(s)
    ensures EndsLikeStep(a + s)
  {
  }

  /** A suffix that ends in a step and then perhaps a wildcard is read by its path. */
  lemma PlainSuffixReads(body: string, ranged: bool)
    requires EndsLikeStep(body) && 'H' !in body && '<' !in body
    ensures ParseDerivation(body + Tail(ranged)) ==
            match ParsePath("m" + body)
            case Ok(parsed) => Ok(Derivation(parsed.canonical, ranged, None))
            case Err(_) => Err(BadDerivation)
  {
    hide IndexOf, ParsePath, EndsWith;
    var suffix := body + Tail(ranged);
    EndsWithTwo(suffix, '/', '*');
    EndsWithThree(suffix, '\'');
    EndsWithThree(suffix, 'h');
    if ranged {
      assert suffix[..|suffix| - 2] == body;
      assert suffix[|suffix| - 2] == '/' && suffix[|suffix| - 1] == '*';
    } else {
      assert suffix == body;
    }
    assert IndexOf(body, '<') == -1;
  }

  /** What an accepted suffix with an element stores. */
  lemma PiecesRead(suffix: string, p: string, h: string, element: string, ranged: bool)
    requires Pieces(suffix, p, h, element, ranged)
    ensures ParseDerivation(suffix) ==
            Ok(Derivation(FormatPath(Above(p).value.indices + [ParseStep(h + "0").value]), ranged, Some(ParseMultipath(element).value)))
  {
    hide IndexOf, ParsePath, EndsWith, ParseMultipath, ParseStep, FormatPath, TakeMultipath, Above;
    var before := p + "/" + h;
    var body := before + "<" + element + ">";
    assert suffix == body + Tail(ranged);
    BodyTaken(before, element);
    assert "m" + (before + "0") == "m" + p + "/" + (h + "0");
    assert (h + "0")[|h|] == '0' && forall c :: c in h + "0" ==> c in h || c == '0';
    PathLast(p, h + "0");
    EndsWithTwo(suffix, '/', '*');
    EndsWithThree(suffix, '\'');
    EndsWithThree(suffix, 'h');
    if ranged {
      assert suffix[..|suffix| - 2] == body;
      assert suffix[|suffix| - 2] == '/' && suffix[|suffix| - 1] == '*';
    } else {
      assert suffix == body && suffix[|suffix| - 1] == '>';
    }
  }

  lemma BodyTaken(before: string, element: string)
    requires '<' !in before && '>' !in before && '<' !in element && '>' !in element && ParseMultipath(element).Ok?
    ensures TakeMultipath(before + "<" + element + ">") == Ok((before + "0", Some(ParseMultipath(element).value)))
  {
    hide IndexOf, ParseMultipath;
    var working := before + "<" + element + ">";
    var open := |before|;
    var close := open + 1 + |element|;
    BodyPlaces(before, element);
    IndexOfAt(working, '<', open);
    IndexOfAt(working, '>', close);
    assert working[open + 1..close] == element && working[open + 1..] == element + ">";
    assert working[..open] + "0" + working[close + 1..] == before + "0";
  }

  lemma BodyPlaces(before: string, element: string)
    requires '<' !in before && '>' !in before && '<' !in element && '>' !in element
    ensures var working := before + "<" + element + ">";
            var open := |before|;
            var close := open + 1 + |element|;
            && |working| == close + 1 && working[open] == '<' && working[close] == '>'
            && (forall k :: 0 <= k < open ==> working[k] != '<') && (forall k :: 0 <= k < close ==> working[k] != '>')
  {
    var working := before + "<" + element + ">";
    forall k | 0 <= k < |before| + 1 + |element|
      ensures working[k] != '>' && (k < |before| ==> working[k] != '<')
    {
      if k < |before| {
        assert working[k] == before[k];
      } else if k > |before| {
        assert working[k] == element[k - |before| - 1];
      }
    }
  }

  /** The expansion is read by the steps before the element and then the chosen alternative. */
  lemma PiecesExpandRead(suffix: string, p: string, h: string, element: string, ranged: bool, which: nat)
    requires Pieces(suffix, p, h, element, ranged) && which < |Split(element, ';')|
    ensures var step := ParseStep(h + Split(element, ';')[which]);
            ParseDerivation(Expand(suffix, which)) ==
            if step.Ok? then Ok(Derivation(FormatPath(Above(p).value.indices + [step.value]), ranged, None)) else Err(BadDerivation)
  {
    hide Split, ParsePath, ParseStep, FormatPath, Above, Expand, IndexOf, ParseDerivation, ParseAlternative;
    var option := Split(element, ';')[which];
    PiecesExpand(suffix, p, h, element, ranged, which);
    AlternativeOf(Split(element, ';'), which);
    AlternativeEnds(option);
    var body := p + "/" + (h + option);
    EndsLikeStepAfter(h, option);
    EndsLikeStepAfter(p + "/", h + option);
    PiecesChars(suffix, p, h, element, ranged, option);
    PlainSuffixReads(body, ranged);
    assert "m" + body == "m" + p + "/" + (h + option);
    StepNotSpace(h + option);
    PathLast(p, h + option);
  }

  lemma StepNotSpace(s: string)
    requires EndsLikeStep(s)
    ensures !IsSpace(s[|s| - 1])
  {
  }

  lemma PiecesChars(suffix: string, p: string, h: string, element: string, ranged: bool, option: string)
    requires Pieces(suffix, p, h, element, ranged) && forall c :: c in option ==> IsDigit(c) || IsTick(c)
    ensures var body := p + "/" + (h + option);
            'H' !in body && '<' !in body && '/' !in h + option
  {
    hide ParseMultipath, ParseStep, Above;
    forall c | c in p + "/" + (h + option)
      ensures c != 'H' && c != '<'
    {
      if c !in option {
        assert c in p + "/" + h;
        assert c in suffix;
      }
    }
  }

  // ----- taking an accepted suffix apart

  lemma TakenApart(working: string)
    requires TakeMultipath(working).Ok? && TakeMultipath(working).value.1.Some?
    ensures var (open, close) := (IndexOf(working, '<'), |working| - 1);
            && 0 <= open < close && working[close] == '>' && working[open] == '<'
            && ParseMultipath(working[open + 1..close]).Ok?
            && TakeMultipath(working).value.0 == working[..open] + "0"
            && '<' !in working[..open] && '>' !in working[..open]
            && '<' !in working[open + 1..close] && '>' !in working[open + 1..close]
  {
    hide ParseMultipath, IndexOf;
    var open, close := TakenPlaces(working);
    var before, after := working[..open], working[close + 1..];
    EmptyEnd(before, after);
    InsideClean(working, open, close);
    BeforeClean(working, open);
  }

  lemma TakenPlaces(working: string) returns (open: nat, close: nat)
    requires TakeMultipath(working).Ok? && TakeMultipath(working).value.1.Some?
    ensures IndexOf(working, '<') == open < close == IndexOf(working, '>') == |working| - 1 && '<' !in working[open + 1..]
    ensures ParseMultipath(working[open + 1..close]).Ok?
    ensures TakeMultipath(working).value.0 == working[..open] + "0" + working[close + 1..]
  {
    hide ParseMultipath, IndexOf;
    open, close := IndexOf(working, '<'), IndexOf(working, '>');
    assert open != close;
  }

  lemma EmptyEnd(before: string, after: string)
    requires after == ""
    ensures before + "0" + after == before + "0"
  {
  }

  lemma BeforeClean(working: string, open: nat)
    requires open <= |working| && forall k :: 0 <= k < open ==> working[k] != '<' && working[k] != '>'
    ensures '<' !in working[..open] && '>' !in working[..open]
  {
  }

  lemma InsideClean(working: string, open: nat, close: nat)
    requires open < close < |working| && '<' !in working[open + 1..] && forall k :: 0 <= k < close ==> working[k] != '>'
    ensures '<' !in working[open + 1..close] && '>' !in working[open + 1..close]
  {
    var inside := working[open + 1..close];
    forall k | 0 <= k < |inside|
      ensures inside[k] != '<' && inside[k] != '>'
    {
      assert inside[k] == working[open + 1..][k] == working[open + 1 + k];
    }
  }

  /** A path the parser accepts under an m has a slash in it, and steps on either side. */
  lemma CutAtSlash(before: string) returns (p: string, h: string)
    requires ParsePath("m" + (before + "0")).Ok? && before != "" && before[0] == '/'
    ensures before == p + "/" + h && '/' !in h && Above(p).Ok? && ParseStep(h + "0").Ok?
  {
    hide ParsePath, Above, ParseStep, LastIndexOf;
    var slash := LastIndexOf(before, '/');
    p, h := before[..slash], before[slash + 1..];
    assert before == p + "/" + h;
    forall k | 0 <= k < |h|
      ensures h[k] != '/'
    {
      assert h[k] == before[slash + 1 + k];
    }
    assert "m" + (before + "0") == "m" + p + "/" + (h + "0");
    assert (h + "0")[|h|] == '0' && forall c :: c in h + "0" ==> c in h || c == '0';
    PathLast(p, h + "0");
  }

  lemma WorkingPieces(working: string) returns (p: string, h: string, element: string)
    requires working != "" && working[0] == '/' && 'H' !in working && TakeMultipath(working).Ok?
    requires TakeMultipath(working).value.1.Some? && ParsePath("m" + TakeMultipath(working).value.0).Ok?
    ensures Pieces(working, p, h, element, false)
  {
    hide ParsePath, Above, ParseStep, ParseMultipath, IndexOf, TakeMultipath;
    TakenApart(working);
    var open := IndexOf(working, '<');
    var before := working[..open];
    element := working[open + 1..|working| - 1];
    assert working == before + "<" + element + ">";
    BeforeSlash(before, working);
    p, h := CutAtSlash(before);
    assert working == p + "/" + h + "<" + element + ">" + "";
  }

  lemma SuffixPieces(suffix: string) returns (p: string, h: string, element: string, ranged: bool)
    requires (suffix == "" || suffix[0] == '/') && ParseDerivation(suffix).Ok? && ParseDerivation(suffix).value.multipath.Some?
    ensures Pieces(suffix, p, h, element, ranged)
  {
    hide ParsePath, Pieces, TakeMultipath;
    ranged := EndsWith(suffix, "/*");
    var working := if ranged then suffix[..|suffix| - 2] else suffix;
    assert suffix == working + Tail(ranged);
    NothingTaken(working);
    p, h, element := WorkingPieces(working);
    WithTail(working, p, h, element, ranged);
  }

  lemma NothingTaken(working: string)
    requires TakeMultipath(working).Ok? && TakeMultipath(working).value.1.Some?
    ensures working != "" && TakeMultipath(working).value.0 != ""
  {
    hide ParseMultipath;
  }

  lemma WithTail(working: string, p: string, h: string, element: string, ranged: bool)
    requires Pieces(working, p, h, element, false)
    ensures Pieces(working + Tail(ranged), p, h, element, ranged)
  {
    hide Above, ParseStep, ParseMultipath;
    assert working + Tail(ranged) == p + "/" + h + "<" + element + ">" + Tail(ranged);
  }

  lemma BeforeSlash(before: string, working: string)
    requires |before| < |working| && before == working[..|before|] && working[0] == '/' && working[|before|] == '<'
    ensures before != "" && before[0] == '/'
  {
  }

  // ----- the expansion means what the element means

  /** The index is one more step of a ranged key. */
  function Indexed(key: KeyExpression, steps: seq<nat>, index: nat): seq<nat>
    requires key.ExtendedKey?
  {
    if key.ranged then steps + [index] else steps
  }

  /** A multipath key derives by the steps before its element, the branch and the index. */
  lemma MultipathSteps(key: KeyExpression, above: seq<nat>, placeholder: nat, index: nat, change: bool)
    requires key.ExtendedKey? && key.multipath.Some? && |key.multipath.value| >= 2
    requires InRange(above + [placeholder]) && placeholder < HARDENED_OFFSET && key.path == FormatPath(above + [placeholder])
    ensures DeriveSteps(key, index, change) ==
            if AllPlainSteps(above) then Ok(Indexed(key, above + [key.multipath.value[if change then 1 else 0]], index))
            else Err(HardenedStep)
  {
    hide ReadSegments, Split, FormatPath;
    var steps := above + [placeholder];
    StoredPathSegments(steps);
    PlainLast(above, placeholder);
    assert steps[..|steps| - 1] == above;
  }

  lemma PlainLast(above: seq<nat>, last: nat)
    ensures AllPlainSteps(above + [last]) <==> AllPlainSteps(above) && last < HARDENED_OFFSET
    ensures StepPath(above + [last]) == FormatPath(above + [last])
  {
    var steps := above + [last];
    assert steps[|above|] == last;
    assert forall i :: 0 <= i < |above| ==> steps[i] == above[i];
  }

  lemma SinglePathSteps(key: KeyExpression, above: seq<nat>, last: nat, index: nat, change: bool)
    requires key.ExtendedKey? && key.multipath.None? && InRange(above + [last]) && key.path == FormatPath(above + [last])
    ensures DeriveSteps(key, index, change) ==
            if AllPlainSteps(above) && last < HARDENED_OFFSET then Ok(Indexed(key, above + [last], index))
            else Err(HardenedStep)
  {
    hide ReadSegments, Split, FormatPath;
    StoredPathSegments(above + [last]);
    PlainLast(above, last);
  }

  /** Nothing is derived through a hardened step. */
  lemma {:induction false} HardenedNothing(curve: Curve, payload: seq<byte>, steps: seq<nat>, at: nat)
    requires CurveLawful(curve) && at < |steps| && steps[at] >= HARDENED_OFFSET
    ensures Descend(curve, payload, steps) == None
    decreases |steps|
  {
    if at > 0 && curve.child(payload, steps[0]).Some? {
      HardenedNothing(curve, curve.child(payload, steps[0]).value, steps[1..], at - 1);
    }
  }

  /** A multipath key and its expansion, by the steps either stores. */
  ghost predicate Stored(key: KeyExpression, expanded: KeyExpression, above: seq<nat>, placeholder: nat, step: nat) {
    && key.ExtendedKey? && key.multipath.Some? && |key.multipath.value| >= 2
    && placeholder < HARDENED_OFFSET && InRange(above + [placeholder]) && InRange(above + [step])
    && key.path == FormatPath(above + [placeholder])
    && expanded == ExtendedKey(key.origin, key.xpub, FormatPath(above + [step]), key.ranged, None)
  }

  lemma StoredDerives(lib: Library, curve: Curve, key: KeyExpression, expanded: KeyExpression,
                      above: seq<nat>, placeholder: nat, step: nat, index: nat, change: bool, either: bool)
    requires CurveLawful(curve) && Stored(key, expanded, above, placeholder, step)
    requires key.multipath.value[if change then 1 else 0] == step
    ensures Agree(DerivePubkeyAt(lib, curve, expanded, index, either), DerivePubkeyAt(lib, curve, key, index, change))
  {
    hide DeriveSteps, Descend, FormatPath;
    MultipathSteps(key, above, placeholder, index, change);
    SinglePathSteps(expanded, above, step, index, either);
    if AllPlainSteps(above) && step >= HARDENED_OFFSET {
      var steps := Indexed(key, above + [step], index);
      assert steps[|above|] == step;
      var raw := lib.decode58(key.xpub);
      if raw.Some? && |raw.value| == 82 {
        HardenedNothing(curve, raw.value[4..78], steps, |above|);
      }
    }
  }

  /** The step an expansion reads in place of the element, when it reads one. */
  lemma SuffixExpands(suffix: string, which: nat)
    returns (above: seq<nat>, placeholder: nat, step: Option<nat>)
    requires (suffix == "" || suffix[0] == '/') && ParseDerivation(suffix).Ok? && ParseDerivation(suffix).value.multipath.Some?
    requires which < |ParseDerivation(suffix).value.multipath.value|
    ensures var d := ParseDerivation(suffix).value;
            && d.path == FormatPath(above + [placeholder]) && InRange(above + [placeholder]) && placeholder < HARDENED_OFFSET
            && |d.multipath.value| >= 2 && d.multipath.value[which] < 2 * HARDENED_OFFSET
            && (step.Some? ==> InRange(above + [step.value]))
            && ParseDerivation(Expand(suffix, which)) ==
               (if step.Some? then Ok(Derivation(FormatPath(above + [step.value]), d.ranged, None)) else Err(BadDerivation))
            && (step == Some(d.multipath.value[which]) <==> WholeElement(suffix))
  {
    hide *;
    var p, h, element, ranged := SuffixPieces(suffix);
    ElementParses(suffix, p, h, element, ranged);
    PiecesRead(suffix, p, h, element, ranged);
    PiecesHead(suffix, p, h, element, ranged);
    ElementOptions(suffix, p, h, element, ranged, which);
    PiecesExpandRead(suffix, p, h, element, ranged, which);
    above, placeholder := Above(p).value.indices, ParseStep(h + "0").value;
    var read := ParseStep(h + Split(element, ';')[which]);
    step := if read.Ok? then Some(read.value) else None;
    if read.Ok? {
      RangeAppend(above, placeholder, read.value);
    }
    WholeElementMeans(suffix);
  }

  lemma WholeElementMeans(suffix: string)
    ensures WholeElement(suffix) <==> forall i :: 0 <= i < |StepHead(suffix)| ==> StepHead(suffix)[i] == '0'
  {
  }

  lemma ElementParses(suffix: string, p: string, h: string, element: string, ranged: bool)
    requires Pieces(suffix, p, h, element, ranged)
    ensures ParseMultipath(element).Ok?
  {
  }

  lemma RangeAppend(above: seq<nat>, a: nat, b: nat)
    requires InRange(above + [a]) && b < 2 * HARDENED_OFFSET
    ensures InRange(above + [b])
  {
    assert forall i :: 0 <= i < |above| ==> (above + [b])[i] == (above + [a])[i];
  }

  lemma ElementOptions(suffix: string, p: string, h: string, element: string, ranged: bool, which: nat)
    requires Pieces(suffix, p, h, element, ranged)
    requires ParseMultipath(element).Ok? && which < |ParseMultipath(element).value|
    ensures |Split(element, ';')| == |ParseMultipath(element).value| >= 2
    ensures ParseMultipath(element).value[which] < 2 * HARDENED_OFFSET
    ensures Above(p).Ok? && ParseStep(h + "0").Ok? && ParseStep(h + "0").value < HARDENED_OFFSET
    ensures InRange(Above(p).value.indices + [ParseStep(h + "0").value])
    ensures ParseStep(h + Split(element, ';')[which]) == Ok(ParseMultipath(element).value[which]) <==>
            forall i :: 0 <= i < |h| ==> h[i] == '0'
  {
    hide Split, ParseStep, ParseAlternative, ParseSteps;
    PlaceholderStep(h);
    AlternativeOf(Split(element, ';'), which);
    AlternativeStep(h, Split(element, ';')[which]);
  }

  lemma ExpandEnds(suffix: string, which: nat)
    requires (suffix == "" || suffix[0] == '/') && ParseDerivation(suffix).Ok? && ParseDerivation(suffix).value.multipath.Some?
    requires which < |ParseDerivation(suffix).value.multipath.value|
    ensures var e := Expand(suffix, which);
            e != "" && e[0] == '/' && !IsSpace(e[|e| - 1])
  {
    hide *;
    var p, h, element, ranged := SuffixPieces(suffix);
    ElementParses(suffix, p, h, element, ranged);
    PiecesRead(suffix, p, h, element, ranged);
    ElementOptions(suffix, p, h, element, ranged, which);
    PiecesExpand(suffix, p, h, element, ranged, which);
    OptionEnds(element, which);
    PiecesStart(suffix, p, h, element, ranged);
    StepEnds(p, h, Split(element, ';')[which], ranged);
  }

  lemma OptionEnds(element: string, which: nat)
    requires ParseMultipath(element).Ok? && which < |Split(element, ';')|
    ensures EndsLikeStep(Split(element, ';')[which])
  {
    hide Split, ParseAlternative, EndsLikeStep;
    AlternativeOf(Split(element, ';'), which);
    AlternativeEnds(Split(element, ';')[which]);
  }

  lemma PiecesStart(suffix: string, p: string, h: string, element: string, ranged: bool)
    requires Pieces(suffix, p, h, element, ranged) && (suffix == "" || suffix[0] == '/')
    ensures p == "" || p[0] == '/'
  {
    hide ParseMultipath, Above, ParseStep;
    assert p != "" ==> suffix[0] == p[0];
  }

  lemma StepEnds(p: string, h: string, option: string, ranged: bool)
    requires (p == "" || p[0] == '/') && EndsLikeStep(option)
    ensures var e := p + "/" + (h + option) + Tail(ranged);
            e != "" && e[0] == '/' && !IsSpace(e[|e| - 1])
  {
    var e := p + "/" + (h + option) + Tail(ranged);
    assert e[|e| - 1] == if ranged then '*' else option[|option| - 1];
  }

  lemma OriginKept(lib: Library, trimmed: string, origin: Option<KeyOrigin>, rest: string, again: string)
    requires Trimmed(trimmed) && ParseOrigin(trimmed) == Ok((origin, rest)) && rest != ""
    requires |rest| <= |trimmed| && rest == trimmed[|trimmed| - |rest|..] && (origin.None? ==> rest == trimmed)
    requires again != "" && !StartsWith(again, "[") && !IsSpace(again[0]) && !IsSpace(again[|again| - 1])
    ensures ParseKeyExpression(lib, trimmed[..|trimmed| - |rest|] + again) == ParseKey(lib, origin, again)
  {
    hide ParseBracket, IndexOf, ParseKey, ParseOrigin;
    var whole := trimmed[..|trimmed| - |rest|] + again;
    LeadKept(trimmed, origin, rest, again);
    assert whole[|whole| - 1] == again[|again| - 1];
    assert Trim(whole) == whole;
  }

  lemma LeadKept(trimmed: string, origin: Option<KeyOrigin>, rest: string, again: string)
    requires Trimmed(trimmed) && ParseOrigin(trimmed) == Ok((origin, rest))
    requires |rest| <= |trimmed| && rest == trimmed[|trimmed| - |rest|..] && (origin.None? ==> rest == trimmed)
    requires again != "" && !StartsWith(again, "[") && !IsSpace(again[0])
    ensures var whole := trimmed[..|trimmed| - |rest|] + again;
            !IsSpace(whole[0]) && ParseOrigin(whole) == Ok((origin, again))
  {
    hide ParseBracket, IndexOf, IsSpace, StartsWith, ParseOrigin;
    if StartsWith(trimmed, "[") {
      var inner := OpenLead(trimmed, origin, rest);
      LeadThen(inner, origin, again);
      BracketNotSpace();
      LeadCut(inner, rest);
      assert trimmed[..|trimmed| - |rest|] + again == "[" + inner + "]" + again;
    } else {
      NoLead(trimmed);
      NoLead(again);
      assert trimmed[..|trimmed| - |rest|] + again == again;
    }
  }

  lemma NoLead(text: string)
    requires !StartsWith(text, "[")
    ensures ParseOrigin(text) == Ok((None, text))
  {
  }

  lemma LeadCut(inner: string, rest: string)
    ensures var whole := "[" + inner + "]" + rest;
            whole[..|whole| - |rest|] == "[" + inner + "]"
  {
  }

  lemma OpenLead(trimmed: string, origin: Option<KeyOrigin>, rest: string) returns (inner: string)
    requires ParseOrigin(trimmed) == Ok((origin, rest)) && StartsWith(trimmed, "[")
    ensures ']' !in inner && trimmed == "[" + inner + "]" + rest
    ensures ParseBracket(inner).Ok? && origin == Some(ParseBracket(inner).value)
  {
    hide ParseBracket, IndexOf;
    var close := IndexOf(trimmed, ']');
    inner := trimmed[1..close];
    assert trimmed[0] == '[' && trimmed[close] == ']';
    assert trimmed == [trimmed[0]] + inner + [trimmed[close]] + trimmed[close + 1..];
  }

  lemma LeadThen(inner: string, origin: Option<KeyOrigin>, again: string)
    requires ']' !in inner && ParseBracket(inner).Ok? && origin == Some(ParseBracket(inner).value)
    ensures var whole := "[" + inner + "]" + again;
            whole[0] == '[' && ParseOrigin(whole) == Ok((origin, again))
  {
    hide ParseBracket, IndexOf, StartsWith;
    CloseAt(inner, again);
  }

  /** A key expression with its suffix expanded, taken apart at the suffix. */
  lemma ExpandedParts(lib: Library, trimmed: string, which: nat)
    requires Lawful(lib) && Trimmed(trimmed) && ParseKeyExpression(lib, trimmed).Ok?
    requires ParseKeyExpression(lib, trimmed).value.ExtendedKey? && ParseKeyExpression(lib, trimmed).value.multipath.Some?
    requires which < |ParseKeyExpression(lib, trimmed).value.multipath.value|
    ensures var key := ParseKeyExpression(lib, trimmed).value;
            var suffix := SuffixText(AfterOrigin(trimmed));
            var read := ParseDerivation(Expand(suffix, which));
            && (suffix == "" || suffix[0] == '/') && ParseDerivation(suffix) == Ok(Derivation(key.path, key.ranged, key.multipath))
            && ParseKeyExpression(lib, ExpandedText(trimmed, which)) ==
               if read.Ok? then Ok(ExtendedKey(key.origin, key.xpub, read.value.path, read.value.ranged, read.value.multipath))
               else Err(read.error)
  {
    hide *;
    ExpressionParts(lib, trimmed);
    OriginSplits(trimmed);
    var (origin, rest) := ParseOrigin(trimmed).value;
    KeyParts(lib, origin, rest);
    KeyJoins(rest);
    var material, suffix := KeyText(rest), SuffixText(rest);
    ExtendedDecodes(lib, material);
    KeyTextPrefix(rest);
    ExpandEnds(suffix, which);
    var expanded := Expand(suffix, which);
    MaterialStarts(material, expanded);
    assert (material + expanded)[|material + expanded| - 1] == expanded[|expanded| - 1];
    OriginKept(lib, trimmed, origin, rest, material + expanded);
    ExtendedVerdict(lib, origin, material, expanded);
    ExpandedTextIs(trimmed, rest, which);
  }

  lemma ExpandedTextIs(trimmed: string, rest: string, which: nat)
    requires AfterOrigin(trimmed) == rest && |rest| <= |trimmed|
    ensures ExpandedText(trimmed, which) ==
            trimmed[..|trimmed| - |rest|] + (KeyText(rest) + Expand(SuffixText(rest), which))
  {
    hide AfterOrigin, KeyText, Expand, SuffixText;
  }

  /**
   * BIP-389 on every key the parser accepts: a whole-step multipath element
   * derives, at every index, what the expression written out with its first or
   * second alternative derives: the same public key, or none for both.
   */
  lemma MultipathMeansItsExpansion(lib: Library, curve: Curve, trimmed: string, index: nat, change: bool, either: bool)
    requires Lawful(lib) && CurveLawful(curve) && Trimmed(trimmed) && ParseKeyExpression(lib, trimmed).Ok?
    requires ParseKeyExpression(lib, trimmed).value.ExtendedKey? && ParseKeyExpression(lib, trimmed).value.multipath.Some?
    requires WholeElement(SuffixText(AfterOrigin(trimmed)))
    ensures var key := ParseKeyExpression(lib, trimmed).value;
            var expanded := ParseKeyExpression(lib, ExpandedText(trimmed, if change then 1 else 0));
            && expanded.Ok? && expanded.value.ExtendedKey? && expanded.value.multipath.None?
            && expanded.value.xpub == key.xpub && expanded.value.origin == key.origin && expanded.value.ranged == key.ranged
            && Agree(DerivePubkeyAt(lib, curve, expanded.value, index, either), DerivePubkeyAt(lib, curve, key, index, change))
  {
    hide *;
    var which := if change then 1 else 0;
    TwoAlternatives(lib, trimmed);
    ExpandedParts(lib, trimmed, which);
    var key := ParseKeyExpression(lib, trimmed).value;
    var above, placeholder, read := SuffixExpands(SuffixText(AfterOrigin(trimmed)), which);
    var step := key.multipath.value[which];
    var expanded := ExtendedKey(key.origin, key.xpub, FormatPath(above + [step]), key.ranged, None);
    StoredIs(key, expanded, above, placeholder, step);
    StoredDerives(lib, curve, key, expanded, above, placeholder, step, index, change, either);
  }

  lemma StoredIs(key: KeyExpression, expanded: KeyExpression, above: seq<nat>, placeholder: nat, step: nat)
    requires key.ExtendedKey? && key.multipath.Some? && |key.multipath.value| >= 2 && placeholder < HARDENED_OFFSET
    requires InRange(above + [placeholder]) && InRange(above + [step]) && key.path == FormatPath(above + [placeholder])
    requires expanded == ExtendedKey(key.origin, key.xpub, FormatPath(above + [step]), key.ranged, None)
    ensures Stored(key, expanded, above, placeholder, step)
  {
  }

  lemma TwoAlternatives(lib: Library, text: string)
    requires Lawful(lib) && ParseKeyExpression(lib, text).Ok?
    requires ParseKeyExpression(lib, text).value.ExtendedKey? && ParseKeyExpression(lib, text).value.multipath.Some?
    ensures |ParseKeyExpression(lib, text).value.multipath.value| >= 2
  {
    hide Lawful, ParseKeyExpression, OriginOk, AssertExtendedKey, AllAlphanumeric, LooksExtended;
    ParsedKeyOk(lib, text);
  }

  /**
   * The condition is exact. The element is spliced into the text, so digits
   * left in front of it join the placeholder but not the branch: where the
   * multipath key derives at all, its steps are those of the written-out key
   * if and only if nothing but zeros stands between the last slash and the element.
   */
  lemma MultipathExpandsExactly(lib: Library, trimmed: string, index: nat, change: bool, either: bool)
    requires Lawful(lib) && Trimmed(trimmed) && ParseKeyExpression(lib, trimmed).Ok?
    requires ParseKeyExpression(lib, trimmed).value.ExtendedKey? && ParseKeyExpression(lib, trimmed).value.multipath.Some?
    requires DeriveSteps(ParseKeyExpression(lib, trimmed).value, index, change).Ok?
    requires |ParseKeyExpression(lib, trimmed).value.multipath.value| >= 2
    requires ParseKeyExpression(lib, trimmed).value.multipath.value[if change then 1 else 0] < HARDENED_OFFSET
    ensures var key := ParseKeyExpression(lib, trimmed).value;
            var expanded := ParseKeyExpression(lib, ExpandedText(trimmed, if change then 1 else 0));
            WholeElement(SuffixText(AfterOrigin(trimmed))) <==>
            expanded.Ok? && expanded.value.ExtendedKey? && DeriveSteps(expanded.value, index, either) == DeriveSteps(key, index, change)
  {
    hide *;
    var which := if change then 1 else 0;
    ExpandedParts(lib, trimmed, which);
    var key := ParseKeyExpression(lib, trimmed).value;
    var above, placeholder, read := SuffixExpands(SuffixText(AfterOrigin(trimmed)), which);
    var step := key.multipath.value[which];
    MultipathSteps(key, above, placeholder, index, change);
    if read.Some? {
      var expanded := ExtendedKey(key.origin, key.xpub, FormatPath(above + [read.value]), key.ranged, None);
      SinglePathSteps(expanded, above, read.value, index, either);
      IndexedDiffers(key, expanded, above, read.value, step, index);
    }
  }

  lemma IndexedDiffers(key: KeyExpression, expanded: KeyExpression, above: seq<nat>, a: nat, b: nat, index: nat)
    requires key.ExtendedKey? && expanded.ExtendedKey? && key.ranged == expanded.ranged
    ensures Indexed(expanded, above + [a], index) == Indexed(key, above + [b], index) <==> a == b
  {
    assert Indexed(expanded, above + [a], index)[|above|] == a;
    assert Indexed(key, above + [b], index)[|above|] == b;
  }

  /** A spliced element: /5<0;1> stores the path m/50, its branches are 0 and 1, and written out it reads /50 and /51. */
  lemma SplicedElement()
    ensures var suffix := "/5<0;1>";
            && !WholeElement(suffix) && Expand(suffix, 0) == "/50" && Expand(suffix, 1) == "/51"
            && ParseDerivation(suffix).Ok? && ParseDerivation(suffix).value.multipath == Some([0, 1])
            && ParseDerivation(suffix).value.path == FormatPath([50])
  {
    hide *;
    SplicedPieces();
    var element := "0;1";
    PiecesRead("/5<0;1>", "", "5", element, false);
    PiecesHead("/5<0;1>", "", "5", element, false);
    SplicedOptions();
    PiecesExpand("/5<0;1>", "", "5", element, false, 0);
    PiecesExpand("/5<0;1>", "", "5", element, false, 1);
    WholeElementMeans("/5<0;1>");
    assert StepHead("/5<0;1>")[0] == '5';
    RootAbove();
    FiftyReads();
    assert [] + [50] == [50];
    SplicedTexts();
  }

  lemma SplicedOptions()
    ensures Split("0;1", ';') == ["0", "1"] && ParseMultipath("0;1") == Ok([0, 1])
  {
    hide ParseAlternative;
    SplitPrefix("0", "1", ';');
    SplitNothing("1", ';');
    assert "0" + [';'] + "1" == "0;1";
    SplicedAlternatives();
    var values: seq<nat> := [0, 1];
    assert Distinct(values);
  }

  lemma SplicedAlternatives()
    ensures ParseAlternatives(["0", "1"]) == Ok([0, 1])
  {
    hide ToNat;
    assert ["0", "1"][1..] == ["1"] && ["1"][1..] == [];
    DigitsRead();
    assert ParseAlternative("0") == Ok(0) && ParseAlternative("1") == Ok(1);
    assert [0] + ([1] + []) == [0, 1];
  }

  lemma DigitsRead()
    ensures ToNat("0") == 0 && ToNat("1") == 1
  {
    assert "0"[..0] == "" && "1"[..0] == "";
  }

  lemma SplicedTexts()
    ensures "" + "/" + ("5" + "0") + Tail(false) == "/50" && "" + "/" + ("5" + "1") + Tail(false) == "/51"
  {
  }

  lemma SplicedPieces()
    ensures Pieces("/5<0;1>", "", "5", "0;1", false)
  {
    hide ParseMultipath, Above, ParseStep;
    SplicedOptions();
    assert "/5<0;1>" == "" + "/" + "5" + "<" + "0;1" + ">" + "";
    RootAbove();
    assert ParseStep("5" + "0").Ok? by {
      FiftyReads();
    }
  }

  lemma RootAbove()
    ensures Above("").Ok? && Above("").value.indices == []
  {
    SplitNothing("m", '/');
    assert "m" + "" == "m";
    assert ["m"][1..] == [];
  }

  lemma FiftyReads()
    ensures ParseStep("5" + "0") == Ok(50)
  {
    assert "5" + "0" == "50";
    assert "50"[..1] == "5";
    assert "5"[..0] == "";
  }

  /**
   * The usual suffix, letter by letter: with two alternatives and a wildcard
   * the receive side derives through the first, the change side through the
   * second, and then through the index.
   */
  lemma TwoBranches(a: nat, b: nat, xpub: string, index: nat)
    requires a != b && a < 0x8000_0000 && b < 0x8000_0000
    ensures var read := ParseDerivation("/<" + OfNat(a) + ";" + OfNat(b) + ">/*");
            && read.Ok? && read.value.ranged && read.value.multipath == Some([a, b])
            && var key := ExtendedKey(None, xpub, read.value.path, true, read.value.multipath);
               DeriveSteps(key, index, false) == Ok([a, index]) && DeriveSteps(key, index, true) == Ok([b, index])
  {
    hide OfNat, ParseDerivation, DeriveSteps, PrintDerivation, StepPath, SettledPath;
    PairStored(a, b);
    MultipathDerivationReads([0], true, [a, b]);
    PairPrinted(a, b);
    SettledZero();
    PairSteps(xpub, a, b, index, false);
    PairSteps(xpub, a, b, index, true);
  }

  lemma PairStored(a: nat, b: nat)
    requires a != b && a < 0x8000_0000 && b < 0x8000_0000
    ensures InRange([0]) && InRange([a, b]) && Distinct([a, b])
  {
  }

  lemma PairPrinted(a: nat, b: nat)
    requires a < 0x8000_0000 && b < 0x8000_0000
    ensures PrintDerivation(StepPath([0]), true, Some([a, b])) == "/<" + OfNat(a) + ";" + OfNat(b) + ">/*"
  {
    hide OfNat, StepPath, Join, StepTexts, StepsText, PathSteps;
    PathStepsRead([0]);
    NothingBefore();
    PairTexts(a, b);
    JoinPair(OfNat(a), OfNat(b));
    PairJoined(OfNat(a), OfNat(b));
  }

  lemma NothingBefore()
    ensures [0][..0] == [] && StepsText([]) == ""
  {
    assert |[0][..0]| == 0;
  }

  lemma PairTexts(a: nat, b: nat)
    requires a < 0x8000_0000 && b < 0x8000_0000
    ensures StepTexts([a, b]) == [OfNat(a), OfNat(b)]
  {
    hide OfNat;
    assert [a, b][1..] == [b] && [b][1..] == [];
    assert StepText(a) == OfNat(a) && StepText(b) == OfNat(b);
    assert StepTexts([b]) == [StepText(b)] + [];
    assert StepTexts([a, b]) == [StepText(a)] + StepTexts([b]);
  }

  lemma PairJoined(a: string, b: string)
    ensures "" + "/<" + (a + ";" + b) + ">" + "/*" == "/<" + a + ";" + b + ">/*"
  {
  }

  lemma JoinPair(a: string, b: string)
    ensures Join([a, b], ';') == a + ";" + b
  {
    assert [a, b][1..] == [b];
  }

  lemma SettledZero()
    ensures SettledPath([0]) == StepPath([0])
  {
    assert [0][..0] + [0] == [0];
  }

  lemma PairSteps(xpub: string, a: nat, b: nat, index: nat, change: bool)
    ensures DeriveSteps(ExtendedKey(None, xpub, StepPath([0]), true, Some([a, b])), index, change) ==
            Ok([if change then b else a, index])
  {
    hide ReadSegments, Split, StepPath;
    StoredPathSegments([0]);
    assert [0][..0] + [if change then b else a] == [if change then b else a];
    assert [if change then b else a] + [index] == [if change then b else a, index];
  }
}
