/** What a derivation suffix the parser accepts looks like, character by character. */
module Suffix {
  import opened Text
  import opened Path
  import opened Keys
  import opened Spelling
  import opened Canonical

  predicate SuffixChar(c: char) {
    IsDigit(c) || IsTick(c) || IsSpace(c) || c == '/' || c == '<' || c == '>' || c == ';' || c == '*'
  }

  /** A hardened marker follows a digit and ends its step. */
  predicate TickPlaced(s: string, i: nat)
    requires i < |s|
  {
    IsTick(s[i]) ==> i > 0 && IsDigit(s[i - 1]) && (i + 1 == |s| || EndsStep(s[i + 1]) || IsSpace(s[i + 1]))
  }

  ghost predicate Shaped(s: string) {
    forall i :: 0 <= i < |s| ==> SuffixChar(s[i]) && TickPlaced(s, i)
  }

  lemma ShapedConcat(a: string, b: string)
    requires Shaped(a) && Shaped(b)
    requires a == "" || b == "" || !IsTick(a[|a| - 1]) || EndsStep(b[0]) || IsSpace(b[0])
    ensures Shaped(a + b)
  {
    var whole := a + b;
    forall i | 0 <= i < |whole|
      ensures SuffixChar(whole[i]) && TickPlaced(whole, i)
    {
      if i < |a| {
        assert SuffixChar(a[i]) && TickPlaced(a, i);
      } else {
        assert SuffixChar(b[i - |a|]) && TickPlaced(b, i - |a|);
      }
    }
  }

  lemma ShapedStep(segment: string)
    requires (ParseStep(segment).Ok? && 'H' !in segment) || ParseAlternative(segment).Ok?
    ensures Shaped(segment) && segment != ""
  {
    var n := |segment| - 1;
    if AllDigits(segment) {
    } else {
      assert AllDigits(segment[..n]);
      forall i | 0 <= i < n
        ensures IsDigit(segment[i])
      {
        assert segment[..n][i] == segment[i];
      }
      assert IsDigit(segment[n - 1]);
    }
  }

  /** Parts with a separator that ends a step. */
  lemma {:induction false} ShapedJoin(parts: seq<string>, sep: char)
    requires EndsStep(sep) && forall p :: p in parts ==> Shaped(p) && p != ""
    ensures Shaped(Join(parts, sep))
    ensures parts != [] ==> Join(parts, sep) != ""
  {
    hide Shaped;
    if |parts| == 0 {
      ShapedNothing();
    } else if |parts| > 1 {
      ShapedJoin(parts[1..], sep);
      ShapedSeparator(sep);
      ShapedConcat(parts[0], [sep]);
      ShapedConcat(parts[0] + [sep], Join(parts[1..], sep));
    }
  }

  lemma ShapedNothing()
    ensures Shaped("")
  {
  }

  lemma ShapedSeparator(sep: char)
    requires SuffixChar(sep) && !IsTick(sep)
    ensures Shaped([sep])
  {
  }

  lemma {:induction false} StepsShaped(segments: seq<string>)
    requires ParseSteps(segments).Ok? && forall p :: p in segments ==> 'H' !in p
    ensures forall p :: p in segments ==> Shaped(p) && p != ""
  {
    hide Shaped, ParseStep;
    if segments != [] {
      assert segments[0] in segments;
      assert forall p :: p in segments[1..] ==> p in segments;
      ShapedStep(segments[0]);
      StepsShaped(segments[1..]);
    }
  }

  lemma {:induction false} AlternativesShaped(options: seq<string>)
    requires ParseAlternatives(options).Ok?
    ensures forall p :: p in options ==> Shaped(p) && p != ""
  {
    hide Shaped, ParseAlternative;
    if options != [] {
      assert options[0] in options;
      ShapedStep(options[0]);
      AlternativesShaped(options[1..]);
    }
  }

  lemma MultipathShaped(element: string)
    requires ParseMultipath(element).Ok?
    ensures Shaped(element) && element != ""
  {
    hide Shaped, Split, ParseAlternatives, Distinct;
    SplitJoins(element, ';');
    AlternativesShaped(Split(element, ';'));
    ShapedJoin(Split(element, ';'), ';');
  }

  lemma {:induction false} JoinKeeps(parts: seq<string>, sep: char, c: char)
    requires c !in Join(parts, sep)
    ensures forall p :: p in parts ==> c !in p
  {
    if |parts| > 1 {
      JoinKeeps(parts[1..], sep, c);
    }
  }

  /** The steps of an accepted path that starts with m. */
  lemma SegmentsShaped(steps: string)
    requires ParseSegments(Split("m" + steps, '/')).Ok? && 'H' !in steps
    ensures Shaped(steps) && (steps != "" ==> steps[0] == '/')
  {
    hide Shaped, ParseSteps, Split, Join;
    var segments := Split("m" + steps, '/');
    SplitJoins("m" + steps, '/');
    if |segments| == 1 {
      JoinOne(segments, '/');
      ShapedNothing();
      assert |"m" + steps| == 1;
      assert steps == "";
    } else {
      JoinMore(segments, '/');
      var rest := Join(segments[1..], '/');
      assert segments[0] + "/" + rest == "m" + steps;
      AfterHead(segments[0], rest, steps);
      assert 'H' !in rest;
      JoinKeeps(segments[1..], '/', 'H');
      StepsShaped(segments[1..]);
      ShapedJoin(segments[1..], '/');
      ShapedSeparator('/');
      ShapedConcat("/", rest);
    }
  }

  lemma AfterHead(head: string, rest: string, steps: string)
    requires |head| == 1 && head + "/" + rest == "m" + steps
    ensures steps == "/" + rest
  {
    assert steps == ("m" + steps)[1..];
    assert (head + "/" + rest)[1..] == "/" + rest;
  }

  lemma JoinOne(parts: seq<string>, sep: char)
    requires |parts| == 1
    ensures Join(parts, sep) == parts[0]
  {
  }

  lemma JoinMore(parts: seq<string>, sep: char)
    requires |parts| > 1
    ensures Join(parts, sep) == parts[0] + [sep] + Join(parts[1..], sep)
  {
  }

  lemma {:induction false} TrimEndKeeps(s: string)
    ensures forall i :: |TrimEnd(s)| <= i < |s| ==> IsSpace(s[i])
  {
    if s != "" && IsSpace(s[|s| - 1]) {
      TrimEndKeeps(s[..|s| - 1]);
      forall i | |TrimEnd(s)| <= i < |s|
        ensures IsSpace(s[i])
      {
        assert i < |s| - 1 ==> s[i] == s[..|s| - 1][i];
      }
    }
  }

  lemma SpacesShaped(s: string)
    requires forall i :: 0 <= i < |s| ==> IsSpace(s[i])
    ensures Shaped(s)
  {
  }

  /** The steps of an accepted suffix, with any white space that trails them. */
  lemma StepsTextShaped(working: string)
    requires ParsePath("m" + working).Ok? && 'H' !in working
    ensures Shaped(working)
  {
    hide Shaped, ParseSegments, Split, TrimEnd, TrimStart;
    TrimHead(working);
    var trimmed := Trim("m" + working);
    var steps, spaces := trimmed[1..], working[|trimmed| - 1..];
    TrimParts("m" + working, working, trimmed);
    SegmentsShaped(steps);
    SpacesShaped(spaces);
    SpaceAfter(steps, spaces);
    ShapedConcat(steps, spaces);
  }

  lemma TrimHead(working: string)
    ensures var path := "m" + working;
            && Trim(path) == TrimEnd(path) != "" && Trim(path) == path[..|Trim(path)|]
            && forall i :: |Trim(path)| <= i < |path| ==> IsSpace(path[i])
  {
    var path := "m" + working;
    assert !IsSpace(path[0]);
    TrimEndHead(path);
    TrimEndKeeps(path);
  }

  lemma TrimParts(path: string, working: string, trimmed: string)
    requires path == "m" + working && 0 < |trimmed| <= |path| && trimmed == path[..|trimmed|]
    requires forall i :: |trimmed| <= i < |path| ==> IsSpace(path[i])
    ensures var steps, spaces := trimmed[1..], working[|trimmed| - 1..];
            && trimmed == "m" + steps && working == steps + spaces
            && (forall i :: 0 <= i < |spaces| ==> IsSpace(spaces[i]))
            && (forall c :: c in steps ==> c in working)
  {
    var spaces := working[|trimmed| - 1..];
    forall i | 0 <= i < |spaces|
      ensures IsSpace(spaces[i])
    {
      assert spaces[i] == path[|trimmed| + i];
    }
    assert trimmed[1..] == working[..|trimmed| - 1];
    assert trimmed[0] == path[0];
  }

  lemma SpaceAfter(steps: string, spaces: string)
    requires forall i :: 0 <= i < |spaces| ==> IsSpace(spaces[i])
    ensures spaces == "" || IsSpace(spaces[0])
  {
  }

  /** A suffix up to its wildcard. */
  lemma WorkingShaped(working: string)
    requires TakeMultipath(working).Ok? && 'H' !in working
    requires TakeMultipath(working).value.0 == "" || ParsePath("m" + TakeMultipath(working).value.0).Ok?
    ensures Shaped(working)
  {
    hide Shaped, ParsePath, ParseMultipath, IndexOf;
    var open := IndexOf(working, '<');
    if open == -1 {
      if working == "" {
        ShapedNothing();
      } else {
        StepsTextShaped(working);
      }
    } else {
      var close := |working| - 1;
      var before, element := working[..open], working[open + 1..close];
      assert working[..open] + "0" + working[close + 1..] == before + "0";
      assert working == before + "<" + element + ">";
      ElementShaped(before, element);
    }
  }

  lemma ElementShaped(before: string, element: string)
    requires 'H' !in before + "<" + element + ">" && ParsePath("m" + (before + "0")).Ok? && ParseMultipath(element).Ok?
    ensures Shaped(before + "<" + element + ">")
  {
    hide Shaped, ParsePath, ParseMultipath;
    MultipathShaped(element);
    ShapedSeparator('<');
    ShapedSeparator('>');
    assert 'H' !in before + "0" by {
      assert forall c :: c in before ==> c in before + "<" + element + ">";
    }
    StepsTextShaped(before + "0");
    ShapedBefore(before);
    ShapedConcat(before, "<");
    ShapedConcat(before + "<", element);
    ShapedConcat(before + "<" + element, ">");
  }

  /** No marker stands right before the placeholder of a multipath element. */
  lemma ShapedBefore(before: string)
    requires Shaped(before + "0")
    ensures Shaped(before) && (before != "" ==> !IsTick(before[|before| - 1]))
  {
    forall i | 0 <= i < |before|
      ensures SuffixChar(before[i]) && TickPlaced(before, i) && (i + 1 == |before| ==> !IsTick(before[i]))
    {
      assert SuffixChar((before + "0")[i]) && TickPlaced(before + "0", i);
    }
  }

  /** Every suffix the parser accepts is made of these characters, each marker at the end of its step. */
  lemma AcceptedShaped(suffix: string)
    requires ParseDerivation(suffix).Ok?
    ensures Shaped(suffix)
  {
    hide Shaped, ParsePath, TakeMultipath;
    if suffix == "" {
      ShapedNothing();
    } else if EndsWith(suffix, "/*") {
      var working := suffix[..|suffix| - 2];
      assert 'H' !in working;
      WorkingShaped(working);
      ShapedWildcard();
      assert suffix == working + "/*";
      ShapedConcat(working, "/*");
    } else {
      WorkingShaped(suffix);
    }
  }

  lemma ShapedWildcard()
    ensures Shaped("/*") && EndsStep("/*"[0])
  {
  }

  // ----- when two spellings are rewritten alike

  /**
   * Two spellings of one accepted suffix are rewritten to the same text exactly
   * when they agree on every marker that white space follows: the pattern does
   * not look past a space.
   */
  lemma RewrittenAlike(a: string, b: string)
    requires SameTicks(a, b) && ParseDerivation(a).Ok?
    ensures RewriteMarkers(a) == RewriteMarkers(b) <==>
            forall i :: 0 <= i < |a| - 1 && IsSpace(a[i + 1]) ==> a[i] == b[i]
  {
    hide ParseDerivation;
    TicksDerivation(a, b);
    AcceptedShaped(a);
    AcceptedShaped(b);
    forall i | 0 <= i < |a|
      ensures RewrittenAt(a, i) == RewrittenAt(b, i) <==> (i < |a| - 1 && IsSpace(a[i + 1]) ==> a[i] == b[i])
    {
      assert SameTick(a[i], b[i]) && TickPlaced(a, i) && TickPlaced(b, i);
      if i + 1 < |a| {
        assert SameTick(a[i + 1], b[i + 1]);
      }
      if i > 0 {
        assert SameTick(a[i - 1], b[i - 1]);
      }
    }
    var x, y := RewriteMarkers(a), RewriteMarkers(b);
    if x == y {
      forall i | 0 <= i < |a| - 1 && IsSpace(a[i + 1])
        ensures a[i] == b[i]
      {
        assert x[i] == y[i];
      }
    }
  }

  /** The condition can fail: these two are accepted as one suffix and are rewritten differently. */
  lemma SpaceBeforeWildcard()
    ensures var a, b := "/0h /*", "/0' /*";
            ParseDerivation(a).Ok? && ParseDerivation(b) == ParseDerivation(a) && SameTicks(a, b) && RewriteMarkers(a) != RewriteMarkers(b)
  {
    hide ParseDerivation, RewriteMarkers;
    var a, b := "/0h /*", "/0' /*";
    SpacedReads();
    assert SameTicks(a, b);
    TicksDerivation(a, b);
    RewrittenAlike(a, b);
    assert IsSpace(a[3]) && a[2] != b[2];
  }

  lemma SpacedReads()
    ensures ParseDerivation("/0h /*").Ok?
  {
    hide ParsePath, IndexOf, EndsWith;
    var suffix := "/0h /*";
    EndsWithTwo(suffix, '/', '*');
    assert ['/', '*'] == "/*";
    assert suffix[..|suffix| - 2] == "/0h ";
    assert '<' !in "/0h " && IndexOf("/0h ", '<') == -1;
    SpacedPath();
  }

  lemma SpacedPath()
    ensures ParsePath("m" + "/0h ").Ok?
  {
    var path := "m" + "/0h ";
    assert path == "m/0h ";
    SpacedTrim();
    SplitPrefix("m", "0h", '/');
    SplitNothing("0h", '/');
    assert "m" + ['/'] + "0h" == "m/0h";
    assert ["m", "0h"][1..] == ["0h"] && ["0h"][1..] == [];
    ZeroHardened();
  }

  lemma SpacedTrim()
    ensures Trim("m/0h ") == "m/0h"
  {
    hide TrimStart, TrimEnd;
    var path := "m/0h" + " ";
    assert path == "m/0h ";
    assert TrimStart(path) == path;
    OneSpace("m/0h");
  }

  lemma OneSpace(s: string)
    requires s != "" && !IsSpace(s[|s| - 1])
    ensures TrimEnd(s + " ") == s
  {
    assert (s + " ")[..|s|] == s;
    assert (s + " ")[|s|] == ' ';
  }

  lemma ZeroHardened()
    ensures ParseStep("0h").Ok?
  {
    assert "0h"[..1] == "0";
    assert "0"[..0] == "";
  }
}
