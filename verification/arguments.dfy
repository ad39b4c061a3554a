/** The argument splitter: packages/core/src/descriptor/parse.ts, lines 148 to 183. */
module Arguments {
  import opened Text

  /** How many round brackets, square brackets and braces are open. */
  datatype Depths = Depths(paren: int, bracket: int, brace: int)

  const TOP := Depths(0, 0, 0)

  function After(d: Depths, c: char): Depths {
    if c == '(' then d.(paren := d.paren + 1)
    else if c == ')' then d.(paren := d.paren - 1)
    else if c == '[' then d.(bracket := d.bracket + 1)
    else if c == ']' then d.(bracket := d.bracket - 1)
    else if c == '{' then d.(brace := d.brace + 1)
    else if c == '}' then d.(brace := d.brace - 1)
    else d
  }

  /** The parts still to come, from inside a part that reads current so far. */
  function SplitFrom(input: string, d: Depths, current: string): (parts: seq<string>)
    ensures parts != []
    decreases |input|
  {
    if input == "" then [current]
    else
      var next := After(d, input[0]);
      if input[0] == ',' && next == TOP then [current] + SplitFrom(input[1..], next, "")
      else SplitFrom(input[1..], next, current + [input[0]])
  }

  function SplitArguments(input: string): (parts: seq<string>)
    ensures parts != []
  {
    SplitFrom(input, TOP, "")
  }

  /** No part is longer than the list it came from. */
  lemma {:induction false} PartsShort(input: string, d: Depths, current: string)
    ensures forall i :: 0 <= i < |SplitFrom(input, d, current)| ==> |SplitFrom(input, d, current)[i]| <= |current| + |input|
    decreases |input|
  {
    hide SplitFrom;
    if input == "" {
      SplitEnd(d, current);
    } else {
      SplitNext(input, d, current);
      PartsShort(input[1..], TOP, "");
      PartsShort(input[1..], After(d, input[0]), current + [input[0]]);
    }
  }

  /** One character: a cut ends the current part, anything else extends it. */
  lemma SplitNext(input: string, d: Depths, current: string)
    requires input != ""
    ensures SplitFrom(input, d, current) ==
            if input[0] == ',' && d == TOP then [current] + SplitFrom(input[1..], TOP, "")
            else SplitFrom(input[1..], After(d, input[0]), current + [input[0]])
  {
  }

  lemma SplitEnd(d: Depths, current: string)
    ensures SplitFrom("", d, current) == [current]
  {
  }

  /** The loop of splitArguments over three depth counters. */
  method SplitArgumentsLoop(input: string) returns (parts: seq<string>)
    ensures parts == SplitArguments(input)
  {
    hide SplitFrom;
    parts := [];
    var depth, bracket, brace := 0, 0, 0;
    var current := "";
    ghost var rest := SplitArguments(input);
    var i := 0;
    while i < |input|
      invariant 0 <= i <= |input|
      invariant rest == SplitFrom(input[i..], Depths(depth, bracket, brace), current)
      invariant SplitArguments(input) == parts + rest
    {
      var character := input[i];
      assert input[i..][0] == character && input[i..][1..] == input[i + 1..];
      SplitNext(input[i..], Depths(depth, bracket, brace), current);
      if character == '(' {
        depth := depth + 1;
      } else if character == ')' {
        depth := depth - 1;
      } else if character == '[' {
        bracket := bracket + 1;
      } else if character == ']' {
        bracket := bracket - 1;
      } else if character == '{' {
        brace := brace + 1;
      } else if character == '}' {
        brace := brace - 1;
      }
      if character == ',' && depth == 0 && bracket == 0 && brace == 0 {
        rest := SplitFrom(input[i + 1..], TOP, "");
        parts := parts + [current];
        current := "";
      } else {
        current := current + [character];
      }
      i := i + 1;
    }
    assert input[i..] == "";
    SplitEnd(Depths(depth, bracket, brace), current);
    parts := parts + [current];
  }

  // ----- where the cuts are

  /** The depths after a text. */
  function Walk(s: string, d: Depths): Depths
    decreases |s|
  {
    if s == "" then d else Walk(s[1..], After(d, s[0]))
  }

  /** No comma of the text stands outside every bracket. */
  predicate NoCut(s: string, d: Depths)
    decreases |s|
  {
    s == "" || (!(s[0] == ',' && d == TOP) && NoCut(s[1..], After(d, s[0])))
  }

  /** The parts of a list: each one whole, and all but the last closed. */
  predicate Uncut(parts: seq<string>) {
    forall i :: 0 <= i < |parts| ==> NoCut(parts[i], TOP) && (i < |parts| - 1 ==> Walk(parts[i], TOP) == TOP)
  }

  lemma {:induction false} WalkConcat(a: string, b: string, d: Depths)
    ensures Walk(a + b, d) == Walk(b, Walk(a, d))
    decreases |a|
  {
    if a == "" {
      assert a + b == b;
    } else {
      WalkConcat(a[1..], b, After(d, a[0]));
      assert (a + b)[1..] == a[1..] + b;
    }
  }

  lemma {:induction false} NoCutConcat(a: string, b: string, d: Depths)
    ensures NoCut(a + b, d) <==> NoCut(a, d) && NoCut(b, Walk(a, d))
    decreases |a|
  {
    if a == "" {
      assert a + b == b;
    } else {
      NoCutConcat(a[1..], b, After(d, a[0]));
      assert (a + b)[1..] == a[1..] + b;
    }
  }

  /** A text without a cut is carried along whole. */
  lemma {:induction false} SplitPast(p: string, rest: string, d: Depths, current: string)
    requires NoCut(p, d)
    ensures SplitFrom(p + rest, d, current) == SplitFrom(rest, Walk(p, d), current + p)
    decreases |p|
  {
    hide SplitFrom;
    if p == "" {
      assert p + rest == rest && current + p == current;
    } else {
      assert (p + rest)[0] == p[0] && (p + rest)[1..] == p[1..] + rest;
      SplitNext(p + rest, d, current);
      SplitPast(p[1..], rest, After(d, p[0]), current + [p[0]]);
      assert (current + [p[0]]) + p[1..] == current + p;
    }
  }

  lemma {:induction false} UncutSplits(parts: seq<string>)
    requires parts != [] && Uncut(parts)
    ensures SplitArguments(Join(parts, ',')) == parts
  {
    hide Walk, NoCut, SplitFrom;
    var first := parts[0];
    assert NoCut(first, TOP);
    if |parts| == 1 {
      SplitPast(first, "", TOP, "");
      assert first + "" == first && "" + first == first;
      SplitEnd(Walk(first, TOP), first);
    } else {
      var rest := Join(parts[1..], ',');
      assert Walk(first, TOP) == TOP;
      assert forall i :: 0 <= i < |parts[1..]| ==> parts[1..][i] == parts[i + 1];
      UncutSplits(parts[1..]);
      assert first + [','] + rest == first + ("," + rest);
      SplitPast(first, "," + rest, TOP, "");
      assert "" + first == first;
      assert ("," + rest)[0] == ',' && ("," + rest)[1..] == rest;
      SplitNext("," + rest, TOP, first);
    }
  }

  lemma {:induction false} SplitUncut(input: string, d: Depths, current: string)
    requires NoCut(current, TOP) && Walk(current, TOP) == d
    ensures Uncut(SplitFrom(input, d, current))
    ensures Join(SplitFrom(input, d, current), ',') == current + input
    decreases |input|
  {
    hide Walk, NoCut, SplitFrom, Uncut, Join;
    if input == "" {
      SplitEnd(d, current);
      UncutOne(current);
      assert current + "" == current;
    } else {
      var next := After(d, input[0]);
      SplitNext(input, d, current);
      Rejoin(current, input);
      if input[0] == ',' && d == TOP {
        EmptyUncut();
        SplitUncut(input[1..], next, "");
        UncutCons(current, SplitFrom(input[1..], next, ""));
      } else {
        OneUncut(input[0], d);
        NoCutConcat(current, [input[0]], TOP);
        WalkConcat(current, [input[0]], TOP);
        SplitUncut(input[1..], next, current + [input[0]]);
      }
    }
  }

  lemma Rejoin(current: string, input: string)
    requires input != ""
    ensures current + ([input[0]] + input[1..]) == current + input
    ensures current + [input[0]] + input[1..] == current + input
    ensures "" + input[1..] == input[1..]
  {
    assert [input[0]] + input[1..] == input;
  }

  lemma UncutOne(current: string)
    requires NoCut(current, TOP)
    ensures Uncut([current]) && Join([current], ',') == current
  {
  }

  lemma UncutCons(current: string, rest: seq<string>)
    requires NoCut(current, TOP) && Walk(current, TOP) == TOP && rest != [] && Uncut(rest)
    ensures Uncut([current] + rest) && Join([current] + rest, ',') == current + ([','] + Join(rest, ','))
  {
    hide Walk, NoCut;
    var parts := [current] + rest;
    assert parts[1..] == rest;
    forall i | 0 <= i < |parts|
      ensures NoCut(parts[i], TOP) && (i < |parts| - 1 ==> Walk(parts[i], TOP) == TOP)
    {
      if i > 0 {
        assert parts[i] == rest[i - 1];
      }
    }
  }

  lemma EmptyUncut()
    ensures NoCut("", TOP) && Walk("", TOP) == TOP
  {
  }

  lemma OneUncut(c: char, d: Depths)
    ensures NoCut([c], d) <==> !(c == ',' && d == TOP)
    ensures Walk([c], d) == After(d, c)
  {
    assert [c][1..] == "";
  }

  /**
   * The splitter cuts at every comma outside all brackets and nowhere else:
   * its result is the one list of uncut parts that rejoins to the input.
   */
  lemma SplitIsExact(input: string, parts: seq<string>)
    requires parts != []
    ensures SplitArguments(input) == parts <==> Join(parts, ',') == input && Uncut(parts)
  {
    hide Walk, NoCut, SplitFrom, Uncut, Join;
    EmptyUncut();
    SplitUncut(input, TOP, "");
    assert "" + input == input;
    if Join(parts, ',') == input && Uncut(parts) {
      UncutSplits(parts);
    }
  }

  // ----- the same, by counting brackets

  /** As many of each bracket are opened as are closed. */
  predicate Balanced(s: string) {
    var m := multiset(s);
    m['('] == m[')'] && m['['] == m[']'] && m['{'] == m['}']
  }

  /** A comma with every bracket before it closed. */
  predicate CutAt(s: string, i: nat)
    requires i < |s|
  {
    s[i] == ',' && Balanced(s[..i])
  }

  lemma {:induction false} WalkCounts(s: string, d: Depths)
    ensures Walk(s, d) == Depths(d.paren + multiset(s)['('] - multiset(s)[')'], d.bracket + multiset(s)['['] - multiset(s)[']'],
                                 d.brace + multiset(s)['{'] - multiset(s)['}'])
    decreases |s|
  {
    if s != "" {
      WalkCounts(s[1..], After(d, s[0]));
      assert s == [s[0]] + s[1..];
      assert multiset(s) == multiset{s[0]} + multiset(s[1..]);
    }
  }

  lemma {:induction false} NoCutWalks(s: string, d: Depths)
    ensures NoCut(s, d) <==> forall i :: 0 <= i < |s| ==> !(s[i] == ',' && Walk(s[..i], d) == TOP)
    decreases |s|
  {
    if s != "" {
      hide Walk, NoCut, After;
      NoCutNext(s, d);
      WalkNothing(d);
      var rest, next := s[1..], After(d, s[0]);
      NoCutWalks(rest, next);
      assert s[..0] == "";
      forall i | 0 <= i < |rest|
        ensures rest[i] == s[i + 1] && Walk(rest[..i], next) == Walk(s[..i + 1], d)
      {
        assert s[..i + 1][0] == s[0] && s[..i + 1][1..] == rest[..i];
        WalkNext(s[..i + 1], d);
      }
      assert forall i :: 0 < i < |s| ==> s[i] == rest[i - 1] && Walk(s[..i], d) == Walk(rest[..i - 1], next);
    }
  }

  lemma NoCutNext(s: string, d: Depths)
    requires s != ""
    ensures NoCut(s, d) <==> !(s[0] == ',' && d == TOP) && NoCut(s[1..], After(d, s[0]))
  {
  }

  lemma WalkNext(s: string, d: Depths)
    requires s != ""
    ensures Walk(s, d) == Walk(s[1..], After(d, s[0]))
  {
  }

  lemma WalkNothing(d: Depths)
    ensures Walk("", d) == d
  {
  }

  /** Parts with no cut in them, all but the last with every bracket closed. */
  predicate PartsOf(parts: seq<string>) {
    forall k :: 0 <= k < |parts| ==> Closed(parts[k], k < |parts| - 1)
  }

  predicate Closed(part: string, closes: bool) {
    (forall i :: 0 <= i < |part| ==> !CutAt(part, i)) && (closes ==> Balanced(part))
  }

  lemma BalancedWalk(s: string)
    ensures Balanced(s) <==> Walk(s, TOP) == TOP
  {
    WalkCounts(s, TOP);
  }

  lemma ClosedMeans(part: string, closes: bool)
    ensures Closed(part, closes) <==> NoCut(part, TOP) && (closes ==> Walk(part, TOP) == TOP)
  {
    hide Walk, NoCut, Balanced;
    NoCutWalks(part, TOP);
    BalancedWalk(part);
    forall i | 0 <= i < |part|
      ensures CutAt(part, i) <==> part[i] == ',' && Walk(part[..i], TOP) == TOP
    {
      BalancedWalk(part[..i]);
    }
  }

  /** The splitter's result is the one list of such parts that rejoins to the input. */
  lemma SplitCounts(input: string, parts: seq<string>)
    requires parts != []
    ensures SplitArguments(input) == parts <==> Join(parts, ',') == input && PartsOf(parts)
  {
    hide Walk, NoCut, SplitArguments, Join, Closed;
    SplitIsExact(input, parts);
    forall k | 0 <= k < |parts|
      ensures Closed(parts[k], k < |parts| - 1) <==> NoCut(parts[k], TOP) && (k < |parts| - 1 ==> Walk(parts[k], TOP) == TOP)
    {
      ClosedMeans(parts[k], k < |parts| - 1);
    }
  }

  // ----- text that can stand inside a list

  predicate NonNegative(d: Depths) {
    d.paren >= 0 && d.bracket >= 0 && d.brace >= 0
  }

  /** No bracket closes before it opens, and no comma is outside all of them. */
  predicate Safe(s: string, d: Depths)
    decreases |s|
  {
    s == "" || (NonNegative(After(d, s[0])) && !(s[0] == ',' && d == TOP) && Safe(s[1..], After(d, s[0])))
  }

  predicate Whole(s: string) {
    Safe(s, TOP) && Walk(s, TOP) == TOP
  }

  function Plus(d: Depths, e: Depths): Depths {
    Depths(d.paren + e.paren, d.bracket + e.bracket, d.brace + e.brace)
  }

  lemma {:induction false} SafeInside(s: string, d: Depths, e: Depths)
    requires Safe(s, d) && NonNegative(d) && NonNegative(e)
    ensures Safe(s, Plus(d, e)) && Walk(s, Plus(d, e)) == Plus(Walk(s, d), e)
    decreases |s|
  {
    if s != "" {
      SafeInside(s[1..], After(d, s[0]), e);
      assert After(Plus(d, e), s[0]) == Plus(After(d, s[0]), e);
    }
  }

  lemma {:induction false} SafeConcat(a: string, b: string, d: Depths)
    requires Safe(a, d) && Safe(b, Walk(a, d))
    ensures Safe(a + b, d) && Walk(a + b, d) == Walk(b, Walk(a, d))
    decreases |a|
  {
    if a == "" {
      assert a + b == b;
    } else {
      SafeConcat(a[1..], b, After(d, a[0]));
      assert (a + b)[1..] == a[1..] + b;
    }
  }

  lemma {:induction false} SafeNoCut(s: string, d: Depths)
    requires Safe(s, d)
    ensures NoCut(s, d)
    decreases |s|
  {
    if s != "" {
      SafeNoCut(s[1..], After(d, s[0]));
    }
  }

  predicate PlainChar(c: char) {
    c != '(' && c != ')' && c != '[' && c != ']' && c != '{' && c != '}' && c != ','
  }

  predicate Plain(s: string) {
    forall i :: 0 <= i < |s| ==> PlainChar(s[i])
  }

  lemma {:induction false} PlainSafe(s: string, d: Depths)
    requires Plain(s) && NonNegative(d)
    ensures Safe(s, d) && Walk(s, d) == d
    decreases |s|
  {
    if s != "" {
      assert PlainChar(s[0]);
      PlainSafe(s[1..], d);
    }
  }

  lemma OneSafe(c: char, d: Depths)
    requires NonNegative(After(d, c)) && !(c == ',' && d == TOP)
    ensures Safe([c], d) && Walk([c], d) == After(d, c)
  {
    assert [c][1..] == "";
  }

  lemma {:induction false} ListSafe(parts: seq<string>, d: Depths)
    requires NonNegative(d) && d != TOP && forall i :: 0 <= i < |parts| ==> Whole(parts[i])
    ensures Safe(Join(parts, ','), d) && Walk(Join(parts, ','), d) == d
  {
    hide Safe, Walk;
    if parts == [] {
      NothingSafe(d);
    } else {
      SafeInside(parts[0], TOP, d);
      assert Plus(TOP, d) == d;
      if |parts| > 1 {
        ListSafe(parts[1..], d);
        OneSafe(',', d);
        SafeConcat(parts[0], [','], d);
        SafeConcat(parts[0] + [','], Join(parts[1..], ','), d);
      }
    }
  }

  lemma NothingSafe(d: Depths)
    ensures Safe("", d) && Walk("", d) == d
  {
  }

  /** Text between a pair of brackets is whole when the text inside is safe there. */
  lemma BracketedWhole(head: string, open: char, inner: string, close: char, tail: string)
    requires Plain(head) && Plain(tail)
    requires After(After(TOP, open), close) == TOP && NonNegative(After(TOP, open)) && open != ',' && close != ','
    requires Safe(inner, After(TOP, open)) && Walk(inner, After(TOP, open)) == After(TOP, open)
    ensures Whole(head + [open] + inner + [close] + tail)
  {
    hide Safe, Walk, Plain;
    var d := After(TOP, open);
    PlainSafe(head, TOP);
    OneSafe(open, TOP);
    SafeConcat(head, [open], TOP);
    SafeConcat(head + [open], inner, TOP);
    OneSafe(close, d);
    SafeConcat(head + [open] + inner, [close], TOP);
    PlainSafe(tail, TOP);
    SafeConcat(head + [open] + inner + [close], tail, TOP);
  }

  lemma PlainWhole(s: string)
    requires Plain(s)
    ensures Whole(s)
  {
    PlainSafe(s, TOP);
  }

  /** A list of whole parts is split back into them. */
  lemma WholeSplits(parts: seq<string>)
    requires parts != [] && forall i :: 0 <= i < |parts| ==> Whole(parts[i])
    ensures SplitArguments(Join(parts, ',')) == parts
  {
    hide Safe, Walk, NoCut, SplitFrom;
    forall i | 0 <= i < |parts|
      ensures NoCut(parts[i], TOP) && Walk(parts[i], TOP) == TOP
    {
      SafeNoCut(parts[i], TOP);
    }
    UncutSplits(parts);
  }
}
