/**
 * The two spellings of a hardened step. Text that differs only in writing h
 * for an apostrophe parses the same, error for error.
 */
module Spelling {
  import opened Text
  import opened Path
  import opened Keys

  /** Equal except that one may write h where the other writes an apostrophe. */
  ghost predicate SameTicks(a: string, b: string) {
    |a| == |b| && forall i :: 0 <= i < |a| ==> SameTick(a[i], b[i])
  }

  predicate SameTick(c: char, d: char) {
    c == d || (IsTick(c) && IsTick(d))
  }

  ghost predicate SameTicksEach(a: seq<string>, b: seq<string>) {
    |a| == |b| && forall i :: 0 <= i < |a| ==> SameTicks(a[i], b[i])
  }

  lemma TicksSlice(a: string, b: string, lo: nat, hi: nat)
    requires SameTicks(a, b) && lo <= hi <= |a|
    ensures SameTicks(a[lo..hi], b[lo..hi])
  {
  }

  lemma TicksAppend(a: string, b: string, c: string, d: string)
    requires SameTicks(a, b) && SameTicks(c, d)
    ensures SameTicks(a + c, b + d)
  {
  }

  lemma TicksIndexOf(a: string, b: string, c: char)
    requires SameTicks(a, b) && !IsTick(c)
    ensures IndexOf(a, c) == IndexOf(b, c)
    ensures c in a <==> c in b
  {
    var i, j := IndexOf(a, c), IndexOf(b, c);
    assert i >= 0 ==> SameTick(a[i], b[i]);
    assert j >= 0 ==> SameTick(a[j], b[j]);
  }

  lemma {:induction false} TicksSplit(a: string, b: string, sep: char)
    requires SameTicks(a, b) && !IsTick(sep)
    ensures SameTicksEach(Split(a, sep), Split(b, sep))
  {
    if a == "" {
    } else {
      assert SameTick(a[0], b[0]);
      TicksSlice(a, b, 1, |a|);
      TicksSplit(a[1..], b[1..], sep);
      var u, v := Split(a[1..], sep), Split(b[1..], sep);
      assert SameTicks(u[0], v[0]);
      if a[0] != sep {
        assert SameTicks([a[0]] + u[0], [b[0]] + v[0]);
      } else {
        assert SameTicks("", "");
      }
    }
  }

  lemma TicksDigits(a: string, b: string)
    requires SameTicks(a, b)
    ensures AllDigits(a) == AllDigits(b)
    ensures AllDigits(a) ==> a == b
  {
    if AllDigits(a) {
      forall i | 0 <= i < |a|
        ensures a[i] == b[i]
      {
        assert SameTick(a[i], b[i]) && IsDigit(a[i]);
      }
    }
    if AllDigits(b) {
      forall i | 0 <= i < |a|
        ensures a[i] == b[i]
      {
        assert SameTick(a[i], b[i]) && IsDigit(b[i]);
      }
    }
  }

  lemma TicksStep(a: string, b: string)
    requires SameTicks(a, b)
    ensures ParseStep(a) == ParseStep(b)
    ensures ParseAlternative(a) == ParseAlternative(b)
  {
    if a != "" {
      var n := |a| - 1;
      assert SameTick(a[n], b[n]);
      TicksSlice(a, b, 0, n);
      assert a[0..n] == a[..n] && b[0..n] == b[..n];
      TicksDigits(a, b);
      TicksDigits(a[..n], b[..n]);
    }
  }

  lemma {:induction false} TicksSteps(a: seq<string>, b: seq<string>)
    requires SameTicksEach(a, b)
    ensures ParseSteps(a) == ParseSteps(b)
    ensures ParseAlternatives(a) == ParseAlternatives(b)
  {
    hide ParseStep, ParseAlternative, SameTicks;
    if a != [] {
      assert SameTicks(a[0], b[0]);
      TicksStep(a[0], b[0]);
      assert forall i :: 0 <= i < |a[1..]| ==> a[1..][i] == a[i + 1] && b[1..][i] == b[i + 1];
      TicksSteps(a[1..], b[1..]);
    }
  }

  lemma {:induction false} TicksTrimStart(a: string, b: string)
    requires SameTicks(a, b)
    ensures SameTicks(TrimStart(a), TrimStart(b))
  {
    if a != "" {
      assert SameTick(a[0], b[0]);
      if IsSpace(a[0]) {
        TicksTrimStart(a[1..], b[1..]);
      }
    }
  }

  lemma {:induction false} TicksTrimEnd(a: string, b: string)
    requires SameTicks(a, b)
    ensures SameTicks(TrimEnd(a), TrimEnd(b))
  {
    if a != "" {
      var n := |a| - 1;
      assert SameTick(a[n], b[n]);
      if IsSpace(a[n]) {
        TicksTrimEnd(a[..n], b[..n]);
      }
    }
  }

  lemma TicksSegments(a: seq<string>, b: seq<string>)
    requires a != [] && SameTicksEach(a, b)
    ensures ParseSegments(a) == ParseSegments(b)
  {
    assert SameTicks(a[0], b[0]);
    if |a[0]| == 1 {
      assert SameTick(a[0][0], b[0][0]);
      assert a[0] == [a[0][0]] && b[0] == [b[0][0]];
    }
    assert SameTicksEach(a[1..], b[1..]);
    TicksSteps(a[1..], b[1..]);
  }

  lemma TicksPath(a: string, b: string)
    requires SameTicks(a, b)
    ensures ParsePath(a) == ParsePath(b)
  {
    hide TrimStart, TrimEnd, Split, ParseSegments, SameTicks;
    TicksTrimStart(a, b);
    TicksTrimEnd(TrimStart(a), TrimStart(b));
    TicksSplit(Trim(a), Trim(b), '/');
    TicksSegments(Split(Trim(a), '/'), Split(Trim(b), '/'));
    TicksEmpty(Trim(a), Trim(b));
  }

  lemma TicksEmpty(a: string, b: string)
    requires SameTicks(a, b)
    ensures a == "" <==> b == ""
  {
  }

  lemma TicksMultipath(a: string, b: string)
    requires SameTicks(a, b)
    ensures ParseMultipath(a) == ParseMultipath(b)
  {
    hide Split, ParseAlternatives, SameTicks, Distinct;
    TicksSplit(a, b, ';');
    TicksSteps(Split(a, ';'), Split(b, ';'));
  }

  lemma TicksTakeMultipath(a: string, b: string)
    requires SameTicks(a, b)
    ensures var r, s := TakeMultipath(a), TakeMultipath(b);
            match (r, s)
            case (Ok((u, m)), Ok((v, n))) => SameTicks(u, v) && m == n
            case (Err(e), Err(f)) => e == f
            case _ => false
  {
    hide IndexOf, ParseMultipath;
    TicksIndexOf(a, b, '<');
    TicksIndexOf(a, b, '>');
    var open, close := IndexOf(a, '<'), IndexOf(a, '>');
    if open != -1 && open < close {
      TicksSlice(a, b, open + 1, close);
      TicksMultipath(a[open + 1..close], b[open + 1..close]);
      TicksSlice(a, b, open + 1, |a|);
      assert a[open + 1..|a|] == a[open + 1..] && b[open + 1..|a|] == b[open + 1..];
      TicksIndexOf(a[open + 1..], b[open + 1..], '<');
      TicksReplace(a, b, open, close);
    }
  }

  lemma TicksReplace(a: string, b: string, open: nat, close: nat)
    requires SameTicks(a, b) && open < close < |a|
    ensures SameTicks(a[..open] + "0" + a[close + 1..], b[..open] + "0" + b[close + 1..])
  {
    assert SameTicks(a[..open], b[..open]) && SameTicks("0", "0");
    TicksAppend(a[..open], b[..open], "0", "0");
    assert SameTicks(a[close + 1..], b[close + 1..]);
    TicksAppend(a[..open] + "0", b[..open] + "0", a[close + 1..], b[close + 1..]);
  }

  lemma TicksEnding(a: string, b: string)
    requires SameTicks(a, b)
    ensures EndsWith(a, "/*") == EndsWith(b, "/*")
    ensures (EndsWith(a, "/*'") || EndsWith(a, "/*h")) == (EndsWith(b, "/*'") || EndsWith(b, "/*h"))
  {
    var n := |a|;
    assert n >= 1 ==> SameTick(a[n - 1], b[n - 1]);
    assert n >= 2 ==> SameTick(a[n - 2], b[n - 2]);
    assert n >= 3 ==> SameTick(a[n - 3], b[n - 3]);
    EndsWithTwo(a, '/', '*');
    EndsWithTwo(b, '/', '*');
    EndsWithThree(a, '\'');
    EndsWithThree(b, '\'');
    EndsWithThree(a, 'h');
    EndsWithThree(b, 'h');
  }

  lemma EndsWithTwo(s: string, c: char, d: char)
    ensures EndsWith(s, [c, d]) <==> |s| >= 2 && s[|s| - 2] == c && s[|s| - 1] == d
  {
    if |s| >= 2 {
      assert s[|s| - 2..] == [s[|s| - 2], s[|s| - 1]];
    }
  }

  lemma EndsWithThree(s: string, e: char)
    ensures EndsWith(s, ['/', '*', e]) <==> |s| >= 3 && s[|s| - 3] == '/' && s[|s| - 2] == '*' && s[|s| - 1] == e
  {
    if |s| >= 3 {
      assert s[|s| - 3..] == [s[|s| - 3], s[|s| - 2], s[|s| - 1]];
    }
  }

  lemma TicksWorking(a: string, b: string, ranged: bool)
    requires SameTicks(a, b)
    ensures ParseWorking(a, ranged) == ParseWorking(b, ranged)
  {
    hide TakeMultipath, ParsePath, SameTicks;
    TicksTakeMultipath(a, b);
    if TakeMultipath(a).Ok? {
      var u, v := TakeMultipath(a).value.0, TakeMultipath(b).value.0;
      TicksEmpty(u, v);
      TicksLength(u, v);
      TicksAppend("m", "m", u, v);
      TicksPath("m" + u, "m" + v);
    }
  }

  /** A suffix means the same under either spelling of its hardened steps. */
  lemma TicksDerivation(a: string, b: string)
    requires SameTicks(a, b)
    ensures ParseDerivation(a) == ParseDerivation(b)
  {
    hide EndsWith, ParseWorking, SameTicks;
    TicksEmpty(a, b);
    TicksEnding(a, b);
    TicksIndexOf(a, b, 'H');
    TicksLength(a, b);
    TicksWorking(a, b, false);
    if EndsWith(a, "/*") {
      var cut := |a| - 2;
      TicksSlice(a, b, 0, cut);
      assert a[0..cut] == a[..cut] && b[0..cut] == b[..cut];
      TicksWorking(a[..cut], b[..cut], true);
    }
  }

  lemma TicksLength(a: string, b: string)
    requires SameTicks(a, b)
    ensures |a| == |b|
    ensures EndsWith(a, "/*") ==> |a| >= 2
    ensures SameTicks("m", "m")
  {
  }

  /** Two origins written with the same fingerprint and steps. */
  ghost predicate SameBracket(a: string, b: string) {
    var slash := IndexOf(a, '/');
    && IndexOf(b, '/') == slash
    && if slash == -1 then Lower(a) == Lower(b)
       else Lower(a[..slash]) == Lower(b[..slash]) && SameTicks(a[slash + 1..], b[slash + 1..])
  }

  /** An origin means the same under either spelling of its steps and any case of its fingerprint. */
  lemma TicksBracket(a: string, b: string)
    requires SameBracket(a, b)
    ensures ParseBracket(a) == ParseBracket(b)
  {
    hide IndexOf, AllHex, ParsePath;
    var slash := IndexOf(a, '/');
    if slash != -1 {
      var p, q := a[slash + 1..], b[slash + 1..];
      TicksIndexOf(p, q, 'H');
      TicksEmpty(p, q);
      TicksAppend("m/", "m/", p, q);
      TicksPath("m/" + p, "m/" + q);
    }
  }
}
