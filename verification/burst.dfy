/** What the BIP-380 checksum detects, and what verifying one decides. */
module Burst {
  import opened Text
  import opened Bits
  import opened Checksum

  // ----- the state is forty bits wide

  lemma {:induction false} SelectedFits(top: nat, n: nat)
    requires n <= |GENERATORS|
    ensures Fits(Selected(top, n), 40)
  {
    hide Fits, Xor, Bit;
    ZeroFits(40);
    if n > 0 {
      SelectedFits(top, n - 1);
      GeneratorFits(n - 1);
      var picked := Pick(Bit(top, n - 1), GENERATORS[n - 1]);
      XorFits(Selected(top, n - 1), picked, 40);
    }
  }

  lemma ZeroFits(width: nat)
    ensures Fits(0, width)
  {
    forall k: nat | k >= width
      ensures !Bit(0, k)
    {
      BitZero(k);
    }
    NoHighBits(0, width);
  }

  lemma Pow2Forty()
    ensures Pow2(40) == 0x100_0000_0000
    ensures Pow2(5) == 32
  {
    assert Pow2(10) == 0x400;
    assert Pow2(20) == 0x10_0000;
    assert Pow2(30) == 0x4000_0000;
  }

  lemma GeneratorFits(i: nat)
    requires i < |GENERATORS|
    ensures Fits(GENERATORS[i], 40)
  {
    FitsBelow(GENERATORS[i], 40);
    Pow2Forty();
  }

  lemma StepFits(state: nat, symbol: nat)
    requires Fits(symbol, 40)
    ensures Fits(Step(state, symbol), 40)
  {
    hide Xor, Low, Shl, Selected, Fits;
    var top := Shr(state, 35);
    LowFits(state, 35);
    ShlFits(Low(state, 35), 5, 35);
    SelectedFits(top, |GENERATORS|);
    XorFits(Shl(Low(state, 35), 5), Selected(top, |GENERATORS|), 40);
    XorFits(Shift(state), symbol, 40);
  }

  lemma {:induction false} FeedFits(state: nat, symbols: seq<nat>)
    requires Fits(state, 40) && forall i :: 0 <= i < |symbols| ==> symbols[i] < 32
    ensures Fits(Feed(state, symbols), 40)
    decreases |symbols|
  {
    hide Step, Fits;
    if symbols != [] {
      SymbolFits(symbols[0]);
      StepFits(state, symbols[0]);
      FeedFits(Step(state, symbols[0]), symbols[1..]);
    }
  }

  lemma SymbolFits(symbol: nat)
    requires symbol < 32
    ensures Fits(symbol, 5) && Fits(symbol, 40)
  {
    hide Fits;
    Pow2Forty();
    FitsBelow(symbol, 5);
    FitsMore(symbol, 5, 40);
  }

  // ----- a difference inside eight symbols survives

  /** Below 2^35 a step only moves the state up and adds the symbol. */
  lemma SmallStep(d: nat, x: nat, width: nat)
    requires Fits(d, width) && width <= 35 && Fits(x, 5)
    ensures Fits(Step(d, x), width + 5)
    ensures Step(d, x) == 0 ==> d == 0 && x == 0
  {
    hide Xor, Low, Shl, Fits;
    FitsMore(d, width, 35);
    LowFits(d, 35);
    assert Shr(d, 35) == 0 by {
      assert Fits(d, 35);
      NothingAbove(d);
    }
    SelectedNone(|GENERATORS|);
    XorZero(Shl(d, 5));
    ShlFits(d, 5, width);
    FitsMore(x, 5, width + 5);
    XorFits(Shl(d, 5), x, width + 5);
    if Step(d, x) == 0 {
      XorCancels(Shl(d, 5), x);
      forall k: nat
        ensures Bit(d, k) == Bit(0, k) && Bit(x, k) == Bit(0, k)
      {
        BitZero(k);
        BitShl(d, 5, k);
        BitShl(d, 5, k + 5);
        NoHighBit(x, 5, k + 5);
        if k >= 5 {
          NoHighBit(x, 5, k);
        }
      }
      BitsDecide(d, 0);
      BitsDecide(x, 0);
    }
  }

  lemma NothingAbove(d: nat)
    requires Fits(d, 35)
    ensures Shr(d, 35) == 0
  {
  }

  lemma {:induction false} SelectedNone(n: nat)
    requires n <= |GENERATORS|
    ensures Selected(0, n) == 0
  {
    if n > 0 {
      SelectedNone(n - 1);
      BitZero(n - 1);
      XorZero(0);
    }
  }

  predicate AllFive(symbols: seq<nat>) {
    forall i :: 0 <= i < |symbols| ==> Fits(symbols[i], 5)
  }

  predicate SomeSet(symbols: seq<nat>) {
    exists i :: 0 <= i < |symbols| && symbols[i] != 0
  }

  /** Eight symbols fit in the state before anything is reduced. */
  lemma {:induction false} WindowSurvives(d: nat, symbols: seq<nat>, fed: nat)
    requires Fits(d, 5 * fed) && fed + |symbols| <= 8 && AllFive(symbols)
    requires d != 0 || SomeSet(symbols)
    ensures Feed(d, symbols) != 0 && Fits(Feed(d, symbols), 40)
    decreases |symbols|
  {
    hide Step, Fits;
    if symbols == [] {
      FitsMore(d, 5 * fed, 40);
    } else {
      SmallStep(d, symbols[0], 5 * fed);
      var next := Step(d, symbols[0]);
      if next == 0 {
        var i :| 0 <= i < |symbols| && symbols[i] != 0;
        assert symbols[1..][i - 1] != 0;
      }
      assert 5 * fed + 5 == 5 * (fed + 1);
      WindowSurvives(next, symbols[1..], fed + 1);
    }
  }

  // ----- and is never forgotten

  /** The low five bits of the generators are independent. */
  lemma SelectedLowBits(top: nat)
    requires Fits(top, 5)
    requires forall k :: 0 <= k < 5 ==> !Bit(Selected(top, |GENERATORS|), k)
    ensures top == 0
  {
    hide Fits;
    SelectedBit(top, 0);
    SelectedBit(top, 1);
    SelectedBit(top, 2);
    SelectedBit(top, 3);
    SelectedBit(top, 4);
    GeneratorBits();
    forall k: nat
      ensures Bit(top, k) == Bit(0, k)
    {
      BitZero(k);
      if k >= 5 {
        NoHighBit(top, 5, k);
      }
    }
    BitsDecide(top, 0);
  }

  /** A bit of the combined generators is the parity of the chosen ones that have it. */
  lemma SelectedBit(top: nat, k: nat)
    ensures Bit(Selected(top, |GENERATORS|), k) ==
            ((Bit(top, 0) && Bit(GENERATORS[0], k)) !=
             ((Bit(top, 1) && Bit(GENERATORS[1], k)) !=
              ((Bit(top, 2) && Bit(GENERATORS[2], k)) !=
               ((Bit(top, 3) && Bit(GENERATORS[3], k)) != (Bit(top, 4) && Bit(GENERATORS[4], k))))))
  {
    hide Bit, Selected;
    assert Selected(top, 0) == 0 by {
      SelectedEmpty(top);
    }
    SelectedBitStep(top, 1, k);
    SelectedBitStep(top, 2, k);
    SelectedBitStep(top, 3, k);
    SelectedBitStep(top, 4, k);
    SelectedBitStep(top, 5, k);
    BitZero(k);
  }

  lemma SelectedEmpty(top: nat)
    ensures Selected(top, 0) == 0
  {
  }

  lemma SelectedBitStep(top: nat, n: nat, k: nat)
    requires 0 < n <= |GENERATORS|
    ensures Bit(Selected(top, n), k) == (Bit(Selected(top, n - 1), k) != (Bit(top, n - 1) && Bit(GENERATORS[n - 1], k)))
  {
    BitXor(Selected(top, n - 1), Pick(Bit(top, n - 1), GENERATORS[n - 1]), k);
    BitZero(k);
  }

  /** Row by row: 01001, 10010, 01101, 11010 and 11101. */
  lemma GeneratorBits()
    ensures Bit(GENERATORS[0], 0) && !Bit(GENERATORS[1], 0) && Bit(GENERATORS[2], 0) && !Bit(GENERATORS[3], 0) && Bit(GENERATORS[4], 0)
    ensures !Bit(GENERATORS[0], 1) && Bit(GENERATORS[1], 1) && !Bit(GENERATORS[2], 1) && Bit(GENERATORS[3], 1) && !Bit(GENERATORS[4], 1)
    ensures !Bit(GENERATORS[0], 2) && !Bit(GENERATORS[1], 2) && Bit(GENERATORS[2], 2) && !Bit(GENERATORS[3], 2) && Bit(GENERATORS[4], 2)
    ensures Bit(GENERATORS[0], 3) && !Bit(GENERATORS[1], 3) && Bit(GENERATORS[2], 3) && Bit(GENERATORS[3], 3) && Bit(GENERATORS[4], 3)
    ensures !Bit(GENERATORS[0], 4) && Bit(GENERATORS[1], 4) && !Bit(GENERATORS[2], 4) && Bit(GENERATORS[3], 4) && Bit(GENERATORS[4], 4)
  {
  }

  /** A forty-bit state that a zero symbol turns into nothing was nothing. */
  lemma ShiftForgetsNothing(state: nat)
    requires Fits(state, 40) && Shift(state) == 0
    ensures state == 0
  {
    hide Xor, Low, Shl, Selected, Fits;
    var top := Shr(state, 35);
    var slid := Shl(Low(state, 35), 5);
    XorCancels(slid, Selected(top, |GENERATORS|));
    forall k | 0 <= k < 5
      ensures !Bit(Selected(top, |GENERATORS|), k)
    {
      BitShl(Low(state, 35), 5, k);
    }
    TopFits(state);
    SelectedLowBits(top);
    SelectedNone(|GENERATORS|);
    forall k: nat
      ensures Bit(state, k) == Bit(0, k)
    {
      BitZero(k);
      BitZero(k + 5);
      if k < 35 {
        BitShl(Low(state, 35), 5, k + 5);
        BitLow(state, 35, k);
      } else {
        BitShr(state, 35, k - 35);
        BitZero(k - 35);
      }
    }
    BitsDecide(state, 0);
  }

  lemma TopFits(state: nat)
    requires Fits(state, 40)
    ensures Fits(Shr(state, 35), 5)
  {
    hide Fits;
    forall k: nat | k >= 5
      ensures !Bit(Shr(state, 35), k)
    {
      BitShr(state, 35, k);
      NoHighBit(state, 40, k + 35);
    }
    NoHighBits(Shr(state, 35), 5);
  }

  lemma {:induction false} ZerosForgetNothing(d: nat, symbols: seq<nat>)
    requires Fits(d, 40) && d != 0 && forall i :: 0 <= i < |symbols| ==> symbols[i] == 0
    ensures Feed(d, symbols) != 0 && Fits(Feed(d, symbols), 40)
    decreases |symbols|
  {
    hide Fits, Shift;
    if symbols != [] {
      XorZero(Shift(d));
      if Step(d, 0) == 0 {
        ShiftForgetsNothing(d);
      }
      SymbolFits(0);
      StepFits(d, 0);
      ZerosForgetNothing(Step(d, symbols[0]), symbols[1..]);
    }
  }

  // ----- distinct characters give distinct symbols

  predicate InAlphabet(positions: seq<nat>) {
    forall i :: 0 <= i < |positions| ==> positions[i] < 95
  }

  lemma SymbolsInside(groupIndex: nat, groupValue: nat, value: nat, ps: seq<nat>)
    requires ps != [] && groupIndex != 2 && value == groupValue * 3 + HighPart(ps[0])
    ensures Symbols(groupIndex, groupValue, ps) == [LowPart(ps[0])] + Symbols(groupIndex + 1, value, ps[1..])
  {
  }

  lemma SymbolsClose(groupValue: nat, value: nat, ps: seq<nat>)
    requires ps != [] && value == groupValue * 3 + HighPart(ps[0])
    ensures Symbols(2, groupValue, ps) == [LowPart(ps[0])] + ([value] + Symbols(0, 0, ps[1..]))
  {
  }

  lemma SymbolsEnd(groupIndex: nat, groupValue: nat)
    ensures Symbols(groupIndex, groupValue, []) == if groupIndex > 0 then [groupValue] else []
  {
  }

  lemma Flatten(a: nat, b: nat, c: nat, d: nat, rest: seq<nat>)
    ensures [a] + ([b] + ([c] + ([d] + rest))) == [a, b, c, d] + rest
  {
  }

  lemma GroupTail(first: nat, second: nat, third: nat, p1: nat, p2: nat, rest: seq<nat>)
    requires second == first * 3 + HighPart(p1) && third == second * 3 + HighPart(p2)
    ensures Symbols(1, first, [p1, p2] + rest) == [LowPart(p1)] + ([LowPart(p2)] + ([third] + Symbols(0, 0, rest)))
  {
    hide *;
    SymbolsInside(1, first, second, [p1, p2] + rest);
    assert ([p1, p2] + rest)[1..] == [p2] + rest;
    SymbolsClose(second, third, [p2] + rest);
    assert ([p2] + rest)[1..] == rest;
  }

  lemma GroupOf(first: nat, second: nat, third: nat, p0: nat, p1: nat, p2: nat, rest: seq<nat>)
    requires first == HighPart(p0) && second == first * 3 + HighPart(p1) && third == second * 3 + HighPart(p2)
    ensures Symbols(0, 0, [p0, p1, p2] + rest) ==
            [LowPart(p0), LowPart(p1), LowPart(p2), third] + Symbols(0, 0, rest)
  {
    hide *;
    SymbolsInside(0, 0, first, [p0, p1, p2] + rest);
    assert ([p0, p1, p2] + rest)[1..] == [p1, p2] + rest;
    GroupTail(first, second, third, p1, p2, rest);
    Flatten(LowPart(p0), LowPart(p1), LowPart(p2), third, Symbols(0, 0, rest));
  }

  /** The symbol that carries the high parts of a group. */
  function GroupSymbol(p0: nat, p1: nat, p2: nat): nat {
    (HighPart(p0) * 3 + HighPart(p1)) * 3 + HighPart(p2)
  }

  lemma FirstThree(ps: seq<nat>)
    requires |ps| >= 3
    ensures ps == [ps[0], ps[1], ps[2]] + ps[3..]
  {
  }

  /** A whole group of three stands on its own. */
  lemma Group(ps: seq<nat>)
    requires |ps| >= 3
    ensures Symbols(0, 0, ps) ==
            [LowPart(ps[0]), LowPart(ps[1]), LowPart(ps[2]), GroupSymbol(ps[0], ps[1], ps[2])] + Symbols(0, 0, ps[3..])
  {
    hide Symbols, LowPart, HighPart;
    var first := HighPart(ps[0]);
    var second := first * 3 + HighPart(ps[1]);
    FirstThree(ps);
    GroupOf(first, second, GroupSymbol(ps[0], ps[1], ps[2]), ps[0], ps[1], ps[2], ps[3..]);
  }

  /** One or two characters left over. */
  lemma LeftoverOne(p: nat)
    ensures Symbols(0, 0, [p]) == [LowPart(p), HighPart(p)]
  {
    hide *;
    SymbolsInside(0, 0, HighPart(p), [p]);
    assert [p][1..] == [];
    SymbolsEnd(1, HighPart(p));
  }

  lemma LeftoverTwo(p: nat, q: nat)
    ensures Symbols(0, 0, [p, q]) == [LowPart(p), LowPart(q), HighPart(p) * 3 + HighPart(q)]
  {
    hide *;
    var value := HighPart(p) * 3 + HighPart(q);
    SymbolsInside(0, 0, HighPart(p), [p, q]);
    assert [p, q][1..] == [q];
    SymbolsInside(1, HighPart(p), value, [q]);
    assert [q][1..] == [];
    SymbolsEnd(2, value);
  }

  /**
   * The symbols of a text, in numbers: three places modulo 32, and then one
   * symbol whose base-three digits are the three groups of 32 they are in.
   */
  lemma GroupMeans(p: nat, q: nat, r: nat, rest: seq<nat>)
    ensures Symbols(0, 0, [p, q, r] + rest) == [p % 32, q % 32, r % 32, 9 * (p / 32) + 3 * (q / 32) + r / 32] + Symbols(0, 0, rest)
  {
    hide *;
    var first := HighPart(p);
    var second := first * 3 + HighPart(q);
    var third := second * 3 + HighPart(r);
    GroupOf(first, second, third, p, q, r, rest);
    GroupDigits(p, q, r);
  }

  lemma GroupDigits(p: nat, q: nat, r: nat)
    ensures (HighPart(p) * 3 + HighPart(q)) * 3 + HighPart(r) == 9 * (p / 32) + 3 * (q / 32) + r / 32
    ensures LowPart(p) == p % 32 && LowPart(q) == q % 32 && LowPart(r) == r % 32
  {
  }

  /** And of a last group of one or two characters, the same cut short. */
  lemma LeftoverMeans(p: nat, q: nat)
    ensures Symbols(0, 0, [p]) == [p % 32, p / 32]
    ensures Symbols(0, 0, [p, q]) == [p % 32, q % 32, 3 * (p / 32) + q / 32]
  {
    hide Symbols;
    LeftoverOne(p);
    LeftoverTwo(p, q);
  }

  lemma AllSmall(ps: seq<nat>)
    requires InAlphabet(ps)
    ensures forall i :: 0 <= i < |ps| ==> HighPart(ps[i]) < 3 && LowPart(ps[i]) < 32
  {
  }

  function SymbolCount(n: nat): nat {
    n / 3 * 4 + (if n % 3 == 0 then 0 else n % 3 + 1)
  }

  lemma {:induction false} SymbolsShape(ps: seq<nat>)
    requires InAlphabet(ps)
    ensures |Symbols(0, 0, ps)| == SymbolCount(|ps|)
    ensures forall i :: 0 <= i < |Symbols(0, 0, ps)| ==> Symbols(0, 0, ps)[i] < 32
    decreases |ps|
  {
    hide Symbols, LowPart, HighPart;
    AllSmall(ps);
    if |ps| >= 3 {
      Group(ps);
      SymbolsShape(ps[3..]);
    } else if |ps| == 2 {
      assert ps == [ps[0], ps[1]];
      LeftoverTwo(ps[0], ps[1]);
    } else if |ps| == 1 {
      assert ps == [ps[0]];
      LeftoverOne(ps[0]);
    } else {
      SymbolsEnd(0, 0);
    }
  }

  lemma PartsDecide(p: nat, q: nat)
    requires LowPart(p) == LowPart(q) && HighPart(p) == HighPart(q)
    ensures p == q
  {
  }

  /** The symbols give back every position. */
  lemma {:induction false} SymbolsInjective(ps: seq<nat>, qs: seq<nat>)
    requires |ps| == |qs| && InAlphabet(ps) && InAlphabet(qs)
    requires Symbols(0, 0, ps) == Symbols(0, 0, qs)
    ensures ps == qs
    decreases |ps|
  {
    hide Symbols, LowPart, HighPart;
    if |ps| >= 3 {
      Group(ps);
      Group(qs);
      var u, v := Symbols(0, 0, ps), Symbols(0, 0, qs);
      assert u[0] == v[0] && u[1] == v[1] && u[2] == v[2] && u[3] == v[3];
      AllSmall(ps);
      AllSmall(qs);
      PartsDecide(ps[0], qs[0]);
      PartsDecide(ps[1], qs[1]);
      PartsDecide(ps[2], qs[2]);
      assert u[4..] == Symbols(0, 0, ps[3..]) && v[4..] == Symbols(0, 0, qs[3..]);
      SymbolsInjective(ps[3..], qs[3..]);
      assert ps == [ps[0], ps[1], ps[2]] + ps[3..] && qs == [qs[0], qs[1], qs[2]] + qs[3..];
    } else if |ps| > 0 {
      AllSmall(ps);
      AllSmall(qs);
      if |ps| == 1 {
        LastOneInjective(ps[0], qs[0], ps, qs);
      } else {
        LastTwoInjective(ps[0], ps[1], qs[0], qs[1], ps, qs);
      }
    }
  }

  lemma LastOneInjective(p: nat, q: nat, ps: seq<nat>, qs: seq<nat>)
    requires ps == [p] && qs == [q] && Symbols(0, 0, ps) == Symbols(0, 0, qs)
    ensures ps == qs
  {
    hide Symbols, LowPart, HighPart;
    LeftoverOne(p);
    LeftoverOne(q);
    assert Symbols(0, 0, ps)[0] == Symbols(0, 0, qs)[0] && Symbols(0, 0, ps)[1] == Symbols(0, 0, qs)[1];
    PartsDecide(p, q);
  }

  lemma LastTwoInjective(p0: nat, p1: nat, q0: nat, q1: nat, ps: seq<nat>, qs: seq<nat>)
    requires ps == [p0, p1] && qs == [q0, q1] && Symbols(0, 0, ps) == Symbols(0, 0, qs)
    requires HighPart(p1) < 3 && HighPart(q1) < 3
    ensures ps == qs
  {
    hide Symbols, LowPart, HighPart;
    LeftoverTwo(p0, p1);
    LeftoverTwo(q0, q1);
    var u, v := Symbols(0, 0, ps), Symbols(0, 0, qs);
    assert u[0] == v[0] && u[1] == v[1] && u[2] == v[2];
    PartsDecide(p0, q0);
    PartsDecide(p1, q1);
  }

  /** Whole groups are fed before whatever follows them. */
  lemma {:induction false} SymbolsSplit(ps: seq<nat>, groups: nat)
    requires 3 * groups <= |ps|
    ensures Symbols(0, 0, ps) == Symbols(0, 0, ps[..3 * groups]) + Symbols(0, 0, ps[3 * groups..])
    decreases groups
  {
    hide Symbols, LowPart, HighPart;
    if groups == 0 {
      SymbolsEnd(0, 0);
      assert ps[0..] == ps;
    } else {
      var front := ps[..3 * groups];
      Group(ps);
      Group(front);
      SymbolsSplit(ps[3..], groups - 1);
      assert front[3..] == ps[3..][..3 * (groups - 1)];
      assert ps[3..][3 * (groups - 1)..] == ps[3 * groups..];
    }
  }

  // ----- rendering loses nothing

  lemma CharsetDistinct(i: nat, j: nat)
    requires i < j < 32
    ensures CHECKSUM_CHARSET[i] != CHECKSUM_CHARSET[j]
  {
  }

  lemma SameDigit(i: nat, j: nat)
    requires i < 32 && j < 32 && CHECKSUM_CHARSET[i] == CHECKSUM_CHARSET[j]
    ensures i == j
  {
    if i < j {
      CharsetDistinct(i, j);
    } else if j < i {
      CharsetDistinct(j, i);
    }
  }

  lemma RenderInjective(p: nat, q: nat)
    requires Fits(p, 40) && Fits(q, 40) && Render(p) == Render(q)
    ensures p == q
  {
    hide Fits, Render, Digit;
    forall k: nat
      ensures Bit(p, k) == Bit(q, k)
    {
      if k < 40 {
        var i := 7 - k / 5;
        assert Render(p)[i] == Render(q)[i];
        SameDigit(Digit(p, i), Digit(q, i));
        DigitBit(p, i, k - 5 * (7 - i));
        DigitBit(q, i, k - 5 * (7 - i));
      } else {
        NoHighBit(p, 40, k);
        NoHighBit(q, 40, k);
      }
    }
    BitsDecide(p, q);
  }

  lemma DigitBit(state: nat, i: nat, k: nat)
    requires i < 8 && k < 5
    ensures Bit(Digit(state, i), k) == Bit(state, k + 5 * (7 - i))
  {
    BitLow(Shr(state, 5 * (7 - i)), 5, k);
    BitShr(state, 5 * (7 - i), k);
  }

  // ----- error detection

  /** The symbols of a window of at most two groups. */
  lemma WindowSymbols(ps: seq<nat>, qs: seq<nat>)
    requires |ps| == |qs| <= 6 && InAlphabet(ps) && InAlphabet(qs) && ps != qs
    ensures var u, v := Symbols(0, 0, ps), Symbols(0, 0, qs);
            |u| == |v| <= 8 && AllFive(XorEach(u, v)) && SomeSet(XorEach(u, v))
  {
    hide Symbols, Fits;
    SymbolsShape(ps);
    SymbolsShape(qs);
    var u, v := Symbols(0, 0, ps), Symbols(0, 0, qs);
    if u == v {
      SymbolsInjective(ps, qs);
    }
    var i :| 0 <= i < |u| && u[i] != v[i];
    if Xor(u[i], v[i]) == 0 {
      XorCancels(u[i], v[i]);
    }
    assert XorEach(u, v)[i] != 0;
    forall j | 0 <= j < |u|
      ensures Fits(XorEach(u, v)[j], 5)
    {
      SymbolFits(u[j]);
      SymbolFits(v[j]);
      XorFits(u[j], v[j], 5);
    }
  }

  /** Two different windows from one state lead to two different states. */
  lemma WindowDiffers(state: nat, ps: seq<nat>, qs: seq<nat>)
    requires |ps| == |qs| <= 6 && InAlphabet(ps) && InAlphabet(qs) && ps != qs
    ensures var p, q := Feed(state, Symbols(0, 0, ps)), Feed(state, Symbols(0, 0, qs));
            Xor(p, q) != 0 && Fits(Xor(p, q), 40)
  {
    hide Symbols, Fits, Feed, AllFive, SomeSet;
    WindowSymbols(ps, qs);
    var u, v := Symbols(0, 0, ps), Symbols(0, 0, qs);
    FeedLinear(state, state, u, v);
    XorSelf(state);
    ZeroFits(0);
    WindowSurvives(0, XorEach(u, v), 0);
  }

  /** Whatever is fed to both afterwards keeps them apart. */
  lemma TailKeepsApart(p: nat, q: nat, tail: seq<nat>)
    requires Xor(p, q) != 0 && Fits(Xor(p, q), 40)
    ensures Xor(Feed(p, tail), Feed(q, tail)) != 0 && Fits(Xor(Feed(p, tail), Feed(q, tail)), 40)
  {
    hide Fits, Feed;
    FeedLinear(p, q, tail, tail);
    forall i | 0 <= i < |tail|
      ensures XorEach(tail, tail)[i] == 0
    {
      XorSelf(tail[i]);
    }
    ZerosForgetNothing(Xor(p, q), XorEach(tail, tail));
  }

  /** Positions that differ only inside two adjacent groups end in different states. */
  lemma FinalStatesDiffer(ps: seq<nat>, qs: seq<nat>, group: nat)
    requires |ps| == |qs| && InAlphabet(ps) && InAlphabet(qs) && ps != qs && 3 * group <= |ps|
    requires forall i :: 0 <= i < |ps| && !(3 * group <= i < 3 * group + 6) ==> ps[i] == qs[i]
    ensures FinalState(ps) != FinalState(qs)
  {
    hide Symbols, Fits, Feed, Xor;
    SymbolsSplit(ps, group);
    SymbolsSplit(qs, group);
    assert ps[..3 * group] == qs[..3 * group];
    var state := Feed(1, Symbols(0, 0, ps[..3 * group]));
    var pr, qr := ps[3 * group..], qs[3 * group..];
    assert pr != qr by {
      assert ps == ps[..3 * group] + pr && qs == qs[..3 * group] + qr;
    }
    FeedConcat(1, Symbols(0, 0, ps[..3 * group]), Symbols(0, 0, pr));
    FeedConcat(1, Symbols(0, 0, qs[..3 * group]), Symbols(0, 0, qr));
    var p, q := Feed(state, Symbols(0, 0, pr)), Feed(state, Symbols(0, 0, qr));
    RestDiffers(state, pr, qr);
    TailKeepsApart(p, q, ZEROS);
    var x, y := Feed(p, ZEROS), Feed(q, ZEROS);
    XorShuffle(x, 1, y, 1);
    XorSelf(1);
    XorZero(Xor(x, y));
    XorSelf(Xor(x, 1));
  }

  lemma RestDiffers(state: nat, pr: seq<nat>, qr: seq<nat>)
    requires |pr| == |qr| && InAlphabet(pr) && InAlphabet(qr) && pr != qr
    requires forall i :: 6 <= i < |pr| ==> pr[i] == qr[i]
    ensures var p, q := Feed(state, Symbols(0, 0, pr)), Feed(state, Symbols(0, 0, qr));
            Xor(p, q) != 0 && Fits(Xor(p, q), 40)
  {
    hide Symbols, Fits, Feed, Xor;
    if |pr| <= 6 {
      WindowDiffers(state, pr, qr);
    } else {
      SymbolsSplit(pr, 2);
      SymbolsSplit(qr, 2);
      assert pr[6..] == qr[6..];
      assert pr == pr[..6] + pr[6..] && qr == qr[..6] + qr[6..];
      WindowDiffers(state, pr[..6], qr[..6]);
      FeedConcat(state, Symbols(0, 0, pr[..6]), Symbols(0, 0, pr[6..]));
      FeedConcat(state, Symbols(0, 0, qr[..6]), Symbols(0, 0, qr[6..]));
      TailKeepsApart(Feed(state, Symbols(0, 0, pr[..6])), Feed(state, Symbols(0, 0, qr[..6])), Symbols(0, 0, pr[6..]));
    }
  }

  /** The state never leaves forty bits, so the eight digits show all of it. */
  lemma FinalStateFits(ps: seq<nat>)
    requires InAlphabet(ps)
    ensures FinalState(ps) < 0x100_0000_0000 && Fits(FinalState(ps), 40)
  {
    hide Symbols, Fits, Feed, Xor;
    SymbolFits(1);
    SymbolsShape(ps);
    FeedFits(1, Symbols(0, 0, ps));
    FeedFits(Feed(1, Symbols(0, 0, ps)), ZEROS);
    XorFits(Feed(Feed(1, Symbols(0, 0, ps)), ZEROS), 1, 40);
    FitsBelow(FinalState(ps), 40);
    Pow2Forty();
  }

  /**
   * Two bodies of one length that differ only inside two adjacent groups of
   * three characters never share a checksum.
   */
  lemma BurstDetected(a: string, b: string, group: nat)
    requires |a| == |b| && a != b && 3 * group <= |a|
    requires forall i :: 0 <= i < |a| && !(3 * group <= i < 3 * group + 6) ==> a[i] == b[i]
    requires DescriptorChecksum(a).Ok?
    ensures DescriptorChecksum(b) != DescriptorChecksum(a)
  {
    hide FinalState, Render, Position, Fits;
    if DescriptorChecksum(b).Ok? {
      var ps, qs := Positions(a).value, Positions(b).value;
      assert ps != qs by {
        var i :| 0 <= i < |a| && a[i] != b[i];
        if ps[i] == qs[i] {
          PositionInjective(a[i], b[i]);
        }
      }
      FinalStatesDiffer(ps, qs, group);
      FinalStateFits(ps);
      FinalStateFits(qs);
      if Render(FinalState(ps)) == Render(FinalState(qs)) {
        RenderInjective(FinalState(ps), FinalState(qs));
      }
    }
  }

  /**
   * Rewriting any run of up to four characters in place is detected: one wrong
   * character, two neighbours exchanged, or four read wrongly in a row.
   */
  lemma RewriteDetected(a: string, b: string, start: nat)
    requires |a| == |b| && a != b
    requires forall i :: 0 <= i < |a| && !(start <= i < start + 4) ==> a[i] == b[i]
    requires DescriptorChecksum(a).Ok?
    ensures DescriptorChecksum(b) != DescriptorChecksum(a)
  {
    BurstDetected(a, b, start / 3);
  }

  // ----- verdicts

  /** The descriptor without its checksum suffix. */
  function StripChecksum(descriptor: string): string {
    var hash := LastIndexOf(descriptor, '#');
    if hash == -1 then descriptor else descriptor[..hash]
  }

  function WithChecksum(descriptor: string): Result<string, ChecksumError> {
    var body := StripChecksum(descriptor);
    var checksum :- DescriptorChecksum(body);
    Ok(body + "#" + checksum)
  }

  datatype Verdict = Verdict(valid: bool, body: string, provided: Option<string>, expected: string)

  predicate WellFormed(checksum: string) {
    |checksum| == 8 && forall i :: 0 <= i < 8 ==> checksum[i] in CHECKSUM_CHARSET
  }

  function VerifyChecksum(descriptor: string): (r: Result<Verdict, ChecksumError>)
    ensures r.Ok? ==> r.value.body == StripChecksum(descriptor)
  {
    var hash := LastIndexOf(descriptor, '#');
    var body := if hash == -1 then descriptor else descriptor[..hash];
    var provided := if hash == -1 then None else Some(descriptor[hash + 1..]);
    var expected :- DescriptorChecksum(body);
    Ok(Verdict(provided.Some? && WellFormed(provided.value) && provided.value == expected, body, provided, expected))
  }

  lemma ChecksumText(body: string)
    requires DescriptorChecksum(body).Ok?
    ensures WellFormed(DescriptorChecksum(body).value) && '#' !in DescriptorChecksum(body).value
  {
    hide Position, FinalState, Digit;
    assert '#' !in CHECKSUM_CHARSET;
  }

  lemma AppendedParts(body: string, suffix: string)
    ensures (body + "#" + suffix)[..|body|] == body
    ensures (body + "#" + suffix)[|body| + 1..] == suffix
    ensures (body + "#" + suffix)[|body|] == '#'
  {
  }

  lemma AppendedHash(body: string, suffix: string)
    requires '#' !in suffix
    ensures LastIndexOf(body + "#" + suffix, '#') == |body|
  {
    hide LastIndexOf;
    AppendedParts(body, suffix);
    var whole, at := body + "#" + suffix, |body|;
    forall k | at < k < |whole|
      ensures whole[k] != '#'
    {
      AfterAppended(body, suffix, k - at - 1);
    }
    LastIndexOfAt(whole, '#', at);
  }

  lemma AfterAppended(body: string, suffix: string, j: nat)
    requires j < |suffix|
    ensures (body + "#" + suffix)[|body| + 1 + j] == suffix[j]
    ensures suffix[j] in suffix
  {
  }

  /** Appending a suffix that holds no hash and stripping it again. */
  lemma StripAppended(body: string, suffix: string)
    requires '#' !in suffix
    ensures StripChecksum(body + "#" + suffix) == body
    ensures LastIndexOf(body + "#" + suffix, '#') == |body|
  {
    hide LastIndexOf;
    AppendedHash(body, suffix);
    AppendedParts(body, suffix);
  }

  /** A descriptor verifies exactly when it is what withChecksum writes for it. */
  lemma ValidMeansOurs(descriptor: string)
    ensures VerifyChecksum(descriptor).Ok? <==> WithChecksum(descriptor).Ok?
    ensures (VerifyChecksum(descriptor).Ok? && VerifyChecksum(descriptor).value.valid) <==>
            WithChecksum(descriptor) == Ok(descriptor)
  {
    hide DescriptorChecksum, WellFormed, LastIndexOf;
    var hash := LastIndexOf(descriptor, '#');
    var body := StripChecksum(descriptor);
    if DescriptorChecksum(body).Ok? {
      var expected := DescriptorChecksum(body).value;
      ChecksumText(body);
      StripAppended(body, expected);
      if hash == -1 {
        assert (body + "#" + expected)[|body|] == '#';
      } else {
        assert descriptor == body + "#" + descriptor[hash + 1..];
        assert (body + "#" + expected)[hash + 1..] == expected;
      }
    }
  }

  /** What withChecksum writes verifies, and writing it again changes nothing. */
  lemma WithChecksumVerifies(descriptor: string)
    requires WithChecksum(descriptor).Ok?
    ensures var written := WithChecksum(descriptor).value;
            WithChecksum(written) == Ok(written) && StripChecksum(written) == StripChecksum(descriptor) &&
            VerifyChecksum(written).Ok? && VerifyChecksum(written).value.valid
  {
    hide DescriptorChecksum, WellFormed, LastIndexOf;
    var body := StripChecksum(descriptor);
    ChecksumText(body);
    StripAppended(body, DescriptorChecksum(body).value);
    ValidMeansOurs(WithChecksum(descriptor).value);
  }

  /**
   * A body transcribed with up to four characters in a row wrong, under the
   * checksum of the right one, is never reported valid.
   */
  lemma TranscriptionErrorRefused(a: string, b: string, start: nat)
    requires |a| == |b| && a != b
    requires forall i :: 0 <= i < |a| && !(start <= i < start + 4) ==> a[i] == b[i]
    requires DescriptorChecksum(a).Ok?
    ensures var verdict := VerifyChecksum(b + "#" + DescriptorChecksum(a).value);
            verdict.Err? || !verdict.value.valid
  {
    hide DescriptorChecksum, WellFormed, LastIndexOf;
    RewriteDetected(a, b, start);
    ChecksumText(a);
    var suffix := DescriptorChecksum(a).value;
    StripAppended(b, suffix);
    assert (b + "#" + suffix)[|b| + 1..] == suffix;
  }
}
