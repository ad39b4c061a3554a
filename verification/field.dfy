/**
 * The checksum as the "Checksum" section of BIP-380 builds it: a code over the
 * field of 32 elements. A state is a polynomial of eight coefficients, a step
 * is one step of division by the generator polynomial, and a text followed by
 * its checksum leaves the remainder one.
 */
module Field {
  import opened Text
  import opened Bits
  import opened Checksum
  import opened Burst

  // ----- the field of 32 elements

  /** A polynomial of degree four over the field of two, highest coefficient first. */
  datatype Element = Element(x4: bool, x3: bool, x2: bool, x1: bool, x0: bool)

  function Add(a: Element, b: Element): Element {
    Element(a.x4 != b.x4, a.x3 != b.x3, a.x2 != b.x2, a.x1 != b.x1, a.x0 != b.x0)
  }

  /** The field is built on x^5 + x^3 + 1: a fifth power is a third power and one. */
  function TimesX(a: Element): Element {
    Element(a.x3, a.x2 != a.x4, a.x1, a.x0, a.x4)
  }

  function Chosen(chosen: bool, a: Element): Element {
    if chosen then a else Element(false, false, false, false, false)
  }

  /** The multiples of a by the powers of x that b is made of, added up. */
  function Times(a: Element, b: Element): Element {
    var a1 := TimesX(a);
    var a2 := TimesX(a1);
    var a3 := TimesX(a2);
    var a4 := TimesX(a3);
    Add(Chosen(b.x0, a), Add(Chosen(b.x1, a1), Add(Chosen(b.x2, a2), Add(Chosen(b.x3, a3), Chosen(b.x4, a4)))))
  }

  // ----- elements and words as numbers

  function Number(b: bool): nat {
    if b then 1 else 0
  }

  function Value(e: Element): (v: nat)
    ensures v < 32
  {
    Number(e.x0) + 2 * Number(e.x1) + 4 * Number(e.x2) + 8 * Number(e.x3) + 16 * Number(e.x4)
  }

  function Five(n: nat): Element {
    Element(n / 16 % 2 == 1, n / 8 % 2 == 1, n / 4 % 2 == 1, n / 2 % 2 == 1, n % 2 == 1)
  }

  lemma FiveValue(n: nat)
    requires n < 32
    ensures Value(Five(n)) == n
  {
  }

  /** Eight coefficients, the highest first. */
  datatype Word = Word(d7: Element, d6: Element, d5: Element, d4: Element, d3: Element, d2: Element, d1: Element, d0: Element)

  function Coefficient(w: Word, j: nat): Element
    requires j < 8
  {
    match j
    case 0 => w.d0 case 1 => w.d1 case 2 => w.d2 case 3 => w.d3
    case 4 => w.d4 case 5 => w.d5 case 6 => w.d6 case _ => w.d7
  }

  function WordValue(w: Word): nat {
    Value(w.d0) + 32 * (Value(w.d1) + 32 * (Value(w.d2) + 32 * (Value(w.d3) +
    32 * (Value(w.d4) + 32 * (Value(w.d5) + 32 * (Value(w.d6) + 32 * Value(w.d7)))))))
  }

  // ----- division by the generator polynomial

  /** The coefficients of the generator polynomial below its highest, which is one. */
  const GENERATOR: Word := Word(Five(30), Five(23), Five(15), Five(14), Five(10), Five(6), Five(12), Five(9))

  /** One step of division: the leading coefficient leaves and takes its multiple of the generator along. */
  function Divide(w: Word, v: Element): Word {
    var t, g := w.d7, GENERATOR;
    Word(Add(w.d6, Times(g.d7, t)), Add(w.d5, Times(g.d6, t)), Add(w.d4, Times(g.d5, t)), Add(w.d3, Times(g.d4, t)),
         Add(w.d2, Times(g.d3, t)), Add(w.d1, Times(g.d2, t)), Add(w.d0, Times(g.d1, t)), Add(v, Times(g.d0, t)))
  }

  function TimesXWord(w: Word): Word {
    Word(TimesX(w.d7), TimesX(w.d6), TimesX(w.d5), TimesX(w.d4), TimesX(w.d3), TimesX(w.d2), TimesX(w.d1), TimesX(w.d0))
  }

  /** A polynomial times 1, x, x^2, x^3 and x^4. */
  datatype Rows = Rows(p0: Word, p1: Word, p2: Word, p3: Word, p4: Word)

  function RowsOf(w: Word): Rows {
    var p1 := TimesXWord(w);
    var p2 := TimesXWord(p1);
    var p3 := TimesXWord(p2);
    Rows(w, p1, p2, p3, TimesXWord(p3))
  }

  // ----- bits of words

  function ElementBit(e: Element, b: nat): bool {
    match b
    case 0 => e.x0 case 1 => e.x1 case 2 => e.x2 case 3 => e.x3 case 4 => e.x4 case _ => false
  }

  lemma BitStep(low: bool, rest: nat, k: nat)
    ensures Bit(Number(low) + 2 * rest, k) == if k == 0 then low else Bit(rest, k - 1)
  {
    assert (Number(low) + 2 * rest) / 2 == rest;
  }

  lemma BitOverFive(e: Element, rest: nat, k: nat)
    ensures Bit(Value(e) + 32 * rest, k) == if k < 5 then ElementBit(e, k) else Bit(rest, k - 5)
  {
    hide Bit;
    var r4 := Number(e.x4) + 2 * rest;
    var r3 := Number(e.x3) + 2 * r4;
    var r2 := Number(e.x2) + 2 * r3;
    var r1 := Number(e.x1) + 2 * r2;
    assert Value(e) + 32 * rest == Number(e.x0) + 2 * r1;
    BitStep(e.x0, r1, k);
    if k >= 1 {
      BitStep(e.x1, r2, k - 1);
    }
    if k >= 2 {
      BitStep(e.x2, r3, k - 2);
    }
    if k >= 3 {
      BitStep(e.x3, r4, k - 3);
    }
    if k >= 4 {
      BitStep(e.x4, rest, k - 4);
    }
  }

  lemma ValueBit(e: Element, k: nat)
    ensures Bit(Value(e), k) == ElementBit(e, k)
  {
    hide Bit;
    BitOverFive(e, 0, k);
    if k >= 5 {
      BitZero(k - 5);
    }
  }

  function WordBit(w: Word, k: nat): bool {
    k < 40 && ElementBit(Coefficient(w, k / 5), k % 5)
  }

  lemma WordValueBit(w: Word, k: nat)
    ensures Bit(WordValue(w), k) == WordBit(w, k)
  {
    hide Bit, Value, ElementBit;
    var v6 := Value(w.d6) + 32 * Value(w.d7);
    var v5 := Value(w.d5) + 32 * v6;
    var v4 := Value(w.d4) + 32 * v5;
    var v3 := Value(w.d3) + 32 * v4;
    var v2 := Value(w.d2) + 32 * v3;
    var v1 := Value(w.d1) + 32 * v2;
    BitOverFive(w.d0, v1, k);
    if k >= 5 { BitOverFive(w.d1, v2, k - 5); }
    if k >= 10 { BitOverFive(w.d2, v3, k - 10); }
    if k >= 15 { BitOverFive(w.d3, v4, k - 15); }
    if k >= 20 { BitOverFive(w.d4, v5, k - 20); }
    if k >= 25 { BitOverFive(w.d5, v6, k - 25); }
    if k >= 30 { BitOverFive(w.d6, Value(w.d7), k - 30); }
    if k >= 35 { HighBits(w.d7, k - 35); }
  }

  lemma HighBits(e: Element, k: nat)
    ensures Bit(Value(e), k) == ElementBit(e, k)
    ensures k >= 5 ==> !ElementBit(e, k)
  {
    ValueBit(e, k);
  }

  lemma WordFits(w: Word)
    ensures Fits(WordValue(w), 40)
  {
    hide Fits, WordValue, Bit;
    forall k: nat | k >= 40
      ensures !Bit(WordValue(w), k)
    {
      WordValueBit(w, k);
    }
    NoHighBits(WordValue(w), 40);
  }

  /** The coefficients of a word as numbers. */
  predicate Coefficients(w: Word, a7: nat, a6: nat, a5: nat, a4: nat, a3: nat, a2: nat, a1: nat, a0: nat) {
    Value(w.d7) == a7 && Value(w.d6) == a6 && Value(w.d5) == a5 && Value(w.d4) == a4 &&
    Value(w.d3) == a3 && Value(w.d2) == a2 && Value(w.d1) == a1 && Value(w.d0) == a0
  }

  /** Doubling, and adding x^3 + 1 for a fifth power that overflows. */
  function Twice(n: nat): (d: int)
    requires n < 32
  {
    if n < 16 then 2 * n else 2 * n - 31 + if n / 4 % 2 == 1 then -8 else 8
  }

  lemma TimesXDoubles(e: Element)
    ensures Value(TimesX(e)) == Twice(Value(e))
  {
    assert Value(e) / 4 % 2 == Number(e.x2);
  }

  lemma NextPower(w: Word)
    ensures var x := TimesXWord(w);
            && Value(x.d7) == Twice(Value(w.d7)) && Value(x.d6) == Twice(Value(w.d6)) && Value(x.d5) == Twice(Value(w.d5))
            && Value(x.d4) == Twice(Value(w.d4)) && Value(x.d3) == Twice(Value(w.d3)) && Value(x.d2) == Twice(Value(w.d2))
            && Value(x.d1) == Twice(Value(w.d1)) && Value(x.d0) == Twice(Value(w.d0))
  {
    hide Value, TimesX, Twice;
    TimesXDoubles(w.d7);
    TimesXDoubles(w.d6);
    TimesXDoubles(w.d5);
    TimesXDoubles(w.d4);
    TimesXDoubles(w.d3);
    TimesXDoubles(w.d2);
    TimesXDoubles(w.d1);
    TimesXDoubles(w.d0);
  }

  lemma Generator()
    ensures Coefficients(GENERATOR, 30, 23, 15, 14, 10, 6, 12, 9)
  {
    hide Value, Five;
    FiveValue(30);
    FiveValue(23);
    FiveValue(15);
    FiveValue(14);
    FiveValue(10);
    FiveValue(6);
    FiveValue(12);
    FiveValue(9);
  }

  lemma RowNumbers(w: Word)
    requires Coefficients(w, 30, 23, 15, 14, 10, 6, 12, 9)
    ensures Coefficients(RowsOf(w).p1, 21, 7, 30, 28, 20, 12, 24, 18)
    ensures Coefficients(RowsOf(w).p2, 3, 14, 21, 17, 1, 24, 25, 13)
    ensures Coefficients(RowsOf(w).p3, 6, 28, 3, 11, 2, 25, 27, 26)
    ensures Coefficients(RowsOf(w).p4, 12, 17, 6, 22, 4, 27, 31, 29)
  {
    hide Value, TimesX, TimesXWord;
    var rows := RowsOf(w);
    NextPower(w);
    NextPower(rows.p1);
    NextPower(rows.p2);
    NextPower(rows.p3);
  }

  lemma NumberOf(w: Word, a7: nat, a6: nat, a5: nat, a4: nat, a3: nat, a2: nat, a1: nat, a0: nat)
    requires Coefficients(w, a7, a6, a5, a4, a3, a2, a1, a0)
    ensures WordValue(w) == a0 + 0x20 * a1 + 0x400 * a2 + 0x8000 * a3 + 0x10_0000 * a4 + 0x200_0000 * a5 + 0x4000_0000 * a6 + 0x8_0000_0000 * a7
  {
    hide Value;
  }

  /** The constants of the loop are the generator polynomial times 1, x, x^2, x^3 and x^4. */
  lemma GeneratorsArePowers(rows: Rows)
    requires rows == RowsOf(GENERATOR)
    ensures GENERATORS == [WordValue(rows.p0), WordValue(rows.p1), WordValue(rows.p2), WordValue(rows.p3), WordValue(rows.p4)]
  {
    hide Value, WordValue, TimesXWord, GENERATOR;
    Generator();
    RowNumbers(GENERATOR);
    NumberOf(rows.p0, 30, 23, 15, 14, 10, 6, 12, 9);
    NumberOf(rows.p1, 21, 7, 30, 28, 20, 12, 24, 18);
    NumberOf(rows.p2, 3, 14, 21, 17, 1, 24, 25, 13);
    NumberOf(rows.p3, 6, 28, 3, 11, 2, 25, 27, 26);
    NumberOf(rows.p4, 12, 17, 6, 22, 4, 27, 31, 29);
  }

  lemma ShiftBit(state: nat, v: nat, k: nat)
    requires Fits(state, 40)
    ensures Bit(Step(state, v), k) ==
            ((5 <= k < 40 && Bit(state, k - 5)) != (Bit(Selected(Shr(state, 35), |GENERATORS|), k) != Bit(v, k)))
  {
    hide Bit, Xor, Shl, Low, Shr, Selected, Fits;
    var slid := Shl(Low(state, 35), 5);
    BitXor(Shift(state), v, k);
    BitXor(slid, Selected(Shr(state, 35), |GENERATORS|), k);
    BitShl(Low(state, 35), 5, k);
    if k >= 5 {
      BitLow(state, 35, k - 5);
    }
  }

  lemma TopBits(w: Word, i: nat)
    requires i < 5
    ensures Bit(Shr(WordValue(w), 35), i) == ElementBit(w.d7, i)
  {
    hide Bit, Shr, WordValue, ElementBit;
    BitShr(WordValue(w), 35, i);
    WordValueBit(w, i + 35);
    assert (i + 35) / 5 == 7 && (i + 35) % 5 == i;
  }

  /** What the step takes along of the generators, bit by bit. */
  function Taken(rows: Rows, t: Element, k: nat): bool {
    (t.x0 && WordBit(rows.p0, k)) != ((t.x1 && WordBit(rows.p1, k)) != ((t.x2 && WordBit(rows.p2, k)) !=
    ((t.x3 && WordBit(rows.p3, k)) != (t.x4 && WordBit(rows.p4, k)))))
  }

  lemma SelectedTaken(rows: Rows, w: Word, k: nat)
    requires rows == RowsOf(GENERATOR)
    ensures Bit(Selected(Shr(WordValue(w), 35), |GENERATORS|), k) == Taken(rows, w.d7, k)
  {
    hide Bit, Shr, WordValue, Selected, WordBit, RowsOf, GENERATOR;
    SelectedBit(Shr(WordValue(w), 35), k);
    TopBits(w, 0);
    TopBits(w, 1);
    TopBits(w, 2);
    TopBits(w, 3);
    TopBits(w, 4);
    GeneratorsArePowers(rows);
    WordValueBit(rows.p0, k);
    WordValueBit(rows.p1, k);
    WordValueBit(rows.p2, k);
    WordValueBit(rows.p3, k);
    WordValueBit(rows.p4, k);
  }

  lemma RowsAt(rows: Rows, w: Word, j: nat)
    requires rows == RowsOf(w) && j < 8
    ensures var g := Coefficient(w, j);
            && Coefficient(rows.p0, j) == g && Coefficient(rows.p1, j) == TimesX(g) && Coefficient(rows.p2, j) == TimesX(TimesX(g))
            && Coefficient(rows.p3, j) == TimesX(TimesX(TimesX(g))) && Coefficient(rows.p4, j) == TimesX(TimesX(TimesX(TimesX(g))))
  {
    hide TimesX;
  }

  lemma ElementBits(a: Element, b: Element, c: bool, k: nat)
    ensures ElementBit(Add(a, b), k) == (ElementBit(a, k) != ElementBit(b, k))
    ensures ElementBit(Chosen(c, a), k) == (c && ElementBit(a, k))
  {
  }

  /** A product, coefficient by coefficient. */
  lemma TimesBits(g: Element, t: Element, b: nat)
    ensures var (g1, g2, g3, g4) := (TimesX(g), TimesX(TimesX(g)), TimesX(TimesX(TimesX(g))), TimesX(TimesX(TimesX(TimesX(g)))));
            ElementBit(Times(g, t), b) ==
            ((t.x0 && ElementBit(g, b)) != ((t.x1 && ElementBit(g1, b)) != ((t.x2 && ElementBit(g2, b)) !=
             ((t.x3 && ElementBit(g3, b)) != (t.x4 && ElementBit(g4, b))))))
  {
    hide TimesX, Add, Chosen, ElementBit;
    var g1 := TimesX(g);
    var g2 := TimesX(g1);
    var g3 := TimesX(g2);
    var g4 := TimesX(g3);
    var c4 := Chosen(t.x4, g4);
    var c3 := Add(Chosen(t.x3, g3), c4);
    var c2 := Add(Chosen(t.x2, g2), c3);
    var c1 := Add(Chosen(t.x1, g1), c2);
    ElementBits(g, g, t.x0, b);
    ElementBits(Chosen(t.x0, g), c1, true, b);
    ElementBits(g1, g1, t.x1, b);
    ElementBits(Chosen(t.x1, g1), c2, true, b);
    ElementBits(g2, g2, t.x2, b);
    ElementBits(Chosen(t.x2, g2), c3, true, b);
    ElementBits(g3, g3, t.x3, b);
    ElementBits(Chosen(t.x3, g3), c4, true, b);
    ElementBits(g4, g4, t.x4, b);
  }

  /** A product's coefficients are what the step takes along. */
  lemma TakenTimes(rows: Rows, w: Word, t: Element, k: nat)
    requires rows == RowsOf(w) && k < 40
    ensures Taken(rows, t, k) == ElementBit(Times(Coefficient(w, k / 5), t), k % 5)
  {
    hide TimesX, Times, ElementBit, Coefficient, RowsOf;
    RowsAt(rows, w, k / 5);
    TimesBits(Coefficient(w, k / 5), t, k % 5);
  }

  lemma DivideBit(w: Word, v: Element, k: nat)
    requires k < 40
    ensures WordBit(Divide(w, v), k) ==
            ((if k >= 5 then WordBit(w, k - 5) else ElementBit(v, k)) != ElementBit(Times(Coefficient(GENERATOR, k / 5), w.d7), k % 5))
  {
    hide Times, Add, ElementBit, GENERATOR;
    var j, b := k / 5, k % 5;
    var took := Times(Coefficient(GENERATOR, j), w.d7);
    var before := if j == 0 then v else Coefficient(w, j - 1);
    assert Coefficient(Divide(w, v), j) == Add(before, took);
    ElementBits(before, took, true, b);
    assert k >= 5 ==> (k - 5) / 5 == j - 1 && (k - 5) % 5 == b;
  }

  /** A step of the loop is a step of division by the generator polynomial over the field. */
  lemma StepDivides(w: Word, v: Element)
    ensures Step(WordValue(w), Value(v)) == WordValue(Divide(w, v))
  {
    hide Bit, Step, WordValue, Divide, Taken, Times, WordBit, Value, Fits, RowsOf, GENERATOR;
    var rows := RowsOf(GENERATOR);
    WordFits(w);
    ValueFits(v);
    StepFits(WordValue(w), Value(v));
    forall k: nat
      ensures Bit(Step(WordValue(w), Value(v)), k) == Bit(WordValue(Divide(w, v)), k)
    {
      WordValueBit(Divide(w, v), k);
      if k < 40 {
        ShiftBit(WordValue(w), Value(v), k);
        SelectedTaken(rows, w, k);
        TakenTimes(rows, GENERATOR, w.d7, k);
        DivideBit(w, v, k);
        ValueBit(v, k);
        if k >= 5 {
          WordValueBit(w, k - 5);
          HighBits(v, k);
        }
      } else {
        NoHighBit(Step(WordValue(w), Value(v)), 40, k);
        BeyondWord(Divide(w, v), k);
      }
    }
    BitsDecide(Step(WordValue(w), Value(v)), WordValue(Divide(w, v)));
  }

  lemma ValueFits(v: Element)
    ensures Fits(Value(v), 40)
  {
    SymbolFits(Value(v));
  }

  lemma BeyondWord(w: Word, k: nat)
    requires k >= 40
    ensures !WordBit(w, k)
  {
  }

  lemma TimesXLinear(a: Element, b: Element, c: bool)
    ensures TimesX(Add(a, b)) == Add(TimesX(a), TimesX(b)) && TimesX(Chosen(c, a)) == Chosen(c, TimesX(a))
  {
  }

  lemma FifthPower(g: Element)
    ensures TimesX(TimesX(TimesX(TimesX(TimesX(g))))) == Add(TimesX(TimesX(TimesX(g))), g)
  {
  }

  lemma BitsMakeElement(a: Element, b: Element)
    requires ElementBit(a, 0) == ElementBit(b, 0) && ElementBit(a, 1) == ElementBit(b, 1) && ElementBit(a, 2) == ElementBit(b, 2)
    requires ElementBit(a, 3) == ElementBit(b, 3) && ElementBit(a, 4) == ElementBit(b, 4)
    ensures a == b
  {
  }

  lemma TimesXTimes(g: Element, t: Element)
    ensures TimesX(Times(g, t)) == Times(TimesX(g), t)
  {
    hide TimesX, Add, Chosen;
    var g1 := TimesX(g);
    var g2 := TimesX(g1);
    var g3 := TimesX(g2);
    var g4 := TimesX(g3);
    var c4 := Chosen(t.x4, g4);
    var c3 := Add(Chosen(t.x3, g3), c4);
    var c2 := Add(Chosen(t.x2, g2), c3);
    var c1 := Add(Chosen(t.x1, g1), c2);
    TimesXLinear(Chosen(t.x0, g), c1, true);
    TimesXLinear(Chosen(t.x1, g1), c2, true);
    TimesXLinear(Chosen(t.x2, g2), c3, true);
    TimesXLinear(Chosen(t.x3, g3), c4, true);
    TimesXLinear(g, g, t.x0);
    TimesXLinear(g1, g1, t.x1);
    TimesXLinear(g2, g2, t.x2);
    TimesXLinear(g3, g3, t.x3);
    TimesXLinear(g4, g4, t.x4);
  }

  lemma ShiftedBit(g: Element, t: Element, b: nat)
    ensures ElementBit(Times(g, TimesX(t)), b) == ElementBit(Times(TimesX(g), t), b)
  {
    hide Times, Add, Chosen, ElementBit;
    TimesBits(g, TimesX(t), b);
    TimesBits(TimesX(g), t, b);
    FactorBits(t);
    hide TimesX;
    FifthPower(g);
    ElementBits(TimesX(TimesX(TimesX(g))), g, true, b);
  }

  lemma FactorBits(t: Element)
    ensures TimesX(t).x0 == t.x4 && TimesX(t).x1 == t.x0 && TimesX(t).x2 == t.x1
    ensures TimesX(t).x3 == (t.x2 != t.x4) && TimesX(t).x4 == t.x3
  {
  }

  lemma TimesTimesX(g: Element, t: Element)
    ensures Times(g, TimesX(t)) == TimesX(Times(g, t))
  {
    hide Times, TimesX, ElementBit;
    TimesXTimes(g, t);
    ShiftedBit(g, t, 0);
    ShiftedBit(g, t, 1);
    ShiftedBit(g, t, 2);
    ShiftedBit(g, t, 3);
    ShiftedBit(g, t, 4);
    BitsMakeElement(Times(g, TimesX(t)), Times(TimesX(g), t));
  }

  /** A step is linear over the field: multiplying the state and the symbol by x multiplies the next state. */
  lemma StepFieldLinear(w: Word, v: Element)
    ensures Divide(TimesXWord(w), TimesX(v)) == TimesXWord(Divide(w, v))
    ensures Step(WordValue(TimesXWord(w)), Value(TimesX(v))) == WordValue(TimesXWord(Divide(w, v)))
  {
    hide Times, TimesX, Add, GENERATOR, WordValue, Value, Step;
    StepDivides(TimesXWord(w), TimesX(v));
    var t, g := w.d7, GENERATOR;
    TimesTimesX(g.d7, t);
    TimesTimesX(g.d6, t);
    TimesTimesX(g.d5, t);
    TimesTimesX(g.d4, t);
    TimesTimesX(g.d3, t);
    TimesTimesX(g.d2, t);
    TimesTimesX(g.d1, t);
    TimesTimesX(g.d0, t);
    TimesXLinear(w.d6, Times(g.d7, t), true);
    TimesXLinear(w.d5, Times(g.d6, t), true);
    TimesXLinear(w.d4, Times(g.d5, t), true);
    TimesXLinear(w.d3, Times(g.d4, t), true);
    TimesXLinear(w.d2, Times(g.d3, t), true);
    TimesXLinear(w.d1, Times(g.d2, t), true);
    TimesXLinear(w.d0, Times(g.d1, t), true);
    TimesXLinear(v, Times(g.d0, t), true);
  }

  // ----- a text under its checksum leaves the remainder one

  function Digits(state: nat): (r: seq<nat>)
    ensures |r| == 8 && forall i :: 0 <= i < 8 ==> r[i] == Digit(state, i)
  {
    seq(8, i requires 0 <= i < 8 => Digit(state, i))
  }

  lemma RefillStep(c: nat, i: nat)
    requires Fits(c, 40) && i < 8
    ensures Step(Shr(c, 40 - 5 * i), Digit(c, i)) == Shr(c, 35 - 5 * i)
  {
    hide Bit, Shr, Low, Xor, Fits, Digit;
    var d, next := Shr(c, 40 - 5 * i), Shr(c, 35 - 5 * i);
    TopFitsAt(c, 40 - 5 * i);
    FitsMore(d, 40 - (40 - 5 * i), 40);
    forall k: nat
      ensures Bit(Step(d, Digit(c, i)), k) == Bit(next, k)
    {
      ShiftBit(d, Digit(c, i), k);
      NothingTaken(d, 5 * i, k);
      BitShr(c, 35 - 5 * i, k);
      DigitBits(c, i, k);
      if k >= 5 {
        BitShr(c, 40 - 5 * i, k - 5);
        if k >= 40 {
          NoHighBit(c, 40, k + (35 - 5 * i));
        }
      }
    }
    BitsDecide(Step(d, Digit(c, i)), next);
  }

  lemma TopFitsAt(c: nat, width: nat)
    requires Fits(c, 40) && width <= 40
    ensures Fits(Shr(c, width), 40 - width)
  {
    hide Fits, Bit, Shr;
    forall k: nat | k >= 40 - width
      ensures !Bit(Shr(c, width), k)
    {
      BitShr(c, width, k);
      NoHighBit(c, 40, k + width);
    }
    NoHighBits(Shr(c, width), 40 - width);
  }

  lemma NothingTaken(d: nat, width: nat, k: nat)
    requires Fits(d, width) && width <= 35
    ensures !Bit(Selected(Shr(d, 35), |GENERATORS|), k)
  {
    hide Bit, Selected, Fits;
    FitsMore(d, width, 35);
    assert Shr(d, 35) == 0 by {
      NothingAbove(d);
    }
    SelectedNone(|GENERATORS|);
    BitZero(k);
  }

  lemma DigitBits(c: nat, i: nat, k: nat)
    requires i < 8
    ensures Bit(Digit(c, i), k) == (k < 5 && Bit(c, k + (35 - 5 * i)))
  {
    hide Bit, Fits, Shr;
    if k < 5 {
      DigitBit(c, i, k);
    } else {
      SymbolFits(Digit(c, i));
      NoHighBit(Digit(c, i), 5, k);
    }
  }

  lemma {:induction false} Refill(c: nat, i: nat)
    requires Fits(c, 40) && i <= 8
    ensures Feed(Shr(c, 40 - 5 * i), Digits(c)[i..]) == c
    decreases 8 - i
  {
    hide Step, Fits, Digit;
    if i < 8 {
      hide Shr;
      RefillStep(c, i);
      Refill(c, i + 1);
      assert Digits(c)[i..][0] == Digit(c, i) && Digits(c)[i..][1..] == Digits(c)[i + 1..];
    } else {
      assert Digits(c)[8..] == [];
    }
  }

  lemma FromZero(c: nat)
    requires Fits(c, 40)
    ensures Feed(0, Digits(c)) == c
  {
    hide Feed, Digits;
    Refill(c, 0);
    assert Digits(c)[0..] == Digits(c);
  }

  lemma XorKeeps(x: nat, a: nat)
    requires Xor(x, a) == a
    ensures x == 0
  {
    hide Bit, Xor;
    forall k: nat
      ensures Bit(x, k) == Bit(0, k)
    {
      BitXor(x, a, k);
      BitZero(k);
    }
    BitsDecide(x, 0);
  }

  /** Feeding a state eight digits is feeding it zeros and adding what the digits alone would give. */
  lemma FeedApart(state: nat, e: seq<nat>)
    requires |e| == 8
    ensures Feed(state, e) == Xor(Feed(state, ZEROS), Feed(0, e))
  {
    hide Feed, Xor;
    FeedLinear(state, 0, ZEROS, e);
    XorZero(state);
    forall i | 0 <= i < 8
      ensures XorEach(ZEROS, e)[i] == e[i]
    {
      ZeroXor(e[i]);
    }
    assert XorEach(ZEROS, e) == e;
  }

  lemma ZeroXor(a: nat)
    ensures Xor(0, a) == a
  {
    hide Xor, Bit;
    forall k: nat
      ensures Bit(Xor(0, a), k) == Bit(a, k)
    {
      BitXor(0, a, k);
      BitZero(k);
    }
    BitsDecide(Xor(0, a), a);
  }

  predicate Eight(e: seq<nat>) {
    |e| == 8 && forall i :: 0 <= i < 8 ==> e[i] < 32
  }

  lemma {:induction false} DifferentDigits(e: seq<nat>, d: seq<nat>)
    requires Eight(e) && Eight(d) && Feed(0, e) == Feed(0, d)
    ensures e == d
  {
    hide Feed, Xor, Fits;
    FeedLinear(0, 0, e, d);
    XorSelf(Feed(0, e));
    XorSelf(0);
    var x := XorEach(e, d);
    forall i | 0 <= i < 8
      ensures Fits(x[i], 5)
    {
      SymbolFits(e[i]);
      SymbolFits(d[i]);
      XorFits(e[i], d[i], 5);
    }
    if e != d {
      var i :| 0 <= i < 8 && e[i] != d[i];
      if x[i] == 0 {
        XorCancels(e[i], d[i]);
      }
      ZeroFits(0);
      WindowSurvives(0, x, 0);
    }
  }

  /** The state a text leaves before its checksum. */
  function TextState(positions: seq<nat>): nat {
    Feed(1, Symbols(0, 0, positions))
  }

  lemma DigitsAreOne(positions: seq<nat>, e: seq<nat>)
    requires InAlphabet(positions) && Eight(e)
    ensures Feed(TextState(positions), e) == 1 <==> e == Digits(FinalState(positions))
  {
    hide Feed, Xor, Symbols, Digit, Fits;
    var c, state := FinalState(positions), TextState(positions);
    FinalStateFits(positions);
    FromZero(c);
    FeedApart(state, e);
    var z, f := Feed(state, ZEROS), Feed(0, e);
    assert c == Xor(z, 1);
    if e == Digits(c) {
      SumIsOne(z);
    }
    if Xor(z, f) == 1 {
      OneIsSum(z, f);
      DifferentDigits(e, Digits(c));
    }
  }

  lemma SumIsOne(z: nat)
    ensures Xor(z, Xor(z, 1)) == 1
  {
    hide Xor;
    XorAssociates(z, z, 1);
    XorSelf(z);
    ZeroXor(1);
  }

  lemma OneIsSum(z: nat, f: nat)
    requires Xor(z, f) == 1
    ensures f == Xor(z, 1)
  {
    hide Xor;
    XorAssociates(z, z, f);
    XorSelf(z);
    ZeroXor(f);
  }

  /**
   * The check equation: eight characters are the checksum of a text if and only
   * if feeding the symbols of the text and then the eight characters, as field
   * elements in the order of bech32, leaves the remainder one.
   */
  lemma RemainderOne(text: string, checksum: string, e: seq<nat>)
    requires Positions(text).Ok? && |checksum| == 8 && Eight(e)
    requires forall i :: 0 <= i < 8 ==> checksum[i] == "qpzry9x8gf2tvdw0s3jn54khce6mua7l"[e[i]]
    ensures DescriptorChecksum(text) == Ok(checksum) <==> Feed(TextState(Positions(text).value), e) == 1
  {
    hide Feed, Position, Digit, FinalState, Fits;
    var positions := Positions(text).value;
    DigitsAreOne(positions, e);
    var d := Digits(FinalState(positions));
    if Render(FinalState(positions)) == checksum {
      forall i | 0 <= i < 8
        ensures d[i] == e[i]
      {
        SameDigit(d[i], e[i]);
      }
      assert d == e;
    }
  }

  // ----- one checksum worked out

  lemma DigitIsCoefficient(w: Word, i: nat)
    requires i < 8
    ensures Digit(WordValue(w), i) == Value(Coefficient(w, 7 - i))
  {
    hide Bit, Digit, WordValue, Value, Coefficient, ElementBit;
    var e := Coefficient(w, 7 - i);
    forall k: nat
      ensures Bit(Digit(WordValue(w), i), k) == Bit(Value(e), k)
    {
      DigitBits(WordValue(w), i, k);
      ValueBit(e, k);
      WordValueBit(w, k + (35 - 5 * i));
      if k < 5 {
        assert (k + (35 - 5 * i)) / 5 == 7 - i && (k + (35 - 5 * i)) % 5 == k;
      } else {
        HighBits(e, k);
      }
    }
    BitsDecide(Digit(WordValue(w), i), Value(e));
  }

  const NOTHING := Element(false, false, false, false, false)
  const ONE := Element(false, false, false, false, true)

  lemma Units(a: Element)
    ensures Times(a, NOTHING) == NOTHING && Times(a, ONE) == a && Add(a, NOTHING) == a && Add(NOTHING, a) == a
    ensures Value(NOTHING) == 0 && Value(ONE) == 1
  {
  }

  /** Dividing moves a polynomial up while its leading coefficient is nothing. */
  lemma DivideLow(w: Word, v: Element)
    requires w.d7 == NOTHING
    ensures Divide(w, v) == Word(w.d6, w.d5, w.d4, w.d3, w.d2, w.d1, w.d0, v)
  {
    hide GENERATOR, Times, Add;
    var g := GENERATOR;
    Units(g.d7);
    Units(g.d6);
    Units(g.d5);
    Units(g.d4);
    Units(g.d3);
    Units(g.d2);
    Units(g.d1);
    Units(g.d0);
    Units(w.d6);
    Units(w.d5);
    Units(w.d4);
    Units(w.d3);
    Units(w.d2);
    Units(w.d1);
    Units(w.d0);
    Units(v);
  }

  lemma DivideOne(w: Word, v: Element)
    requires w == Word(ONE, NOTHING, NOTHING, NOTHING, NOTHING, NOTHING, NOTHING, NOTHING)
    ensures Divide(w, v) == GENERATOR.(d0 := Add(v, GENERATOR.d0))
  {
    hide GENERATOR, Times, Add;
    var g := GENERATOR;
    Units(g.d7);
    Units(g.d6);
    Units(g.d5);
    Units(g.d4);
    Units(g.d3);
    Units(g.d2);
    Units(g.d1);
    Units(g.d0);
  }

  function OneAt(i: nat, j: nat): Element {
    if i == j then ONE else NOTHING
  }

  /** A one moved up i places. */
  function Monomial(i: nat): Word {
    Word(OneAt(i, 7), OneAt(i, 6), OneAt(i, 5), OneAt(i, 4), OneAt(i, 3), OneAt(i, 2), OneAt(i, 1), OneAt(i, 0))
  }

  lemma {:induction false} Climbs(i: nat, zeros: seq<nat>)
    requires i + |zeros| == 7 && forall j :: 0 <= j < |zeros| ==> zeros[j] == 0
    ensures Feed(WordValue(Monomial(i)), zeros) == WordValue(Monomial(7))
    decreases |zeros|
  {
    hide Step, Divide, WordValue;
    if zeros != [] {
      var w := Monomial(i);
      DivideLow(w, NOTHING);
      StepDivides(w, NOTHING);
      assert Divide(w, NOTHING) == Monomial(i + 1);
      Climbs(i + 1, zeros[1..]);
    }
  }

  lemma LastZero()
    ensures Xor(Feed(1, ZEROS), 1) == WordValue(GENERATOR.(d0 := Add(ONE, GENERATOR.d0)))
  {
    hide Feed, Shift, Xor, Divide, GENERATOR, WordValue;
    var w := Monomial(7);
    FirstIsOne();
    var seven := ZEROS[..7];
    Climbs(0, seven);
    FeedConcat(1, seven, [0]);
    assert ZEROS == seven + [0];
    OneMore(WordValue(w));
    XorZero(Shift(WordValue(w)));
    DivideOne(w, ONE);
    StepDivides(w, ONE);
  }

  lemma FirstIsOne()
    ensures WordValue(Monomial(0)) == 1
  {
    hide Value;
    Units(ONE);
    NumberOf(Monomial(0), 0, 0, 0, 0, 0, 0, 0, 1);
  }

  lemma OneMore(state: nat)
    ensures Feed(state, [0]) == Step(state, 0)
  {
    hide Step;
    assert [0][1..] == [];
  }

  lemma GeneratorPlusOne()
    ensures Coefficients(GENERATOR.(d0 := Add(ONE, GENERATOR.d0)), 30, 23, 15, 14, 10, 6, 12, 8)
  {
    hide GENERATOR;
    Generator();
    NineWithoutOne(GENERATOR.d0);
  }

  lemma NineWithoutOne(e: Element)
    requires Value(e) == 9
    ensures Value(Add(ONE, e)) == 8
  {
  }

  /** The checksum of no text at all. */
  lemma EmptyChecksum()
    ensures DescriptorChecksum("") == Ok("7h0w2xvg") && WithChecksum("") == Ok("#7h0w2xvg")
  {
    hide Feed, Xor, Digit, GENERATOR, WordValue, Value, Coefficient, Render;
    LastZero();
    GeneratorPlusOne();
    var w := GENERATOR.(d0 := Add(ONE, GENERATOR.d0));
    NothingFed();
    forall i | 0 <= i < 8
      ensures Digit(FinalState([]), i) == [30, 23, 15, 14, 10, 6, 12, 8][i]
    {
      DigitIsCoefficient(w, i);
      ByPlace(w, 7 - i);
    }
    Rendered(FinalState([]));
    assert Positions("") == Ok([]) && StripChecksum("") == "";
    assert "" + "#" + "7h0w2xvg" == "#7h0w2xvg";
  }

  lemma Rendered(state: nat)
    requires forall i :: 0 <= i < 8 ==> Digit(state, i) == [30, 23, 15, 14, 10, 6, 12, 8][i]
    ensures Render(state) == "7h0w2xvg"
  {
    hide Digit;
    var s := Render(state);
    assert Digit(state, 0) == 30 && Digit(state, 1) == 23 && Digit(state, 2) == 15 && Digit(state, 3) == 14;
    assert Digit(state, 4) == 10 && Digit(state, 5) == 6 && Digit(state, 6) == 12 && Digit(state, 7) == 8;
    assert s[0] == '7' && s[1] == 'h' && s[2] == '0' && s[3] == 'w' && s[4] == '2' && s[5] == 'x' && s[6] == 'v' && s[7] == 'g';
  }

  lemma NothingFed()
    ensures FinalState([]) == Xor(Feed(1, ZEROS), 1)
  {
    hide Xor;
    assert Symbols(0, 0, []) == [];
    assert Feed(1, []) == 1;
  }

  lemma ByPlace(w: Word, j: nat)
    requires j < 8 && Coefficients(w, 30, 23, 15, 14, 10, 6, 12, 8)
    ensures Value(Coefficient(w, j)) == [8, 12, 6, 10, 14, 15, 23, 30][j]
  {
    hide Value;
  }
}
