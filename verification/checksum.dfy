/** BIP-380 descriptor checksums: packages/core/src/descriptor/checksum.ts. */
module Checksum {
  import opened Text
  import opened Bits

  /** The 95 characters a descriptor may hold; a character's position drives the checksum. */
  const INPUT_CHARSET: string := FIRST_GROUP + SECOND_GROUP + THIRD_GROUP

  const FIRST_GROUP: string := "0123456789()[],'/*abcdefgh@:$%{}"
  const SECOND_GROUP: string := "IJKLMNOPQRSTUVWXYZ&+-.;<=>?!^_|~"
  const THIRD_GROUP: string := "ijklmnopqrstuvwxyzABCDEFGH`#\"\\ "

  const CHECKSUM_CHARSET: string := "qpzry9x8gf2tvdw0s3jn54khce6mua7l"

  const GENERATORS: seq<nat> := [0xf5dee51989, 0xa9fdca3312, 0x1bab10e32d, 0x3706b1677a, 0x644d626ffd]

  datatype ChecksumError = NotPermitted(character: char)

  // ----- the polymod step

  function Pick(chosen: bool, generator: nat): nat {
    if chosen then generator else 0
  }

  /** The generators that the first n bits of top select, combined. */
  function Selected(top: nat, n: nat): nat
    requires n <= |GENERATORS|
    decreases n, top
  {
    if n == 0 then 0 else Xor(Selected(top, n - 1), Pick(Bit(top, n - 1), GENERATORS[n - 1]))
  }

  /** The state after a zero symbol. */
  function Shift(state: nat): nat {
    Xor(Shl(Low(state, 35), 5), Selected(Shr(state, 35), |GENERATORS|))
  }

  function Step(state: nat, value: nat): nat {
    Xor(Shift(state), value)
  }

  /** The polymod loop, exclusive-oring one generator per set bit. */
  method Polymod(checksum: nat, value: nat) returns (result: nat)
    ensures result == Step(checksum, value)
  {
    var top := Shr(checksum, 35);
    ghost var slid := Shl(Low(checksum, 35), 5);
    result := Xor(Shl(Low(checksum, 35), 5), value);
    assert Selected(top, 0) == 0;
    XorZero(slid);
    for i := 0 to |GENERATORS|
      invariant result == Xor(Xor(slid, Selected(top, i)), value)
    {
      PickNext(slid, top, i, value);
      if Bit(top, i) {
        result := Xor(result, GENERATORS[i]);
      }
    }
  }

  lemma PickNext(slid: nat, top: nat, i: nat, value: nat)
    requires i < |GENERATORS|
    ensures Xor(Xor(slid, Selected(top, i + 1)), value) ==
            var before := Xor(Xor(slid, Selected(top, i)), value);
            if Bit(top, i) then Xor(before, GENERATORS[i]) else before
  {
    var selected := Selected(top, i);
    if Bit(top, i) {
      XorAssociates(slid, selected, GENERATORS[i]);
      XorSwap(Xor(slid, selected), value, GENERATORS[i]);
    } else {
      XorZero(selected);
    }
  }

  lemma XorAssociates(a: nat, b: nat, c: nat)
    ensures Xor(Xor(a, b), c) == Xor(a, Xor(b, c))
  {
    XorShuffle(a, b, 0, c);
    XorZero(a);
    XorShuffle(0, c, 0, 0);
    forall k: nat
      ensures Bit(Xor(0, c), k) == Bit(c, k)
    {
      BitXor(0, c, k);
      BitZero(k);
    }
    BitsDecide(Xor(0, c), c);
  }

  lemma XorSwap(a: nat, b: nat, c: nat)
    ensures Xor(Xor(a, b), c) == Xor(Xor(a, c), b)
  {
    XorShuffle(a, b, c, 0);
    XorZero(c);
    XorZero(b);
  }

  // ----- the symbols of a descriptor

  /** Where a character stands in the alphabet, or -1. */
  function Position(c: char): (i: int)
    ensures -1 <= i < 95
  {
    IndexOf(INPUT_CHARSET, c)
  }

  /** Two characters at one position are one character. */
  lemma PositionInjective(c: char, d: char)
    requires Position(c) == Position(d) != -1
    ensures c == d
  {
    hide IndexOf;
    assert INPUT_CHARSET[Position(c)] == c && INPUT_CHARSET[Position(d)] == d;
  }

  /** The position of every character, or the first character outside the alphabet. */
  function Positions(text: string): (r: Result<seq<nat>, ChecksumError>)
    ensures r.Ok? ==> |r.value| == |text|
    ensures r.Ok? ==> forall i :: 0 <= i < |text| ==> r.value[i] == Position(text[i])
  {
    if text == "" then Ok([])
    else
      var position := Position(text[0]);
      if position == -1 then Err(NotPermitted(text[0]))
      else
        var rest :- Positions(text[1..]);
        Ok([position] + rest)
  }

  /** position & 31. */
  function LowPart(position: nat): nat {
    position % 32
  }

  /** position >> 5. */
  function HighPart(position: nat): nat {
    position / 32
  }

  /**
   * The symbols still to be fed when groupIndex characters of a group have been
   * read and their high parts add up to groupValue in base three.
   */
  function Symbols(groupIndex: nat, groupValue: nat, positions: seq<nat>): seq<nat>
    decreases |positions|
  {
    if positions == [] then (if groupIndex > 0 then [groupValue] else [])
    else
      var value := groupValue * 3 + HighPart(positions[0]);
      [LowPart(positions[0])] +
      (if groupIndex + 1 == 3 then [value] + Symbols(0, 0, positions[1..])
       else Symbols(groupIndex + 1, value, positions[1..]))
  }

  function Feed(state: nat, symbols: seq<nat>): nat
    decreases |symbols|
  {
    if symbols == [] then state else Feed(Step(state, symbols[0]), symbols[1..])
  }

  const ZEROS: seq<nat> := [0, 0, 0, 0, 0, 0, 0, 0]

  function FinalState(positions: seq<nat>): nat {
    Xor(Feed(Feed(1, Symbols(0, 0, positions)), ZEROS), 1)
  }

  /** Five bits of the state, counted from the top of forty. */
  function Digit(state: nat, i: nat): (d: nat)
    requires i < 8
    ensures d < 32
  {
    assert Pow2(5) == 32;
    Low(Shr(state, 5 * (7 - i)), 5)
  }

  function Render(state: nat): (s: string)
    ensures |s| == 8
    ensures forall i :: 0 <= i < 8 ==> s[i] == CHECKSUM_CHARSET[Digit(state, i)]
  {
    seq(8, i requires 0 <= i < 8 => CHECKSUM_CHARSET[Digit(state, i)])
  }

  function DescriptorChecksum(body: string): (r: Result<string, ChecksumError>)
    ensures r.Ok? ==> |r.value| == 8
  {
    var positions :- Positions(body);
    Ok(Render(FinalState(positions)))
  }

  // ----- the loop is a fold

  /** The state once the rest of the text is fed, from inside a group. */
  function AfterText(checksum: nat, groupIndex: nat, groupValue: nat, text: string): Result<nat, ChecksumError> {
    var positions :- Positions(text);
    Ok(Feed(checksum, Symbols(groupIndex, groupValue, positions)))
  }

  lemma AfterCharacter(checksum: nat, groupIndex: nat, groupValue: nat, text: string)
    requires text != "" && groupIndex < 3
    ensures Position(text[0]) == -1 ==>
              AfterText(checksum, groupIndex, groupValue, text) == Err(NotPermitted(text[0]))
    ensures Position(text[0]) != -1 ==>
              var value := groupValue * 3 + HighPart(Position(text[0]));
              var next := Step(checksum, LowPart(Position(text[0])));
              AfterText(checksum, groupIndex, groupValue, text) ==
              if groupIndex + 1 == 3 then AfterText(Step(next, value), 0, 0, text[1..])
              else AfterText(next, groupIndex + 1, value, text[1..])
  {
    hide Step, Position;
    var position := Position(text[0]);
    if position != -1 && Positions(text[1..]).Ok? {
      var rest := Positions(text[1..]).value;
      assert Positions(text) == Ok([position] + rest);
      assert ([position] + rest)[1..] == rest;
      SymbolsNext(checksum, groupIndex, groupValue, [position] + rest);
    }
  }

  /** The loop of descriptorChecksum over characters, groups and eight zeros. */
  method ComputeChecksum(descriptor: string) returns (r: Result<string, ChecksumError>)
    ensures r == DescriptorChecksum(descriptor)
  {
    hide Step, AfterText, Position;
    var checksum: nat := 1;
    var groupIndex: nat := 0;
    var groupValue: nat := 0;
    var i := 0;
    while i < |descriptor|
      invariant 0 <= i <= |descriptor| && groupIndex < 3
      invariant AfterText(checksum, groupIndex, groupValue, descriptor[i..]) == AfterText(1, 0, 0, descriptor)
    {
      var position := Position(descriptor[i]);
      AfterCharacter(checksum, groupIndex, groupValue, descriptor[i..]);
      assert descriptor[i..][0] == descriptor[i] && descriptor[i..][1..] == descriptor[i + 1..];
      if position == -1 {
        ChecksumAfter(descriptor);
        return Err(NotPermitted(descriptor[i]));
      }
      checksum := Polymod(checksum, LowPart(position));
      groupValue := groupValue * 3 + HighPart(position);
      groupIndex := groupIndex + 1;
      if groupIndex == 3 {
        checksum := Polymod(checksum, groupValue);
        groupIndex := 0;
        groupValue := 0;
      }
      i := i + 1;
    }
    assert descriptor[i..] == "";
    NothingLeft(checksum, groupIndex, groupValue);
    if groupIndex > 0 {
      checksum := Polymod(checksum, groupValue);
    }
    ChecksumAfter(descriptor);
    checksum := FeedZeros(checksum);
    var out := RenderLoop(Xor(checksum, 1));
    r := Ok(out);
  }

  lemma ChecksumAfter(text: string)
    ensures DescriptorChecksum(text) ==
            match AfterText(1, 0, 0, text)
            case Ok(state) => Ok(Render(Xor(Feed(state, ZEROS), 1)))
            case Err(e) => Err(e)
  {
  }

  method FeedZeros(state: nat) returns (checksum: nat)
    ensures checksum == Feed(state, ZEROS)
  {
    hide Step;
    checksum := state;
    for i := 0 to |ZEROS|
      invariant Feed(checksum, ZEROS[i..]) == Feed(state, ZEROS)
    {
      assert ZEROS[i..][0] == 0 && ZEROS[i..][1..] == ZEROS[i + 1..];
      checksum := Polymod(checksum, 0);
    }
  }

  method RenderLoop(state: nat) returns (out: string)
    ensures out == Render(state)
  {
    out := "";
    for i := 0 to 8
      invariant out == Render(state)[..i]
    {
      out := out + [CHECKSUM_CHARSET[Digit(state, i)]];
    }
  }

  lemma NothingLeft(state: nat, groupIndex: nat, groupValue: nat)
    ensures AfterText(state, groupIndex, groupValue, "") ==
            Ok(if groupIndex > 0 then Step(state, groupValue) else state)
  {
    hide Step;
    assert Positions("") == Ok([]);
    assert [groupValue][1..] == [];
    assert Feed(state, [groupValue]) == Feed(Step(state, groupValue), []);
  }

  lemma SymbolsNext(state: nat, groupIndex: nat, groupValue: nat, positions: seq<nat>)
    requires positions != [] && groupIndex < 3
    ensures var value := groupValue * 3 + HighPart(positions[0]);
            var next := Step(state, LowPart(positions[0]));
            Feed(state, Symbols(groupIndex, groupValue, positions)) ==
            if groupIndex + 1 == 3 then Feed(Step(next, value), Symbols(0, 0, positions[1..]))
            else Feed(next, Symbols(groupIndex + 1, value, positions[1..]))
  {
    hide Step;
    var value := groupValue * 3 + HighPart(positions[0]);
    var symbols := Symbols(groupIndex, groupValue, positions);
    if groupIndex + 1 == 3 {
      assert symbols[1..] == [value] + Symbols(0, 0, positions[1..]);
      assert symbols[1..][1..] == Symbols(0, 0, positions[1..]);
    } else {
      assert symbols[1..] == Symbols(groupIndex + 1, value, positions[1..]);
    }
  }

  // ----- the algebra of the state

  lemma {:induction false} SelectedLinear(a: nat, b: nat, n: nat)
    requires n <= |GENERATORS|
    ensures Selected(Xor(a, b), n) == Xor(Selected(a, n), Selected(b, n))
  {
    if n == 0 {
      XorZero(0);
    } else {
      var i := n - 1;
      SelectedLinear(a, b, i);
      BitXor(a, b, i);
      var g := GENERATORS[i];
      XorSelf(g);
      XorZero(g);
      XorZero(0);
      XorSwap(0, g, 0);
      XorShuffle(Selected(a, i), Selected(b, i), Pick(Bit(a, i), g), Pick(Bit(b, i), g));
      assert Xor(Pick(Bit(a, i), g), Pick(Bit(b, i), g)) == Pick(Bit(Xor(a, b), i), g) by {
        XorAssociates(0, g, 0);
        XorZero(Xor(0, g));
        XorAssociates(g, g, g);
      }
    }
  }

  /** Feeding a zero symbol is linear over exclusive-or. */
  lemma ShiftLinear(a: nat, b: nat)
    ensures Shift(Xor(a, b)) == Xor(Shift(a), Shift(b))
  {
    LowLinear(a, b, 35);
    ShlLinear(Low(a, 35), Low(b, 35), 5);
    ShrLinear(a, b, 35);
    SelectedLinear(Shr(a, 35), Shr(b, 35), |GENERATORS|);
    XorShuffle(Shl(Low(a, 35), 5), Shl(Low(b, 35), 5),
               Selected(Shr(a, 35), |GENERATORS|), Selected(Shr(b, 35), |GENERATORS|));
  }

  function XorEach(u: seq<nat>, v: seq<nat>): (r: seq<nat>)
    requires |u| == |v|
    ensures |r| == |u| && forall i :: 0 <= i < |u| ==> r[i] == Xor(u[i], v[i])
  {
    if u == [] then [] else [Xor(u[0], v[0])] + XorEach(u[1..], v[1..])
  }

  /** The difference of two runs is the run of the differences. */
  lemma {:induction false} FeedLinear(a: nat, b: nat, u: seq<nat>, v: seq<nat>)
    requires |u| == |v|
    ensures Xor(Feed(a, u), Feed(b, v)) == Feed(Xor(a, b), XorEach(u, v))
    decreases |u|
  {
    if u != [] {
      ShiftLinear(a, b);
      XorShuffle(Shift(a), u[0], Shift(b), v[0]);
      FeedLinear(Step(a, u[0]), Step(b, v[0]), u[1..], v[1..]);
      assert XorEach(u, v)[1..] == XorEach(u[1..], v[1..]);
    }
  }

  lemma {:induction false} FeedConcat(state: nat, u: seq<nat>, v: seq<nat>)
    ensures Feed(state, u + v) == Feed(Feed(state, u), v)
    decreases |u|
  {
    hide Step;
    if u == [] {
      assert u + v == v;
    } else {
      FeedConcat(Step(state, u[0]), u[1..], v);
      assert (u + v)[1..] == u[1..] + v;
    }
  }
}
