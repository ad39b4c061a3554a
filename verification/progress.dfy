/** What signing on this device would do: packages/daemon/src/psbt.ts, lines 313 to 393. */
module SigningProgress {
  import opened Text
  import opened Keys
  import opened Quorums
  import opened OwnedAddresses

  /** What a PSBT says of one input: packages/core/src/psbt/quorum.ts, lines 30 to 48. */
  datatype InputSignatures = InputSignatures(required: Option<nat>, present: nat, signedBy: seq<string>)

  /** The key this device holds for an input it owns, and whether a key-path signature would be its own. */
  datatype Holding = Holding(compressed: string, keyPath: bool)

  const KEY_PATH: string := "taproot-key-path"

  function HoldingOf(w: Wallet, entry: OwnedAddress): Holding {
    var key := KeyAtPath(w, entry.path);
    Holding(if key.None? then "" else HexText(key.value), entry.scriptType == Some(P2tr))
  }

  function XOnlyText(compressed: string): string {
    if |compressed| < 2 then "" else compressed[2..]
  }

  predicate HasSigned(mine: Holding, input: InputSignatures) {
    mine.compressed in input.signedBy || XOnlyText(mine.compressed) in input.signedBy || (mine.keyPath && KEY_PATH in input.signedBy)
  }

  /** One input as the progress counts it. */
  datatype Seat = Seat(required: Option<nat>, present: nat, owned: bool, signed: bool) {
    /** This device would add a signature. */
    predicate Adds() {
      owned && !signed
    }

    function After(): nat {
      present + if Adds() then 1 else 0
    }

    /** How many signatures would still be lacking. */
    function Lacking(): nat {
      if required.None? || required.value <= After() then 0 else required.value - After()
    }
  }

  function SeatOf(mine: Option<Holding>, input: InputSignatures): Seat {
    Seat(input.required, input.present, mine.Some?, mine.Some? && HasSigned(mine.value, input))
  }

  datatype Progress = Progress(completesIfSigned: Option<bool>, stillNeeded: Option<nat>, adds: nat, alreadySigned: bool)

  function CountAdds(seats: seq<Seat>): nat {
    if seats == [] then 0 else CountAdds(seats[..|seats| - 1]) + if seats[|seats| - 1].Adds() then 1 else 0
  }

  /** The most any one input would lack. */
  function MostLacking(seats: seq<Seat>): nat {
    if seats == [] then 0
    else
      var before := MostLacking(seats[..|seats| - 1]);
      var last := seats[|seats| - 1].Lacking();
      if last > before then last else before
  }

  predicate AllKnown(seats: seq<Seat>) {
    forall i :: 0 <= i < |seats| ==> seats[i].required.Some?
  }

  predicate AllReached(seats: seq<Seat>) {
    forall i :: 0 <= i < |seats| ==> seats[i].Lacking() == 0
  }

  predicate AllOwnSigned(seats: seq<Seat>) {
    forall i :: 0 <= i < |seats| ==> !seats[i].Adds()
  }

  predicate SomeOwned(seats: seq<Seat>) {
    exists i :: 0 <= i < |seats| && seats[i].owned
  }

  function Evaluate(seats: seq<Seat>): Progress {
    var readable := seats != [] && AllKnown(seats);
    Progress(
      if readable then Some(AllReached(seats)) else None,
      if readable then Some(MostLacking(seats)) else None,
      CountAdds(seats),
      SomeOwned(seats) && AllOwnSigned(seats))
  }

  // ----- the loop

  function SeatAt(w: Wallet, addressOf: seq<byte> -> Option<string>, scripts: seq<Option<seq<byte>>>, index: Index,
                  inputs: seq<InputSignatures>, position: nat): Seat
    requires position < |inputs|
  {
    var script := if position < |scripts| then scripts[position] else None;
    var owner := OwnerOf(addressOf, script, index);
    SeatOf(if owner.Some? then Some(HoldingOf(w, owner.value)) else None, inputs[position])
  }

  function Seats(w: Wallet, addressOf: seq<byte> -> Option<string>, scripts: seq<Option<seq<byte>>>, index: Index,
                 inputs: seq<InputSignatures>): (r: seq<Seat>)
    ensures |r| == |inputs| && forall i :: 0 <= i < |r| ==> r[i] == SeatAt(w, addressOf, scripts, index, inputs, i)
  {
    seq(|inputs|, i requires 0 <= i < |inputs| => SeatAt(w, addressOf, scripts, index, inputs, i))
  }

  lemma OneMore(seats: seq<Seat>, i: nat)
    requires i < |seats|
    ensures seats[..i + 1] == seats[..i] + [seats[i]] && seats[..i + 1][..i] == seats[..i]
    ensures CountAdds(seats[..i + 1]) == CountAdds(seats[..i]) + if seats[i].Adds() then 1 else 0
    ensures MostLacking(seats[..i + 1]) ==
            if seats[i].Lacking() > MostLacking(seats[..i]) then seats[i].Lacking() else MostLacking(seats[..i])
  {
    assert seats[..i + 1][..i] == seats[..i];
  }

  /** thisDeviceProgress: one pass over the inputs, updating the counters and the verdict. */
  method ThisDeviceProgress(w: Wallet, addressOf: seq<byte> -> Option<string>, scripts: seq<Option<seq<byte>>>, index: Index,
                            inputs: seq<InputSignatures>) returns (r: Progress)
    ensures r == Evaluate(Seats(w, addressOf, scripts, index, inputs))
  {
    hide OwnerOf, HoldingOf, CountAdds, MostLacking, HasSigned;
    ghost var seats := Seats(w, addressOf, scripts, index, inputs);
    var adds, owned, signedByUs := 0, 0, 0;
    var completes: Option<bool> := Some(true);
    var shortfall := 0;
    NothingCounted(seats);
    for position := 0 to |inputs|
      invariant adds == CountAdds(seats[..position]) && shortfall == MostLacking(seats[..position])
      invariant 0 <= signedByUs <= owned
      invariant signedByUs == owned <==> AllOwnSigned(seats[..position])
      invariant owned > 0 <==> SomeOwned(seats[..position])
      invariant completes.Some? <==> AllKnown(seats[..position])
      invariant completes.Some? ==> completes.value == AllReached(seats[..position])
    {
      OneMore(seats, position);
      var input := inputs[position];
      var script := if position < |scripts| then scripts[position] else None;
      var mine := OwnerOf(addressOf, script, index);
      var signed := false;
      if mine.Some? {
        owned := owned + 1;
        signed := HasSigned(HoldingOf(w, mine.value), input);
        if signed {
          signedByUs := signedByUs + 1;
        } else {
          adds := adds + 1;
        }
      }
      assert seats[position] == Seat(input.required, input.present, mine.Some?, signed);
      if input.required.None? {
        completes := None;
        continue;
      }
      var after := input.present + if mine.Some? && !signed then 1 else 0;
      if input.required.value > after && input.required.value - after > shortfall {
        shortfall := input.required.value - after;
      }
      if completes.Some? && after < input.required.value {
        completes := Some(false);
      }
    }
    assert seats[..|inputs|] == seats;
    return Progress(
      if |inputs| == 0 then None else completes,
      if |inputs| == 0 || completes.None? then None else Some(shortfall),
      adds, owned > 0 && signedByUs == owned);
  }

  lemma NothingCounted(seats: seq<Seat>)
    ensures CountAdds(seats[..0]) == 0 && MostLacking(seats[..0]) == 0
  {
  }

  // ----- what the answer means

  lemma {:induction false} MostLackingMeans(seats: seq<Seat>)
    ensures forall i :: 0 <= i < |seats| ==> seats[i].Lacking() <= MostLacking(seats)
    ensures MostLacking(seats) > 0 ==> exists i :: 0 <= i < |seats| && seats[i].Lacking() == MostLacking(seats)
  {
    if seats != [] {
      var init := seats[..|seats| - 1];
      MostLackingMeans(init);
      assert forall i :: 0 <= i < |init| ==> init[i] == seats[i];
    }
  }

  lemma {:induction false} CountAddsMeans(seats: seq<Seat>)
    ensures CountAdds(seats) == 0 <==> AllOwnSigned(seats)
  {
    if seats != [] {
      var init := seats[..|seats| - 1];
      CountAddsMeans(init);
      assert forall i :: 0 <= i < |init| ==> init[i] == seats[i];
    }
  }

  /**
   * completesIfSigned is null exactly when there are no inputs or some
   * requirement is unknown. Otherwise it is true exactly when signing brings
   * every input to its requirement, and stillNeeded is the largest shortfall,
   * zero exactly when it is true.
   */
  lemma EvaluateMeans(seats: seq<Seat>)
    ensures var r := Evaluate(seats);
            && (r.completesIfSigned.None? <==> seats == [] || exists i :: 0 <= i < |seats| && seats[i].required.None?)
            && (r.stillNeeded.None? <==> r.completesIfSigned.None?)
            && (r.completesIfSigned.Some? ==>
                  && (r.completesIfSigned.value <==>
                        forall i :: 0 <= i < |seats| ==> seats[i].After() >= seats[i].required.value)
                  && (r.stillNeeded == Some(0) <==> r.completesIfSigned.value)
                  && (forall i :: 0 <= i < |seats| ==> seats[i].required.value - seats[i].After() <= r.stillNeeded.value)
                  && (r.stillNeeded.value > 0 ==>
                        exists i :: 0 <= i < |seats| && seats[i].required.value - seats[i].After() == r.stillNeeded.value))
            && (r.alreadySigned <==> r.adds == 0 && exists i :: 0 <= i < |seats| && seats[i].owned)
  {
    hide MostLacking, CountAdds;
    MostLackingMeans(seats);
    CountAddsMeans(seats);
    if AllKnown(seats) {
      forall i | 0 <= i < |seats|
        ensures seats[i].Lacking() == 0 <==> seats[i].After() >= seats[i].required.value
        ensures seats[i].Lacking() > 0 ==> seats[i].Lacking() == seats[i].required.value - seats[i].After()
        ensures seats[i].required.value - seats[i].After() <= seats[i].Lacking()
      {
      }
    }
  }

  /** A name a signature of a key goes by: its 66 hex digits, the last 64 of them, or that of a key-path signature. */
  ghost predicate NamesKey(w: Wallet, entry: OwnedAddress, name: string) {
    match KeyAtPath(w, entry.path)
    case None => name == ""
    case Some(key) => InHex(name, key) || (|key| >= 1 && InHex(name, key[1..])) || (|key| == 0 && name == "")
  }

  lemma XOnlyHex(key: seq<byte>)
    ensures InHex(HexText(key), key)
    ensures |key| >= 1 ==> InHex(XOnlyText(HexText(key)), key[1..])
  {
    hide InHex, HexText;
    HexTextMeans(key);
    if |key| >= 1 {
      HexTextMeans(key[1..]);
      HexTail(key);
    }
  }

  lemma HexTail(key: seq<byte>)
    requires |key| >= 1
    ensures XOnlyText(HexText(key)) == HexText(key[1..])
  {
    hide HexChar;
  }

  lemma InHexOne(x: string, y: string, bytes: seq<byte>)
    requires InHex(x, bytes) && InHex(y, bytes)
    ensures x == y
  {
    forall k | 0 <= k < |x|
      ensures x[k] == y[k]
    {
      var i := k / 2;
      assert x[2 * i] == y[2 * i] && x[2 * i + 1] == y[2 * i + 1];
    }
  }

  /** Whether an input this device owns is signed already: exactly when one of the signatures on it goes by a name of its key. */
  lemma SignedMeans(w: Wallet, entry: OwnedAddress, input: InputSignatures)
    ensures HasSigned(HoldingOf(w, entry), input) <==>
            exists name :: name in input.signedBy &&
                           (NamesKey(w, entry, name) || (entry.scriptType == Some(P2tr) && name == "taproot-key-path"))
  {
    hide KeyAtPath, HexText, InHex, XOnlyText;
    var mine := HoldingOf(w, entry);
    match KeyAtPath(w, entry.path)
    case None =>
      NoText();
    case Some(key) =>
      XOnlyHex(key);
      if key == [] {
        NoBytes();
      }
      forall name | NamesKey(w, entry, name)
        ensures name == mine.compressed || name == XOnlyText(mine.compressed)
      {
        if InHex(name, key) {
          InHexOne(name, mine.compressed, key);
        } else if |key| >= 1 && InHex(name, key[1..]) {
          InHexOne(name, XOnlyText(mine.compressed), key[1..]);
        }
      }
  }

  lemma NoText()
    ensures XOnlyText("") == ""
  {
  }

  lemma NoBytes()
    ensures HexText([]) == "" && XOnlyText(HexText([])) == ""
  {
  }

  /** How many signatures this device would add. */
  lemma {:induction false} AddsCounted(seats: seq<Seat>)
    ensures Evaluate(seats).adds == |set i: nat | i < |seats| && seats[i].owned && !seats[i].signed|
  {
    CountIs(seats);
    assert (set i: nat | i < |seats| && seats[i].owned && !seats[i].signed) == AddsAt(seats);
  }

  function AddsAt(seats: seq<Seat>): set<nat> {
    set i: nat | i < |seats| && seats[i].Adds()
  }

  lemma {:induction false} CountIs(seats: seq<Seat>)
    ensures CountAdds(seats) == |AddsAt(seats)|
  {
    if seats == [] {
      assert AddsAt(seats) == {};
    } else {
      var last := |seats| - 1;
      CountIs(seats[..last]);
      var before := AddsAt(seats[..last]);
      assert AddsAt(seats) == if seats[last].Adds() then before + {last} else before;
    }
  }

  // ----- signing is a step

  /** An input after this device has put its signature on it, under any of the names its key goes by. */
  ghost predicate Signed(mine: Option<Holding>, before: InputSignatures, after: InputSignatures) {
    if mine.None? || HasSigned(mine.value, before) then after == before
    else
      && after.required == before.required && after.present == before.present + 1
      && exists name :: after.signedBy == before.signedBy + [name] && Names(mine.value, name)
  }

  predicate Names(mine: Holding, name: string) {
    name == mine.compressed || name == XOnlyText(mine.compressed) || (mine.keyPath && name == KEY_PATH)
  }

  lemma SeatSigned(mine: Option<Holding>, before: InputSignatures, after: InputSignatures)
    requires Signed(mine, before, after)
    ensures var (s, t) := (SeatOf(mine, before), SeatOf(mine, after));
            !t.Adds() && t.owned == s.owned && t.required == s.required && t.After() == s.After() && t.Lacking() == s.Lacking()
  {
    hide XOnlyText;
    if mine.Some? && !HasSigned(mine.value, before) {
      var name :| after.signedBy == before.signedBy + [name] && Names(mine.value, name);
      assert after.signedBy[|before.signedBy|] == name;
    }
  }

  lemma {:induction false} SameLacking(a: seq<Seat>, b: seq<Seat>)
    requires |a| == |b| && forall i :: 0 <= i < |a| ==> a[i].Lacking() == b[i].Lacking()
    ensures MostLacking(a) == MostLacking(b)
  {
    if a != [] {
      SameLacking(a[..|a| - 1], b[..|b| - 1]);
    }
  }

  /**
   * Signing is a step: once this device's signature is on every input it owns
   * and had not signed, a second reading finds nothing left to add, and the
   * same completion and shortfall as the first one foretold.
   */
  lemma SigningIsAStep(w: Wallet, addressOf: seq<byte> -> Option<string>, scripts: seq<Option<seq<byte>>>, index: Index,
                       before: seq<InputSignatures>, after: seq<InputSignatures>)
    requires |before| == |after|
    requires forall i :: 0 <= i < |before| ==>
               var owner := OwnerOf(addressOf, if i < |scripts| then scripts[i] else None, index);
               Signed(if owner.Some? then Some(HoldingOf(w, owner.value)) else None, before[i], after[i])
    ensures var first := Evaluate(Seats(w, addressOf, scripts, index, before));
            var second := Evaluate(Seats(w, addressOf, scripts, index, after));
            && second.adds == 0
            && second.completesIfSigned == first.completesIfSigned && second.stillNeeded == first.stillNeeded
            && (second.alreadySigned <==> SomeOwned(Seats(w, addressOf, scripts, index, before)))
  {
    hide OwnerOf, HoldingOf, HasSigned, MostLacking, CountAdds, Signed;
    var a, b := Seats(w, addressOf, scripts, index, before), Seats(w, addressOf, scripts, index, after);
    forall i | 0 <= i < |a|
      ensures !b[i].Adds() && b[i].owned == a[i].owned && b[i].required == a[i].required && b[i].Lacking() == a[i].Lacking()
    {
      var owner := OwnerOf(addressOf, if i < |scripts| then scripts[i] else None, index);
      SeatSigned(if owner.Some? then Some(HoldingOf(w, owner.value)) else None, before[i], after[i]);
    }
    SameLacking(a, b);
    CountAddsMeans(b);
  }
}
