/** BIP-329 labels: packages/core/src/labels/bip329.ts. */
module Labels {
  import opened Text

  datatype Kind = Tx | Addr | Pubkey | Input | Output | Xpub

  function KindName(kind: Kind): string {
    match kind
    case Tx => "tx"
    case Addr => "addr"
    case Pubkey => "pubkey"
    case Input => "input"
    case Output => "output"
    case Xpub => "xpub"
  }

  function KindOf(name: string): Option<Kind> {
    if name == "tx" then Some(Tx)
    else if name == "addr" then Some(Addr)
    else if name == "pubkey" then Some(Pubkey)
    else if name == "input" then Some(Input)
    else if name == "output" then Some(Output)
    else if name == "xpub" then Some(Xpub)
    else None
  }

  /** A label on a reference; spendable is present for outputs only. */
  datatype Label = Label(kind: Kind, ref: string, text: string, spendable: Option<bool>)

  const MAX_FILE_BYTES: nat := 1_000_000
  const MAX_LABEL_LENGTH: nat := 255
  const MAX_REF_LENGTH: nat := 200

  /** One member of a parsed record, as far as the importer looks at it. */
  datatype Field = Missing | Text(value: string) | Flag(on: bool) | Other

  datatype Parsed = NotJson | NotObject | Record(kind: Field, ref: Field, text: Field, spendable: Field)

  /** JSON.parse and JSON.stringify, and the characters a label may not hold. */
  datatype Json = Json(
    parse: string -> Parsed,
    stringify: Label -> string,
    hasForgeable: string -> bool)

  function SpendableField(spendable: Option<bool>): Field {
    if spendable.Some? then Flag(spendable.value) else Missing
  }

  /** A written record reads back, on one line of its own. */
  ghost predicate JsonLawful(json: Json) {
    forall l: Label ::
      && json.parse(json.stringify(l)) ==
         Record(Text(KindName(l.kind)), Text(l.ref), Text(l.text), SpendableField(l.spendable))
      && json.stringify(l) != "" && Trimmed(json.stringify(l)) && '\n' !in json.stringify(l)
  }

  datatype Reason = UnreadableJson | NotARecord | UnknownKind | BadRef | BadText | TextTooLong | Forgeable | BadSpendable

  datatype Skipped = Skipped(line: nat, reason: Reason)

  datatype ImportResult = ImportResult(labels: seq<Label>, skipped: seq<Skipped>)

  datatype LabelError = FileTooLarge

  datatype LineResult = Blank | Skip(reason: Reason) | Keep(entry: Label)

  /** What one line says. */
  function ReadLine(json: Json, raw: string): LineResult {
    var line := Trim(raw);
    if line == "" then Blank
    else match json.parse(line)
         case NotJson => Skip(UnreadableJson)
         case NotObject => Skip(NotARecord)
         case Record(kind, ref, text, spendable) => ReadRecord(json, kind, ref, text, spendable)
  }

  function ReadRecord(json: Json, kind: Field, ref: Field, text: Field, spendable: Field): LineResult {
    if !kind.Text? || KindOf(kind.value).None? then Skip(UnknownKind)
    else if !ref.Text? || ref.value == "" || |ref.value| > MAX_REF_LENGTH then Skip(BadRef)
    else if !text.Missing? && !text.Text? then Skip(BadText)
    else
      var written := if text.Text? then text.value else "";
      if |written| > MAX_LABEL_LENGTH then Skip(TextTooLong)
      else if json.hasForgeable(written) then Skip(Forgeable)
      else if !spendable.Missing? && !spendable.Flag? then Skip(BadSpendable)
      else Keep(Label(KindOf(kind.value).value, ref.value, written, if spendable.Flag? then Some(spendable.on) else None))
  }

  /** A label as one record of a file says it, and within the limits. */
  ghost predicate Says(json: Json, kind: Field, ref: Field, text: Field, spendable: Field, l: Label) {
    && kind == Text(match l.kind case Tx => "tx" case Addr => "addr" case Pubkey => "pubkey" case Input => "input"
                                 case Output => "output" case Xpub => "xpub")
    && ref == Text(l.ref) && 1 <= |l.ref| <= 200
    && (text == Text(l.text) || (text == Missing && l.text == "")) && |l.text| <= 255 && !json.hasForgeable(l.text)
    && spendable == match l.spendable case None => Missing case Some(on) => Flag(on)
  }

  /** What a line must hold for a label to be kept, exactly. */
  lemma LineMeans(json: Json, raw: string, l: Label)
    ensures ReadLine(json, raw) == Keep(l) <==>
            Trim(raw) != "" && json.parse(Trim(raw)).Record? &&
            var r := json.parse(Trim(raw)); Says(json, r.kind, r.ref, r.text, r.spendable, l)
    ensures ReadLine(json, raw) == Blank <==> Trim(raw) == ""
  {
    hide Trim, KindOf, KindName;
    KindWords();
    if Trim(raw) != "" && json.parse(Trim(raw)).Record? {
      RecordMeans(json, json.parse(Trim(raw)), l);
    }
  }

  lemma RecordMeans(json: Json, r: Parsed, l: Label)
    requires r.Record?
    ensures ReadRecord(json, r.kind, r.ref, r.text, r.spendable) == Keep(l) <==> Says(json, r.kind, r.ref, r.text, r.spendable, l)
    ensures ReadRecord(json, r.kind, r.ref, r.text, r.spendable) != Blank
  {
    hide KindOf, KindName;
    KindWords();
    if r.kind.Text? {
      KindBack(r.kind.value);
    }
  }

  lemma KindWords()
    ensures KindOf("tx") == Some(Tx) && KindOf("addr") == Some(Addr) && KindOf("pubkey") == Some(Pubkey)
    ensures KindOf("input") == Some(Input) && KindOf("output") == Some(Output) && KindOf("xpub") == Some(Xpub)
  {
  }

  lemma KindBack(name: string)
    ensures KindOf(name).Some? ==> name in ["tx", "addr", "pubkey", "input", "output", "xpub"]
  {
  }

  // ----- later lines win

  predicate SameKey(a: Label, b: Label) {
    a.kind == b.kind && a.ref == b.ref
  }

  /** The text the importer keys a label by. */
  function KeyText(l: Label): string {
    KindName(l.kind) + ":" + l.ref
  }

  /** The key text tells labels apart exactly by type and reference: no type holds a colon. */
  lemma KeyTextDecides(a: Label, b: Label)
    ensures KeyText(a) == KeyText(b) <==> SameKey(a, b)
  {
    KindNames(a.kind);
    KindNames(b.kind);
    if KeyText(a) == KeyText(b) {
      KeyParts(KindName(a.kind), a.ref);
      KeyParts(KindName(b.kind), b.ref);
    }
  }

  lemma KindNames(kind: Kind)
    ensures ':' !in KindName(kind) && KindOf(KindName(kind)) == Some(kind)
  {
  }

  lemma KeyParts(name: string, ref: string)
    requires ':' !in name
    ensures Split(name + ":" + ref, ':')[0] == name && (name + ":" + ref)[|name| + 1..] == ref
  {
    hide Split;
    SplitPrefix(name, ref, ':');
  }

  /** findIndex by key, for the splice. */
  function PositionOf(labels: seq<Label>, l: Label): (at: nat)
    ensures at <= |labels|
    ensures at < |labels| ==> SameKey(labels[at], l)
    ensures forall i :: 0 <= i < at ==> !SameKey(labels[i], l)
  {
    if labels == [] || SameKey(labels[0], l) then 0 else PositionOf(labels[1..], l) + 1
  }

  /** A label added, in place of an earlier one with its key. */
  function Replace(labels: seq<Label>, l: Label): seq<Label> {
    var at := PositionOf(labels, l);
    (if at < |labels| then labels[..at] + labels[at + 1..] else labels) + [l]
  }

  datatype Reading = Reading(labels: seq<Label>, skipped: seq<Skipped>)

  /** One line, folded into what was read before it. */
  function ReadNext(json: Json, before: Reading, raw: string, line: nat): Reading {
    match ReadLine(json, raw)
    case Blank => before
    case Skip(reason) => before.(skipped := before.skipped + [Skipped(line, reason)])
    case Keep(l) => before.(labels := Replace(before.labels, l))
  }

  function ReadLines(json: Json, lines: seq<string>): Reading
    decreases |lines|
  {
    if lines == [] then Reading([], [])
    else ReadNext(json, ReadLines(json, lines[..|lines| - 1]), lines[|lines| - 1], |lines|)
  }

  function ImportLabels(json: Json, text: string): Result<ImportResult, LabelError> {
    if |text| > MAX_FILE_BYTES then Err(FileTooLarge)
    else
      var read := ReadLines(json, Split(text, '\n'));
      Ok(ImportResult(read.labels, read.skipped))
  }

  ghost predicate HasKey(labels: seq<Label>, key: string) {
    exists i :: 0 <= i < |labels| && KeyText(labels[i]) == key
  }

  /** The set of the keys seen is the keys of the labels held. */
  ghost predicate SeenIs(seen: set<string>, labels: seq<Label>) {
    forall key :: key in seen <==> HasKey(labels, key)
  }

  /** importLabels: push, splice and remember the keys seen, line by line. */
  method ImportLabelsLoop(json: Json, text: string) returns (r: Result<ImportResult, LabelError>)
    ensures r == ImportLabels(json, text)
  {
    hide Split, ReadLine, KeyText, SeenIs, Replace, PositionOf;
    if |text| > MAX_FILE_BYTES {
      return Err(FileTooLarge);
    }
    var labels: seq<Label> := [];
    var skipped: seq<Skipped> := [];
    var seen: set<string> := {};
    var lines := Split(text, '\n');
    NothingSeen();
    for index := 0 to |lines|
      invariant ReadLines(json, lines[..index]) == Reading(labels, skipped)
      invariant SeenIs(seen, labels)
    {
      OneMoreLine(json, lines, index);
      var read := ReadLine(json, lines[index]);
      match read
      case Blank =>
      case Skip(reason) => skipped := skipped + [Skipped(index + 1, reason)];
      case Keep(l) =>
        var key := KeyText(l);
        SeenMeans(labels, l, seen);
        SeenAfter(labels, l, seen);
        ReplaceIs(labels, l);
        if key in seen {
          var at := PositionOf(labels, l);
          labels := labels[..at] + labels[at + 1..];
        }
        seen := seen + {key};
        labels := labels + [l];
    }
    assert lines[..|lines|] == lines;
    return Ok(ImportResult(labels, skipped));
  }

  lemma NothingSeen()
    ensures SeenIs({}, [])
  {
  }

  lemma OneMoreLine(json: Json, lines: seq<string>, index: nat)
    requires index < |lines|
    ensures ReadLines(json, lines[..index + 1]) == ReadNext(json, ReadLines(json, lines[..index]), lines[index], index + 1)
  {
    hide ReadNext;
    assert lines[..index + 1][..index] == lines[..index];
  }

  lemma ReplaceIs(labels: seq<Label>, l: Label)
    ensures var at := PositionOf(labels, l);
            Replace(labels, l) == (if at < |labels| then labels[..at] + labels[at + 1..] else labels) + [l]
  {
  }

  lemma SeenMeans(labels: seq<Label>, l: Label, seen: set<string>)
    requires SeenIs(seen, labels)
    ensures KeyText(l) in seen <==> PositionOf(labels, l) < |labels|
  {
    hide KeyText;
    forall i | 0 <= i < |labels|
      ensures KeyText(labels[i]) == KeyText(l) <==> SameKey(labels[i], l)
    {
      KeyTextDecides(labels[i], l);
    }
    assert KeyText(l) in seen <==> HasKey(labels, KeyText(l));
    if PositionOf(labels, l) < |labels| {
      assert KeyText(labels[PositionOf(labels, l)]) == KeyText(l);
    }
  }

  /** Replacing keeps every key that was there and adds the new one. */
  lemma SeenAfter(before: seq<Label>, l: Label, seen: set<string>)
    requires SeenIs(seen, before)
    ensures SeenIs(seen + {KeyText(l)}, Replace(before, l))
  {
    hide KeyText, HasKey, Replace;
    forall key
      ensures key in seen + {KeyText(l)} <==> HasKey(Replace(before, l), key)
    {
      KeysAfter(before, l, key);
    }
  }

  lemma KeysAfter(before: seq<Label>, l: Label, key: string)
    ensures HasKey(Replace(before, l), key) <==> key == KeyText(l) || HasKey(before, key)
  {
    hide KeyText;
    var at := PositionOf(before, l);
    var after := Replace(before, l);
    assert after[|after| - 1] == l;
    if at < |before| {
      KeyTextDecides(before[at], l);
    }
    if HasKey(before, key) {
      var i :| 0 <= i < |before| && KeyText(before[i]) == key;
      if i < at {
        assert after[i] == before[i];
      } else if i > at {
        assert after[i - 1] == before[i];
      }
    }
    if HasKey(after, key) {
      var j :| 0 <= j < |after| && KeyText(after[j]) == key;
      if j < |after| - 1 {
        assert after[j] == if j < at then before[j] else before[j + 1];
      }
    }
  }

  // ----- what an import returns

  /** The labels the lines hold, in order. */
  function Kept(json: Json, lines: seq<string>): seq<Label> {
    if lines == [] then []
    else
      var read := ReadLine(json, lines[0]);
      (if read.Keep? then [read.entry] else []) + Kept(json, lines[1..])
  }

  predicate KeyIn(l: Label, labels: seq<Label>) {
    exists i :: 0 <= i < |labels| && SameKey(l, labels[i])
  }

  /** The labels that no later one replaces, in order. */
  function LastOnly(labels: seq<Label>): seq<Label> {
    if labels == [] then []
    else (if KeyIn(labels[0], labels[1..]) then [] else [labels[0]]) + LastOnly(labels[1..])
  }

  /** The lines that were refused, with their numbers. */
  function Refusals(json: Json, lines: seq<string>, first: nat): seq<Skipped> {
    if lines == [] then []
    else
      var read := ReadLine(json, lines[0]);
      (if read.Skip? then [Skipped(first, read.reason)] else []) + Refusals(json, lines[1..], first + 1)
  }

  // ----- the last line for a key wins

  /** No key twice. */
  ghost predicate UniqueKeys(labels: seq<Label>) {
    forall i, j :: 0 <= i < j < |labels| ==> !SameKey(labels[i], labels[j])
  }

  lemma LastStep(labels: seq<Label>)
    requires labels != []
    ensures LastOnly(labels) == if KeyIn(labels[0], labels[1..]) then LastOnly(labels[1..]) else [labels[0]] + LastOnly(labels[1..])
  {
    hide KeyIn;
    assert [] + LastOnly(labels[1..]) == LastOnly(labels[1..]);
  }

  /** Every key that was there is there once the replaced labels are gone. */
  lemma {:induction false} LastOnlyKeys(labels: seq<Label>, x: Label)
    ensures KeyIn(x, LastOnly(labels)) <==> KeyIn(x, labels)
    decreases |labels|
  {
    hide KeyIn;
    if labels != [] {
      hide LastOnly;
      LastStep(labels);
      LastOnlyKeys(labels[1..], x);
      assert labels == [labels[0]] + labels[1..];
      KeyInHead(x, labels[0], labels[1..]);
      KeyInHead(x, labels[0], LastOnly(labels[1..]));
      if SameKey(x, labels[0]) {
        SameKeyIn(x, labels[0], labels[1..]);
      }
    } else {
      KeyInNone(x);
    }
  }

  lemma KeyInNone(x: Label)
    ensures !KeyIn(x, [])
  {
  }

  /** And none of them twice. */
  lemma {:induction false} LastOnlyUnique(labels: seq<Label>)
    ensures UniqueKeys(LastOnly(labels))
  {
    if labels != [] {
      var rest := LastOnly(labels[1..]);
      LastOnlyUnique(labels[1..]);
      LastStep(labels);
      LastOnlyKeys(labels[1..], labels[0]);
      if !KeyIn(labels[0], labels[1..]) {
        assert !KeyIn(labels[0], rest);
        assert forall i :: 0 < i < |[labels[0]] + rest| ==> ([labels[0]] + rest)[i] == rest[i - 1];
      }
    }
  }

  /** Adding a label to a list drops what it replaces from the ones that last. */
  lemma {:induction false} LastOnlyNext(labels: seq<Label>, l: Label)
    ensures LastOnly(labels + [l]) == Replace(LastOnly(labels), l)
  {
    if labels == [] {
      NoneReplaced(l);
    } else {
      hide KeyIn, LastOnly, Replace;
      var rest := labels[1..];
      LastOnlyNext(rest, l);
      assert (labels + [l])[1..] == rest + [l] && (labels + [l])[0] == labels[0];
      LastStep(labels);
      LastStep(labels + [l]);
      KeyInAppend(labels[0], rest, l);
      LastOnlyKeys(rest, labels[0]);
      if !KeyIn(labels[0], rest) {
        HeadReplace(labels[0], LastOnly(rest), l);
        assert [] + Replace(LastOnly(rest), l) == Replace(LastOnly(rest), l);
      }
    }
  }

  lemma NoneReplaced(l: Label)
    ensures LastOnly([] + [l]) == Replace(LastOnly([]), l)
  {
    assert [] + [l] == [l] && [l][1..] == [];
  }

  lemma KeyInAppend(x: Label, labels: seq<Label>, l: Label)
    ensures KeyIn(x, labels + [l]) <==> KeyIn(x, labels) || SameKey(x, l)
  {
    var all := labels + [l];
    assert all[|labels|] == l;
    assert forall i :: 0 <= i < |labels| ==> all[i] == labels[i];
  }

  lemma HeadReplace(x: Label, rest: seq<Label>, l: Label)
    requires !KeyIn(x, rest)
    ensures Replace([x] + rest, l) == (if SameKey(x, l) then [] else [x]) + Replace(rest, l)
  {
    hide Replace, KeyIn, PositionOf;
    if SameKey(x, l) {
      HeadReplaced(x, rest, l);
      assert [] + Replace(rest, l) == Replace(rest, l);
    } else {
      HeadStays(x, rest, l);
    }
  }

  lemma HeadReplaced(x: Label, rest: seq<Label>, l: Label)
    requires !KeyIn(x, rest) && SameKey(x, l)
    ensures Replace([x] + rest, l) == Replace(rest, l)
  {
    hide PositionOf;
    var all := [x] + rest;
    assert SameKey(all[0], l) && PositionOf(all, l) == 0;
    assert forall i :: 0 <= i < |rest| ==> !SameKey(x, rest[i]);
    assert PositionOf(rest, l) == |rest|;
    assert all[..0] + all[0 + 1..] == rest;
  }

  lemma HeadStays(x: Label, rest: seq<Label>, l: Label)
    requires !SameKey(x, l)
    ensures Replace([x] + rest, l) == [x] + Replace(rest, l)
  {
    var all := [x] + rest;
    var at := PositionOf(rest, l);
    assert all[1..] == rest;
    assert PositionOf(all, l) == at + 1;
    hide PositionOf;
    if at < |rest| {
      assert all[..at + 1] == [x] + rest[..at];
      assert all[at + 2..] == rest[at + 1..];
      Regroup([x], rest[..at], rest[at + 1..]);
      Regroup([x], rest[..at] + rest[at + 1..], [l]);
    } else {
      Regroup([x], rest, [l]);
    }
  }

  lemma KeyInHead(x: Label, first: Label, rest: seq<Label>)
    ensures KeyIn(x, [first] + rest) <==> SameKey(x, first) || KeyIn(x, rest)
  {
    var all := [first] + rest;
    assert all[0] == first;
    assert forall i :: 0 <= i < |rest| ==> all[i + 1] == rest[i];
    assert forall i :: 0 < i < |all| ==> all[i] == rest[i - 1];
  }

  lemma SameKeyIn(x: Label, y: Label, labels: seq<Label>)
    requires SameKey(x, y)
    ensures KeyIn(x, labels) <==> KeyIn(y, labels)
  {
  }

  lemma {:induction false} KeptNext(json: Json, lines: seq<string>, line: string)
    ensures Kept(json, lines + [line]) ==
            Kept(json, lines) + (if ReadLine(json, line).Keep? then [ReadLine(json, line).entry] else [])
  {
    hide ReadLine;
    if lines == [] {
      assert [] + [line] == [line] && [line][1..] == [];
    } else {
      KeptNext(json, lines[1..], line);
      assert (lines + [line])[1..] == lines[1..] + [line];
      assert (lines + [line])[0] == lines[0];
    }
  }

  lemma {:induction false} RefusalsNext(json: Json, lines: seq<string>, line: string, first: nat)
    ensures Refusals(json, lines + [line], first) ==
            Refusals(json, lines, first) +
            (if ReadLine(json, line).Skip? then [Skipped(first + |lines|, ReadLine(json, line).reason)] else [])
    decreases |lines|
  {
    hide ReadLine;
    if lines == [] {
      assert [] + [line] == [line] && [line][1..] == [];
    } else {
      RefusalsNext(json, lines[1..], line, first + 1);
      assert (lines + [line])[1..] == lines[1..] + [line];
      assert (lines + [line])[0] == lines[0];
    }
  }

  /** The fold over the lines keeps what is last for each key, and reports every refusal with its line. */
  lemma {:induction false} ReadsLast(json: Json, lines: seq<string>)
    ensures ReadLines(json, lines) == Reading(LastOnly(Kept(json, lines)), Refusals(json, lines, 1))
    decreases |lines|
  {
    hide ReadLine, LastOnly, Kept, Refusals, Replace;
    if lines == [] {
      NothingRead(json);
    } else {
      var init, line := lines[..|lines| - 1], lines[|lines| - 1];
      ReadsLast(json, init);
      assert lines == init + [line];
      KeptNext(json, init, line);
      RefusalsNext(json, init, line, 1);
      var read := ReadLine(json, line);
      if read.Keep? {
        LastOnlyNext(Kept(json, init), read.entry);
      } else {
        assert Kept(json, init) + [] == Kept(json, init);
      }
      if !read.Skip? {
        assert Refusals(json, init, 1) + [] == Refusals(json, init, 1);
      }
    }
  }

  lemma NothingRead(json: Json)
    ensures LastOnly(Kept(json, [])) == [] && Refusals(json, [], 1) == []
  {
  }

  /** A later line holds a label with this line's key. */
  predicate ReplacedLater(json: Json, lines: seq<string>, at: nat, l: Label) {
    exists k :: at < k < |lines| && ReadLine(json, lines[k]).Keep? && SameKey(ReadLine(json, lines[k]).entry, l)
  }

  lemma {:induction false} KeptKeys(json: Json, lines: seq<string>, l: Label)
    ensures KeyIn(l, Kept(json, lines)) <==>
            exists k :: 0 <= k < |lines| && ReadLine(json, lines[k]).Keep? && SameKey(ReadLine(json, lines[k]).entry, l)
    decreases |lines|
  {
    hide ReadLine;
    if lines != [] {
      var rest := lines[1..];
      KeptKeys(json, rest, l);
      assert forall k :: 0 <= k < |rest| ==> lines[k + 1] == rest[k];
      var read := ReadLine(json, lines[0]);
      if read.Keep? {
        KeyInHead(l, read.entry, Kept(json, rest));
      } else {
        assert [] + Kept(json, rest) == Kept(json, rest);
      }
      if k :| 0 <= k < |lines| && ReadLine(json, lines[k]).Keep? && SameKey(ReadLine(json, lines[k]).entry, l) {
        if k > 0 {
          assert rest[k - 1] == lines[k];
        }
      }
    }
  }

  /** Labels, each from one line, in the order of those lines, each the last line that holds a label with its key. */
  ghost predicate Placed(json: Json, lines: seq<string>, labels: seq<Label>, at: seq<nat>) {
    && |at| == |labels|
    && (forall i, j :: 0 <= i < j < |at| ==> at[i] < at[j])
    && (forall i :: 0 <= i < |at| ==> LastLine(json, lines, at[i], labels[i]))
  }

  function Shifted(below: seq<nat>): (r: seq<nat>)
    ensures |r| == |below| && forall i :: 0 <= i < |r| ==> r[i] == below[i] + 1
  {
    seq(|below|, i requires 0 <= i < |below| => below[i] + 1)
  }

  lemma PlacedBelow(json: Json, lines: seq<string>, labels: seq<Label>, below: seq<nat>)
    requires lines != [] && Placed(json, lines[1..], labels, below)
    ensures Placed(json, lines, labels, Shifted(below))
  {
    hide LastLine;
    forall i | 0 <= i < |below|
      ensures LastLine(json, lines, Shifted(below)[i], labels[i])
    {
      LineBelow(json, lines, below[i], labels[i]);
    }
  }

  lemma PlacedFirst(json: Json, lines: seq<string>, l: Label, labels: seq<Label>, below: seq<nat>)
    requires lines != [] && LastLine(json, lines, 0, l) && Placed(json, lines, labels, Shifted(below))
    ensures Placed(json, lines, [l] + labels, [0] + Shifted(below))
  {
    hide LastLine;
    var at, all := [0] + Shifted(below), [l] + labels;
    forall i | 0 <= i < |at|
      ensures LastLine(json, lines, at[i], all[i])
    {
      if i > 0 {
        assert at[i] == Shifted(below)[i - 1] && all[i] == labels[i - 1];
      }
    }
    forall i, j | 0 <= i < j < |at|
      ensures at[i] < at[j]
    {
      assert at[j] == Shifted(below)[j - 1];
      assert i > 0 ==> at[i] == Shifted(below)[i - 1];
    }
  }

  /** Where the imported labels come from. */
  lemma {:induction false} LastLines(json: Json, lines: seq<string>) returns (at: seq<nat>)
    ensures Placed(json, lines, LastOnly(Kept(json, lines)), at)
    decreases |lines|
  {
    if lines == [] {
      NothingRead(json);
      at := [];
    } else {
      hide ReadLine, LastLine, LastOnly, KeyIn, Placed;
      var rest := lines[1..];
      var below := LastLines(json, rest);
      PlacedBelow(json, lines, LastOnly(Kept(json, rest)), below);
      at := Shifted(below);
      var read := ReadLine(json, lines[0]);
      if read.Keep? {
        assert ([read.entry] + Kept(json, rest))[1..] == Kept(json, rest);
        LastStep(Kept(json, lines));
        KeptKeys(json, rest, read.entry);
        if !KeyIn(read.entry, Kept(json, rest)) {
          FirstLine(json, lines, read.entry);
          PlacedFirst(json, lines, read.entry, LastOnly(Kept(json, rest)), below);
          at := [0] + Shifted(below);
        }
      } else {
        assert [] + Kept(json, rest) == Kept(json, rest);
      }
    }
  }

  ghost predicate LastLine(json: Json, lines: seq<string>, at: nat, l: Label) {
    at < |lines| && ReadLine(json, lines[at]) == Keep(l) && !ReplacedLater(json, lines, at, l)
  }

  lemma LineBelow(json: Json, lines: seq<string>, at: nat, l: Label)
    requires lines != [] && LastLine(json, lines[1..], at, l)
    ensures LastLine(json, lines, at + 1, l)
  {
    hide ReadLine;
    var rest := lines[1..];
    assert lines[at + 1] == rest[at];
    forall k | at + 1 < k < |lines|
      ensures !(ReadLine(json, lines[k]).Keep? && SameKey(ReadLine(json, lines[k]).entry, l))
    {
      assert lines[k] == rest[k - 1];
    }
  }

  lemma FirstLine(json: Json, lines: seq<string>, l: Label)
    requires lines != [] && ReadLine(json, lines[0]) == Keep(l)
    requires !exists k :: 0 <= k < |lines| - 1 && ReadLine(json, lines[1..][k]).Keep? && SameKey(ReadLine(json, lines[1..][k]).entry, l)
    ensures LastLine(json, lines, 0, l)
  {
    hide ReadLine;
    forall k | 0 < k < |lines|
      ensures !(ReadLine(json, lines[k]).Keep? && SameKey(ReadLine(json, lines[k]).entry, l))
    {
      assert lines[k] == lines[1..][k - 1];
    }
  }

  /** A refusal reports a line of the text, counted from the first, and the reason that line is refused. */
  ghost predicate RefusedLine(json: Json, lines: seq<string>, first: nat, s: Skipped) {
    first <= s.line < first + |lines| && ReadLine(json, lines[s.line - first]) == Skip(s.reason)
  }

  lemma {:induction false} RefusalsMean(json: Json, lines: seq<string>, first: nat, s: Skipped)
    ensures s in Refusals(json, lines, first) <==> RefusedLine(json, lines, first, s)
    decreases |lines|
  {
    hide ReadLine;
    if lines != [] {
      RefusalsAfter(json, lines[1..], first + 1);
      RefusalsMean(json, lines[1..], first + 1, s);
      assert first < s.line < first + |lines| ==> lines[1..][s.line - first - 1] == lines[s.line - first];
    }
  }

  lemma {:induction false} RefusalsAfter(json: Json, lines: seq<string>, first: nat)
    ensures forall s :: s in Refusals(json, lines, first) ==> s.line >= first
    decreases |lines|
  {
    hide ReadLine;
    if lines != [] {
      RefusalsAfter(json, lines[1..], first + 1);
    }
  }

  /**
   * Last line wins and nothing is lost. The imported labels have no key twice,
   * each holds the last valid line for its key, and they stand in the order of
   * those lines. Every line is blank, or reported by its number with its
   * reason, or holds a label whose key is among the imported ones; and only
   * refused lines are reported.
   */
  lemma ImportMeans(json: Json, text: string) returns (at: seq<nat>)
    requires ImportLabels(json, text).Ok?
    ensures var (lines, result) := (Split(text, '\n'), ImportLabels(json, text).value);
            && UniqueKeys(result.labels) && Placed(json, lines, result.labels, at)
            && (forall k :: 0 <= k < |lines| && ReadLine(json, lines[k]).Keep? ==> KeyIn(ReadLine(json, lines[k]).entry, result.labels))
            && (forall s :: s in result.skipped <==> RefusedLine(json, lines, 1, s))
  {
    hide Split, ReadLine, Kept, LastOnly, Refusals, UniqueKeys, Placed, KeyIn, ReadLines, RefusedLine;
    var lines := Split(text, '\n');
    ReadsLast(json, lines);
    LastOnlyUnique(Kept(json, lines));
    at := LastLines(json, lines);
    forall k | 0 <= k < |lines| && ReadLine(json, lines[k]).Keep?
      ensures KeyIn(ReadLine(json, lines[k]).entry, LastOnly(Kept(json, lines)))
    {
      var l := ReadLine(json, lines[k]).entry;
      KeptKeys(json, lines, l);
      LastOnlyKeys(Kept(json, lines), l);
    }
    forall s
      ensures s in Refusals(json, lines, 1) <==> RefusedLine(json, lines, 1, s)
    {
      RefusalsMean(json, lines, 1, s);
    }
  }

  // ----- looking one up

  function FindLabel(labels: seq<Label>, kind: Kind, ref: string): (r: Option<Label>)
    ensures r.Some? ==> r.value in labels && r.value.kind == kind && r.value.ref == ref
  {
    if labels == [] then None
    else if labels[0].kind == kind && labels[0].ref == ref then Some(labels[0])
    else FindLabel(labels[1..], kind, ref)
  }

  lemma {:induction false} FindFirst(labels: seq<Label>, l: Label, i: nat)
    requires UniqueKeys(labels) && i < |labels| && SameKey(labels[i], l)
    ensures FindLabel(labels, l.kind, l.ref) == Some(labels[i])
    decreases |labels|
  {
    if i > 0 {
      assert !SameKey(labels[0], labels[i]);
      assert forall k :: 0 <= k < |labels| - 1 ==> labels[1..][k] == labels[k + 1];
      FindFirst(labels[1..], l, i - 1);
    }
  }

  lemma FindsLine(json: Json, text: string, kind: Kind, ref: string, k: nat)
    requires ImportLabels(json, text).Ok? && k < |Split(text, '\n')| && ReadLine(json, Split(text, '\n')[k]).Keep?
    requires var l := ReadLine(json, Split(text, '\n')[k]).entry;
             l.kind == kind && l.ref == ref && !ReplacedLater(json, Split(text, '\n'), k, l)
    ensures FindLabel(ImportLabels(json, text).value.labels, kind, ref) == Some(ReadLine(json, Split(text, '\n')[k]).entry)
  {
    hide Split, ReadLine, ReadLines, UniqueKeys, FindLabel;
    var lines, labels := Split(text, '\n'), ImportLabels(json, text).value.labels;
    var l := ReadLine(json, lines[k]).entry;
    var at := ImportMeans(json, text);
    assert KeyIn(l, labels);
    var i :| 0 <= i < |labels| && SameKey(l, labels[i]);
    assert LastLine(json, lines, at[i], labels[i]);
    assert at[i] == k;
    FindFirst(labels, l, i);
  }

  /** A valid line for a type and reference. */
  ghost predicate LineFor(json: Json, line: string, kind: Kind, ref: string) {
    ReadLine(json, line).Keep? && ReadLine(json, line).entry.kind == kind && ReadLine(json, line).entry.ref == ref
  }

  /** The last valid line for a type and reference. */
  ghost predicate LastFor(json: Json, lines: seq<string>, k: nat, kind: Kind, ref: string) {
    k < |lines| && LineFor(json, lines[k], kind, ref) && forall m :: k < m < |lines| ==> !LineFor(json, lines[m], kind, ref)
  }

  /** After an import, looking up a reference gives the last valid line for it, and nothing exactly when there is none. */
  lemma FindsLastLine(json: Json, text: string, kind: Kind, ref: string)
    requires ImportLabels(json, text).Ok?
    ensures var (lines, found) := (Split(text, '\n'), FindLabel(ImportLabels(json, text).value.labels, kind, ref));
            && (found.None? <==> forall k :: 0 <= k < |lines| ==> !LineFor(json, lines[k], kind, ref))
            && (found.Some? ==> exists k: nat :: LastFor(json, lines, k, kind, ref) && ReadLine(json, lines[k]) == Keep(found.value))
  {
    hide Split, LineFor, FindLabel, ImportLabels, LastFor, ReadLine;
    var lines := Split(text, '\n');
    if FindLabel(ImportLabels(json, text).value.labels, kind, ref).Some? {
      var k := FoundLine(json, text, kind, ref);
      LastForMeans(json, lines, k, kind, ref);
    } else if exists k :: 0 <= k < |lines| && LineFor(json, lines[k], kind, ref) {
      var k :| 0 <= k < |lines| && LineFor(json, lines[k], kind, ref);
      var last := LastOf(json, lines, kind, ref, k);
      LastReplaced(json, lines, last, kind, ref);
      FindsLine(json, text, kind, ref, last);
    }
  }

  lemma LastForMeans(json: Json, lines: seq<string>, k: nat, kind: Kind, ref: string)
    requires LastFor(json, lines, k, kind, ref)
    ensures k < |lines| && LineFor(json, lines[k], kind, ref)
  {
    hide LineFor;
  }

  lemma FoundLine(json: Json, text: string, kind: Kind, ref: string) returns (k: nat)
    requires ImportLabels(json, text).Ok? && FindLabel(ImportLabels(json, text).value.labels, kind, ref).Some?
    ensures LastFor(json, Split(text, '\n'), k, kind, ref)
    ensures ReadLine(json, Split(text, '\n')[k]) == Keep(FindLabel(ImportLabels(json, text).value.labels, kind, ref).value)
  {
    hide Split, ReadLine, UniqueKeys, FindLabel, ImportLabels, LastFor, LastLine;
    var lines, labels := Split(text, '\n'), ImportLabels(json, text).value.labels;
    var found := FindLabel(labels, kind, ref).value;
    var at := ImportMeans(json, text);
    var i :| 0 <= i < |labels| && labels[i] == found;
    k := at[i];
    LastLineFor(json, lines, k, found);
  }

  lemma LastLineFor(json: Json, lines: seq<string>, k: nat, l: Label)
    requires LastLine(json, lines, k, l)
    ensures LastFor(json, lines, k, l.kind, l.ref) && ReadLine(json, lines[k]) == Keep(l)
  {
    hide ReadLine;
    forall m | k < m < |lines|
      ensures !LineFor(json, lines[m], l.kind, l.ref)
    {
      assert !(ReadLine(json, lines[m]).Keep? && SameKey(ReadLine(json, lines[m]).entry, l));
    }
  }

  lemma LastReplaced(json: Json, lines: seq<string>, k: nat, kind: Kind, ref: string)
    requires LastFor(json, lines, k, kind, ref)
    ensures k < |lines| && ReadLine(json, lines[k]).Keep?
    ensures var l := ReadLine(json, lines[k]).entry;
            l.kind == kind && l.ref == ref && !ReplacedLater(json, lines, k, l)
  {
    hide ReadLine;
    var l := ReadLine(json, lines[k]).entry;
    forall m | k < m < |lines|
      ensures !(ReadLine(json, lines[m]).Keep? && SameKey(ReadLine(json, lines[m]).entry, l))
    {
      assert !LineFor(json, lines[m], kind, ref);
    }
  }

  lemma {:induction false} LastOf(json: Json, lines: seq<string>, kind: Kind, ref: string, k: nat) returns (last: nat)
    requires k < |lines| && LineFor(json, lines[k], kind, ref)
    ensures LastFor(json, lines, last, kind, ref)
    decreases |lines| - k
  {
    hide LineFor;
    if m: nat :| k < m < |lines| && LineFor(json, lines[m], kind, ref) {
      last := LastOf(json, lines, kind, ref, m);
    } else {
      last := k;
    }
  }

  // ----- writing and reading back

  function Lines(json: Json, labels: seq<Label>): (r: seq<string>)
    ensures |r| == |labels| && forall i :: 0 <= i < |r| ==> r[i] == json.stringify(labels[i])
  {
    seq(|labels|, i requires 0 <= i < |labels| => json.stringify(labels[i]))
  }

  function ExportLabels(json: Json, labels: seq<Label>): string {
    if labels == [] then "" else Join(Lines(json, labels), '\n') + "\n"
  }

  /** What a label the importer would accept satisfies. */
  predicate LabelOk(json: Json, l: Label) {
    1 <= |l.ref| <= 200 && |l.text| <= 255 && !json.hasForgeable(l.text)
  }

  lemma WrittenReads(json: Json, l: Label)
    requires JsonLawful(json)
    ensures ReadLine(json, json.stringify(l)) == Keep(l) <==> LabelOk(json, l)
  {
    hide KindName, KindOf;
    KindNames(l.kind);
  }

  lemma KeptOk(json: Json, line: string)
    ensures ReadLine(json, line).Keep? ==> LabelOk(json, ReadLine(json, line).entry)
  {
    hide KindOf, Trim;
  }

  lemma {:induction false} SplitTrailing(parts: seq<string>, sep: char)
    requires parts != [] && forall i :: 0 <= i < |parts| ==> sep !in parts[i]
    ensures Split(Join(parts, sep) + [sep], sep) == parts + [""]
  {
    hide Split;
    SplitNothing("", sep);
    if |parts| == 1 {
      assert parts[0] + [sep] + "" == parts[0] + [sep];
      SplitPrefix(parts[0], "", sep);
      assert [parts[0]] + [""] == parts + [""];
    } else {
      SplitTrailing(parts[1..], sep);
      var tail := Join(parts[1..], sep);
      assert Join(parts, sep) + [sep] == parts[0] + [sep] + (tail + [sep]);
      SplitPrefix(parts[0], tail + [sep], sep);
      assert [parts[0]] + (parts[1..] + [""]) == parts + [""];
    }
  }

  lemma {:induction false} LinesKept(json: Json, labels: seq<Label>)
    requires JsonLawful(json) && forall i :: 0 <= i < |labels| ==> LabelOk(json, labels[i])
    ensures Kept(json, Lines(json, labels)) == labels && forall first: nat :: Refusals(json, Lines(json, labels), first) == []
  {
    hide ReadLine, JsonLawful, LabelOk;
    if labels != [] {
      WrittenReads(json, labels[0]);
      assert Lines(json, labels)[1..] == Lines(json, labels[1..]);
      LinesKept(json, labels[1..]);
      assert labels == [labels[0]] + labels[1..];
      assert Lines(json, labels) != [];
    }
  }

  lemma {:induction false} UniqueLast(labels: seq<Label>)
    requires UniqueKeys(labels)
    ensures LastOnly(labels) == labels
  {
    if labels != [] {
      assert UniqueKeys(labels[1..]) by {
        assert forall i :: 0 <= i < |labels| - 1 ==> labels[1..][i] == labels[i + 1];
      }
      UniqueLast(labels[1..]);
      assert !KeyIn(labels[0], labels[1..]) by {
        assert forall i :: 0 <= i < |labels| - 1 ==> labels[1..][i] == labels[i + 1];
      }
      assert labels == [labels[0]] + labels[1..];
    }
  }

  lemma ExportSplits(json: Json, labels: seq<Label>)
    requires JsonLawful(json)
    ensures Split(ExportLabels(json, labels), '\n') == Lines(json, labels) + [""]
  {
    hide Split, Join;
    if labels == [] {
      SplitNothing("", '\n');
    } else {
      SplitTrailing(Lines(json, labels), '\n');
    }
  }

  lemma BlankLast(json: Json, lines: seq<string>)
    ensures Kept(json, lines + [""]) == Kept(json, lines)
    ensures Refusals(json, lines + [""], 1) == Refusals(json, lines, 1)
  {
    KeptNext(json, lines, "");
    RefusalsNext(json, lines, "", 1);
    assert ReadLine(json, "").Blank?;
    hide Kept, Refusals;
    assert Kept(json, lines) + [] == Kept(json, lines);
    assert Refusals(json, lines, 1) + [] == Refusals(json, lines, 1);
  }

  lemma {:induction false} AllKeptOk(json: Json, lines: seq<string>)
    ensures forall i :: 0 <= i < |Kept(json, lines)| ==> LabelOk(json, Kept(json, lines)[i])
  {
    hide ReadLine, LabelOk;
    if lines != [] {
      KeptOk(json, lines[0]);
      AllKeptOk(json, lines[1..]);
    }
  }

  lemma {:induction false} LastOnlyOk(json: Json, labels: seq<Label>)
    requires forall i :: 0 <= i < |labels| ==> LabelOk(json, labels[i])
    ensures forall i :: 0 <= i < |LastOnly(labels)| ==> LabelOk(json, LastOnly(labels)[i])
  {
    hide LabelOk, KeyIn;
    if labels != [] {
      LastOnlyOk(json, labels[1..]);
    }
  }

  /**
   * Importing an export gives the same labels back, with nothing skipped, if
   * and only if each is one the importer accepts and no key is there twice;
   * for any list whose file is within the size limit.
   */
  lemma ExportRoundTrip(json: Json, labels: seq<Label>)
    requires JsonLawful(json) && |ExportLabels(json, labels)| <= 1_000_000
    ensures ImportLabels(json, ExportLabels(json, labels)) == Ok(ImportResult(labels, [])) <==>
            UniqueKeys(labels) && forall i :: 0 <= i < |labels| ==> LabelOk(json, labels[i])
  {
    hide Split, Join, ReadLine, ReadLines, Kept, Refusals, LastOnly, LabelOk, UniqueKeys, JsonLawful, ExportLabels;
    var lines := Lines(json, labels);
    ExportSplits(json, labels);
    ReadsLast(json, lines + [""]);
    BlankLast(json, lines);
    LastOnlyUnique(Kept(json, lines));
    AllKeptOk(json, lines);
    LastOnlyOk(json, Kept(json, lines));
    if UniqueKeys(labels) && forall i :: 0 <= i < |labels| ==> LabelOk(json, labels[i]) {
      LinesKept(json, labels);
      UniqueLast(labels);
    }
  }

  // ----- appending files

  lemma {:induction false} JoinAppend(a: seq<string>, b: seq<string>, sep: char)
    requires a != [] && b != []
    ensures Join(a + b, sep) == Join(a, sep) + [sep] + Join(b, sep)
  {
    assert (a + b)[1..] == a[1..] + b;
    if |a| > 1 {
      JoinAppend(a[1..], b, sep);
    }
  }

  /** Two exported files written one after the other are the export of both lists: the last line of the first is ended. */
  lemma ExportsAppend(json: Json, a: seq<Label>, b: seq<Label>)
    ensures ExportLabels(json, a) + ExportLabels(json, b) == ExportLabels(json, a + b)
  {
    hide Join, Lines;
    if a == [] {
      assert a + b == b;
    } else if b == [] {
      assert a + b == a;
    } else {
      var (x, y) := (Lines(json, a), Lines(json, b));
      JoinAppend(x, y, '\n');
      LinesAppend(json, a, b);
      LinesEnded(Join(x, '\n'), Join(y, '\n'));
    }
  }

  lemma LinesAppend(json: Json, a: seq<Label>, b: seq<Label>)
    ensures Lines(json, a + b) == Lines(json, a) + Lines(json, b)
  {
  }

  lemma LinesEnded(x: string, y: string)
    ensures (x + "\n") + (y + "\n") == x + "\n" + y + "\n"
  {
  }
}
