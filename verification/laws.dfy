/**
 * What the libraries are assumed to do, Keys.Lawful, OwnedAddresses.WalletLawful
 * and Labels.JsonLawful, can all be met: no theorem about a lawful library is
 * about nothing.
 */
module Laws {
  import opened Text
  import opened Path
  import opened Keys
  import opened Canonical
  import opened Derive
  import Quorums
  import OwnedAddresses
  import Labels

  // ----- a lossless writing of bytes in letters

  function Letter(half: nat): (c: char)
    requires half < 16
    ensures IsLetter(c) && c as int - 'a' as int == half
  {
    ('a' as int + half) as char
  }

  /** Two letters a byte, from a to p. */
  function Letters(bytes: seq<byte>): string {
    if bytes == [] then "" else [Letter(bytes[0] / 16), Letter(bytes[0] % 16)] + Letters(bytes[1..])
  }

  predicate IsLetter(c: char) {
    'a' <= c <= 'p'
  }

  function Unletters(s: string): Option<seq<byte>> {
    if s == "" then Some([])
    else if |s| < 2 || !IsLetter(s[0]) || !IsLetter(s[1]) then None
    else match Unletters(s[2..])
         case None => None
         case Some(rest) => Some([Pair(s[0], s[1])] + rest)
  }

  /** The byte two letters stand for. */
  function Pair(c: char, d: char): byte
    requires IsLetter(c) && IsLetter(d)
  {
    (c as int - 'a' as int) * 16 + (d as int - 'a' as int)
  }

  lemma PairOf(b: byte)
    ensures Pair(Letter(b / 16), Letter(b % 16)) == b
  {
  }

  lemma LettersNext(bytes: seq<byte>)
    requires bytes != []
    ensures Letters(bytes) == [Letter(bytes[0] / 16), Letter(bytes[0] % 16)] + Letters(bytes[1..])
  {
    hide Letter;
  }

  lemma UnlettersNext(c: char, d: char, tail: string)
    requires IsLetter(c) && IsLetter(d) && Unletters(tail).Some?
    ensures Unletters([c, d] + tail) == Some([Pair(c, d)] + Unletters(tail).value)
  {
    hide IsLetter, Pair;
    var s := [c, d] + tail;
    assert s[0] == c && s[1] == d && s[2..] == tail;
  }

  lemma NoLetters()
    ensures Unletters(Letters([])) == Some([])
  {
  }

  lemma {:induction false} LettersRead(bytes: seq<byte>)
    ensures Unletters(Letters(bytes)) == Some(bytes)
  {
    hide *;
    if bytes == [] {
      NoLetters();
    } else {
      var first, rest := bytes[0], bytes[1..];
      LettersRead(rest);
      LettersNext(bytes);
      UnlettersNext(Letter(first / 16), Letter(first % 16), Letters(rest));
      PairOf(first);
      assert [first] + rest == bytes;
    }
  }

  lemma {:induction false} AllLetters(bytes: seq<byte>)
    ensures forall i :: 0 <= i < |Letters(bytes)| ==> IsLetter(Letters(bytes)[i])
  {
    hide Letter, IsLetter;
    if bytes != [] {
      var s, tail := Letters(bytes), Letters(bytes[1..]);
      AllLetters(bytes[1..]);
      assert forall i :: 2 <= i < |s| ==> s[i] == tail[i - 2];
    }
  }

  lemma {:induction false} UnlettersWrite(s: string)
    requires Unletters(s).Some?
    ensures Letters(Unletters(s).value) == s
  {
    hide Letter, Pair, IsLetter, Letters;
    if s == "" {
      NoLetters();
      NothingWritten();
    } else {
      var tail := s[2..];
      UnlettersWrite(tail);
      var bytes, rest := Unletters(s).value, Unletters(tail).value;
      assert bytes[0] == Pair(s[0], s[1]) && bytes[1..] == rest;
      LettersNext(bytes);
      PairLetters(s[0], s[1]);
      assert s == [s[0], s[1]] + tail;
    }
  }

  lemma NothingWritten()
    ensures Letters([]) == ""
  {
  }

  lemma PairLetters(c: char, d: char)
    requires IsLetter(c) && IsLetter(d)
    ensures Letter(Pair(c, d) / 16) == c && Letter(Pair(c, d) % 16) == d
  {
  }

  /** Keys take a prefix no other writing starts with. */
  predicate IsKey(bytes: seq<byte>) {
    |bytes| == 82 && StandardVersion(Version(bytes)).Some?
  }

  function Write(bytes: seq<byte>): string {
    (if IsKey(bytes) then "xpub" else "") + Letters(bytes)
  }

  function Read(s: string): Option<seq<byte>> {
    var key := |s| >= 4 && s[..4] == "xpub";
    match Unletters(if key then s[4..] else s)
    case None => None
    case Some(bytes) => if IsKey(bytes) == key then Some(bytes) else None
  }

  lemma WriteReads(bytes: seq<byte>)
    ensures Read(Write(bytes)) == Some(bytes)
    ensures IsKey(bytes) ==> |Write(bytes)| >= 4 && Write(bytes)[..4] == "xpub"
  {
    hide IsKey, Letters, Unletters;
    LettersRead(bytes);
    AllLetters(bytes);
    if IsKey(bytes) {
      assert Write(bytes)[..4] == "xpub" && Write(bytes)[4..] == Letters(bytes);
    } else {
      assert Write(bytes) == Letters(bytes);
      if |Letters(bytes)| >= 4 {
        assert IsLetter(Letters(bytes)[0]) && Letters(bytes)[..4][0] == Letters(bytes)[0];
      }
    }
  }

  lemma ReadWrites(s: string)
    requires Read(s).Some?
    ensures Write(Read(s).value) == s && AllAlphanumeric(s)
  {
    hide IsKey, Letters, Unletters;
    var bytes := Read(s).value;
    LettersRead(bytes);
    AllLetters(bytes);
    if IsKey(bytes) {
      UnlettersWrite(s[4..]);
      assert s == s[..4] + s[4..];
    } else {
      UnlettersWrite(s);
      assert Write(bytes) == s;
    }
  }

  /** A public key's payload: depth, parent, index and chain code all zero, and a compressed point. */
  function Public(): (payload: seq<byte>)
    ensures |payload| == 74 && payload[41] == 2
  {
    seq(41, _ => 0) + [2] + seq(32, _ => 0)
  }

  function Toy(): Library {
    Library(Read, Write, b => [0, 0, 0, 0], b => true, a => false)
  }

  function ToyDevice(): OwnedAddresses.Device {
    OwnedAddresses.Device([], (node, i) => Some(node), node => Public(), (t, key) => "a", XPUB, 0, 0)
  }

  lemma ToyLawful()
    ensures Lawful(Toy())
  {
    var lib := Toy();
    forall b: seq<byte>
      ensures lib.decode58(lib.encode58(b)) == Some(b)
      ensures IsKey(b) ==> |lib.encode58(b)| >= 4 && IsExtendedPrefix(lib.encode58(b)[..4])
    {
      WriteReads(b);
    }
    forall s | lib.decode58(s).Some?
      ensures lib.encode58(lib.decode58(s).value) == s && AllAlphanumeric(s)
    {
      ReadWrites(s);
    }
  }

  lemma {:induction false} ToyDescends(steps: seq<nat>)
    ensures OwnedAddresses.DescendPrivate(ToyDevice(), [], steps) == Some([])
    decreases |steps|
  {
    if steps != [] {
      ToyDescends(steps[1..]);
    }
  }

  lemma ToyKeyAccepted()
    ensures var body := VersionBytes(XPUB) + Public();
            AssertExtendedKey(Toy(), Toy().encode58(body + Toy().check4(body))).Ok?
  {
    hide Read, Write, Version, VersionBytes, StandardVersion, Public;
    var body := VersionBytes(XPUB) + Public();
    var raw := body + [0, 0, 0, 0];
    WriteReads(raw);
    FourBytes(XPUB);
    VersionOfBytes(XPUB, raw[4..]);
    assert raw == VersionBytes(XPUB) + raw[4..];
    StandardAlready();
    assert raw[..78] == body && raw[78..] == [0, 0, 0, 0] && raw[45] == Public()[41];
  }

  lemma StandardAlready()
    ensures StandardVersion(XPUB) == Some(XPUB)
  {
  }

  /**
   * A key library and a wallet that meet every law: the library takes every
   * payload of a compressed key, this device's own account key among them, and
   * the device derives every child.
   */
  lemma WalletLawsMeet(encoder: Quorums.Encoder) returns (w: OwnedAddresses.Wallet)
    ensures Lawful(w.lib) && OwnedAddresses.WalletLawful(w)
    ensures (forall payload :: w.lib.validPayload(payload)) && forall node, i: nat :: w.device.child(node, i).Some?
    ensures OwnedAddresses.OwnXpub(w).Some? && AssertExtendedKey(w.lib, OwnedAddresses.OwnXpub(w).value).Ok?
  {
    hide Public, Toy;
    var curve := Curve((payload, i) => if i < HARDENED_OFFSET then Some(payload) else None, payload => payload);
    w := OwnedAddresses.Wallet(Toy(), curve, encoder, ToyDevice());
    ToyLawful();
    ToyDescends(OwnedAddresses.MultisigSteps(w));
    ToyKeyAccepted();
    ToyAccepts();
    assert OwnedAddresses.OwnXpub(w) == Some(w.lib.encode58((VersionBytes(XPUB) + Public()) + w.lib.check4(VersionBytes(XPUB) + Public())));
  }

  lemma ToyAccepts()
    ensures forall payload :: Toy().validPayload(payload)
  {
  }

  // ----- records on one line

  function EscapeChar(c: char): (r: string)
    ensures r != "" && r[0] != ','
  {
    if c == '\\' then "\\\\" else if c == '\n' then "\\n" else if c == ',' then "\\c" else [c]
  }

  /** Text with no line end, closed by a comma it does not hold. */
  function Escape(s: string): string {
    if s == "" then "," else EscapeChar(s[0]) + Escape(s[1..])
  }

  lemma CharDecides(c: char, d: char, x: string, y: string)
    requires EscapeChar(c) + x == EscapeChar(d) + y
    ensures c == d && x == y
  {
    var s, m, n := EscapeChar(c) + x, |EscapeChar(c)|, |EscapeChar(d)|;
    assert s[0] == EscapeChar(c)[0] == EscapeChar(d)[0];
    if m == 2 {
      assert s[1] == EscapeChar(c)[1] == EscapeChar(d)[1];
    }
    assert x == s[m..] && y == s[n..];
  }

  lemma {:induction false} EscapeDecides(a: string, b: string, x: string, y: string)
    requires Escape(a) + x == Escape(b) + y
    ensures a == b && x == y
    decreases |a|
  {
    hide EscapeChar;
    var s := Escape(a) + x;
    if a == "" || b == "" {
      assert s[0] == Escape(a)[0] == Escape(b)[0];
      assert x == s[1..] && y == s[1..];
    } else {
      assert s == EscapeChar(a[0]) + (Escape(a[1..]) + x);
      assert s == EscapeChar(b[0]) + (Escape(b[1..]) + y);
      CharDecides(a[0], b[0], Escape(a[1..]) + x, Escape(b[1..]) + y);
      EscapeDecides(a[1..], b[1..], x, y);
      assert a == [a[0]] + a[1..] && b == [b[0]] + b[1..];
    }
  }

  lemma {:induction false} EscapeOneLine(s: string)
    ensures '\n' !in Escape(s) && Escape(s) != ""
  {
    if s != "" {
      EscapeOneLine(s[1..]);
    }
  }

  function FlagText(flag: Option<bool>): string {
    if flag.None? then "0" else if flag.value then "1" else "2"
  }

  function EndText(l: Labels.Label): string {
    Escape(l.text) + (FlagText(l.spendable) + "}")
  }

  function RefText(l: Labels.Label): string {
    Escape(l.ref) + EndText(l)
  }

  function Line(l: Labels.Label): string {
    "{" + (Escape(Labels.KindName(l.kind)) + RefText(l))
  }

  lemma LineDecides(a: Labels.Label, b: Labels.Label)
    requires Line(a) == Line(b)
    ensures a == b
  {
    hide Escape, RefText, EndText, Labels.KindName;
    assert Line(a)[1..] == Escape(Labels.KindName(a.kind)) + RefText(a);
    assert Line(b)[1..] == Escape(Labels.KindName(b.kind)) + RefText(b);
    EscapeDecides(Labels.KindName(a.kind), Labels.KindName(b.kind), RefText(a), RefText(b));
    NameDecides(a.kind, b.kind);
    RefDecides(a, b);
  }

  lemma NameDecides(a: Labels.Kind, b: Labels.Kind)
    requires Labels.KindName(a) == Labels.KindName(b)
    ensures a == b
  {
    assert Labels.KindOf(Labels.KindName(a)) == Some(a) && Labels.KindOf(Labels.KindName(b)) == Some(b);
  }

  lemma RefDecides(a: Labels.Label, b: Labels.Label)
    requires RefText(a) == RefText(b)
    ensures a.ref == b.ref && a.text == b.text && a.spendable == b.spendable
  {
    hide Escape;
    EscapeDecides(a.ref, b.ref, EndText(a), EndText(b));
    EscapeDecides(a.text, b.text, FlagText(a.spendable) + "}", FlagText(b.spendable) + "}");
    assert (FlagText(a.spendable) + "}")[0] == (FlagText(b.spendable) + "}")[0];
  }

  ghost function Parse(line: string): Labels.Parsed {
    if exists l :: Line(l) == line then
      var l :| Line(l) == line;
      Labels.Record(Labels.Field.Text(Labels.KindName(l.kind)), Labels.Field.Text(l.ref), Labels.Field.Text(l.text), Labels.SpendableField(l.spendable))
    else
      Labels.NotJson
  }

  lemma LineLawful(l: Labels.Label)
    ensures Line(l) != "" && Trimmed(Line(l)) && '\n' !in Line(l)
  {
    hide Escape;
    EscapeOneLine(Labels.KindName(l.kind));
    EscapeOneLine(l.ref);
    EscapeOneLine(l.text);
    assert Line(l)[0] == '{' && Line(l)[|Line(l)| - 1] == '}';
  }

  /** A writer of records that meets the law of JSON. */
  lemma JsonLawMeets(forgeable: string -> bool) returns (json: Labels.Json)
    ensures Labels.JsonLawful(json) && json.hasForgeable == forgeable
  {
    json := Labels.Json(s => Parse(s), l => Line(l), forgeable);
    forall l: Labels.Label
      ensures json.parse(json.stringify(l)) ==
              Labels.Record(Labels.Field.Text(Labels.KindName(l.kind)), Labels.Field.Text(l.ref), Labels.Field.Text(l.text), Labels.SpendableField(l.spendable))
      ensures json.stringify(l) != "" && Trimmed(json.stringify(l)) && '\n' !in json.stringify(l)
    {
      LineLawful(l);
      assert Line(l) == Line(l);
      var m :| Line(m) == Line(l) && Parse(Line(l)) ==
        Labels.Record(Labels.Field.Text(Labels.KindName(m.kind)), Labels.Field.Text(m.ref), Labels.Field.Text(m.text), Labels.SpendableField(m.spendable));
      LineDecides(l, m);
    }
  }
}
