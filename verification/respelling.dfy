/**
 * One quorum member written in two ways: packages/core/src/descriptor/assemble.ts,
 * lines 209 to 246, read with packages/core/src/descriptor/parse.ts, lines 1059 to 1100.
 */
module Respelling {
  import opened Text
  import opened Checksum
  import opened Keys
  import opened Spelling
  import opened Canonical
  import opened Suffix
  import opened Arguments
  import opened Descriptors
  import opened Quorums
  import opened Assemble

  // ----- the spelling of one member

  /** A key expression cut at its origin, its key and its derivation suffix. */
  datatype Spelled = Spelled(origin: string, key: string, suffix: string) {
    function Text(): string {
      origin + (key + suffix)
    }
  }

  /** Two origins, or none, with the same fingerprint in any case and the same steps under either marker. */
  ghost predicate SameOrigin(x: string, y: string) {
    (x == "" && y == "") ||
    (Bracketed(x) && Bracketed(y) && SameBracket(x[1..|x| - 1], y[1..|y| - 1]))
  }

  predicate Bracketed(x: string) {
    |x| >= 2 && x[0] == '[' && x[|x| - 1] == ']' && ']' !in x[1..|x| - 1]
  }

  /** One key under two prefixes of one network. */
  ghost predicate SameMaterial(lib: Library, x: string, y: string) {
    && AssertExtendedKey(lib, x).Ok? && AssertExtendedKey(lib, y).Ok?
    && lib.decode58(x).Some? && |lib.decode58(x).value| == 82 && lib.decode58(y).Some? && |lib.decode58(y).value| == 82
    && LooksExtended(x) && LooksExtended(y)
    && Payload(lib, x) == Payload(lib, y)
    && StandardVersion(Version(lib.decode58(x).value)) == StandardVersion(Version(lib.decode58(y).value))
  }

  predicate SuffixPlaced(suffix: string) {
    suffix != "" ==> suffix[0] == '/' && !IsSpace(suffix[|suffix| - 1])
  }

  /** The same key expression but for h or ', fingerprint case and SLIP-132 prefix. */
  ghost predicate Respelled(lib: Library, a: Spelled, b: Spelled) {
    a == b ||
    (SameOrigin(a.origin, b.origin) && SameMaterial(lib, a.key, b.key) && SameTicks(a.suffix, b.suffix) && SuffixPlaced(a.suffix))
  }

  /** Two suffixes agree on every hardened marker that white space follows. */
  ghost predicate MarkersAgree(a: string, b: string) {
    |a| == |b| && forall i :: 0 <= i < |a| - 1 && IsSpace(a[i + 1]) ==> a[i] == b[i]
  }

  /** A valid key is its version, its payload and its checksum, so its standard form is fixed by the first two. */
  lemma StandardForm(lib: Library, x: string)
    requires Lawful(lib) && AssertExtendedKey(lib, x).Ok? && lib.decode58(x).Some? && |lib.decode58(x).value| == 82
    ensures StandardVersion(Version(lib.decode58(x).value)).Some?
    ensures var body := VersionBytes(StandardVersion(Version(lib.decode58(x).value)).value) + Payload(lib, x);
            StandardPrefix(lib, x) == lib.encode58(body + lib.check4(body))
  {
    hide StandardVersion, VersionBytes, Version, IsExtendedPrefix;
    var raw := lib.decode58(x).value;
    var standard := StandardVersion(Version(raw)).value;
    if standard == Version(raw) {
      VersionWhole(raw);
      var body := VersionBytes(standard) + raw[4..78];
      assert raw[..78] == body;
      assert raw == raw[..78] + raw[78..];
      assert lib.encode58(raw) == x;
    }
  }

  lemma VersionWhole(raw: seq<byte>)
    requires |raw| == 82
    ensures VersionBytes(Version(raw)) == raw[..4]
  {
    var a, b, c, d := raw[0] as int, raw[1] as int, raw[2] as int, raw[3] as int;
    FourDigits(a, b, c, d);
  }

  lemma SameStandard(lib: Library, x: string, y: string)
    requires Lawful(lib) && SameMaterial(lib, x, y)
    ensures StandardPrefix(lib, x) == StandardPrefix(lib, y)
  {
    hide StandardVersion, VersionBytes, Version, AssertExtendedKey, StandardPrefix, Payload;
    StandardForm(lib, x);
    StandardForm(lib, y);
  }

  // ----- what a spelled member is read as

  /** What parseOrigin makes of a member's origin. */
  function OriginOf(origin: string): Result<Option<KeyOrigin>, Refusal>
    requires origin == "" || Bracketed(origin)
  {
    if origin == "" then Ok(None)
    else
      var bracket :- ParseBracket(origin[1..|origin| - 1]);
      Ok(Some(bracket))
  }

  lemma OriginParsed(origin: string, rest: string)
    requires origin == "" || Bracketed(origin)
    requires !StartsWith(rest, "[")
    ensures ParseOrigin(origin + rest) ==
            if OriginOf(origin).Ok? then Ok((OriginOf(origin).value, rest)) else Err(OriginOf(origin).error)
    ensures AfterOrigin(origin + rest) == rest
  {
    hide ParseBracket, IndexOf, Drop;
    if origin == "" {
      assert origin + rest == rest;
    } else {
      hide StartsWith;
      var inner := origin[1..|origin| - 1];
      BracketWhole(origin, rest);
      CloseAt(inner, rest);
      DropLong("[" + inner + "]" + rest, |inner| + 2);
    }
  }

  lemma BracketWhole(origin: string, rest: string)
    requires Bracketed(origin)
    ensures origin + rest == "[" + origin[1..|origin| - 1] + "]" + rest
  {
    assert origin == "[" + origin[1..|origin| - 1] + "]";
  }

  lemma SameOriginRead(x: string, y: string)
    requires SameOrigin(x, y)
    ensures OriginOf(x) == OriginOf(y)
  {
    hide ParseBracket, SameBracket;
    if x != "" {
      TicksBracket(x[1..|x| - 1], y[1..|y| - 1]);
    }
  }

  ghost predicate WellCut(lib: Library, s: Spelled) {
    && (s.origin == "" || Bracketed(s.origin)) && SuffixPlaced(s.suffix)
    && AssertExtendedKey(lib, s.key).Ok? && LooksExtended(s.key)
  }

  lemma CutEnds(lib: Library, s: Spelled)
    requires Lawful(lib) && WellCut(lib, s)
    ensures AllAlphanumeric(s.key) && !StartsWith(s.key + s.suffix, "[")
    ensures s.Text() != "" && Trimmed(s.Text()) && s.key + s.suffix != ""
  {
    hide AssertExtendedKey, IsExtendedPrefix, IsSpace, Lawful, IsAlphanumeric;
    ExtendedDecodes(lib, s.key);
    PrefixNotSpace(s.key);
    var rest := s.key + s.suffix;
    assert rest[0] == s.key[0];
    AlphanumericNotSpace(s.key);
    assert rest[|rest| - 1] == if s.suffix == "" then s.key[|s.key| - 1] else s.suffix[|s.suffix| - 1];
    assert !IsSpace(rest[|rest| - 1]);
    var text := s.origin + rest;
    assert text[|text| - 1] == rest[|rest| - 1];
    assert text[0] == if s.origin == "" then rest[0] else '[';
    assert !IsSpace('[') by {
      BracketNotSpace();
    }
  }

  lemma AlphanumericNotSpace(s: string)
    requires AllAlphanumeric(s) && s != ""
    ensures !IsSpace(s[|s| - 1])
  {
    assert IsAlphanumeric(s[|s| - 1]);
  }

  /** A member in parts parses by its parts. */
  lemma SpelledReads(lib: Library, s: Spelled)
    requires Lawful(lib) && WellCut(lib, s)
    ensures var read := ParseKeyExpression(lib, s.Text());
            var (o, d) := (OriginOf(s.origin), ParseDerivation(s.suffix));
            && (read.Ok? <==> o.Ok? && d.Ok?)
            && (read.Ok? ==> read.value == ExtendedKey(o.value, s.key, d.value.path, d.value.ranged, d.value.multipath))
    ensures AfterOrigin(s.Text()) == s.key + s.suffix
  {
    hide *;
    CutParts(lib, s);
    CutEnds(lib, s);
    OriginParsed(s.origin, s.key + s.suffix);
    TextIs(s);
    if OriginOf(s.origin).Ok? {
      ExtendedVerdict(lib, OriginOf(s.origin).value, s.key, s.suffix);
    }
    OriginThenKey(lib, s.Text());
  }

  lemma TextIs(s: Spelled)
    ensures s.Text() == s.origin + (s.key + s.suffix)
  {
  }

  lemma CutParts(lib: Library, s: Spelled)
    requires WellCut(lib, s)
    ensures (s.origin == "" || Bracketed(s.origin)) && AssertExtendedKey(lib, s.key).Ok? && LooksExtended(s.key)
    ensures s.suffix == "" || s.suffix[0] == '/'
  {
  }

  lemma OriginThenKey(lib: Library, trimmed: string)
    requires Trimmed(trimmed) && trimmed != ""
    ensures var o := ParseOrigin(trimmed);
            && (o.Err? ==> ParseKeyExpression(lib, trimmed) == Err(o.error))
            && (o.Ok? && o.value.1 != "" ==> ParseKeyExpression(lib, trimmed) == ParseKey(lib, o.value.0, o.value.1))
  {
    hide ParseOrigin, ParseKey;
  }

  /** What is written for a member in parts. */
  lemma SpelledWrites(lib: Library, s: Spelled)
    requires Lawful(lib) && WellCut(lib, s) && ParseKeyExpression(lib, s.Text()).Ok?
    requires lib.decode58(s.key).Some? && |lib.decode58(s.key).value| == 82
    ensures OriginOf(s.origin).Ok?
    ensures CanonicalKeyExpression(lib, s.Text()) ==
            Ok(OriginText(OriginOf(s.origin).value) + (StandardPrefix(lib, s.key) + RewriteMarkers(s.suffix)))
  {
    hide *;
    SpelledReads(lib, s);
    CutEnds(lib, s);
    RewrittenReads(lib, s.Text());
    ExtendedRewrites(lib, s.Text());
    DropKey(s.key, s.suffix);
  }

  lemma DropKey(key: string, suffix: string)
    ensures Drop(key + suffix, |key|) == suffix
  {
  }

  // ----- two spellings of one member

  lemma RespelledCut(lib: Library, a: Spelled, b: Spelled)
    requires Respelled(lib, a, b) && a != b
    ensures WellCut(lib, a) && WellCut(lib, b) && SameOrigin(a.origin, b.origin) && SameMaterial(lib, a.key, b.key)
    ensures SameTicks(a.suffix, b.suffix)
  {
    hide AssertExtendedKey, IsExtendedPrefix, SameBracket, StandardVersion, Version, Payload, Bracketed;
    if a.suffix != "" {
      assert SameTick(a.suffix[0], b.suffix[0]);
      assert SameTick(a.suffix[|a.suffix| - 1], b.suffix[|a.suffix| - 1]);
    }
  }

  lemma RespelledReads(lib: Library, a: Spelled, b: Spelled)
    requires Lawful(lib) && Respelled(lib, a, b)
    ensures var (x, y) := (ParseKeyExpression(lib, a.Text()), ParseKeyExpression(lib, b.Text()));
            && x.Ok? == y.Ok?
            && (x.Ok? && a != b ==>
                  x.value.ExtendedKey? && x.value.xpub == a.key && y.value == x.value.(xpub := b.key))
  {
    hide *;
    if a != b {
      RespelledCut(lib, a, b);
      SpelledReads(lib, a);
      SpelledReads(lib, b);
      SameOriginRead(a.origin, b.origin);
      TicksDerivation(a.suffix, b.suffix);
    }
  }

  lemma SamePayloads(lib: Library, x: string, y: string)
    requires SameMaterial(lib, x, y)
    ensures KeyPayload(lib, x) == KeyPayload(lib, y)
    ensures lib.decode58(x).Some? && |lib.decode58(x).value| == 82 && lib.decode58(y).Some? && |lib.decode58(y).value| == 82
  {
    hide AssertExtendedKey, StandardVersion, LooksExtended, HexText;
  }

  lemma RespelledMember(lib: Library, a: Spelled, b: Spelled)
    requires Lawful(lib) && Respelled(lib, a, b)
    ensures var (x, y) := (ReadMember(lib, a.Text()), ReadMember(lib, b.Text()));
            && x.Ok? == y.Ok?
            && (x.Ok? ==> MemberPayload(lib, x.value) == MemberPayload(lib, y.value) && SuffixShape(x.value) == SuffixShape(y.value))
  {
    hide ParseKeyExpression, Trim, Respelled, WellCut, SameOrigin, SameMaterial, SameTicks, KeyPayload, Lawful, Join;
    if a != b {
      RespelledCut(lib, a, b);
      CutEnds(lib, a);
      CutEnds(lib, b);
      RespelledReads(lib, a, b);
      SamePayloads(lib, a.key, b.key);
    }
  }

  /** Two spellings of one member sort alike, and are written alike exactly when they agree on the markers before white space. */
  lemma RespelledWrites(lib: Library, a: Spelled, b: Spelled)
    requires Lawful(lib) && Respelled(lib, a, b) && ReadMember(lib, a.Text()).Ok?
    ensures ReadMember(lib, b.Text()).Ok? && WriteMember(lib, a.Text()).Ok? && WriteMember(lib, b.Text()).Ok?
    ensures WriteMember(lib, a.Text()).value.order == WriteMember(lib, b.Text()).value.order
    ensures WriteMember(lib, a.Text()) == WriteMember(lib, b.Text()) <==> MarkersAgree(a.suffix, b.suffix)
    ensures Permitted(WriteMember(lib, a.Text()).value.text) <==> Permitted(WriteMember(lib, b.Text()).value.text)
  {
    hide *;
    RespelledMember(lib, a, b);
    MemberWritten(lib, a.Text());
    MemberWritten(lib, b.Text());
    if a == b {
      SameMarkers(a.suffix);
    } else {
      RespelledCut(lib, a, b);
      WrittenOrders(lib, a, b);
      WrittenTexts(lib, a, b);
      EntryEqual(WriteMember(lib, a.Text()).value, WriteMember(lib, b.Text()).value);
    }
  }

  lemma EntryEqual(x: Entry, y: Entry)
    ensures x == y <==> x.order == y.order && x.text == y.text
  {
  }

  lemma SameMarkers(s: string)
    ensures MarkersAgree(s, s)
  {
  }

  lemma WrittenOrders(lib: Library, a: Spelled, b: Spelled)
    requires Lawful(lib) && Respelled(lib, a, b) && a != b && ReadMember(lib, a.Text()).Ok? && ReadMember(lib, b.Text()).Ok?
    requires WellCut(lib, a) && WellCut(lib, b) && SameMaterial(lib, a.key, b.key)
    requires WriteMember(lib, a.Text()).Ok? && ReadsBack(lib, WriteMember(lib, a.Text()).value, Member(lib, a.Text()))
    requires WriteMember(lib, b.Text()).Ok? && ReadsBack(lib, WriteMember(lib, b.Text()).value, Member(lib, b.Text()))
    ensures WriteMember(lib, a.Text()).value.order == WriteMember(lib, b.Text()).value.order
  {
    hide ParseKeyExpression, Trim, Respelled, WellCut, SameMaterial, StandardPrefix, Lawful, Whole, AssertExtendedKey, WriteMember;
    CutEnds(lib, a);
    CutEnds(lib, b);
    RespelledReads(lib, a, b);
    SameStandard(lib, a.key, b.key);
  }

  /** What the two spellings are written as: one origin, one standard key, and each suffix with its markers rewritten. */
  lemma WrittenForms(lib: Library, a: Spelled, b: Spelled)
    requires Lawful(lib) && ReadMember(lib, a.Text()).Ok? && ReadMember(lib, b.Text()).Ok?
    requires WellCut(lib, a) && WellCut(lib, b) && SameMaterial(lib, a.key, b.key) && SameOrigin(a.origin, b.origin)
    requires WriteMember(lib, a.Text()).Ok? && WriteMember(lib, b.Text()).Ok?
    ensures OriginOf(a.origin).Ok? && ParseDerivation(a.suffix).Ok? && AssertExtendedKey(lib, a.key).Ok? && lib.decode58(a.key).Some?
    ensures |lib.decode58(a.key).value| == 82
    ensures var (o, k) := (OriginText(OriginOf(a.origin).value), StandardPrefix(lib, a.key));
            && WriteMember(lib, a.Text()).value.text == o + (k + RewriteMarkers(a.suffix))
            && WriteMember(lib, b.Text()).value.text == o + (k + RewriteMarkers(b.suffix))
  {
    hide *;
    CutEnds(lib, a);
    CutEnds(lib, b);
    TrimmedSame(a.Text());
    TrimmedSame(b.Text());
    SamePayloads(lib, a.key, b.key);
    MemberParses(lib, a.Text());
    MemberParses(lib, b.Text());
    SpelledWrites(lib, a);
    SpelledWrites(lib, b);
    SameOriginRead(a.origin, b.origin);
    SameStandard(lib, a.key, b.key);
    WrittenText(lib, a.Text());
    WrittenText(lib, b.Text());
    SpelledReads(lib, a);
    CutParts(lib, a);
  }

  lemma WrittenTexts(lib: Library, a: Spelled, b: Spelled)
    requires Lawful(lib) && Respelled(lib, a, b) && a != b && ReadMember(lib, a.Text()).Ok? && ReadMember(lib, b.Text()).Ok?
    requires WellCut(lib, a) && WellCut(lib, b) && SameMaterial(lib, a.key, b.key) && SameOrigin(a.origin, b.origin)
    requires SameTicks(a.suffix, b.suffix) && WriteMember(lib, a.Text()).Ok? && WriteMember(lib, b.Text()).Ok?
    ensures WriteMember(lib, a.Text()).value.text == WriteMember(lib, b.Text()).value.text <==> MarkersAgree(a.suffix, b.suffix)
    ensures Permitted(WriteMember(lib, a.Text()).value.text) <==> Permitted(WriteMember(lib, b.Text()).value.text)
  {
    hide *;
    WrittenForms(lib, a, b);
    CutParts(lib, a);
    RewrittenAlike(a.suffix, b.suffix);
    MarkersMean(a.suffix, b.suffix);
    var o, k := OriginText(OriginOf(a.origin).value), StandardPrefix(lib, a.key);
    var x, y := RewriteMarkers(a.suffix), RewriteMarkers(b.suffix);
    SamePrefix(o, k, x, y);
    RewrittenPermitted(a.suffix, b.suffix);
    PermittedConcat(o, k + x);
    PermittedConcat(k, x);
    PermittedConcat(o, k + y);
    PermittedConcat(k, y);
  }

  lemma {:induction false} TicksPermitted(a: string, b: string)
    requires SameTicks(a, b)
    ensures Permitted(a) <==> Permitted(b)
    decreases |a|
  {
    hide Position;
    if a != "" {
      TicksSlice(a, b, 1, |a|);
      TicksPermitted(a[1..], b[1..]);
      CharPermitted('h');
      CharPermitted('\'');
      assert SameTick(a[0], b[0]);
    }
  }

  lemma RewrittenPermitted(a: string, b: string)
    requires SameTicks(a, b)
    ensures Permitted(RewriteMarkers(a)) <==> Permitted(RewriteMarkers(b))
  {
    hide Permitted, SameTicks, RewriteMarkers;
    RewriteTicks(a);
    RewriteTicks(b);
    TicksPermitted(a, b);
    TicksPermitted(a, RewriteMarkers(a));
    TicksPermitted(b, RewriteMarkers(b));
  }

  lemma TrimmedSame(s: string)
    requires Trimmed(s)
    ensures Trim(s) == s
  {
  }

  lemma MemberParses(lib: Library, raw: string)
    requires ReadMember(lib, raw).Ok?
    ensures ParseKeyExpression(lib, Trim(raw)).Ok?
  {
  }

  lemma WrittenText(lib: Library, raw: string)
    requires WriteMember(lib, raw).Ok?
    ensures CanonicalKeyExpression(lib, Trim(raw)) == Ok(WriteMember(lib, raw).value.text)
  {
    hide CanonicalKeyExpression, ParseKeyExpression;
  }

  lemma MarkersMean(a: string, b: string)
    requires SameTicks(a, b)
    ensures MarkersAgree(a, b) <==> forall i :: 0 <= i < |a| - 1 && IsSpace(a[i + 1]) ==> a[i] == b[i]
  {
  }

  lemma SamePrefix(o: string, k: string, x: string, y: string)
    ensures o + (k + x) == o + (k + y) <==> x == y
  {
    assert (o + (k + x))[|o| + |k|..] == x;
    assert (o + (k + y))[|o| + |k|..] == y;
  }
}
