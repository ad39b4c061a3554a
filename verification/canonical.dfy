/** Canonical key text: packages/core/src/descriptor/parse.ts, lines 992 to 1100. */
module Canonical {
  import opened Text
  import opened Path
  import opened Keys
  import opened Spelling

  datatype CanonicalRefusal = Refused(why: Refusal) | MeaningChanged

  // ----- the standard prefix

  function VersionBytes(version: nat): seq<byte> {
    [version / 0x100_0000 % 0x100, version / 0x1_0000 % 0x100, version / 0x100 % 0x100, version % 0x100]
  }

  /** The same key text with the version bytes of xpub, or of tpub on a test network. */
  function StandardPrefix(lib: Library, extended: string): string
    requires lib.decode58(extended).Some? && |lib.decode58(extended).value| == 82
  {
    var raw := lib.decode58(extended).value;
    var standard := StandardVersion(Version(raw));
    if standard.None? || standard.value == Version(raw) then extended
    else
      var body := VersionBytes(standard.value) + raw[4..78];
      lib.encode58(body + lib.check4(body))
  }

  /** The bytes under the version of a key that parses. */
  function Payload(lib: Library, extended: string): seq<byte>
    requires lib.decode58(extended).Some? && |lib.decode58(extended).value| == 82
  {
    lib.decode58(extended).value[4..78]
  }

  // ----- the rewriting

  /** String.prototype.slice from a start. */
  function Drop(s: string, n: nat): string {
    if n <= |s| then s[n..] else ""
  }

  function OriginText(origin: Option<KeyOrigin>): string {
    match origin
    case None => ""
    case Some(o) => "[" + BracketText(o) + "]"
  }

  /** The path of an origin is written without its leading m. */
  function BracketText(o: KeyOrigin): string {
    o.fingerprint + Drop(o.path, 1)
  }

  /** A character the pattern's lookahead lets follow a marker. */
  predicate EndsStep(c: char) {
    c == '/' || c == '>' || c == ';'
  }

  /** Replacing every (\d)h before the end, a slash, > or ; by an apostrophe. */
  function RewriteMarkers(suffix: string): (r: string)
    ensures |r| == |suffix|
    ensures forall i :: 0 <= i < |r| ==> r[i] == RewrittenAt(suffix, i)
  {
    seq(|suffix|, i requires 0 <= i < |suffix| => RewrittenAt(suffix, i))
  }

  function RewrittenAt(suffix: string, i: nat): char
    requires i < |suffix|
  {
    if suffix[i] == 'h' && i > 0 && IsDigit(suffix[i - 1]) && (i + 1 == |suffix| || EndsStep(suffix[i + 1]))
    then '\'' else suffix[i]
  }

  function AfterOrigin(trimmed: string): string {
    if StartsWith(trimmed, "[") then Drop(trimmed, IndexOf(trimmed, ']') + 1) else trimmed
  }

  /** The key the rewritten text must parse to: only the prefix may change. */
  function Standardised(lib: Library, key: KeyExpression): KeyExpression
    requires key.ExtendedKey? ==> lib.decode58(key.xpub).Some? && |lib.decode58(key.xpub).value| == 82
  {
    if key.ExtendedKey? then key.(xpub := StandardPrefix(lib, key.xpub)) else key
  }

  function MaterialText(key: KeyExpression): string {
    if key.ExtendedKey? then key.xpub else key.hex
  }

  /** The text canonicalKeyExpression writes, before it is checked. */
  function Rewritten(lib: Library, trimmed: string, key: KeyExpression): string
    requires key.ExtendedKey? ==> lib.decode58(key.xpub).Some? && |lib.decode58(key.xpub).value| == 82
  {
    var suffix := Drop(AfterOrigin(trimmed), |MaterialText(key)|);
    OriginText(key.origin) + MaterialText(Standardised(lib, key)) + RewriteMarkers(suffix)
  }

  function CanonicalKeyExpression(lib: Library, text: string): Result<string, CanonicalRefusal> {
    var trimmed := Trim(text);
    match ParseKeyExpression(lib, trimmed)
    case Err(why) => Err(Refused(why))
    case Ok(key) =>
      ParsedKeyDecodes(lib, trimmed);
      var canonical := Rewritten(lib, trimmed, key);
      if ParseKeyExpression(lib, canonical) != Ok(Standardised(lib, key)) then Err(MeaningChanged)
      else Ok(canonical)
  }

  lemma ParsedKeyDecodes(lib: Library, text: string)
    requires ParseKeyExpression(lib, text).Ok?
    ensures var key := ParseKeyExpression(lib, text).value;
            key.ExtendedKey? ==> AssertExtendedKey(lib, key.xpub).Ok? &&
                                 lib.decode58(key.xpub).Some? && |lib.decode58(key.xpub).value| == 82
  {
    hide ParseOrigin, ParseDerivation, Trim, IsExtendedPrefix, StandardVersion;
  }

  // ----- what an accepted key expression is

  ghost predicate OriginOk(origin: Option<KeyOrigin>) {
    origin.Some? ==> BracketOk(origin.value)
  }

  ghost predicate BracketOk(o: KeyOrigin) {
    && FingerprintOk(o.fingerprint)
    && exists indices :: InRange(indices) && o.path == FormatPath(indices)
  }

  lemma BracketParsesOk(inner: string)
    requires ParseBracket(inner).Ok?
    ensures BracketOk(ParseBracket(inner).value)
  {
    hide IndexOf, ParsePath, FormatPath, InRange, Lower, AllHex;
    var o, slash := ParseBracket(inner).value, IndexOf(inner, '/');
    var head, rawPath := if slash == -1 then inner else inner[..slash], if slash == -1 then "" else inner[slash + 1..];
    LowerTwice(head);
    assert FingerprintOk(Lower(head));
    if rawPath == "" {
      FormatRoot();
      assert o == KeyOrigin(Lower(head), FormatPath([]));
    } else {
      var parsed := ParsePath("m/" + rawPath).value;
      assert o == KeyOrigin(Lower(head), FormatPath(parsed.indices)) && InRange(parsed.indices);
    }
  }

  lemma FormatRoot()
    ensures FormatPath([]) == "m" && InRange([])
  {
  }

  lemma LowerTwice(s: string)
    ensures Lower(Lower(s)) == Lower(s)
  {
  }

  ghost predicate FingerprintOk(fp: string) {
    |fp| == 8 && AllHex(fp) && Lower(fp) == fp
  }

  lemma BracketNoSteps(fp: string)
    requires FingerprintOk(fp)
    ensures ParseBracket(fp) == Ok(KeyOrigin(fp, "m"))
  {
    hide IndexOf, ParsePath;
    HexChars(fp);
    NoSlash(fp);
  }

  lemma BracketSteps(fp: string, indices: seq<nat>)
    requires FingerprintOk(fp) && InRange(indices) && indices != []
    ensures ParseBracket(fp + StepsText(indices)) == Ok(KeyOrigin(fp, FormatPath(indices)))
  {
    hide IndexOf, ParsePath, AllHex, StepsText, FormatPath, Lower;
    var steps := StepsText(indices);
    HexChars(fp);
    StepsChars(indices);
    SlashAfter(fp, steps);
    StepNotAlone(indices);
    FormatTail(indices);
    PathRoundTrip(indices);
    BracketParts(fp, steps);
  }

  lemma BracketParts(fp: string, steps: string)
    requires |fp| == 8 && |steps| >= 2 && steps[0] == '/' && forall c :: c in steps ==> IsStepChar(c)
    ensures (fp + steps)[..8] == fp
    ensures (fp + steps)[9..] == steps[1..] && steps[1..] != "" && 'H' !in steps[1..]
    ensures "m/" + steps[1..] == "m" + steps
  {
    assert forall c :: c in steps[1..] ==> c in steps;
  }

  /** A written origin reads back, whatever follows it. */
  lemma BracketRoundTrip(o: KeyOrigin)
    requires BracketOk(o)
    ensures ParseBracket(BracketText(o)) == Ok(o)
    ensures ']' !in BracketText(o)
    ensures forall c :: c in Drop(o.path, 1) ==> IsStepChar(c)
  {
    hide ParseBracket, FormatPath, Drop, IsHexDigit;
    var indices :| InRange(indices) && o.path == FormatPath(indices);
    FormatTail(indices);
    StepsChars(indices);
    HexChars(o.fingerprint);
    if indices == [] {
      FormatRoot();
      assert o.fingerprint + "" == o.fingerprint;
      BracketNoSteps(o.fingerprint);
    } else {
      BracketSteps(o.fingerprint, indices);
    }
  }

  lemma FormatTail(indices: seq<nat>)
    ensures Drop(FormatPath(indices), 1) == StepsText(indices)
    ensures FormatPath(indices) == "m" + StepsText(indices)
    ensures indices == [] ==> StepsText(indices) == ""
  {
  }

  lemma StepNotAlone(indices: seq<nat>)
    requires indices != []
    ensures |StepsText(indices)| >= 2
  {
  }

  lemma HexChars(s: string)
    requires AllHex(s)
    ensures '/' !in s && ']' !in s && 'H' !in s
  {
  }

  lemma NoSlash(s: string)
    requires '/' !in s
    ensures IndexOf(s, '/') == -1
  {
  }

  lemma SlashAfter(head: string, tail: string)
    requires '/' !in head && tail != "" && tail[0] == '/'
    ensures IndexOf(head + tail, '/') == |head|
  {
    hide IndexOf;
    IndexOfAt(head + tail, '/', |head|);
  }

  /** What parseOrigin splits off is an origin, and the rest ends the text. */
  lemma OriginSplits(trimmed: string)
    requires ParseOrigin(trimmed).Ok?
    ensures var (origin, rest) := ParseOrigin(trimmed).value;
            OriginOk(origin) && AfterOrigin(trimmed) == rest &&
            |rest| <= |trimmed| && rest == trimmed[|trimmed| - |rest|..] &&
            (origin.None? ==> rest == trimmed && !StartsWith(rest, "["))
  {
    hide ParseBracket, BracketOk, IndexOf;
    if StartsWith(trimmed, "[") {
      var close := IndexOf(trimmed, ']');
      BracketParsesOk(trimmed[1..close]);
    }
  }

  lemma OriginReads(origin: Option<KeyOrigin>, rest: string)
    requires OriginOk(origin) && (origin.None? ==> !StartsWith(rest, "["))
    ensures ParseOrigin(OriginText(origin) + rest) == Ok((origin, rest))
    ensures AfterOrigin(OriginText(origin) + rest) == rest
  {
    hide ParseBracket, BracketOk, BracketText, IndexOf, Drop;
    if origin.Some? {
      var inner := BracketText(origin.value);
      BracketRoundTrip(origin.value);
      CloseAt(inner, rest);
      DropLong("[" + inner + "]" + rest, |inner| + 2);
    } else {
      assert "" + rest == rest;
    }
  }

  lemma DropLong(s: string, n: nat)
    requires n <= |s|
    ensures Drop(s, n) == s[n..]
  {
  }

  lemma CloseAt(inner: string, rest: string)
    requires ']' !in inner
    ensures IndexOf("[" + inner + "]" + rest, ']') == |inner| + 1
    ensures StartsWith("[" + inner + "]" + rest, "[")
    ensures ("[" + inner + "]" + rest)[1..|inner| + 1] == inner
    ensures ("[" + inner + "]" + rest)[|inner| + 2..] == rest
  {
    hide IndexOf;
    var whole := "[" + inner + "]" + rest;
    forall k | 0 <= k < |inner| + 1
      ensures whole[k] != ']'
    {
      if k > 0 {
        assert whole[k] == inner[k - 1];
      }
    }
    IndexOfAt(whole, ']', |inner| + 1);
    assert whole[..1] == "[";
  }

  // ----- the standard prefix carries no key material

  lemma VersionOfBytes(version: nat, tail: seq<byte>)
    requires version == XPUB || version == TPUB
    ensures Version(VersionBytes(version) + tail) == version
  {
    hide VersionBytes;
    KnownBytes();
    VersionOfFour(VersionBytes(version), tail);
    FourRead(0x04, 0x88, 0xb2, 0x1e);
    FourRead(0x04, 0x35, 0x87, 0xcf);
  }

  lemma KnownBytes()
    ensures VersionBytes(XPUB) == [0x04, 0x88, 0xb2, 0x1e] && VersionBytes(TPUB) == [0x04, 0x35, 0x87, 0xcf]
  {
  }

  lemma FourRead(a: byte, b: byte, c: byte, d: byte)
    ensures Version([a, b, c, d]) == a as nat * 0x100_0000 + b as nat * 0x1_0000 + c as nat * 0x100 + d as nat
  {
  }

  lemma VersionOfFour(four: seq<byte>, tail: seq<byte>)
    requires |four| == 4
    ensures Version(four + tail) == Version(four)
  {
  }

  /** The four version bytes of a key that means xpub, ypub, zpub, Ypub or Zpub. */
  predicate MainnetVersion(four: seq<byte>) {
    four == [0x04, 0x88, 0xb2, 0x1e] || four == [0x04, 0x9d, 0x7c, 0xb2] || four == [0x04, 0xb2, 0x47, 0x46] ||
    four == [0x02, 0x95, 0xb4, 0x3f] || four == [0x02, 0xaa, 0x7e, 0xd3]
  }

  /** The four version bytes of a key that means tpub, upub, vpub, Upub or Vpub. */
  predicate TestVersion(four: seq<byte>) {
    four == [0x04, 0x35, 0x87, 0xcf] || four == [0x04, 0x4a, 0x52, 0x62] || four == [0x04, 0x5f, 0x1c, 0xf6] ||
    four == [0x02, 0x42, 0x89, 0xef] || four == [0x02, 0x57, 0x54, 0x83]
  }

  lemma FourDigits(a: int, b: int, c: int, d: int)
    requires 0 <= a < 256 && 0 <= b < 256 && 0 <= c < 256 && 0 <= d < 256
    ensures var v := a * 0x100_0000 + b * 0x1_0000 + c * 0x100 + d;
            v / 0x100_0000 % 0x100 == a && v / 0x1_0000 % 0x100 == b && v / 0x100 % 0x100 == c && v % 0x100 == d
  {
    var v, high := a * 0x100_0000 + b * 0x1_0000 + c * 0x100 + d, a * 0x100 + b;
    LowByte(a, b);
    LowByte(high, c);
    LowByte(high * 0x100 + c, d);
    assert v == (high * 0x100 + c) * 0x100 + d;
    assert v / 0x100 == high * 0x100 + c && v / 0x1_0000 == high && v / 0x100_0000 == a;
  }

  lemma LowByte(high: int, low: int)
    requires 0 <= high && 0 <= low < 256
    ensures (high * 0x100 + low) % 0x100 == low && (high * 0x100 + low) / 0x100 == high
  {
  }

  lemma FourIsVersion(raw: seq<byte>, v: nat)
    requires |raw| >= 4 && Version(raw) == v
    ensures raw[..4] == [v / 0x100_0000, v / 0x1_0000 % 0x100, v / 0x100 % 0x100, v % 0x100]
  {
    var a, b, c, d := raw[0] as int, raw[1] as int, raw[2] as int, raw[3] as int;
    FourDigits(a, b, c, d);
    assert raw[..4] == [raw[0], raw[1], raw[2], raw[3]];
  }

  lemma VersionIs(raw: seq<byte>, a: byte, b: byte, c: byte, d: byte)
    requires |raw| >= 4
    ensures Version(raw) == a as nat * 0x100_0000 + b as nat * 0x1_0000 + c as nat * 0x100 + d as nat <==> raw[..4] == [a, b, c, d]
  {
    FourDigits(a as int, b as int, c as int, d as int);
    FourDigits(raw[0] as int, raw[1] as int, raw[2] as int, raw[3] as int);
    assert raw[..4] == [raw[0], raw[1], raw[2], raw[3]];
  }

  lemma VersionsMean(raw: seq<byte>)
    requires |raw| >= 4
    ensures StandardVersion(Version(raw)) == Some(XPUB) <==> MainnetVersion(raw[..4])
    ensures StandardVersion(Version(raw)) == Some(TPUB) <==> TestVersion(raw[..4])
  {
    hide Version;
    VersionIs(raw, 0x04, 0x88, 0xb2, 0x1e);
    VersionIs(raw, 0x04, 0x9d, 0x7c, 0xb2);
    VersionIs(raw, 0x04, 0xb2, 0x47, 0x46);
    VersionIs(raw, 0x02, 0x95, 0xb4, 0x3f);
    VersionIs(raw, 0x02, 0xaa, 0x7e, 0xd3);
    VersionIs(raw, 0x04, 0x35, 0x87, 0xcf);
    VersionIs(raw, 0x04, 0x4a, 0x52, 0x62);
    VersionIs(raw, 0x04, 0x5f, 0x1c, 0xf6);
    VersionIs(raw, 0x02, 0x42, 0x89, 0xef);
    VersionIs(raw, 0x02, 0x57, 0x54, 0x83);
  }

  /** Under which version bytes a key is written: those of xpub for every mainnet prefix, those of tpub for every test one. */
  lemma PrefixMeans(lib: Library, x: string)
    requires Lawful(lib) && AssertExtendedKey(lib, x).Ok? && lib.decode58(x).Some? && |lib.decode58(x).value| == 82
    ensures var (before, after) := (lib.decode58(x).value[..4], lib.decode58(StandardPrefix(lib, x)));
            && after.Some? && |after.value| == 82
            && ((MainnetVersion(before) && after.value[..4] == [0x04, 0x88, 0xb2, 0x1e]) ||
                (TestVersion(before) && after.value[..4] == [0x04, 0x35, 0x87, 0xcf]))
  {
    hide StandardVersion, Version, MainnetVersion, TestVersion, Lawful, AllAlphanumeric, LooksExtended, StandardPrefix, Payload;
    var raw := lib.decode58(x).value;
    DecodedKey(lib, x);
    hide AssertExtendedKey;
    StandardPrefixOk(lib, x);
    ExtendedDecodes(lib, StandardPrefix(lib, x));
    VersionsMean(raw);
    StandardIsOne(Version(raw));
    FourIsVersion(lib.decode58(StandardPrefix(lib, x)).value, StandardVersion(Version(raw)).value);
  }

  lemma DecodedKey(lib: Library, x: string)
    requires AssertExtendedKey(lib, x).Ok? && lib.decode58(x).Some?
    ensures |lib.decode58(x).value| == 82 && StandardVersion(Version(lib.decode58(x).value)).Some?
  {
    hide StandardVersion, Version;
  }

  lemma StandardIsOne(version: nat)
    ensures StandardVersion(version).Some? ==> StandardVersion(version).value == XPUB || StandardVersion(version).value == TPUB
    ensures XPUB == 0x0488b21e && TPUB == 0x043587cf
  {
  }

  /** Only the version and the checksum change, and the result is its own standard form. */
  lemma StandardPrefixOk(lib: Library, x: string)
    requires Lawful(lib) && AssertExtendedKey(lib, x).Ok?
    ensures var y := StandardPrefix(lib, x);
            AssertExtendedKey(lib, y).Ok? && Payload(lib, y) == Payload(lib, x) && AllAlphanumeric(y) &&
            LooksExtended(y) && StandardPrefix(lib, y) == y
    ensures Version(lib.decode58(StandardPrefix(lib, x)).value) == StandardVersion(Version(lib.decode58(x).value)).value
  {
    hide StandardVersion, VersionBytes, Version, IsExtendedPrefix;
    var raw := lib.decode58(x).value;
    var standard := StandardVersion(Version(raw)).value;
    StandardIsOneOfTwo(Version(raw));
    if standard == Version(raw) {
      assert lib.encode58(raw) == x;
    } else {
      var body := VersionBytes(standard) + raw[4..78];
      var full := body + lib.check4(body);
      FourBytes(standard);
      VersionOfBytes(standard, raw[4..78] + lib.check4(body));
      assert full == VersionBytes(standard) + (raw[4..78] + lib.check4(body));
      assert full[..78] == body && full[78..] == lib.check4(body) && full[4..78] == raw[4..78];
      assert full[45] == raw[45];
      VersionOfBytes(standard, []);
      assert lib.decode58(lib.encode58(full)) == Some(full);
    }
  }

  lemma FourBytes(version: nat)
    ensures |VersionBytes(version)| == 4
  {
  }

  lemma StandardIsOneOfTwo(version: nat)
    requires StandardVersion(version).Some?
    ensures var standard := StandardVersion(version).value;
            (standard == XPUB || standard == TPUB) && StandardVersion(standard) == Some(standard)
  {
  }

  // ----- the rewritten text means the same key

  lemma RewriteTicks(s: string)
    ensures SameTicks(s, RewriteMarkers(s))
  {
  }

  lemma RewriteTwice(s: string)
    ensures RewriteMarkers(RewriteMarkers(s)) == RewriteMarkers(s)
  {
  }

  /** A key and its suffix are told apart by the first slash. */
  lemma KeySplits(material: string, suffix: string)
    requires AllAlphanumeric(material) && (suffix == "" || suffix[0] == '/')
    ensures KeyText(material + suffix) == material && SuffixText(material + suffix) == suffix
  {
    hide IndexOf;
    assert forall i :: 0 <= i < |material| ==> material[i] != '/';
    if suffix == "" {
      assert material + suffix == material;
      assert '/' !in material;
    } else {
      IndexOfAt(material + suffix, '/', |material|);
      assert (material + suffix)[..|material|] == material && (material + suffix)[|material|..] == suffix;
    }
  }

  lemma KeyJoins(rest: string)
    ensures KeyText(rest) + SuffixText(rest) == rest
    ensures SuffixText(rest) == "" || SuffixText(rest)[0] == '/'
  {
    hide IndexOf;
  }

  lemma ExtendedReads(lib: Library, origin: Option<KeyOrigin>, material: string, suffix: string)
    requires AllAlphanumeric(material) && LooksExtended(material) && (suffix == "" || suffix[0] == '/')
    requires AssertExtendedKey(lib, material).Ok? && ParseDerivation(suffix).Ok?
    ensures var d := ParseDerivation(suffix).value;
            ParseKey(lib, origin, material + suffix) == Ok(ExtendedKey(origin, material, d.path, d.ranged, d.multipath))
  {
    hide IsExtendedPrefix, AssertExtendedKey, ParseDerivation, KeyText, SuffixText, AllAlphanumeric;
    KeySplits(material, suffix);
    assert (material + suffix)[..4] == material[..4];
  }

  lemma ExtendedVerdict(lib: Library, origin: Option<KeyOrigin>, material: string, suffix: string)
    requires AllAlphanumeric(material) && LooksExtended(material) && (suffix == "" || suffix[0] == '/')
    requires AssertExtendedKey(lib, material).Ok?
    ensures ParseKey(lib, origin, material + suffix) ==
            if ParseDerivation(suffix).Ok? then
              var d := ParseDerivation(suffix).value;
              Ok(ExtendedKey(origin, material, d.path, d.ranged, d.multipath))
            else Err(ParseDerivation(suffix).error)
  {
    hide IsExtendedPrefix, AssertExtendedKey, ParseDerivation, KeyText, SuffixText, AllAlphanumeric;
    KeySplits(material, suffix);
    assert (material + suffix)[..4] == material[..4];
  }

  lemma MaterialStarts(material: string, suffix: string)
    requires LooksExtended(material)
    ensures !IsSpace((material + suffix)[0]) && !StartsWith(material + suffix, "[")
  {
    PrefixNotSpace(material);
    assert (material + suffix)[0] == material[0];
  }

  lemma ExpressionReads(lib: Library, origin: Option<KeyOrigin>, rest: string)
    requires OriginOk(origin) && rest != "" && Trimmed(rest) && !StartsWith(rest, "[")
    ensures Trimmed(OriginText(origin) + rest)
    ensures ParseKeyExpression(lib, OriginText(origin) + rest) == ParseKey(lib, origin, rest)
    ensures AfterOrigin(OriginText(origin) + rest) == rest
  {
    hide ParseOrigin, ParseKey, OriginOk, AfterOrigin, BracketText;
    OriginReads(origin, rest);
    var whole := OriginText(origin) + rest;
    assert whole[|whole| - 1] == rest[|rest| - 1];
    assert origin.Some? ==> whole[0] == '[';
  }

  lemma ExpressionParts(lib: Library, trimmed: string)
    requires Trimmed(trimmed) && ParseKeyExpression(lib, trimmed).Ok?
    ensures ParseOrigin(trimmed).Ok? && ParseOrigin(trimmed).value.1 != ""
    ensures ParseKeyExpression(lib, trimmed) == ParseKey(lib, ParseOrigin(trimmed).value.0, ParseOrigin(trimmed).value.1)
  {
    hide ParseOrigin, ParseKey;
  }

  lemma KeyParts(lib: Library, origin: Option<KeyOrigin>, rest: string)
    requires rest != "" && ParseKey(lib, origin, rest).Ok? && ParseKey(lib, origin, rest).value.ExtendedKey?
    ensures var key := ParseKey(lib, origin, rest).value;
            key.origin == origin && key.xpub == KeyText(rest) && AssertExtendedKey(lib, key.xpub).Ok? && LooksExtended(rest) &&
            ParseDerivation(SuffixText(rest)) == Ok(Derivation(key.path, key.ranged, key.multipath))
  {
    hide AssertExtendedKey, KeyText, SuffixText, ParseDerivation, IsExtendedPrefix;
  }

  /** The pieces an accepted extended key is written from. */
  ghost predicate WrittenFrom(lib: Library, trimmed: string, key: KeyExpression, suffix: string)
    requires key.ExtendedKey?
  {
    && OriginOk(key.origin) && AssertExtendedKey(lib, key.xpub).Ok? && AllAlphanumeric(key.xpub)
    && AfterOrigin(trimmed) == key.xpub + suffix
    && (suffix == "" || suffix[0] == '/') && Trimmed(AfterOrigin(trimmed))
    && ParseDerivation(suffix) == Ok(Derivation(key.path, key.ranged, key.multipath))
  }

  lemma ExtendedPieces(lib: Library, trimmed: string)
    requires Lawful(lib) && Trimmed(trimmed) && ParseKeyExpression(lib, trimmed).Ok?
    requires ParseKeyExpression(lib, trimmed).value.ExtendedKey?
    ensures var key := ParseKeyExpression(lib, trimmed).value;
            WrittenFrom(lib, trimmed, key, Drop(AfterOrigin(trimmed), |key.xpub|))
  {
    hide *;
    ExpressionParts(lib, trimmed);
    OriginSplits(trimmed);
    var (origin, rest) := ParseOrigin(trimmed).value;
    KeyParts(lib, origin, rest);
    var key := ParseKeyExpression(lib, trimmed).value;
    ExtendedDecodes(lib, key.xpub);
    PiecesJoin(lib, trimmed, rest, key);
  }

  lemma PiecesJoin(lib: Library, trimmed: string, rest: string, key: KeyExpression)
    requires key.ExtendedKey? && key.xpub == KeyText(rest) && AfterOrigin(trimmed) == rest
    requires OriginOk(key.origin) && AssertExtendedKey(lib, key.xpub).Ok? && AllAlphanumeric(key.xpub)
    requires Trimmed(trimmed) && |rest| <= |trimmed| && rest == trimmed[|trimmed| - |rest|..] && LooksExtended(rest)
    requires ParseDerivation(SuffixText(rest)) == Ok(Derivation(key.path, key.ranged, key.multipath))
    ensures WrittenFrom(lib, trimmed, key, Drop(AfterOrigin(trimmed), |key.xpub|))
  {
    hide AfterOrigin, OriginOk, AssertExtendedKey, AllAlphanumeric, ParseDerivation, KeyText, SuffixText, IsExtendedPrefix;
    KeyJoins(rest);
    assert rest[|key.xpub|..] == SuffixText(rest);
    PrefixNotSpace(rest);
    assert rest[|rest| - 1] == trimmed[|trimmed| - 1];
  }

  lemma BracketNotSpace()
    ensures !IsSpace('[')
  {
  }

  lemma PrefixNotSpace(rest: string)
    requires LooksExtended(rest)
    ensures !IsSpace(rest[0]) && rest[0] != '['
  {
    assert rest[0] == rest[..4][0];
  }

  lemma ExtendedDecodes(lib: Library, x: string)
    requires Lawful(lib) && AssertExtendedKey(lib, x).Ok?
    ensures lib.decode58(x).Some? && |lib.decode58(x).value| == 82 && AllAlphanumeric(x)
  {
  }

  /** The canonical text of an extended key parses to it, under its standard prefix. */
  lemma ExtendedRewrites(lib: Library, trimmed: string)
    requires Lawful(lib) && Trimmed(trimmed) && ParseKeyExpression(lib, trimmed).Ok?
    requires ParseKeyExpression(lib, trimmed).value.ExtendedKey?
    ensures var key := ParseKeyExpression(lib, trimmed).value;
            && lib.decode58(key.xpub).Some? && |lib.decode58(key.xpub).value| == 82
            && var material := StandardPrefix(lib, key.xpub);
               var suffix := RewriteMarkers(Drop(AfterOrigin(trimmed), |key.xpub|));
               var written := Rewritten(lib, trimmed, key);
               && AfterOrigin(written) == material + suffix && Trimmed(written)
               && written == OriginText(key.origin) + (material + suffix)
               && ParseKeyExpression(lib, written) == Ok(Standardised(lib, key))
  {
    hide ParseKeyExpression, AfterOrigin, ParseDerivation, OriginOk, AssertExtendedKey, OriginText, RewriteMarkers,
         StandardPrefix, LooksExtended, ParseKey, Drop;
    ExtendedPieces(lib, trimmed);
    var key := ParseKeyExpression(lib, trimmed).value;
    ExtendedDecodes(lib, key.xpub);
    StandardPrefixOk(lib, key.xpub);
    var material := StandardPrefix(lib, key.xpub);
    var suffix := Drop(AfterOrigin(trimmed), |key.xpub|);
    RewriteTicks(suffix);
    TicksDerivation(suffix, RewriteMarkers(suffix));
    RewriteEnds(key.xpub, material, suffix);
    ExtendedReads(lib, key.origin, material, RewriteMarkers(suffix));
    ExpressionReads(lib, key.origin, material + RewriteMarkers(suffix));
    assert OriginText(key.origin) + material + RewriteMarkers(suffix) == OriginText(key.origin) + (material + RewriteMarkers(suffix));
  }

  lemma RewriteEnds(typed: string, material: string, suffix: string)
    requires Trimmed(typed + suffix) && AllAlphanumeric(material) && LooksExtended(material)
    requires suffix == "" || suffix[0] == '/'
    ensures RewriteMarkers(suffix) == "" || RewriteMarkers(suffix)[0] == '/'
    ensures Trimmed(material + RewriteMarkers(suffix)) && material + RewriteMarkers(suffix) != ""
    ensures !StartsWith(material + RewriteMarkers(suffix), "[")
  {
    hide IsExtendedPrefix;
    var whole := material + RewriteMarkers(suffix);
    assert whole[0] == material[0] && IsAlphanumeric(material[0]);
    if suffix != "" {
      assert (typed + suffix)[|typed| + |suffix| - 1] == suffix[|suffix| - 1];
      assert whole[|whole| - 1] == RewrittenAt(suffix, |suffix| - 1);
    } else {
      assert IsAlphanumeric(material[|material| - 1]);
    }
    assert whole[..1] != "[" by {
      assert whole[..1][0] == whole[0];
    }
  }

  lemma LowerHex(s: string)
    requires AllHex(s)
    ensures AllHex(Lower(s)) && !LooksExtended(Lower(s)) && Trimmed(s)
    ensures !StartsWith(Lower(s), "xprv") && !StartsWith(Lower(s), "tprv") && !StartsWith(Lower(s), "[")
  {
    var low := Lower(s);
    if |low| >= 4 {
      assert IsHexDigit(low[1]);
      assert low[..4][1] == low[1];
    }
    if s != "" {
      assert IsHexDigit(low[0]) && low[..1][0] == low[0];
      assert IsHexDigit(s[|s| - 1]);
    }
  }

  lemma RawParts(lib: Library, origin: Option<KeyOrigin>, rest: string)
    requires rest != "" && ParseKey(lib, origin, rest).Ok? && ParseKey(lib, origin, rest).value.RawKey?
    ensures AllHex(rest) && ParseKey(lib, origin, rest) == Ok(RawKey(origin, Lower(rest), |rest| / 2))
    ensures ParseKey(lib, origin, Lower(rest)) == Ok(RawKey(origin, Lower(rest), |rest| / 2))
  {
    hide AssertExtendedKey, KeyText, SuffixText, ParseDerivation, IsExtendedPrefix, AllHex, Lower;
    LowerHex(rest);
    LowerTwice(rest);
  }

  /** The canonical text of a raw key parses to it. */
  lemma RawRewrites(lib: Library, trimmed: string)
    requires Trimmed(trimmed) && ParseKeyExpression(lib, trimmed).Ok?
    requires ParseKeyExpression(lib, trimmed).value.RawKey?
    ensures var key := ParseKeyExpression(lib, trimmed).value;
            var written := Rewritten(lib, trimmed, key);
            && AfterOrigin(written) == key.hex && Trimmed(written) && written == OriginText(key.origin) + key.hex
            && ParseKeyExpression(lib, written) == Ok(key)
  {
    hide ParseKeyExpression, ParseKey, ParseOrigin, AfterOrigin, OriginOk, OriginText, AllHex, Trimmed, Lower, StartsWith;
    ExpressionParts(lib, trimmed);
    OriginSplits(trimmed);
    var (origin, rest) := ParseOrigin(trimmed).value;
    RawParts(lib, origin, rest);
    var key := ParseKeyExpression(lib, trimmed).value;
    LowerHex(rest);
    LowerTwice(rest);
    LowerHex(key.hex);
    NothingDropped(rest, key.hex);
    ExpressionReads(lib, origin, key.hex);
    assert OriginText(origin) + key.hex + "" == OriginText(origin) + key.hex;
  }

  lemma NothingDropped(rest: string, hex: string)
    requires |rest| == |hex|
    ensures RewriteMarkers(Drop(rest, |hex|)) == ""
  {
  }

  lemma ParseTrims(lib: Library, text: string)
    ensures ParseKeyExpression(lib, Trim(text)) == ParseKeyExpression(lib, text)
  {
    hide ParseOrigin, ParseKey;
  }

  lemma RewrittenReads(lib: Library, trimmed: string)
    requires Lawful(lib) && Trimmed(trimmed) && ParseKeyExpression(lib, trimmed).Ok?
    ensures var key := ParseKeyExpression(lib, trimmed).value;
            && (key.ExtendedKey? ==> lib.decode58(key.xpub).Some? && |lib.decode58(key.xpub).value| == 82)
            && var written := Rewritten(lib, trimmed, key);
               Trimmed(written) && ParseKeyExpression(lib, written) == Ok(Standardised(lib, key)) &&
               CanonicalKeyExpression(lib, trimmed) == Ok(written)
  {
    hide ParseKeyExpression, Rewritten;
    var key := ParseKeyExpression(lib, trimmed).value;
    if key.ExtendedKey? {
      ExtendedRewrites(lib, trimmed);
    } else {
      RawRewrites(lib, trimmed);
    }
  }

  lemma RewrittenTwice(lib: Library, trimmed: string)
    requires Lawful(lib) && Trimmed(trimmed) && ParseKeyExpression(lib, trimmed).Ok?
    ensures var c := CanonicalKeyExpression(lib, trimmed);
            c.Ok? && CanonicalKeyExpression(lib, c.value) == c
  {
    hide ParseKeyExpression, AfterOrigin, OriginText, Trimmed, RewriteMarkers, StandardPrefix;
    RewrittenReads(lib, trimmed);
    var key := ParseKeyExpression(lib, trimmed).value;
    var written := Rewritten(lib, trimmed, key);
    RewrittenReads(lib, written);
    var suffix := Drop(AfterOrigin(trimmed), |MaterialText(key)|);
    if key.ExtendedKey? {
      ExtendedRewrites(lib, trimmed);
      ExtendedPieces(lib, trimmed);
      StandardPrefixOk(lib, key.xpub);
      var material := StandardPrefix(lib, key.xpub);
      assert (material + RewriteMarkers(suffix))[|material|..] == RewriteMarkers(suffix);
      RewriteTwice(suffix);
    } else {
      RawRewrites(lib, trimmed);
      NothingDropped(key.hex, key.hex);
      assert OriginText(key.origin) + key.hex + "" == OriginText(key.origin) + key.hex;
    }
  }

  /**
   * Every key expression the parser accepts has a canonical text: the guard
   * never fires, the text parses to the same key under its standard prefix,
   * and it is its own canonical text.
   */
  lemma CanonicalKeepsMeaning(lib: Library, text: string)
    requires Lawful(lib) && ParseKeyExpression(lib, text).Ok?
    ensures var key := ParseKeyExpression(lib, text).value;
            && (key.ExtendedKey? ==> lib.decode58(key.xpub).Some? && |lib.decode58(key.xpub).value| == 82)
            && var canonical := CanonicalKeyExpression(lib, text);
               canonical.Ok? && ParseKeyExpression(lib, canonical.value) == Ok(Standardised(lib, key)) &&
               CanonicalKeyExpression(lib, canonical.value) == canonical
  {
    hide ParseKeyExpression, Rewritten, Standardised, Trimmed;
    ParseTrims(lib, text);
    RewrittenReads(lib, Trim(text));
    RewrittenTwice(lib, Trim(text));
  }

  /** An h is left standing for a marker nowhere but before white space. */
  predicate NoLetterMarker(suffix: string) {
    forall i :: 0 < i < |suffix| && suffix[i] == 'h' && IsDigit(suffix[i - 1]) ==>
      i + 1 < |suffix| && suffix[i + 1] != '/' && suffix[i + 1] != '>' && suffix[i + 1] != ';'
  }

  /**
   * What the canonical text looks like: the origin with its fingerprint in
   * small letters and its steps as paths are written, the key under its
   * standard prefix, and the suffix with its markers as apostrophes.
   */
  lemma CanonicalWritten(lib: Library, text: string)
    requires Lawful(lib) && ParseKeyExpression(lib, text).Ok?
    ensures var (key, canonical) := (ParseKeyExpression(lib, text).value, CanonicalKeyExpression(lib, text));
            && canonical.Ok?
            && exists suffix :: NoLetterMarker(suffix) && WrittenAround(lib, key, canonical.value, suffix)
  {
    hide ParseKeyExpression, Standardised, Trimmed, Trim, AfterOrigin, RewriteMarkers, Drop;
    CanonicalKeepsMeaning(lib, text);
    ParseTrims(lib, text);
    var key := ParseKeyExpression(lib, text).value;
    var suffix := RewriteMarkers(Drop(AfterOrigin(Trim(text)), |MaterialText(key)|));
    NoMarkerLeft(Drop(AfterOrigin(Trim(text)), |MaterialText(key)|));
    WrittenIs(lib, key, suffix);
  }

  ghost predicate WrittenAround(lib: Library, key: KeyExpression, canonical: string, suffix: string) {
    (key.ExtendedKey? ==> lib.decode58(key.xpub).Some? && |lib.decode58(key.xpub).value| == 82) &&
    canonical ==
    (match key.origin case None => "" case Some(o) => "[" + o.fingerprint + (if o.path == "" then "" else o.path[1..]) + "]") +
    (if key.ExtendedKey? then StandardPrefix(lib, key.xpub) else key.hex) + suffix
  }

  lemma WrittenIs(lib: Library, key: KeyExpression, suffix: string)
    requires key.ExtendedKey? ==> lib.decode58(key.xpub).Some? && |lib.decode58(key.xpub).value| == 82
    ensures WrittenAround(lib, key, OriginText(key.origin) + MaterialText(Standardised(lib, key)) + suffix, suffix)
  {
    hide StandardPrefix;
    if key.origin.Some? {
      var o := key.origin.value;
      assert "[" + (o.fingerprint + Drop(o.path, 1)) + "]" == "[" + o.fingerprint + Drop(o.path, 1) + "]";
    }
  }

  lemma NoMarkerLeft(suffix: string)
    ensures NoLetterMarker(RewriteMarkers(suffix))
  {
    var written := RewriteMarkers(suffix);
    forall i | 0 < i < |written| && written[i] == 'h' && IsDigit(written[i - 1])
      ensures i + 1 < |written| && written[i + 1] != '/' && written[i + 1] != '>' && written[i + 1] != ';'
    {
      assert suffix[i] == 'h' && suffix[i - 1] == written[i - 1];
    }
  }
}
