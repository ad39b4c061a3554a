/**
 * The language of key expressions, as BIP-380 ("Key Expressions") and BIP-389 write it, and
 * that packages/core/src/descriptor/parse.ts, lines 185 to 542, reads exactly it.
 */
module KeyGrammar {
  import opened Text
  import opened Path
  import opened Keys
  import opened Canonical

  // ----- multipath elements

  ghost predicate AlternativeWritten(option: string, index: nat) {
    exists digits, marker :: option == digits + marker && AllDigits(digits) && ToNat(digits) < 0x8000_0000 &&
      marker in ["", "'", "h"] && index == ToNat(digits) + if marker == "" then 0 else 0x8000_0000
  }

  /** Two alternatives or more, no two the same. */
  ghost predicate TupleWritten(inside: string, values: seq<nat>) {
    && |values| >= 2 && Distinct(values) && |Split(inside, ';')| == |values|
    && forall i :: 0 <= i < |values| ==> AlternativeWritten(Split(inside, ';')[i], values[i])
  }

  lemma AlternativeMeans(option: string, index: nat)
    ensures ParseAlternative(option) == Ok(index) <==> AlternativeWritten(option, index)
  {
    hide ToNat, ParseAlternative;
    if ParseAlternative(option) == Ok(index) {
      AlternativeRead(option, index);
    }
    if digits, marker :| option == digits + marker && AllDigits(digits) && ToNat(digits) < 0x8000_0000 &&
                         marker in ["", "'", "h"] && index == ToNat(digits) + if marker == "" then 0 else 0x8000_0000 {
      AlternativeOf(digits, marker);
    }
  }

  lemma AlternativeRead(option: string, index: nat)
    requires ParseAlternative(option) == Ok(index)
    ensures AlternativeWritten(option, index)
  {
    hide ToNat;
    var last := option[|option| - 1];
    if IsTick(last) {
      assert option == option[..|option| - 1] + [last];
    } else {
      assert option == option + "";
    }
  }

  lemma AlternativeOf(digits: string, marker: string)
    requires AllDigits(digits) && ToNat(digits) < 0x8000_0000 && marker in ["", "'", "h"]
    ensures ParseAlternative(digits + marker) == Ok(ToNat(digits) + if marker == "" then 0 else 0x8000_0000)
  {
    hide ToNat;
    var option := digits + marker;
    if marker == "" {
      assert option == digits;
    } else {
      assert option[..|option| - 1] == digits && option[|option| - 1] == marker[0];
    }
  }

  lemma {:induction false} AlternativesMean(options: seq<string>, values: seq<nat>)
    ensures ParseAlternatives(options) == Ok(values) <==>
            |options| == |values| && forall i :: 0 <= i < |values| ==> AlternativeWritten(options[i], values[i])
    decreases |options|
  {
    hide ParseAlternative, AlternativeWritten;
    if options != [] && values != [] {
      AlternativeMeans(options[0], values[0]);
      AlternativesMean(options[1..], values[1..]);
      assert values == [values[0]] + values[1..];
      assert forall i :: 0 < i < |values| ==> values[i] == values[1..][i - 1];
      assert forall i :: 0 < i < |options| ==> options[i] == options[1..][i - 1];
    }
  }

  lemma TupleMeans(inside: string, values: seq<nat>)
    ensures ParseMultipath(inside) == Ok(values) <==> TupleWritten(inside, values)
  {
    hide ParseAlternatives, AlternativeWritten, Distinct, Split;
    AlternativesMean(Split(inside, ';'), values);
  }

  // ----- derivation suffixes

  /** Steps below a key are a path from it. */
  predicate StepsAre(steps: string, path: string) {
    if steps == "" then path == "" else ParsePath("m" + steps).Ok? && ParsePath("m" + steps).value.canonical == path
  }

  /** Plain steps, or steps that end in a multipath element, for which a 0 stands in the path. */
  ghost predicate WorkingWritten(working: string, path: string, multipath: Option<seq<nat>>) {
    match multipath
    case None => '<' !in working && StepsAre(working, path)
    case Some(values) =>
      exists steps, inside :: ElementLast(working, steps, inside) && TupleWritten(inside, values) && StepsAre(steps + "0", path)
  }

  /** One pair of angle brackets, the second at the end. */
  predicate ElementLast(working: string, steps: string, inside: string) {
    working == steps + "<" + inside + ">" && '<' !in steps + inside && '>' !in steps + inside
  }

  /** A wildcard may follow, never a hardened one, and a hardened step is never marked H. */
  ghost predicate SuffixWritten(suffix: string, d: Derivation) {
    if suffix == "" then d == Derivation("", false, None)
    else if 'H' in suffix then false
    else if EndsWith(suffix, "/*") then d.ranged && WorkingWritten(suffix[..|suffix| - 2], d.path, d.multipath)
    else !d.ranged && !EndsWith(suffix, "/*'") && !EndsWith(suffix, "/*h") && WorkingWritten(suffix, d.path, d.multipath)
  }

  lemma ElementTaken(steps: string, inside: string, values: seq<nat>)
    requires ElementLast(steps + "<" + inside + ">", steps, inside) && ParseMultipath(inside) == Ok(values)
    ensures TakeMultipath(steps + "<" + inside + ">") == Ok((steps + "0", Some(values)))
  {
    hide ParseMultipath, IndexOf;
    var working := steps + "<" + inside + ">";
    ElementPlaces(steps, inside);
    assert working[|working|..] == "" && steps + "0" + "" == steps + "0";
  }

  lemma ElementPlaces(steps: string, inside: string)
    requires '<' !in steps + inside && '>' !in steps + inside
    ensures var working := steps + "<" + inside + ">";
            && IndexOf(working, '<') == |steps| && IndexOf(working, '>') == |working| - 1
            && working[..|steps|] == steps && working[|steps| + 1..|working| - 1] == inside && '<' !in working[|steps| + 1..]
  {
    hide IndexOf;
    var working := steps + "<" + inside + ">";
    assert forall k :: 0 <= k < |steps| ==> working[k] == (steps + inside)[k];
    assert forall c :: c in inside ==> c in steps + inside;
    assert forall k :: |steps| < k < |working| - 1 ==> working[k] == inside[k - |steps| - 1];
    IndexOfAt(working, '<', |steps|);
    IndexOfAt(working, '>', |working| - 1);
    assert working[|steps| + 1..] == inside + ">";
  }

  lemma TakenElement(working: string, values: seq<nat>, taken: string) returns (steps: string, inside: string)
    requires TakeMultipath(working) == Ok((taken, Some(values)))
    ensures ElementLast(working, steps, inside) && taken == steps + "0" && ParseMultipath(inside) == Ok(values)
  {
    hide ParseMultipath, IndexOf;
    var open := IndexOf(working, '<');
    var close := IndexOf(working, '>');
    assert open < close == |working| - 1;
    steps, inside := working[..open], working[open + 1..close];
    ElementCut(working, open);
    assert working[close + 1..] == "" && steps + "0" + "" == steps + "0";
  }

  lemma ElementCut(working: string, open: nat)
    requires open < |working| - 1 && working[open] == '<' && working[|working| - 1] == '>'
    requires forall k :: 0 <= k < |working| - 1 ==> working[k] != '>' && (working[k] == '<' ==> k == open)
    ensures ElementLast(working, working[..open], working[open + 1..|working| - 1])
  {
    var steps, inside := working[..open], working[open + 1..|working| - 1];
    assert working == steps + "<" + inside + ">";
    assert forall k :: 0 <= k < |inside| ==> inside[k] == working[open + 1 + k];
  }

  lemma NothingTaken(working: string)
    ensures '<' !in working ==> TakeMultipath(working) == Ok((working, None))
    ensures '<' in working && TakeMultipath(working).Ok? ==> TakeMultipath(working).value.1.Some?
  {
    hide ParseMultipath, IndexOf;
  }

  lemma WorkingMeans(working: string, path: string, ranged: bool, multipath: Option<seq<nat>>)
    ensures ParseWorking(working, ranged) == Ok(Derivation(path, ranged, multipath)) <==>
            WorkingWritten(working, path, multipath)
  {
    hide ParsePath, ParseMultipath, TupleWritten, TakeMultipath, AllDigits;
    if multipath.None? {
      NothingTaken(working);
    } else {
      var values := multipath.value;
      if ParseWorking(working, ranged) == Ok(Derivation(path, ranged, multipath)) {
        var steps, inside := TakenElement(working, values, TakeMultipath(working).value.0);
        TupleMeans(inside, values);
        assert StepsAre(steps + "0", path);
      }
      if steps, inside :| ElementLast(working, steps, inside) && TupleWritten(inside, values) && StepsAre(steps + "0", path) {
        TupleMeans(inside, values);
        ElementTaken(steps, inside, values);
      }
    }
  }

  lemma SuffixMeans(suffix: string, d: Derivation)
    ensures ParseDerivation(suffix) == Ok(d) <==> SuffixWritten(suffix, d)
  {
    hide ParseWorking, WorkingWritten;
    if suffix != "" {
      var ranged := EndsWith(suffix, "/*");
      var working := if ranged then suffix[..|suffix| - 2] else suffix;
      WorkingMeans(working, d.path, ranged, d.multipath);
      WorkingKeepsRanged(working, ranged);
    }
  }

  lemma WorkingKeepsRanged(working: string, ranged: bool)
    ensures ParseWorking(working, ranged).Ok? ==> ParseWorking(working, ranged).value.ranged == ranged
  {
    hide TakeMultipath, ParsePath;
  }

  // ----- origins

  /** Eight hexadecimal digits, and a path from the master key after a slash. */
  ghost predicate OriginWritten(inner: string, origin: KeyOrigin) {
    exists fingerprint, steps :: |fingerprint| == 8 && AllHex(fingerprint) && origin.fingerprint == Lower(fingerprint) &&
      'H' !in steps && inner == fingerprint + steps && OriginStepsAre(steps, origin.path)
  }

  predicate OriginStepsAre(steps: string, path: string) {
    if steps == "" || steps == "/" then path == "m"
    else steps[0] == '/' && ParsePath("m" + steps).Ok? && ParsePath("m" + steps).value.canonical == path
  }

  lemma BracketMeans(inner: string, origin: KeyOrigin)
    ensures ParseBracket(inner) == Ok(origin) <==> OriginWritten(inner, origin)
  {
    hide ParsePath, IndexOf, AllHex;
    if ParseBracket(inner) == Ok(origin) {
      BracketWritten(inner, origin);
    }
    if fingerprint, steps :| |fingerprint| == 8 && AllHex(fingerprint) && origin.fingerprint == Lower(fingerprint) &&
                             'H' !in steps && inner == fingerprint + steps && OriginStepsAre(steps, origin.path) {
      WrittenBracket(fingerprint, steps, origin.path);
    }
  }

  lemma LowerHex(s: string)
    ensures AllHex(Lower(s)) == AllHex(s)
  {
    assert forall i :: 0 <= i < |s| ==> IsHexDigit(Lower(s)[i]) == IsHexDigit(s[i]);
  }

  lemma BracketWritten(inner: string, origin: KeyOrigin)
    requires ParseBracket(inner) == Ok(origin)
    ensures OriginWritten(inner, origin)
  {
    hide ParsePath, AllHex, IndexOf, Lower, OriginWritten;
    var slash := IndexOf(inner, '/');
    if slash == -1 {
      assert inner == inner + "";
      OriginAs(inner, "", origin);
    } else {
      var rawPath := inner[slash + 1..];
      assert inner == inner[..slash] + ("/" + rawPath);
      StepsBehindSlash(rawPath, origin.path);
      OriginAs(inner[..slash], "/" + rawPath, origin);
    }
  }

  lemma OriginAs(fingerprint: string, steps: string, origin: KeyOrigin)
    requires |fingerprint| == 8 && AllHex(Lower(fingerprint)) && origin.fingerprint == Lower(fingerprint)
    requires 'H' !in steps && OriginStepsAre(steps, origin.path)
    ensures OriginWritten(fingerprint + steps, origin)
  {
    hide OriginStepsAre, AllHex;
    LowerHex(fingerprint);
  }

  lemma StepsBehindSlash(rawPath: string, path: string)
    requires if rawPath == "" then path == "m" else ParsePath("m/" + rawPath).Ok? && ParsePath("m/" + rawPath).value.canonical == path
    ensures OriginStepsAre("/" + rawPath, path)
  {
    hide ParsePath;
    assert "m" + ("/" + rawPath) == "m/" + rawPath;
  }

  lemma WrittenBracket(fingerprint: string, steps: string, path: string)
    requires |fingerprint| == 8 && AllHex(fingerprint) && 'H' !in steps && OriginStepsAre(steps, path)
    ensures ParseBracket(fingerprint + steps) == Ok(KeyOrigin(Lower(fingerprint), path))
  {
    hide ParsePath, IndexOf, AllHex, Lower;
    var inner := fingerprint + steps;
    LowerHex(fingerprint);
    SlashAfter(fingerprint, steps);
    if steps == "" {
      assert inner == fingerprint;
    } else {
      var rawPath := inner[|fingerprint| + 1..];
      assert steps == "/" + rawPath && "m" + ("/" + rawPath) == "m/" + rawPath;
      assert 'H' in rawPath ==> 'H' in steps;
      assert inner[..|fingerprint|] == fingerprint;
    }
  }

  lemma SlashAfter(fingerprint: string, steps: string)
    requires AllHex(fingerprint) && (steps == "" || steps[0] == '/')
    ensures IndexOf(fingerprint + steps, '/') == if steps == "" then -1 else |fingerprint|
  {
    hide IndexOf;
    assert forall k :: 0 <= k < |fingerprint| ==> (fingerprint + steps)[k] == fingerprint[k] && fingerprint[k] != '/';
    if steps != "" {
      IndexOfAt(fingerprint + steps, '/', |fingerprint|);
    }
  }

  // ----- key expressions

  /** The 82 bytes of an extended public key. */
  ghost predicate KeyBytes(lib: Library, raw: seq<byte>) {
    && |raw| == 82 && lib.check4(raw[..78]) == raw[78..]
    && (MainnetVersion(raw[..4]) || TestVersion(raw[..4]))
    && (raw[45] == 0x02 || raw[45] == 0x03) && lib.validPayload(raw[4..78])
  }

  lemma KeyBytesMean(lib: Library, text: string, raw: seq<byte>)
    ensures AssertExtendedKey(lib, text) == Ok(raw) <==> lib.decode58(text) == Some(raw) && KeyBytes(lib, raw)
  {
    hide Version, StandardVersion, MainnetVersion, TestVersion;
    if |raw| == 82 {
      VersionsMean(raw);
      StandardIsOneOfTwo(Version(raw));
    }
  }

  lemma StandardIsOneOfTwo(version: nat)
    ensures StandardVersion(version).Some? ==> StandardVersion(version) in {Some(XPUB), Some(TPUB)}
  {
  }

  /** A key after its origin: an extended key and its suffix, or 32, 33 or 65 bytes of hexadecimal. */
  ghost predicate MaterialWritten(lib: Library, rest: string, key: KeyExpression) {
    match key
    case RawKey(_, hex, byteLength) =>
      AllHex(rest) && byteLength in {32, 33, 65} && |rest| == 2 * byteLength && hex == Lower(rest)
    case ExtendedKey(_, xpub, path, ranged, multipath) =>
      exists suffix, raw :: rest == xpub + suffix && '/' !in xpub && (suffix == "" || suffix[0] == '/') &&
        |xpub| >= 4 && xpub[..4] in ["xpub", "ypub", "zpub", "Ypub", "Zpub", "tpub", "upub", "vpub", "Upub", "Vpub"] &&
        lib.decode58(xpub) == Some(raw) && KeyBytes(lib, raw) && SuffixWritten(suffix, Derivation(path, ranged, multipath))
  }

  ghost predicate KeyWritten(lib: Library, text: string, key: KeyExpression) {
    match key.origin
    case None => text != "" && text[0] != '[' && MaterialWritten(lib, text, key)
    case Some(origin) =>
      exists inner, rest :: Bracketed(text, inner, rest) && OriginWritten(inner, origin) &&
        rest != "" && MaterialWritten(lib, rest, key)
  }

  lemma RestSplits(xpub: string, suffix: string)
    requires '/' !in xpub && (suffix == "" || suffix[0] == '/')
    ensures KeyText(xpub + suffix) == xpub && SuffixText(xpub + suffix) == suffix
  {
    var rest := xpub + suffix;
    if suffix == "" {
      assert rest == xpub;
    } else {
      IndexOfAt(rest, '/', |xpub|);
      assert rest[..|xpub|] == xpub && rest[|xpub|..] == suffix;
    }
  }

  lemma TextSplits(rest: string)
    ensures rest == KeyText(rest) + SuffixText(rest) && '/' !in KeyText(rest)
    ensures SuffixText(rest) == "" || SuffixText(rest)[0] == '/'
    ensures LooksExtended(rest) ==> |KeyText(rest)| >= 4 && KeyText(rest)[..4] == rest[..4]
  {
    hide IndexOf;
    if LooksExtended(rest) {
      assert forall i :: 0 <= i < 4 ==> rest[i] == rest[..4][i] && rest[i] != '/';
    }
  }

  lemma StartsExtended(xpub: string, suffix: string)
    requires |xpub| >= 4 && xpub[..4] in ["xpub", "ypub", "zpub", "Ypub", "Zpub", "tpub", "upub", "vpub", "Upub", "Vpub"]
    ensures LooksExtended(xpub + suffix)
  {
    assert (xpub + suffix)[..4] == xpub[..4];
  }

  lemma ExtendedRead(lib: Library, rest: string, key: KeyExpression)
    requires rest != "" && key.ExtendedKey? && ParseKey(lib, key.origin, rest) == Ok(key)
    ensures MaterialWritten(lib, rest, key)
  {
    hide AssertExtendedKey, KeyBytes, ParseDerivation, SuffixWritten, IndexOf, AllHex;
    TextSplits(rest);
    KeyBytesMean(lib, key.xpub, AssertExtendedKey(lib, key.xpub).value);
    SuffixMeans(SuffixText(rest), Derivation(key.path, key.ranged, key.multipath));
  }

  lemma ExtendedMeans(lib: Library, rest: string, key: KeyExpression)
    requires rest != "" && key.ExtendedKey?
    ensures ParseKey(lib, key.origin, rest) == Ok(key) <==> MaterialWritten(lib, rest, key)
  {
    hide AssertExtendedKey, KeyBytes, ParseDerivation, SuffixWritten, IndexOf, AllHex;
    var d := Derivation(key.path, key.ranged, key.multipath);
    if ParseKey(lib, key.origin, rest) == Ok(key) {
      ExtendedRead(lib, rest, key);
    }
    if MaterialWritten(lib, rest, key) {
      hide LooksExtended;
      var suffix, raw :| rest == key.xpub + suffix && '/' !in key.xpub && (suffix == "" || suffix[0] == '/') &&
        |key.xpub| >= 4 && key.xpub[..4] in ["xpub", "ypub", "zpub", "Ypub", "Zpub", "tpub", "upub", "vpub", "Upub", "Vpub"] &&
        lib.decode58(key.xpub) == Some(raw) && KeyBytes(lib, raw) && SuffixWritten(suffix, d);
      RestSplits(key.xpub, suffix);
      StartsExtended(key.xpub, suffix);
      KeyBytesMean(lib, key.xpub, raw);
      SuffixMeans(suffix, d);
    }
  }

  lemma RawMeans(lib: Library, rest: string, key: KeyExpression)
    requires rest != "" && key.RawKey?
    ensures ParseKey(lib, key.origin, rest) == Ok(key) <==> MaterialWritten(lib, rest, key)
  {
    hide AssertExtendedKey, ParseDerivation, IndexOf, AllHex, LooksExtended, Lower;
    HexIsNoKey(rest);
  }

  lemma HexIsNoKey(rest: string)
    ensures AllHex(rest) ==> !LooksExtended(rest) && !StartsWith(rest, "xprv") && !StartsWith(rest, "tprv")
  {
    if AllHex(rest) && |rest| >= 4 {
      assert rest[..4][1] == rest[1] && IsHexDigit(rest[1]);
    }
  }

  lemma MaterialMeans(lib: Library, rest: string, key: KeyExpression)
    requires rest != ""
    ensures ParseKey(lib, key.origin, rest) == Ok(key) <==> MaterialWritten(lib, rest, key)
  {
    hide ParseKey, MaterialWritten;
    if key.ExtendedKey? {
      ExtendedMeans(lib, rest, key);
    } else {
      RawMeans(lib, rest, key);
    }
  }

  lemma OriginKept(lib: Library, origin: Option<KeyOrigin>, rest: string)
    requires rest != ""
    ensures ParseKey(lib, origin, rest).Ok? ==> ParseKey(lib, origin, rest).value.origin == origin
  {
    hide AssertExtendedKey, ParseDerivation, IndexOf, AllHex, LooksExtended;
  }

  predicate Bracketed(text: string, inner: string, rest: string) {
    text == "[" + inner + "]" + rest && ']' !in inner
  }

  lemma OriginMeans(text: string, origin: KeyOrigin, rest: string)
    ensures ParseOrigin(text) == Ok((Some(origin), rest)) <==>
            exists inner :: Bracketed(text, inner, rest) && OriginWritten(inner, origin)
  {
    hide ParseBracket, OriginWritten, IndexOf;
    if ParseOrigin(text) == Ok((Some(origin), rest)) {
      var inner := text[1..IndexOf(text, ']')];
      BracketIs(text);
      BracketMeans(inner, origin);
    }
    if inner :| Bracketed(text, inner, rest) && OriginWritten(inner, origin) {
      BracketMeans(inner, origin);
      BracketFound(text, inner, rest);
    }
  }

  lemma BracketIs(text: string)
    requires StartsWith(text, "[") && ']' in text
    ensures IndexOf(text, ']') >= 1
    ensures var close := IndexOf(text, ']'); Bracketed(text, text[1..close], text[close + 1..])
  {
    hide IndexOf;
    var close := IndexOf(text, ']');
    assert text[0] == text[..1][0] == '[';
    assert text == "[" + text[1..close] + "]" + text[close + 1..];
  }

  lemma BracketFound(text: string, inner: string, rest: string)
    requires Bracketed(text, inner, rest)
    ensures StartsWith(text, "[") && IndexOf(text, ']') == |inner| + 1
    ensures text[1..|inner| + 1] == inner && text[|inner| + 2..] == rest
  {
    hide IndexOf;
    assert forall k :: 0 < k <= |inner| ==> text[k] == inner[k - 1];
    IndexOfAt(text, ']', |inner| + 1);
  }

  /** What a key expression means, exactly: the parser reads the written language and nothing else. */
  lemma KeyMeans(lib: Library, text: string, key: KeyExpression)
    ensures ParseKeyExpression(lib, text) == Ok(key) <==> KeyWritten(lib, Trim(text), key)
  {
    hide ParseKey, MaterialWritten, ParseBracket, OriginWritten, Trim, IndexOf;
    var trimmed := Trim(text);
    if trimmed != "" {
      WithOriginMeans(lib, trimmed, key);
    } else {
      assert ParseKeyExpression(lib, text) == Err(EmptyKey);
    }
  }

  lemma WithOriginMeans(lib: Library, text: string, key: KeyExpression)
    requires text != ""
    ensures (ParseOrigin(text).Ok? && ParseOrigin(text).value.1 != "" &&
             ParseKey(lib, ParseOrigin(text).value.0, ParseOrigin(text).value.1) == Ok(key)) <==> KeyWritten(lib, text, key)
  {
    hide ParseKey, MaterialWritten, ParseBracket, OriginWritten, IndexOf;
    var parsed := ParseOrigin(text);
    if parsed.Ok? && parsed.value.1 != "" && ParseKey(lib, parsed.value.0, parsed.value.1) == Ok(key) {
      var (origin, rest) := parsed.value;
      OriginKept(lib, origin, rest);
      MaterialMeans(lib, rest, key);
      if origin.Some? {
        OriginMeans(text, origin.value, rest);
      } else {
        NoOrigin(text);
      }
    }
    if KeyWritten(lib, text, key) {
      if key.origin.None? {
        MaterialMeans(lib, text, key);
        NoOrigin(text);
      } else {
        var inner, rest :| Bracketed(text, inner, rest) && OriginWritten(inner, key.origin.value) &&
          rest != "" && MaterialWritten(lib, rest, key);
        OriginMeans(text, key.origin.value, rest);
        MaterialMeans(lib, rest, key);
      }
    }
  }

  lemma NoOrigin(text: string)
    requires text != ""
    ensures ParseOrigin(text).Ok? && ParseOrigin(text).value.0 == None <==> text[0] != '['
    ensures text[0] != '[' ==> ParseOrigin(text) == Ok((None, text))
  {
    hide ParseBracket, IndexOf;
    assert text[..1][0] == text[0];
  }
}
