/** Key expressions printed and read back: packages/core/src/descriptor/parse.ts, lines 204 to 542. */
module KeyPrinting {
  import opened Text
  import opened Path
  import opened Keys
  import opened Spelling
  import opened Canonical
  import opened Suffix
  import opened Arguments
  import opened Script

  /** How the parser stores a suffix of these steps: the empty text when there are none. */
  function StepPath(steps: seq<nat>): string {
    if steps == [] then "" else FormatPath(steps)
  }

  ghost predicate StepsOk(steps: seq<nat>, path: string, multipath: Option<seq<nat>>) {
    && InRange(steps) && path == StepPath(steps)
    && (multipath.Some? ==> steps != [] && |multipath.value| >= 2 && InRange(multipath.value) && Distinct(multipath.value))
  }

  /** What every key expression the parser returns satisfies. */
  ghost predicate KeyOk(lib: Library, key: KeyExpression) {
    && OriginOk(key.origin)
    && match key
       case RawKey(_, hex, byteLength) =>
         AllHex(hex) && Lower(hex) == hex && (|hex| == 64 || |hex| == 66 || |hex| == 130) && byteLength == |hex| / 2
       case ExtendedKey(_, xpub, path, _, multipath) =>
         && AssertExtendedKey(lib, xpub).Ok? && AllAlphanumeric(xpub) && LooksExtended(xpub)
         && exists steps :: StepsOk(steps, path, multipath)
  }

  /** The key with the step that a multipath element replaced read as a bare 0. */
  function Settled(key: KeyExpression): KeyExpression {
    if key.ExtendedKey? && key.multipath.Some? && PathSteps(key.path) != [] then
      key.(path := SettledPath(PathSteps(key.path)))
    else key
  }

  function SettledPath(steps: seq<nat>): string
    requires steps != []
  {
    FormatPath(steps[..|steps| - 1] + [0])
  }

  /** A multipath key stores a zero as its last step, as a whole element leaves it. */
  predicate ZeroStored(key: KeyExpression) {
    key.ExtendedKey? && key.multipath.Some? && PathSteps(key.path) != [] ==>
      PathSteps(key.path)[|PathSteps(key.path)| - 1] == 0
  }

  lemma PathStepsRead(steps: seq<nat>)
    requires InRange(steps)
    ensures PathSteps(StepPath(steps)) == steps
  {
    hide ParsePath, FormatPath;
    if steps == [] {
      EmptyPathRefused();
    } else {
      PathRoundTrip(steps);
    }
  }

  lemma EmptyPathRefused()
    ensures ParsePath("").Err?
  {
  }

  // ----- suffixes

  lemma WildcardReads(body: string, ranged: bool)
    requires '*' !in body && 'H' !in body
    ensures ParseDerivation(body + (if ranged then "/*" else "")) == ParseWorking(body, ranged)
  {
    hide ParseWorking, EndsWith;
    var suffix := body + (if ranged then "/*" else "");
    EndsWithTwo(suffix, '/', '*');
    EndsWithThree(suffix, '\'');
    EndsWithThree(suffix, 'h');
    if ranged {
      assert suffix[..|suffix| - 2] == body;
      assert suffix[|suffix| - 2] == '/' && suffix[|suffix| - 1] == '*';
    } else {
      assert suffix == body;
      assert forall k :: 0 <= k < |suffix| ==> suffix[k] != '*' by {
        assert forall k :: 0 <= k < |suffix| ==> suffix[k] in body;
      }
      if body == "" {
        NothingWorking();
      }
    }
  }

  lemma NothingWorking()
    ensures ParseWorking("", false) == Ok(Derivation("", false, None))
  {
  }

  lemma StepsRead(steps: seq<nat>, ranged: bool)
    requires InRange(steps)
    ensures ParseWorking(StepsText(steps), ranged) == Ok(Derivation(StepPath(steps), ranged, None))
  {
    hide ParsePath, IndexOf, StepsText;
    StepsChars(steps);
    assert IndexOf(StepsText(steps), '<') == -1;
    if steps == [] {
      NoStepsText();
    } else {
      FormatTail(steps);
      PathRoundTrip(steps);
    }
  }

  lemma NoStepsText()
    ensures StepsText([]) == ""
  {
  }

  lemma {:induction false} AlternativesRead(values: seq<nat>)
    requires InRange(values)
    ensures ParseAlternatives(StepTexts(values)) == Ok(values)
  {
    hide ParseAlternative, StepText;
    if values != [] {
      AlternativeReads(values[0]);
      AlternativesRead(values[1..]);
      assert values == [values[0]] + values[1..];
    }
  }

  lemma AlternativeReads(value: nat)
    requires value < 2 * HARDENED_OFFSET
    ensures ParseAlternative(StepText(value)) == Ok(value)
  {
    var text := StepText(value);
    if value >= HARDENED_OFFSET {
      NatRoundTrip(value - HARDENED_OFFSET);
      assert text[..|text| - 1] == OfNat(value - HARDENED_OFFSET);
    } else {
      NatRoundTrip(value);
      assert IsDigit(text[|text| - 1]);
    }
  }

  predicate StepCharsOnly(s: string) {
    forall c :: c in s ==> IsDigit(c) || c == '\''
  }

  lemma {:induction false} StepTextsChars(values: seq<nat>)
    ensures |StepTexts(values)| == |values|
    ensures forall i :: 0 <= i < |values| ==> StepCharsOnly(StepTexts(values)[i])
  {
    hide StepText;
    if values != [] {
      StepTextsChars(values[1..]);
    }
  }

  function ElementText(values: seq<nat>): string {
    Join(StepTexts(values), ';')
  }

  predicate ElementChar(c: char) {
    IsDigit(c) || c == '\'' || c == ';'
  }

  lemma ElementReads(values: seq<nat>)
    requires |values| >= 2 && InRange(values) && Distinct(values)
    ensures ParseMultipath(ElementText(values)) == Ok(values)
    ensures forall c :: c in ElementText(values) ==> ElementChar(c)
  {
    hide Split, Join, StepTexts, Distinct, ParseAlternatives;
    StepTextsChars(values);
    forall p | p in StepTexts(values)
      ensures ';' !in p
    {
      assert StepCharsOnly(p);
    }
    JoinSplits(StepTexts(values), ';');
    AlternativesRead(values);
    JoinChars(StepTexts(values), ';');
    forall c | c in ElementText(values)
      ensures ElementChar(c)
    {
      if c != ';' {
        var i :| 0 <= i < |StepTexts(values)| && c in StepTexts(values)[i];
        assert StepCharsOnly(StepTexts(values)[i]);
      }
    }
  }

  /** Reading a multipath element leaves a 0 as the last step. */
  lemma ElementTaken(before: string, element: string, values: seq<nat>)
    requires '<' !in before && '>' !in before && '<' !in element && '>' !in element
    requires ParseMultipath(element) == Ok(values)
    ensures TakeMultipath(before + "/<" + element + ">") == Ok((before + "/0", Some(values)))
  {
    hide IndexOf, ParseMultipath;
    var working := before + "/<" + element + ">";
    var open := |before| + 1;
    var close := open + 1 + |element|;
    ElementPlaces(before, element);
    IndexOfAt(working, '<', open);
    IndexOfAt(working, '>', close);
    assert working[open + 1..close] == element;
    assert working[open + 1..] == element + ">";
    assert working[..open] + "0" + working[close + 1..] == before + "/0";
  }

  lemma ElementPlaces(before: string, element: string)
    requires '<' !in before && '>' !in before && '<' !in element && '>' !in element
    ensures var working := before + "/<" + element + ">";
            var open := |before| + 1;
            var close := open + 1 + |element|;
            && |working| == close + 1 && working[open] == '<' && working[close] == '>'
            && (forall k :: 0 <= k < open ==> working[k] != '<') && (forall k :: 0 <= k < close ==> working[k] != '>')
  {
    var working := before + "/<" + element + ">";
    forall k | 0 <= k < |before|
      ensures working[k] != '<' && working[k] != '>'
    {
      assert working[k] == before[k];
    }
    forall k | |before| + 2 <= k < |before| + 2 + |element|
      ensures working[k] != '>'
    {
      assert working[k] == element[k - |before| - 2];
    }
  }

  lemma {:induction false} StepsConcat(a: seq<nat>, b: seq<nat>)
    ensures StepsText(a + b) == StepsText(a) + StepsText(b)
  {
    hide StepText;
    if a == [] {
      assert a + b == b;
      assert "" + StepsText(b) == StepsText(b);
    } else {
      StepsConcat(a[1..], b);
      assert (a + b)[1..] == a[1..] + b;
      Regroup("/" + StepText(a[0]), StepsText(a[1..]), StepsText(b));
    }
  }

  lemma ZeroStep()
    ensures StepsText([0]) == "/0"
  {
    assert OfNat(0) == "0";
    assert [0][1..] == [];
  }

  lemma MultipathReads(before: seq<nat>, values: seq<nat>, ranged: bool)
    requires InRange(before) && |values| >= 2 && InRange(values) && Distinct(values)
    ensures ParseWorking(StepsText(before) + "/<" + ElementText(values) + ">", ranged) ==
            Ok(Derivation(FormatPath(before + [0]), ranged, Some(values)))
  {
    hide ParsePath, TakeMultipath, StepsText, ElementText, Distinct, FormatPath;
    StepsChars(before);
    ElementReads(values);
    ElementTaken(StepsText(before), ElementText(values), values);
    StepsConcat(before, [0]);
    ZeroStep();
    FormatTail(before + [0]);
    PathRoundTrip(before + [0]);
  }

  predicate PrintedChar(c: char) {
    IsStepChar(c) || ElementChar(c) || c == '<' || c == '>' || c == '*'
  }

  /** Printed suffix text, and what it is read as. */
  ghost predicate PrintedAs(text: string, d: Derivation) {
    (text == "" || text[0] == '/') && (forall c :: c in text ==> PrintedChar(c)) && ParseDerivation(text) == Ok(d)
  }

  lemma PlainDerivationReads(steps: seq<nat>, ranged: bool)
    requires InRange(steps)
    ensures PrintedAs(PrintDerivation(StepPath(steps), ranged, None), Derivation(StepPath(steps), ranged, None))
  {
    hide StepPath, StepsText, ParseDerivation, ParseWorking, PathSteps;
    PathStepsRead(steps);
    StepsChars(steps);
    NoStepsText();
    WildcardReads(StepsText(steps), ranged);
    StepsRead(steps, ranged);
  }

  lemma MultipathDerivationReads(steps: seq<nat>, ranged: bool, values: seq<nat>)
    requires InRange(steps) && steps != [] && |values| >= 2 && InRange(values) && Distinct(values)
    ensures PrintedAs(PrintDerivation(StepPath(steps), ranged, Some(values)), Derivation(SettledPath(steps), ranged, Some(values)))
  {
    hide StepPath, StepsText, ParseDerivation, ParseWorking, ElementText, Distinct, FormatPath, PrintDerivation;
    var before := steps[..|steps| - 1];
    StepsChars(before);
    ElementReads(values);
    var body := StepsText(before) + "/<" + ElementText(values) + ">";
    PrintedElement(steps, ranged, values);
    NoStepsText();
    BodyChars(StepsText(before), ElementText(values));
    WildcardReads(body, ranged);
    MultipathReads(before, values, ranged);
  }

  /** The suffix printed for a derivation is read back as that derivation, settled. */
  lemma DerivationReads(steps: seq<nat>, path: string, ranged: bool, multipath: Option<seq<nat>>)
    requires StepsOk(steps, path, multipath)
    ensures PrintedAs(PrintDerivation(path, ranged, multipath),
                      Derivation(if multipath.Some? then SettledPath(steps) else path, ranged, multipath))
  {
    hide StepPath, PrintDerivation, PrintedAs, Distinct, SettledPath;
    if multipath.Some? {
      MultipathDerivationReads(steps, ranged, multipath.value);
    } else {
      PlainDerivationReads(steps, ranged);
    }
  }

  lemma PrintedElement(steps: seq<nat>, ranged: bool, values: seq<nat>)
    requires InRange(steps) && steps != []
    ensures PrintDerivation(StepPath(steps), ranged, Some(values)) ==
            StepsText(steps[..|steps| - 1]) + "/<" + ElementText(values) + ">" + (if ranged then "/*" else "")
  {
    hide StepPath, StepsText, StepTexts, Join;
    PathStepsRead(steps);
  }

  lemma BodyChars(before: string, element: string)
    requires forall c :: c in before ==> IsStepChar(c)
    requires forall c :: c in element ==> ElementChar(c)
    requires before == "" || before[0] == '/'
    ensures var body := before + "/<" + element + ">";
            body[0] == '/' && '*' !in body && 'H' !in body &&
            forall c :: c in body ==> IsStepChar(c) || ElementChar(c) || c == '<' || c == '>'
  {
    var body := before + "/<" + element + ">";
    forall c | c in body
      ensures IsStepChar(c) || ElementChar(c) || c == '<' || c == '>'
    {
      assert c in before || c in "/<" || c in element || c in ">";
    }
  }

  // ----- what the parser returns can be printed

  lemma SlashMeansSteps(working: string)
    requires working != "" && working[0] == '/' && ParsePath("m" + working).Ok?
    ensures ParsePath("m" + working).value.indices != []
  {
    hide Split, TrimEnd, TrimStart, ParseSteps;
    var path := "m" + working;
    TrimHead(working);
    var trimmed := Trim(path);
    assert path[1] == '/' && !IsSpace('/');
    assert trimmed == path[..|trimmed|] && |trimmed| >= 2 by {
      TrimHead(working);
      TrimEndHead(path);
    }
    assert trimmed[1] == '/';
    SplitJoins(trimmed, '/');
    var segments := Split(trimmed, '/');
    assert '/' in trimmed && segments[0] in segments;
    if |segments| == 1 {
      JoinOne(segments, '/');
    }
  }

  lemma WorkingOk(whole: string, ranged: bool)
    requires (whole == "" || whole[0] == '/') && ParseWorking(whole, ranged).Ok?
    ensures var d := ParseWorking(whole, ranged).value;
            d.ranged == ranged && exists steps :: StepsOk(steps, d.path, d.multipath)
  {
    hide TakeMultipath, ParsePath, FormatPath, Distinct;
    TakenOk(whole);
    var (working, multipath) := TakeMultipath(whole).value;
    if working == "" {
      assert StepsOk([], "", multipath);
    } else {
      SlashMeansSteps(working);
      var parsed := ParsePath("m" + working).value;
      assert StepsOk(parsed.indices, parsed.canonical, multipath);
    }
  }

  lemma TakenOk(whole: string)
    requires (whole == "" || whole[0] == '/') && TakeMultipath(whole).Ok?
    ensures var (working, multipath) := TakeMultipath(whole).value;
            && (working == "" || working[0] == '/')
            && (multipath.Some? ==> working != "" && |multipath.value| >= 2 && InRange(multipath.value) && Distinct(multipath.value))
  {
    hide IndexOf, ParseMultipath, Distinct;
    var open := IndexOf(whole, '<');
    if open != -1 {
      MultipathOk(whole[open + 1..IndexOf(whole, '>')]);
      var working := whole[..open] + "0" + whole[IndexOf(whole, '>') + 1..];
      assert working[0] == whole[0];
    }
  }

  lemma MultipathOk(element: string)
    ensures ParseMultipath(element).Ok? ==>
              |ParseMultipath(element).value| >= 2 && InRange(ParseMultipath(element).value) && Distinct(ParseMultipath(element).value)
  {
    hide Split, ParseAlternatives, Distinct;
  }

  lemma DerivationOk(suffix: string)
    requires (suffix == "" || suffix[0] == '/') && ParseDerivation(suffix).Ok?
    ensures var d := ParseDerivation(suffix).value;
            exists steps :: StepsOk(steps, d.path, d.multipath)
  {
    hide ParseWorking;
    if suffix == "" {
      assert StepsOk([], "", None);
    } else if EndsWith(suffix, "/*") {
      WorkingOk(suffix[..|suffix| - 2], true);
    } else {
      WorkingOk(suffix, false);
    }
  }

  lemma KeyTextPrefix(rest: string)
    requires LooksExtended(rest)
    ensures LooksExtended(KeyText(rest))
  {
    hide IndexOf, IsExtendedPrefix;
    PrefixHasNoSlash(rest[..4]);
    var slash := IndexOf(rest, '/');
    assert forall k :: 0 <= k < 4 ==> rest[k] in rest[..4];
    assert slash != -1 ==> rest[..slash][..4] == rest[..4];
  }

  lemma PrefixHasNoSlash(prefix: string)
    requires IsExtendedPrefix(prefix)
    ensures '/' !in prefix
  {
  }

  /** Every key expression the parser returns is one that can be printed. */
  lemma ParsedKeyOk(lib: Library, text: string)
    requires Lawful(lib) && ParseKeyExpression(lib, text).Ok?
    ensures KeyOk(lib, ParseKeyExpression(lib, text).value)
  {
    hide *;
    ParseTrims(lib, text);
    ExpressionParts(lib, Trim(text));
    OriginSplits(Trim(text));
    var (origin, rest) := ParseOrigin(Trim(text)).value;
    if ParseKeyExpression(lib, text).value.ExtendedKey? {
      ParsedExtendedOk(lib, origin, rest);
    } else {
      ParsedRawOk(lib, origin, rest);
    }
  }

  lemma ParsedExtendedOk(lib: Library, origin: Option<KeyOrigin>, rest: string)
    requires Lawful(lib) && OriginOk(origin) && rest != ""
    requires ParseKey(lib, origin, rest).Ok? && ParseKey(lib, origin, rest).value.ExtendedKey?
    ensures KeyOk(lib, ParseKey(lib, origin, rest).value)
  {
    hide ParseKey, OriginOk, AssertExtendedKey, LooksExtended, StepsOk, ParseDerivation, KeyText, SuffixText, Lawful;
    KeyParts(lib, origin, rest);
    KeyTextPrefix(rest);
    ExtendedDecodes(lib, ParseKey(lib, origin, rest).value.xpub);
    KeyJoins(rest);
    DerivationOk(SuffixText(rest));
  }

  lemma ParsedRawOk(lib: Library, origin: Option<KeyOrigin>, rest: string)
    requires OriginOk(origin) && rest != ""
    requires ParseKey(lib, origin, rest).Ok? && ParseKey(lib, origin, rest).value.RawKey?
    ensures KeyOk(lib, ParseKey(lib, origin, rest).value)
  {
    hide ParseKey, OriginOk, AssertExtendedKey, LooksExtended, AllHex;
    RawParts(lib, origin, rest);
    RawLengths(lib, origin, rest);
    LowerHex(rest);
    LowerTwice(rest);
  }

  lemma RawLengths(lib: Library, origin: Option<KeyOrigin>, rest: string)
    requires rest != "" && ParseKey(lib, origin, rest).Ok? && ParseKey(lib, origin, rest).value.RawKey?
    ensures |rest| == 64 || |rest| == 66 || |rest| == 130
    ensures ParseKey(lib, origin, rest).value.origin == origin
  {
    hide AssertExtendedKey, ParseDerivation, KeyText, SuffixText, IsExtendedPrefix, AllHex;
  }

  // ----- printed keys are read back

  /** The text of a key after its origin. */
  function RestText(key: KeyExpression): string {
    if key.ExtendedKey? then key.xpub + PrintDerivation(key.path, key.ranged, key.multipath) else key.hex
  }

  predicate RestChar(c: char) {
    IsAlphanumeric(c) || PrintedChar(c)
  }

  lemma ExtendedRestReads(lib: Library, key: KeyExpression)
    requires KeyOk(lib, key) && key.ExtendedKey?
    ensures ParseKey(lib, key.origin, RestText(key)) == Ok(Settled(key))
    ensures RestText(key) != "" && Trimmed(RestText(key)) && !StartsWith(RestText(key), "[")
    ensures forall c :: c in RestText(key) ==> RestChar(c)
  {
    hide OriginOk, AssertExtendedKey, LooksExtended, ParseDerivation, PrintDerivation, ParseKey, StepsOk, SettledPath, PathSteps,
         AllAlphanumeric, StepPath;
    var steps :| StepsOk(steps, key.path, key.multipath);
    DerivationReads(steps, key.path, key.ranged, key.multipath);
    StoredSteps(steps, key.path, key.multipath);
    var suffix := PrintDerivation(key.path, key.ranged, key.multipath);
    ExtendedReads(lib, key.origin, key.xpub, suffix);
    RestShape(key.xpub, suffix);
  }

  lemma StoredSteps(steps: seq<nat>, path: string, multipath: Option<seq<nat>>)
    requires StepsOk(steps, path, multipath)
    ensures PathSteps(path) == steps && (multipath.Some? ==> steps != [])
  {
    hide PathSteps, StepPath;
    PathStepsRead(steps);
  }

  lemma RestShape(xpub: string, suffix: string)
    requires AllAlphanumeric(xpub) && LooksExtended(xpub) && forall c :: c in suffix ==> PrintedChar(c)
    ensures xpub + suffix != "" && Trimmed(xpub + suffix) && !StartsWith(xpub + suffix, "[")
    ensures forall c :: c in xpub + suffix ==> RestChar(c)
  {
    hide IsExtendedPrefix;
    var whole := xpub + suffix;
    forall i | 0 <= i < |whole|
      ensures RestChar(whole[i])
    {
      if i < |xpub| {
        assert IsAlphanumeric(xpub[i]);
      } else {
        assert suffix[i - |xpub|] in suffix;
      }
    }
    assert RestChar(whole[0]) && RestChar(whole[|whole| - 1]);
    assert whole[..1][0] == whole[0];
  }

  lemma RawRestReads(lib: Library, key: KeyExpression)
    requires KeyOk(lib, key) && key.RawKey?
    ensures ParseKey(lib, key.origin, key.hex) == Ok(key)
    ensures key.hex != "" && Trimmed(key.hex) && !StartsWith(key.hex, "[")
    ensures forall c :: c in key.hex ==> RestChar(c)
  {
    hide OriginOk, AssertExtendedKey, KeyText, SuffixText, ParseDerivation, LooksExtended;
    LowerHex(key.hex);
  }

  lemma RestReads(lib: Library, key: KeyExpression)
    requires KeyOk(lib, key)
    ensures ParseKey(lib, key.origin, RestText(key)) == Ok(Settled(key))
    ensures RestText(key) != "" && Trimmed(RestText(key)) && !StartsWith(RestText(key), "[")
    ensures forall c :: c in RestText(key) ==> RestChar(c)
  {
    hide OriginOk, AssertExtendedKey, ParseKey, KeyOk, Trimmed, StartsWith, AllHex, StepsOk, LooksExtended;
    if key.ExtendedKey? {
      ExtendedRestReads(lib, key);
    } else {
      RawRestReads(lib, key);
    }
  }

  /** Printing a key and reading it gives the key back, settled. */
  lemma KeyReads(lib: Library, key: KeyExpression)
    requires KeyOk(lib, key)
    ensures ParseKeyExpression(lib, PrintKey(key)) == Ok(Settled(key))
    ensures PrintKey(key) != "" && Trimmed(PrintKey(key))
  {
    hide ParseKeyExpression, ParseKey, OriginText, OriginOk, RestText, Settled, Trimmed, AssertExtendedKey, LooksExtended, StepsOk, AllHex;
    RestReads(lib, key);
    ExpressionReads(lib, key.origin, RestText(key));
    PrintedRest(key);
  }

  lemma PrintedRest(key: KeyExpression)
    ensures PrintKey(key) == OriginText(key.origin) + RestText(key)
  {
    hide OriginText, PrintDerivation;
  }

  /** A printed key stands whole inside an argument list. */
  lemma KeyWhole(lib: Library, key: KeyExpression)
    requires KeyOk(lib, key)
    ensures Whole(PrintKey(key))
  {
    hide OriginText, RestText, Whole, AssertExtendedKey, LooksExtended, StepsOk, AllHex, Safe, Walk, Plain;
    RestReads(lib, key);
    PrintedRest(key);
    CharsPlain(RestText(key));
    OriginWhole(key.origin, RestText(key));
  }

  lemma CharsPlain(s: string)
    requires forall c :: c in s ==> RestChar(c)
    ensures Plain(s)
  {
    forall i | 0 <= i < |s|
      ensures PlainChar(s[i])
    {
      assert RestChar(s[i]);
    }
  }

  lemma OriginWhole(origin: Option<KeyOrigin>, rest: string)
    requires OriginOk(origin) && Plain(rest)
    ensures Whole(OriginText(origin) + rest)
  {
    hide BracketOk, Plain, Whole, Drop, BracketText;
    if origin.Some? {
      BracketRoundTrip(origin.value);
      BracketPlain(origin.value);
      InnerWhole(BracketText(origin.value), rest);
    } else {
      PlainWhole(rest);
      assert "" + rest == rest;
    }
  }

  lemma InnerWhole(inner: string, rest: string)
    requires Plain(inner) && Plain(rest)
    ensures Whole("[" + inner + "]" + rest)
  {
    hide Plain, Safe, Walk, Whole;
    PlainSafe(inner, After(TOP, '['));
    NothingPlain();
    BracketedWhole("", '[', inner, ']', rest);
    assert "" + ['['] + inner + [']'] + rest == "[" + inner + "]" + rest;
  }

  lemma NothingPlain()
    ensures Plain("")
  {
  }

  lemma BracketPlain(o: KeyOrigin)
    requires BracketOk(o)
    ensures Plain(BracketText(o))
  {
    hide BracketOk, Drop, Plain;
    BracketRoundTrip(o);
    FingerprintHex(o);
    HexPlain(o.fingerprint);
    StepsPlain(Drop(o.path, 1));
    PlainConcat(o.fingerprint, Drop(o.path, 1));
  }

  lemma HexPlain(s: string)
    requires AllHex(s)
    ensures Plain(s)
  {
    forall i | 0 <= i < |s|
      ensures PlainChar(s[i])
    {
      assert IsHexDigit(s[i]);
    }
  }

  lemma StepsPlain(s: string)
    requires forall c :: c in s ==> IsStepChar(c)
    ensures Plain(s)
  {
    assert forall i :: 0 <= i < |s| ==> s[i] in s;
  }

  lemma PlainConcat(a: string, b: string)
    requires Plain(a) && Plain(b)
    ensures Plain(a + b)
  {
  }

  lemma FingerprintHex(o: KeyOrigin)
    requires BracketOk(o)
    ensures AllHex(o.fingerprint)
  {
  }

  /**
   * A key is read back exactly as printed if and only if, when it has a multipath
   * element, it stores a zero as its last step.
   */
  lemma KeyRoundTrip(lib: Library, key: KeyExpression)
    requires KeyOk(lib, key)
    ensures ParseKeyExpression(lib, PrintKey(key)) == Ok(key) <==> ZeroStored(key)
  {
    hide ParseKeyExpression, PrintKey, AssertExtendedKey, LooksExtended, OriginOk, AllHex, StepsOk, PathSteps, FormatPath;
    KeyReads(lib, key);
    if key.ExtendedKey? && key.multipath.Some? {
      var steps :| StepsOk(steps, key.path, key.multipath);
      StoredSteps(steps, key.path, key.multipath);
      SettledWhole(steps, key.path, key.multipath);
    }
  }

  lemma SettledWhole(steps: seq<nat>, path: string, multipath: Option<seq<nat>>)
    requires StepsOk(steps, path, multipath) && steps != []
    ensures SettledPath(steps) == path <==> steps[|steps| - 1] == 0
  {
    hide FormatPath, PathSteps;
    var settled := steps[..|steps| - 1] + [0];
    PathStepsRead(steps);
    PathStepsRead(settled);
    if steps[|steps| - 1] == 0 {
      assert settled == steps;
    } else {
      assert settled[|steps| - 1] != steps[|steps| - 1];
    }
  }
}
