/** Key expressions: packages/core/src/descriptor/parse.ts, lines 185 to 542. */
module Keys {
  import opened Text
  import opened Path

  type byte = b: int | 0 <= b < 256

  /**
   * The libraries the parser calls and this model does not look into: base58,
   * the first four bytes of the double SHA-256, the BIP-32 rules a 74-byte
   * payload must meet, and whether text decodes as an address on any network.
   */
  datatype Library = Library(
    decode58: string -> Option<seq<byte>>,
    encode58: seq<byte> -> string,
    check4: seq<byte> -> seq<byte>,
    validPayload: seq<byte> -> bool,
    isAddress: string -> bool)

  predicate IsAlphanumeric(c: char) {
    IsDigit(c) || 'a' <= c <= 'z' || 'A' <= c <= 'Z'
  }

  predicate AllAlphanumeric(s: string) {
    forall i :: 0 <= i < |s| ==> IsAlphanumeric(s[i])
  }

  /** What is assumed of those libraries. Every extended-key version writes text with its known prefix. */
  ghost predicate Lawful(lib: Library) {
    && (forall s :: lib.decode58(s).Some? ==> lib.encode58(lib.decode58(s).value) == s && AllAlphanumeric(s))
    && (forall b :: lib.decode58(lib.encode58(b)) == Some(b))
    && (forall b :: |lib.check4(b)| == 4)
    && (forall b :: |b| == 82 && StandardVersion(Version(b)).Some? ==>
          |lib.encode58(b)| >= 4 && IsExtendedPrefix(lib.encode58(b)[..4]))
    && (forall a :: lib.isAddress(a) ==> a != "" && AllAlphanumeric(a))
  }

  // ----- the values

  datatype KeyOrigin = KeyOrigin(fingerprint: string, path: string)

  datatype KeyExpression =
    | RawKey(origin: Option<KeyOrigin>, hex: string, byteLength: nat)
    | ExtendedKey(origin: Option<KeyOrigin>, xpub: string, path: string, ranged: bool, multipath: Option<seq<nat>>)

  datatype Derivation = Derivation(path: string, ranged: bool, multipath: Option<seq<nat>>)

  /** Why a descriptor is refused, one constructor per refusal of the parser. */
  datatype Refusal =
    | CapitalH | NoClosingBracket | BadFingerprint | BadOriginPath
    | NotBase58 | WrongKeyLength | WrongKeyChecksum | UnknownVersion | NotCompressed | NotAKey
    | HardenedWildcard | NoClosingAngle | MultipathNotLast | OneAlternative | AlternativeNotANumber
    | AlternativeOutOfRange | RepeatedAlternative | BadDerivation
    | EmptyKey | NoKeyAfterOrigin | PrivateKey | NeitherKeyNorHex | WrongRawLength
    | BadThreshold | NotAScript | UnknownFunction | WrongArguments | UnclosedTree | NotBinary
    | EmptyDescriptor | UnpermittedCharacter | BadChecksum | UnequalTuples
    | WrongPlace | UncompressedKey | XOnlyKey | TooManyKeys | RedeemScriptTooLong | NoSuchAddress
    | NotMultisig | Unsatisfiable | UnsupportedLeaf | SeveralQuorums
    | HardenedStep | NoBranches | NoBranchSegment | NoPublicKey | TooManyAddresses

  // ----- extended keys

  function Version(raw: seq<byte>): nat
    requires |raw| >= 4
  {
    (raw[0] as nat) * 0x100_0000 + (raw[1] as nat) * 0x1_0000 + (raw[2] as nat) * 0x100 + raw[3] as nat
  }

  const XPUB: nat := 0x0488b21e
  const TPUB: nat := 0x043587cf

  /** The SLIP-132 version bytes and the BIP-32 standard each one stands in for. */
  function StandardVersion(version: nat): Option<nat> {
    if version == XPUB || version == 0x049d7cb2 || version == 0x04b24746 ||
       version == 0x0295b43f || version == 0x02aa7ed3 then Some(XPUB)
    else if version == TPUB || version == 0x044a5262 || version == 0x045f1cf6 ||
            version == 0x024289ef || version == 0x02575483 then Some(TPUB)
    else None
  }

  predicate IsExtendedPrefix(prefix: string) {
    prefix == "xpub" || prefix == "ypub" || prefix == "zpub" || prefix == "Ypub" || prefix == "Zpub" ||
    prefix == "tpub" || prefix == "upub" || prefix == "vpub" || prefix == "Upub" || prefix == "Vpub"
  }

  /** assertExtendedKey: four version bytes, 74 of payload and four of checksum. */
  function AssertExtendedKey(lib: Library, value: string): Result<seq<byte>, Refusal> {
    match lib.decode58(value)
    case None => Err(NotBase58)
    case Some(raw) =>
      if |raw| != 82 then Err(WrongKeyLength)
      else if lib.check4(raw[..78]) != raw[78..] then Err(WrongKeyChecksum)
      else if StandardVersion(Version(raw)).None? then Err(UnknownVersion)
      else if raw[45] != 2 && raw[45] != 3 then Err(NotCompressed)
      else if !lib.validPayload(raw[4..78]) then Err(NotAKey)
      else Ok(raw)
  }

  // ----- origins and suffixes

  /** parseOrigin: the [fingerprint/path] prefix and what follows it. */
  function ParseOrigin(input: string): Result<(Option<KeyOrigin>, string), Refusal> {
    if !StartsWith(input, "[") then Ok((None, input))
    else
      var close := IndexOf(input, ']');
      if close == -1 then Err(NoClosingBracket)
      else
        var origin :- ParseBracket(input[1..close]);
        Ok((Some(origin), input[close + 1..]))
  }

  function ParseBracket(inner: string): Result<KeyOrigin, Refusal> {
    var slash := IndexOf(inner, '/');
    var fingerprint := Lower(if slash == -1 then inner else inner[..slash]);
    if |fingerprint| != 8 || !AllHex(fingerprint) then Err(BadFingerprint)
    else
      var rawPath := if slash == -1 then "" else inner[slash + 1..];
      if 'H' in rawPath then Err(CapitalH)
      else if rawPath == "" then Ok(KeyOrigin(fingerprint, "m"))
      else match ParsePath("m/" + rawPath)
           case Ok(parsed) => Ok(KeyOrigin(fingerprint, parsed.canonical))
           case Err(_) => Err(BadOriginPath)
  }

  /** A hardened marker inside a descriptor, where H is refused. */
  predicate IsTick(c: char) {
    c == '\'' || c == 'h'
  }

  /** One alternative of a multipath element. */
  function ParseAlternative(option: string): (r: Result<nat, Refusal>)
    ensures r.Ok? ==> r.value < 2 * HARDENED_OFFSET
  {
    var hardened := option != "" && IsTick(option[|option| - 1]);
    var digits := if hardened then option[..|option| - 1] else option;
    if !AllDigits(digits) then Err(AlternativeNotANumber)
    else
      var index := ToNat(digits);
      if index >= HARDENED_OFFSET then Err(AlternativeOutOfRange)
      else Ok(if hardened then index + HARDENED_OFFSET else index)
  }

  function ParseAlternatives(options: seq<string>): (r: Result<seq<nat>, Refusal>)
    ensures r.Ok? ==> |r.value| == |options| && InRange(r.value)
  {
    if options == [] then Ok([])
    else
      var first :- ParseAlternative(options[0]);
      var rest :- ParseAlternatives(options[1..]);
      Ok([first] + rest)
  }

  /** No value twice: the set of the values is as large as the list. */
  predicate Distinct(values: seq<nat>) {
    forall i, j :: 0 <= i < j < |values| ==> values[i] != values[j]
  }

  /** The text between the angle brackets of a multipath element. */
  function ParseMultipath(element: string): Result<seq<nat>, Refusal> {
    var options := Split(element, ';');
    if |options| < 2 then Err(OneAlternative)
    else
      var values :- ParseAlternatives(options);
      if !Distinct(values) then Err(RepeatedAlternative) else Ok(values)
  }

  /** The suffix without its wildcard, with a multipath element replaced by a 0. */
  function TakeMultipath(working: string): Result<(string, Option<seq<nat>>), Refusal> {
    var open := IndexOf(working, '<');
    if open == -1 then Ok((working, None))
    else
      var close := IndexOf(working, '>');
      if close == -1 || close < open then Err(NoClosingAngle)
      else if close != |working| - 1 || '<' in working[open + 1..] then Err(MultipathNotLast)
      else
        var values :- ParseMultipath(working[open + 1..close]);
        Ok((working[..open] + "0" + working[close + 1..], Some(values)))
  }

  function ParseDerivation(suffix: string): Result<Derivation, Refusal> {
    if suffix == "" then Ok(Derivation("", false, None))
    else if 'H' in suffix then Err(CapitalH)
    else
      var ranged := EndsWith(suffix, "/*");
      if !ranged && (EndsWith(suffix, "/*'") || EndsWith(suffix, "/*h")) then Err(HardenedWildcard)
      else ParseWorking(if ranged then suffix[..|suffix| - 2] else suffix, ranged)
  }

  /** A suffix without its wildcard. */
  function ParseWorking(whole: string, ranged: bool): Result<Derivation, Refusal> {
    var (working, multipath) :- TakeMultipath(whole);
    if working == "" then Ok(Derivation("", ranged, multipath))
    else match ParsePath("m" + working)
         case Ok(parsed) => Ok(Derivation(parsed.canonical, ranged, multipath))
         case Err(_) => Err(BadDerivation)
  }

  /** parseDerivation step by step, cutting the wildcard and then the multipath element off a local copy. */
  method ReadDerivation(suffix: string) returns (r: Result<Derivation, Refusal>)
    ensures r == ParseDerivation(suffix)
  {
    hide IndexOf, ParsePath, ParseMultipath;
    if suffix == "" {
      return Ok(Derivation("", false, None));
    }
    if 'H' in suffix {
      return Err(CapitalH);
    }
    var working := suffix;
    var ranged := false;
    if EndsWith(working, "/*") {
      ranged := true;
      working := working[..|working| - 2];
    } else if EndsWith(working, "/*'") || EndsWith(working, "/*h") {
      return Err(HardenedWildcard);
    }
    var multipath: Option<seq<nat>> := None;
    var open := IndexOf(working, '<');
    if open != -1 {
      var close := IndexOf(working, '>');
      if close == -1 || close < open {
        return Err(NoClosingAngle);
      }
      if close != |working| - 1 || '<' in working[open + 1..] {
        return Err(MultipathNotLast);
      }
      var values := ParseMultipath(working[open + 1..close]);
      if values.Err? {
        return Err(values.error);
      }
      multipath := Some(values.value);
      working := working[..open] + "0" + working[close + 1..];
    }
    var path := "";
    if working != "" {
      var parsed := ParsePath("m" + working);
      if parsed.Err? {
        return Err(BadDerivation);
      }
      path := parsed.value.canonical;
    }
    return Ok(Derivation(path, ranged, multipath));
  }

  // ----- key expressions

  function ParseKeyExpression(lib: Library, input: string): Result<KeyExpression, Refusal> {
    var trimmed := Trim(input);
    if trimmed == "" then Err(EmptyKey)
    else
      var (origin, rest) :- ParseOrigin(trimmed);
      if rest == "" then Err(NoKeyAfterOrigin) else ParseKey(lib, origin, rest)
  }

  /** The key text of an expression and the derivation suffix after it. */
  function KeyText(rest: string): string {
    var slash := IndexOf(rest, '/');
    if slash == -1 then rest else rest[..slash]
  }

  function SuffixText(rest: string): string {
    var slash := IndexOf(rest, '/');
    if slash == -1 then "" else rest[slash..]
  }

  predicate LooksExtended(rest: string) {
    |rest| >= 4 && IsExtendedPrefix(rest[..4])
  }

  function ParseKey(lib: Library, origin: Option<KeyOrigin>, rest: string): Result<KeyExpression, Refusal>
    requires rest != ""
  {
    if LooksExtended(rest) then
      var _ :- AssertExtendedKey(lib, KeyText(rest));
      var d :- ParseDerivation(SuffixText(rest));
      Ok(ExtendedKey(origin, KeyText(rest), d.path, d.ranged, d.multipath))
    else if StartsWith(rest, "xprv") || StartsWith(rest, "tprv") then Err(PrivateKey)
    else if !AllHex(rest) then Err(NeitherKeyNorHex)
    else if |rest| != 64 && |rest| != 66 && |rest| != 130 then Err(WrongRawLength)
    else Ok(RawKey(origin, Lower(rest), |rest| / 2))
  }
}
