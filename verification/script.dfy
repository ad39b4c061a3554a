/** Script expressions: packages/core/src/descriptor/parse.ts, lines 82 to 183 and 544 to 653. */
module Script {
  import opened Text
  import opened Path
  import opened Keys
  import opened Canonical
  import opened Arguments

  datatype KeyFunction = Pk | Pkh | Wpkh | Combo
  datatype Wrapper = Sh | Wsh
  datatype MultiFunction = Multi | SortedMulti | MultiA | SortedMultiA

  datatype ScriptNode =
    | KeyCall(fn: KeyFunction, key: KeyExpression)
    | Wrapped(wrapper: Wrapper, inner: ScriptNode)
    | Tr(internal: KeyExpression, tree: Option<TapTree>)
    | Multisig(multi: MultiFunction, threshold: nat, keys: seq<KeyExpression>)
    | Addr(address: string)
    | RawScript(hex: string)

  /** What follows the internal key of tr(): one script, or two trees in braces. */
  datatype TapTree = Leaf(script: ScriptNode) | Branch(left: TapTree, right: TapTree)

  // ----- function names

  function KeyName(fn: KeyFunction): string {
    match fn
    case Pk => "pk"
    case Pkh => "pkh"
    case Wpkh => "wpkh"
    case Combo => "combo"
  }

  function WrapperName(wrapper: Wrapper): string {
    match wrapper
    case Sh => "sh"
    case Wsh => "wsh"
  }

  function MultiName(multi: MultiFunction): string {
    match multi
    case Multi => "multi"
    case SortedMulti => "sortedmulti"
    case MultiA => "multi_a"
    case SortedMultiA => "sortedmulti_a"
  }

  datatype Function = OfKey(fn: KeyFunction) | OfScript(wrapper: Wrapper) | OfTr | OfMulti(multi: MultiFunction) | OfAddr | OfRaw

  function Name(f: Function): string {
    match f
    case OfKey(fn) => KeyName(fn)
    case OfScript(wrapper) => WrapperName(wrapper)
    case OfTr => "tr"
    case OfMulti(multi) => MultiName(multi)
    case OfAddr => "addr"
    case OfRaw => "raw"
  }

  function FunctionOf(name: string): Option<Function> {
    if name == "pk" then Some(OfKey(Pk))
    else if name == "pkh" then Some(OfKey(Pkh))
    else if name == "wpkh" then Some(OfKey(Wpkh))
    else if name == "combo" then Some(OfKey(Combo))
    else if name == "sh" then Some(OfScript(Sh))
    else if name == "wsh" then Some(OfScript(Wsh))
    else if name == "tr" then Some(OfTr)
    else if name == "multi" then Some(OfMulti(Multi))
    else if name == "sortedmulti" then Some(OfMulti(SortedMulti))
    else if name == "multi_a" then Some(OfMulti(MultiA))
    else if name == "sortedmulti_a" then Some(OfMulti(SortedMultiA))
    else if name == "addr" then Some(OfAddr)
    else if name == "raw" then Some(OfRaw)
    else None
  }

  // ----- the parser

  function ParseKeys(lib: Library, parts: seq<string>): (r: Result<seq<KeyExpression>, Refusal>)
    ensures r.Ok? ==> |r.value| == |parts|
  {
    if parts == [] then Ok([])
    else
      var first :- ParseKeyExpression(lib, parts[0]);
      var rest :- ParseKeys(lib, parts[1..]);
      Ok([first] + rest)
  }

  function ParseThreshold(raw: string, keyCount: nat): (r: Result<nat, Refusal>)
    ensures r.Ok? ==> 1 <= r.value <= keyCount
  {
    if !AllDigits(raw) then Err(BadThreshold)
    else
      var threshold := ToNat(raw);
      if threshold < 1 || threshold > keyCount then Err(BadThreshold) else Ok(threshold)
  }

  function ParseMulti(lib: Library, multi: MultiFunction, parts: seq<string>): Result<ScriptNode, Refusal> {
    if |parts| < 2 then Err(WrongArguments)
    else
      var keys :- ParseKeys(lib, parts[1..]);
      var threshold :- ParseThreshold(Trim(parts[0]), |keys|);
      Ok(Multisig(multi, threshold, keys))
  }

  function ParseAddr(parts: seq<string>): Result<ScriptNode, Refusal> {
    if |parts| != 1 || Trim(parts[0]) == "" then Err(WrongArguments) else Ok(Addr(Trim(parts[0])))
  }

  function ParseRaw(parts: seq<string>): Result<ScriptNode, Refusal> {
    if |parts| != 1 || Trim(parts[0]) == "" || !AllHex(Trim(parts[0])) then Err(WrongArguments)
    else Ok(RawScript(Lower(Trim(parts[0]))))
  }

  function ParseKeyCall(lib: Library, fn: KeyFunction, parts: seq<string>): Result<ScriptNode, Refusal> {
    if |parts| != 1 then Err(WrongArguments)
    else
      var key :- ParseKeyExpression(lib, parts[0]);
      Ok(KeyCall(fn, key))
  }

  /** The name before the first bracket and the text up to the last one. */
  function CallParts(trimmed: string): (r: Option<(string, string)>)
    ensures r.Some? ==> |r.value.1| < |trimmed|
  {
    var open := IndexOf(trimmed, '(');
    if open == -1 || trimmed[|trimmed| - 1] != ')' then None
    else Some((trimmed[..open], trimmed[open + 1..|trimmed| - 1]))
  }

  function ParseScript(lib: Library, input: string): Result<ScriptNode, Refusal>
    decreases |input|, 0
  {
    match CallParts(Trim(input))
    case None => Err(NotAScript)
    case Some((name, arguments)) =>
      match FunctionOf(name)
      case None => Err(UnknownFunction)
      case Some(f) => ParseCall(lib, f, arguments)
  }

  function ParseCall(lib: Library, f: Function, arguments: string): Result<ScriptNode, Refusal>
    decreases |arguments|, 2
  {
    var parts := SplitArguments(arguments);
    PartsShort(arguments, TOP, "");
    match f
    case OfKey(fn) => ParseKeyCall(lib, fn, parts)
    case OfTr =>
      if |parts| > 2 then Err(WrongArguments)
      else
        var key :- ParseKeyExpression(lib, parts[0]);
        if |parts| == 1 then Ok(Tr(key, None))
        else
          var tree :- ParseTapTree(lib, parts[1]);
          Ok(Tr(key, Some(tree)))
    case OfScript(wrapper) =>
      if |parts| != 1 then Err(WrongArguments)
      else
        var inner :- ParseScript(lib, parts[0]);
        Ok(Wrapped(wrapper, inner))
    case OfMulti(multi) => ParseMulti(lib, multi, parts)
    case OfAddr => ParseAddr(parts)
    case OfRaw => ParseRaw(parts)
  }

  function ParseTapTree(lib: Library, input: string): Result<TapTree, Refusal>
    decreases |input|, 1
  {
    var trimmed := Trim(input);
    if trimmed == "" || trimmed[0] != '{' then
      var script :- ParseScript(lib, trimmed);
      Ok(Leaf(script))
    else if trimmed[|trimmed| - 1] != '}' then Err(UnclosedTree)
    else ParseBranch(lib, trimmed[1..|trimmed| - 1])
  }

  /** The two subtrees between a pair of braces. */
  function ParseBranch(lib: Library, inside: string): Result<TapTree, Refusal>
    decreases |inside|, 2
  {
    var children := SplitArguments(inside);
    PartsShort(inside, TOP, "");
    if |children| != 2 then Err(NotBinary)
    else
      var left :- ParseTapTree(lib, children[0]);
      var right :- ParseTapTree(lib, children[1]);
      Ok(Branch(left, right))
  }

  // ----- the printer

  function PathSteps(path: string): seq<nat> {
    match ParsePath(path)
    case Ok(parsed) => parsed.indices
    case Err(_) => []
  }

  /** The suffix that denotes a derivation, with a multipath element as its last step. */
  function PrintDerivation(path: string, ranged: bool, multipath: Option<seq<nat>>): string {
    var steps := PathSteps(path);
    (if multipath.Some? && steps != [] then
       StepsText(steps[..|steps| - 1]) + "/<" + Join(StepTexts(multipath.value), ';') + ">"
     else StepsText(steps)) +
    (if ranged then "/*" else "")
  }

  function PrintKey(key: KeyExpression): string {
    OriginText(key.origin) +
    (if key.ExtendedKey? then key.xpub + PrintDerivation(key.path, key.ranged, key.multipath) else key.hex)
  }

  function PrintKeys(keys: seq<KeyExpression>): (r: seq<string>)
    ensures |r| == |keys|
  {
    if keys == [] then [] else [PrintKey(keys[0])] + PrintKeys(keys[1..])
  }

  /** A call: a name and its arguments, joined by commas, in brackets. */
  function CallText(f: Function, parts: seq<string>): string {
    Name(f) + "(" + Join(parts, ',') + ")"
  }

  function PrintNode(node: ScriptNode): string {
    match node
    case KeyCall(fn, key) => CallText(OfKey(fn), [PrintKey(key)])
    case Wrapped(wrapper, inner) => CallText(OfScript(wrapper), [PrintNode(inner)])
    case Tr(internal, None) => CallText(OfTr, [PrintKey(internal)])
    case Tr(internal, Some(tree)) => CallText(OfTr, [PrintKey(internal), PrintTree(tree)])
    case Multisig(multi, threshold, keys) => CallText(OfMulti(multi), [OfNat(threshold)] + PrintKeys(keys))
    case Addr(address) => CallText(OfAddr, [address])
    case RawScript(hex) => CallText(OfRaw, [hex])
  }

  function PrintTree(tree: TapTree): string {
    match tree
    case Leaf(script) => PrintNode(script)
    case Branch(left, right) => "{" + Join([PrintTree(left), PrintTree(right)], ',') + "}"
  }
}
