/** Script trees printed and read back: packages/core/src/descriptor/parse.ts, lines 557 to 653 and 934 to 956. */
module RoundTrip {
  import opened Text
  import opened Keys
  import opened Canonical
  import opened Arguments
  import opened Script
  import opened KeyPrinting

  ghost predicate KeysOk(lib: Library, keys: seq<KeyExpression>) {
    forall i :: 0 <= i < |keys| ==> KeyOk(lib, keys[i])
  }

  /**
   * A tree whose every part the parser could have returned. The parser takes
   * any text for an address; strictly, it is the plain text an address is.
   */
  ghost predicate NodeOk(lib: Library, node: ScriptNode, strict: bool) {
    match node
    case KeyCall(_, key) => KeyOk(lib, key)
    case Wrapped(_, inner) => NodeOk(lib, inner, strict)
    case Tr(internal, tree) => KeyOk(lib, internal) && (tree.Some? ==> TreeOk(lib, tree.value, strict))
    case Multisig(_, threshold, keys) => 1 <= threshold <= |keys| && KeysOk(lib, keys)
    case Addr(address) => address != "" && (strict ==> AllAlphanumeric(address))
    case RawScript(hex) => hex != "" && AllHex(hex) && Lower(hex) == hex
  }

  ghost predicate TreeOk(lib: Library, tree: TapTree, strict: bool) {
    match tree
    case Leaf(script) => NodeOk(lib, script, strict)
    case Branch(left, right) => TreeOk(lib, left, strict) && TreeOk(lib, right, strict)
  }

  function SettledKeys(keys: seq<KeyExpression>): (r: seq<KeyExpression>)
    ensures |r| == |keys|
  {
    if keys == [] then [] else [Settled(keys[0])] + SettledKeys(keys[1..])
  }

  /** The tree with every key settled; its shape is the same. */
  function SettledNode(node: ScriptNode): ScriptNode {
    match node
    case KeyCall(fn, key) => KeyCall(fn, Settled(key))
    case Wrapped(wrapper, inner) => Wrapped(wrapper, SettledNode(inner))
    case Tr(internal, None) => Tr(Settled(internal), None)
    case Tr(internal, Some(tree)) => Tr(Settled(internal), Some(SettledTree(tree)))
    case Multisig(multi, threshold, keys) => Multisig(multi, threshold, SettledKeys(keys))
    case _ => node
  }

  function SettledTree(tree: TapTree): TapTree {
    match tree
    case Leaf(script) => Leaf(SettledNode(script))
    case Branch(left, right) => Branch(SettledTree(left), SettledTree(right))
  }

  // ----- calls

  predicate NameChar(c: char) {
    'a' <= c <= 'z' || c == '_'
  }

  lemma NameShape(f: Function)
    ensures Name(f) != "" && forall c :: c in Name(f) ==> NameChar(c)
  {
  }

  lemma NameKnown(f: Function)
    ensures FunctionOf(Name(f)) == Some(f)
  {
  }

  lemma NamePlain(name: string)
    requires name != "" && forall c :: c in name ==> NameChar(c)
    ensures Plain(name) && '(' !in name && !IsSpace(name[0]) && name[0] != '{'
  {
    assert name[0] in name;
    forall i | 0 <= i < |name|
      ensures PlainChar(name[i])
    {
      assert name[i] in name;
    }
  }

  lemma CallPieces(name: string, arguments: string)
    requires name != "" && '(' !in name && !IsSpace(name[0]) && name[0] != '{'
    ensures var text := name + "(" + arguments + ")";
            CallParts(text) == Some((name, arguments)) && Trimmed(text) && text != "" && text[0] != '{'
  {
    hide IndexOf;
    var text := name + "(" + arguments + ")";
    assert forall k :: 0 <= k < |name| ==> text[k] == name[k];
    IndexOfAt(text, '(', |name|);
    assert text[..|name|] == name;
    assert text[|name| + 1..|text| - 1] == arguments;
  }

  ghost predicate AllWhole(parts: seq<string>) {
    forall i :: 0 <= i < |parts| ==> Whole(parts[i])
  }

  /** Text the parser reads by name and arguments, and that stands whole in a list. */
  ghost predicate ReadsAs(lib: Library, text: string, node: Result<ScriptNode, Refusal>) {
    text != "" && Trimmed(text) && text[0] != '{' && Whole(text) && ParseScript(lib, text) == node
  }

  lemma CallReads(lib: Library, f: Function, parts: seq<string>)
    requires parts != [] && AllWhole(parts)
    ensures ReadsAs(lib, CallText(f, parts), ParseCall(lib, f, Join(parts, ',')))
    ensures SplitArguments(Join(parts, ',')) == parts
  {
    hide Whole, Safe, Walk, Plain, CallParts, Name, FunctionOf, Join, ParseCall, SplitArguments, Trimmed;
    var arguments := Join(parts, ',');
    NameShape(f);
    NameKnown(f);
    NamePlain(Name(f));
    CallPieces(Name(f), arguments);
    WholeSplits(parts);
    CallWhole(Name(f), parts);
  }

  lemma CallWhole(name: string, parts: seq<string>)
    requires Plain(name) && AllWhole(parts)
    ensures Whole(name + "(" + Join(parts, ',') + ")")
  {
    hide Whole, Safe, Walk, Plain, Join;
    var d := After(TOP, '(');
    ListSafe(parts, d);
    NothingPlain();
    BracketedWhole(name, '(', Join(parts, ','), ')', "");
    assert name + ['('] + Join(parts, ',') + [')'] + "" == name + "(" + Join(parts, ',') + ")";
  }

  // ----- each kind of call

  lemma KeyCallReads(lib: Library, fn: KeyFunction, key: KeyExpression)
    requires KeyOk(lib, key)
    ensures ReadsAs(lib, CallText(OfKey(fn), [PrintKey(key)]), Ok(KeyCall(fn, Settled(key))))
  {
    hide KeyOk, Whole, CallText, PrintKey, ParseKeyExpression, Settled, ReadsAs, Join, SplitArguments;
    KeyWhole(lib, key);
    KeyReads(lib, key);
    CallReads(lib, OfKey(fn), [PrintKey(key)]);
  }

  lemma {:induction false} KeysRead(lib: Library, keys: seq<KeyExpression>)
    requires KeysOk(lib, keys)
    ensures AllWhole(PrintKeys(keys)) && ParseKeys(lib, PrintKeys(keys)) == Ok(SettledKeys(keys))
  {
    hide KeyOk, Whole, PrintKey, ParseKeyExpression, Settled;
    if keys != [] {
      KeyWhole(lib, keys[0]);
      KeyReads(lib, keys[0]);
      KeysRead(lib, keys[1..]);
      assert PrintKeys(keys)[1..] == PrintKeys(keys[1..]);
    }
  }

  lemma NumberWhole(n: nat)
    ensures Whole(OfNat(n)) && Trim(OfNat(n)) == OfNat(n)
  {
    hide OfNat, Safe, Walk, TrimStart, TrimEnd;
    var text := OfNat(n);
    forall i | 0 <= i < |text|
      ensures PlainChar(text[i])
    {
      assert IsDigit(text[i]);
    }
    PlainWhole(text);
    assert IsDigit(text[0]) && IsDigit(text[|text| - 1]);
  }

  lemma MultisigReads(lib: Library, multi: MultiFunction, threshold: nat, keys: seq<KeyExpression>)
    requires 1 <= threshold <= |keys| && KeysOk(lib, keys)
    ensures ReadsAs(lib, CallText(OfMulti(multi), [OfNat(threshold)] + PrintKeys(keys)),
                    Ok(Multisig(multi, threshold, SettledKeys(keys))))
  {
    hide KeysOk, Whole, CallText, PrintKeys, ParseKeys, SettledKeys, ReadsAs, Join, SplitArguments, OfNat, Trim, ToNat;
    KeysRead(lib, keys);
    NumberWhole(threshold);
    NatRoundTrip(threshold);
    var parts := [OfNat(threshold)] + PrintKeys(keys);
    CallReads(lib, OfMulti(multi), parts);
    assert parts[1..] == PrintKeys(keys);
    assert ParseMulti(lib, multi, parts) == Ok(Multisig(multi, threshold, SettledKeys(keys)));
  }

  lemma PlainTextReads(text: string)
    requires text != "" && AllAlphanumeric(text)
    ensures Whole(text) && Trim(text) == text
  {
    hide Safe, Walk, TrimStart, TrimEnd;
    forall i | 0 <= i < |text|
      ensures PlainChar(text[i])
    {
      assert IsAlphanumeric(text[i]);
    }
    PlainWhole(text);
    assert IsAlphanumeric(text[0]) && IsAlphanumeric(text[|text| - 1]);
  }

  lemma AddrReads(lib: Library, address: string)
    requires address != "" && AllAlphanumeric(address)
    ensures ReadsAs(lib, CallText(OfAddr, [address]), Ok(Addr(address)))
  {
    hide Whole, CallText, ReadsAs, Join, SplitArguments, Trim;
    PlainTextReads(address);
    CallReads(lib, OfAddr, [address]);
  }

  lemma RawScriptReads(lib: Library, hex: string)
    requires hex != "" && AllHex(hex) && Lower(hex) == hex
    ensures ReadsAs(lib, CallText(OfRaw, [hex]), Ok(RawScript(hex)))
  {
    hide Whole, CallText, ReadsAs, Join, SplitArguments, Trim, Lower;
    assert AllAlphanumeric(hex) by {
      assert forall i :: 0 <= i < |hex| ==> IsHexDigit(hex[i]);
    }
    PlainTextReads(hex);
    CallReads(lib, OfRaw, [hex]);
  }

  lemma WrappedReads(lib: Library, wrapper: Wrapper, inner: ScriptNode, text: string)
    requires ReadsAs(lib, text, Ok(inner))
    ensures ReadsAs(lib, CallText(OfScript(wrapper), [text]), Ok(Wrapped(wrapper, inner)))
  {
    hide Whole, CallText, Join, SplitArguments, Trimmed;
    CallReads(lib, OfScript(wrapper), [text]);
    hide ParseScript;
    WrappedParse(lib, wrapper, Join([text], ','), text);
  }

  lemma WrappedParse(lib: Library, wrapper: Wrapper, arguments: string, text: string)
    requires SplitArguments(arguments) == [text]
    ensures ParseCall(lib, OfScript(wrapper), arguments) ==
            var inner := ParseScript(lib, text);
            if inner.Ok? then Ok(Wrapped(wrapper, inner.value)) else Err(inner.error)
  {
    hide SplitArguments;
  }

  lemma TrParse(lib: Library, arguments: string, parts: seq<string>)
    requires SplitArguments(arguments) == parts && 1 <= |parts| <= 2 && ParseKeyExpression(lib, parts[0]).Ok?
    ensures |parts| == 1 ==> ParseCall(lib, OfTr, arguments) == Ok(Tr(ParseKeyExpression(lib, parts[0]).value, None))
    ensures |parts| == 2 ==> ParseCall(lib, OfTr, arguments) ==
                             var tree := ParseTapTree(lib, parts[1]);
                             if tree.Ok? then Ok(Tr(ParseKeyExpression(lib, parts[0]).value, Some(tree.value))) else Err(tree.error)
  {
    hide SplitArguments, ParseKeyExpression;
  }

  lemma KeyPathReads(lib: Library, internal: KeyExpression)
    requires KeyOk(lib, internal)
    ensures ReadsAs(lib, CallText(OfTr, [PrintKey(internal)]), Ok(Tr(Settled(internal), None)))
  {
    hide KeyOk, Whole, CallText, PrintKey, ParseKeyExpression, Settled, ReadsAs, Join, SplitArguments, ParseCall;
    KeyWhole(lib, internal);
    KeyReads(lib, internal);
    CallReads(lib, OfTr, [PrintKey(internal)]);
    TrParse(lib, Join([PrintKey(internal)], ','), [PrintKey(internal)]);
  }

  /** Tree text the parser reads. */
  ghost predicate TreeReadsAs(lib: Library, text: string, tree: TapTree) {
    Whole(text) && ParseTapTree(lib, text) == Ok(tree)
  }

  lemma ScriptPathReads(lib: Library, internal: KeyExpression, tree: TapTree, text: string)
    requires KeyOk(lib, internal) && TreeReadsAs(lib, text, tree)
    ensures ReadsAs(lib, CallText(OfTr, [PrintKey(internal), text]), Ok(Tr(Settled(internal), Some(tree))))
  {
    hide KeyOk, Whole, CallText, PrintKey, ParseKeyExpression, Settled, ReadsAs, Join, SplitArguments, ParseCall, ParseTapTree;
    KeyWhole(lib, internal);
    KeyReads(lib, internal);
    var parts := [PrintKey(internal), text];
    CallReads(lib, OfTr, parts);
    TrParse(lib, Join(parts, ','), parts);
  }

  // ----- trees

  lemma LeafReads(lib: Library, node: ScriptNode, text: string)
    requires ReadsAs(lib, text, Ok(node))
    ensures TreeReadsAs(lib, text, Leaf(node))
  {
    hide Whole, ParseScript;
  }

  lemma BranchPieces(left: string, right: string)
    ensures var text := "{" + Join([left, right], ',') + "}";
            Trimmed(text) && text != "" && text[0] == '{' && text[|text| - 1] == '}' &&
            text[1..|text| - 1] == Join([left, right], ',')
  {
    hide Join;
  }

  lemma BranchParse(lib: Library, text: string, left: string, right: string)
    requires Trimmed(text) && text != "" && text[0] == '{' && text[|text| - 1] == '}'
    requires SplitArguments(text[1..|text| - 1]) == [left, right]
    ensures ParseTapTree(lib, text) ==
            var l, r := ParseTapTree(lib, left), ParseTapTree(lib, right);
            if l.Err? then Err(l.error) else if r.Err? then Err(r.error) else Ok(Branch(l.value, r.value))
  {
    hide ParseTapTree, ParseBranch, SplitArguments, Trimmed;
    BraceParse(lib, text);
    ChildrenParse(lib, text[1..|text| - 1], left, right);
  }

  lemma BraceParse(lib: Library, text: string)
    requires Trimmed(text) && text != "" && text[0] == '{' && text[|text| - 1] == '}'
    ensures ParseTapTree(lib, text) == ParseBranch(lib, text[1..|text| - 1])
  {
    hide ParseScript, Trim, Trimmed, ParseBranch;
    assert Trim(text) == text;
  }

  lemma ChildrenParse(lib: Library, inside: string, left: string, right: string)
    requires SplitArguments(inside) == [left, right]
    ensures ParseBranch(lib, inside) ==
            var l, r := ParseTapTree(lib, left), ParseTapTree(lib, right);
            if l.Err? then Err(l.error) else if r.Err? then Err(r.error) else Ok(Branch(l.value, r.value))
  {
    hide SplitArguments, ParseTapTree;
  }

  lemma BranchReads(lib: Library, l: TapTree, r: TapTree, left: string, right: string)
    requires TreeReadsAs(lib, left, l) && TreeReadsAs(lib, right, r)
    ensures TreeReadsAs(lib, "{" + Join([left, right], ',') + "}", Branch(l, r))
  {
    hide Whole, Safe, Walk, Plain, Join, SplitArguments, ParseTapTree, Trimmed;
    var parts := [left, right];
    var text := "{" + Join(parts, ',') + "}";
    WholeSplits(parts);
    BranchPieces(left, right);
    BranchParse(lib, text, left, right);
    ListSafe(parts, After(TOP, '{'));
    NothingPlain();
    BracketedWhole("", '{', Join(parts, ','), '}', "");
    assert "" + ['{'] + Join(parts, ',') + ['}'] + "" == text;
  }

  /**
   * Printing any tree and parsing the text gives the tree back with every key
   * settled: the same calls, the same nesting, the same taproot tree shape.
   */
  lemma {:induction false} NodeReads(lib: Library, node: ScriptNode)
    requires NodeOk(lib, node, true)
    ensures ReadsAs(lib, PrintNode(node), Ok(SettledNode(node)))
    decreases node
  {
    hide KeyOk, KeysOk, ReadsAs, TreeReadsAs, CallText, PrintKey, PrintKeys, Settled, SettledKeys, AllHex, AllAlphanumeric, Lower, OfNat;
    match node
    case KeyCall(fn, key) => KeyCallReads(lib, fn, key);
    case Wrapped(wrapper, inner) =>
      NodeReads(lib, inner);
      WrappedReads(lib, wrapper, SettledNode(inner), PrintNode(inner));
    case Tr(internal, None) => KeyPathReads(lib, internal);
    case Tr(internal, Some(tree)) =>
      TreeReads(lib, tree);
      ScriptPathReads(lib, internal, SettledTree(tree), PrintTree(tree));
    case Multisig(multi, threshold, keys) => MultisigReads(lib, multi, threshold, keys);
    case Addr(address) => AddrReads(lib, address);
    case RawScript(hex) => RawScriptReads(lib, hex);
  }

  lemma {:induction false} TreeReads(lib: Library, tree: TapTree)
    requires TreeOk(lib, tree, true)
    ensures TreeReadsAs(lib, PrintTree(tree), SettledTree(tree))
    decreases tree
  {
    hide ReadsAs, TreeReadsAs, Join;
    match tree
    case Leaf(script) =>
      NodeReads(lib, script);
      LeafReads(lib, SettledNode(script), PrintNode(script));
    case Branch(left, right) =>
      TreeReads(lib, left);
      TreeReads(lib, right);
      BranchReads(lib, SettledTree(left), SettledTree(right), PrintTree(left), PrintTree(right));
  }

  // ----- what the parser returns

  lemma {:induction false} ParsedKeysOk(lib: Library, parts: seq<string>)
    requires Lawful(lib) && ParseKeys(lib, parts).Ok?
    ensures KeysOk(lib, ParseKeys(lib, parts).value)
  {
    hide KeyOk, ParseKeyExpression, Lawful;
    if parts != [] {
      ParsedKeyOk(lib, parts[0]);
      ParsedKeysOk(lib, parts[1..]);
    }
  }

  lemma ParsedMultiOk(lib: Library, multi: MultiFunction, parts: seq<string>)
    requires Lawful(lib) && ParseMulti(lib, multi, parts).Ok?
    ensures NodeOk(lib, ParseMulti(lib, multi, parts).value, false)
  {
    hide ParseKeys, KeysOk, Lawful, Trim, ToNat;
    ParsedKeysOk(lib, parts[1..]);
  }

  lemma ParsedRawOk(lib: Library, parts: seq<string>)
    requires ParseRaw(parts).Ok?
    ensures NodeOk(lib, ParseRaw(parts).value, false)
  {
    hide Trim;
    LowerHex(Trim(parts[0]));
    LowerTwice(Trim(parts[0]));
  }

  lemma ParsedKeyCallOk(lib: Library, fn: KeyFunction, parts: seq<string>)
    requires Lawful(lib) && ParseKeyCall(lib, fn, parts).Ok?
    ensures NodeOk(lib, ParseKeyCall(lib, fn, parts).value, false)
  {
    hide ParseKeyExpression, KeyOk, Lawful;
    ParsedKeyOk(lib, parts[0]);
  }

  /** Every tree the parser returns is made of parts that can be printed. */
  lemma {:induction false} ParsedNodeOk(lib: Library, input: string)
    requires Lawful(lib) && ParseScript(lib, input).Ok?
    ensures NodeOk(lib, ParseScript(lib, input).value, false)
    decreases |input|, 0
  {
    hide ParseCall, NodeOk, CallParts, FunctionOf, Lawful;
    var (name, arguments) := CallParts(Trim(input)).value;
    ParsedCallOk(lib, FunctionOf(name).value, arguments);
  }

  lemma {:induction false} ParsedCallOk(lib: Library, f: Function, arguments: string)
    requires Lawful(lib) && ParseCall(lib, f, arguments).Ok?
    ensures NodeOk(lib, ParseCall(lib, f, arguments).value, false)
    decreases |arguments|, 2
  {
    hide ParseScript, ParseTapTree, KeyOk, KeysOk, SplitArguments, ParseKeyExpression, ParseMulti, ParseKeyCall, ParseRaw, Lawful;
    var parts := SplitArguments(arguments);
    ShortParts(arguments);
    match f
    case OfKey(fn) => ParsedKeyCallOk(lib, fn, parts);
    case OfTr =>
      ParsedKeyOk(lib, parts[0]);
      if |parts| == 2 {
        ParsedTreeOk(lib, parts[1]);
      }
    case OfScript(wrapper) => ParsedNodeOk(lib, parts[0]);
    case OfMulti(multi) => ParsedMultiOk(lib, multi, parts);
    case OfAddr =>
    case OfRaw => ParsedRawOk(lib, parts);
  }

  lemma ShortParts(arguments: string)
    ensures forall i :: 0 <= i < |SplitArguments(arguments)| ==> |SplitArguments(arguments)[i]| <= |arguments|
  {
    hide SplitFrom;
    PartsShort(arguments, TOP, "");
  }

  lemma {:induction false} ParsedTreeOk(lib: Library, input: string)
    requires Lawful(lib) && ParseTapTree(lib, input).Ok?
    ensures TreeOk(lib, ParseTapTree(lib, input).value, false)
    decreases |input|, 1
  {
    hide ParseScript, ParseBranch, NodeOk, Lawful;
    var trimmed := Trim(input);
    if trimmed == "" || trimmed[0] != '{' {
      ParsedNodeOk(lib, trimmed);
    } else {
      ParsedBranchOk(lib, trimmed[1..|trimmed| - 1]);
    }
  }

  lemma {:induction false} ParsedBranchOk(lib: Library, inside: string)
    requires Lawful(lib) && ParseBranch(lib, inside).Ok?
    ensures TreeOk(lib, ParseBranch(lib, inside).value, false)
    decreases |inside|, 2
  {
    hide ParseTapTree, SplitArguments, NodeOk, Lawful;
    var children := SplitArguments(inside);
    ShortParts(inside);
    ParsedTreeOk(lib, children[0]);
    ParsedTreeOk(lib, children[1]);
  }
}
