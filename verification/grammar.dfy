/**
 * The language of script expressions, word by word, as the "Specification"
 * sections of BIP-380 to BIP-387 write it, and that the parser of
 * packages/core/src/descriptor/parse.ts, lines 558 to 653, reads exactly it.
 */
module Grammar {
  import opened Text
  import opened Keys
  import opened Arguments
  import opened Script
  import opened RoundTrip

  /** A call: a word, and in brackets arguments cut at every comma outside all brackets. */
  predicate IsCall(text: string, word: string, parts: seq<string>) {
    '(' !in word && parts != [] && PartsOf(parts) && text == word + "(" + Join(parts, ',') + ")"
  }

  /** What each word and its arguments mean. */
  ghost predicate Means(lib: Library, word: string, parts: seq<string>, node: ScriptNode) {
    match node
    case KeyCall(fn, key) =>
      word == (match fn case Pk => "pk" case Pkh => "pkh" case Wpkh => "wpkh" case Combo => "combo") &&
      |parts| == 1 && ParseKeyExpression(lib, parts[0]) == Ok(key)
    case Wrapped(wrapper, inner) =>
      word == (match wrapper case Sh => "sh" case Wsh => "wsh") && |parts| == 1 && ParseScript(lib, parts[0]) == Ok(inner)
    case Tr(internal, tree) =>
      word == "tr" && |parts| == (if tree.None? then 1 else 2) && ParseKeyExpression(lib, parts[0]) == Ok(internal) &&
      (tree.Some? ==> ParseTapTree(lib, parts[1]) == Ok(tree.value))
    case Multisig(multi, threshold, keys) =>
      word == (match multi case Multi => "multi" case SortedMulti => "sortedmulti"
               case MultiA => "multi_a" case SortedMultiA => "sortedmulti_a") &&
      MultiMeans(lib, parts, threshold, keys)
    case Addr(address) => word == "addr" && |parts| == 1 && address == Trim(parts[0]) != ""
    case RawScript(hex) => word == "raw" && |parts| == 1 && hex == Lower(Trim(parts[0])) != "" && AllHex(Trim(parts[0]))
  }

  /** A threshold first, then at least as many keys. */
  ghost predicate MultiMeans(lib: Library, parts: seq<string>, threshold: nat, keys: seq<KeyExpression>) {
    && |parts| == |keys| + 1 && 1 <= threshold <= |keys|
    && AllDigits(Trim(parts[0])) && threshold == ToNat(Trim(parts[0]))
    && forall i :: 0 <= i < |keys| ==> ParseKeyExpression(lib, parts[i + 1]) == Ok(keys[i])
  }

  // ----- the parser reads it

  lemma CallSplits(text: string, word: string, arguments: string)
    requires text != "" && CallParts(text) == Some((word, arguments))
    ensures '(' !in word && text == word + "(" + arguments + ")"
  {
    hide IndexOf;
    var open := IndexOf(text, '(');
    assert text[|text| - 1] == ')' && open < |text| - 1;
    assert text == text[..open] + [text[open]] + text[open + 1..|text| - 1] + [text[|text| - 1]];
  }

  lemma CallIs(text: string, word: string, parts: seq<string>)
    requires Trimmed(text) && text != ""
    ensures IsCall(text, word, parts) <==>
            CallParts(text) == Some((word, Join(parts, ','))) && parts != [] && SplitArguments(Join(parts, ',')) == parts
  {
    hide PartsOf, Join, SplitArguments, CallParts, Trimmed;
    if parts != [] {
      SplitCounts(Join(parts, ','), parts);
      if IsCall(text, word, parts) {
        CallFound(text, word, Join(parts, ','));
      }
      if CallParts(text) == Some((word, Join(parts, ','))) {
        CallSplits(text, word, Join(parts, ','));
      }
    }
  }

  lemma CallFound(text: string, word: string, arguments: string)
    requires '(' !in word && text == word + "(" + arguments + ")"
    ensures CallParts(text) == Some((word, arguments))
  {
    hide IndexOf;
    assert forall k :: 0 <= k < |word| ==> text[k] == word[k];
    IndexOfAt(text, '(', |word|);
    assert text[..|word|] == word && text[|word| + 1..|text| - 1] == arguments;
  }

  lemma Words()
    ensures FunctionOf("pk") == Some(OfKey(Pk)) && FunctionOf("pkh") == Some(OfKey(Pkh)) && FunctionOf("wpkh") == Some(OfKey(Wpkh))
    ensures FunctionOf("combo") == Some(OfKey(Combo)) && FunctionOf("sh") == Some(OfScript(Sh)) && FunctionOf("wsh") == Some(OfScript(Wsh))
    ensures FunctionOf("tr") == Some(OfTr) && FunctionOf("addr") == Some(OfAddr) && FunctionOf("raw") == Some(OfRaw)
    ensures FunctionOf("multi") == Some(OfMulti(Multi)) && FunctionOf("sortedmulti") == Some(OfMulti(SortedMulti))
    ensures FunctionOf("multi_a") == Some(OfMulti(MultiA)) && FunctionOf("sortedmulti_a") == Some(OfMulti(SortedMultiA))
  {
  }

  /** No word but the thirteen. */
  lemma OnlyWords(word: string)
    ensures FunctionOf(word).Some? ==>
              word in ["pk", "pkh", "wpkh", "combo", "sh", "wsh", "tr", "multi", "sortedmulti", "multi_a", "sortedmulti_a", "addr", "raw"]
  {
  }

  lemma {:induction false} KeysMean(lib: Library, parts: seq<string>, keys: seq<KeyExpression>)
    ensures ParseKeys(lib, parts) == Ok(keys) <==>
            |parts| == |keys| && forall i :: 0 <= i < |keys| ==> ParseKeyExpression(lib, parts[i]) == Ok(keys[i])
    decreases |parts|
  {
    hide ParseKeyExpression;
    if parts != [] && keys != [] {
      KeysMean(lib, parts[1..], keys[1..]);
      assert keys == [keys[0]] + keys[1..];
      assert forall i :: 0 < i < |parts| ==> parts[i] == parts[1..][i - 1];
      assert forall i :: 0 < i < |keys| ==> keys[i] == keys[1..][i - 1];
      assert forall i :: 0 <= i < |keys| - 1 ==> keys[1..][i] == keys[i + 1];
      assert forall i :: 0 <= i < |parts| - 1 ==> parts[1..][i] == parts[i + 1];
    }
  }

  lemma MultiReads(lib: Library, multi: MultiFunction, parts: seq<string>, threshold: nat, keys: seq<KeyExpression>)
    requires parts != []
    ensures ParseMulti(lib, multi, parts) == Ok(Multisig(multi, threshold, keys)) <==> MultiMeans(lib, parts, threshold, keys)
  {
    hide ParseKeyExpression, ParseKeys, Trim, ToNat;
    KeysMean(lib, parts[1..], keys);
    assert forall i :: 0 <= i < |parts| - 1 ==> parts[1..][i] == parts[i + 1];
  }

  lemma CallMeans(lib: Library, f: Function, arguments: string, node: ScriptNode)
    ensures ParseCall(lib, f, arguments) == Ok(node) <==> FunctionMeans(lib, f, SplitArguments(arguments), node)
  {
    hide ParseKeyExpression, ParseScript, ParseTapTree, SplitArguments, ParseMulti, Trim, Lower, AllHex;
    var parts := SplitArguments(arguments);
    if node.Multisig? {
      MultiReads(lib, node.multi, parts, node.threshold, node.keys);
    }
    MultiKind(lib, f, parts);
  }

  lemma MultiKind(lib: Library, f: Function, parts: seq<string>)
    ensures f.OfMulti? && ParseMulti(lib, f.multi, parts).Ok? ==>
              ParseMulti(lib, f.multi, parts).value.Multisig? && ParseMulti(lib, f.multi, parts).value.multi == f.multi
  {
    hide ParseKeys, ParseThreshold, Trim;
  }

  /** The same meaning, once the word is recognised. */
  ghost predicate FunctionMeans(lib: Library, f: Function, parts: seq<string>, node: ScriptNode) {
    match node
    case KeyCall(fn, key) => f == OfKey(fn) && |parts| == 1 && ParseKeyExpression(lib, parts[0]) == Ok(key)
    case Wrapped(wrapper, inner) => f == OfScript(wrapper) && |parts| == 1 && ParseScript(lib, parts[0]) == Ok(inner)
    case Tr(internal, tree) =>
      f == OfTr && |parts| == (if tree.None? then 1 else 2) && ParseKeyExpression(lib, parts[0]) == Ok(internal) &&
      (tree.Some? ==> ParseTapTree(lib, parts[1]) == Ok(tree.value))
    case Multisig(multi, threshold, keys) => f == OfMulti(multi) && MultiMeans(lib, parts, threshold, keys)
    case Addr(address) => f == OfAddr && |parts| == 1 && address == Trim(parts[0]) != ""
    case RawScript(hex) => f == OfRaw && |parts| == 1 && hex == Lower(Trim(parts[0])) != "" && AllHex(Trim(parts[0]))
  }

  lemma WordMeans(lib: Library, word: string, parts: seq<string>, node: ScriptNode)
    ensures Means(lib, word, parts, node) <==>
            FunctionOf(word).Some? && FunctionMeans(lib, FunctionOf(word).value, parts, node)
  {
    hide ParseKeyExpression, ParseScript, ParseTapTree, MultiMeans, FunctionOf, Trim, Lower, AllHex;
    Words();
    WordBack(word);
  }

  lemma WordBack(word: string)
    ensures FunctionOf(word).Some? ==> word == Name(FunctionOf(word).value)
    ensures forall f :: FunctionOf(Name(f)) == Some(f)
  {
    forall f
      ensures FunctionOf(Name(f)) == Some(f)
    {
      NameKnown(f);
    }
  }

  /**
   * What the parser reads, exactly: white space around aside, a text is a
   * script if and only if it is one of the thirteen words with arguments that
   * mean one, and then it is that script.
   */
  lemma ScriptMeans(lib: Library, input: string, node: ScriptNode)
    ensures ParseScript(lib, input) == Ok(node) <==>
            exists word, parts :: IsCall(Trim(input), word, parts) && Means(lib, word, parts, node)
  {
    hide ParseCall, CallParts, FunctionOf, Means, IsCall, Trim, SplitArguments, FunctionMeans, Join;
    var text := Trim(input);
    if text == "" {
      NothingCalled(lib, node);
    } else {
      if ParseScript(lib, input) == Ok(node) {
        var (word, arguments) := CallParts(text).value;
        var parts := SplitArguments(arguments);
        SplitCounts(arguments, parts);
        CallMeans(lib, FunctionOf(word).value, arguments, node);
        WordMeans(lib, word, parts, node);
        CallIs(text, word, parts);
      }
      if word, parts :| IsCall(text, word, parts) && Means(lib, word, parts, node) {
        CallIs(text, word, parts);
        WordMeans(lib, word, parts, node);
        CallMeans(lib, FunctionOf(word).value, Join(parts, ','), node);
      }
    }
  }

  lemma NothingCalled(lib: Library, node: ScriptNode)
    ensures forall word, parts :: !IsCall("", word, parts)
    ensures CallParts("") == None
  {
  }

  // ----- script trees

  /**
   * What the parser reads as a script tree, exactly: two trees in braces, left
   * and right of the one comma outside all brackets, or a script.
   */
  lemma TreeMeans(lib: Library, input: string, tree: TapTree)
    ensures ParseTapTree(lib, input) == Ok(tree) <==>
            match tree
            case Leaf(script) => !StartsWith(Trim(input), "{") && ParseScript(lib, Trim(input)) == Ok(script)
            case Branch(left, right) =>
              exists a, b :: PartsOf([a, b]) && Trim(input) == "{" + a + "," + b + "}" &&
                             ParseTapTree(lib, a) == Ok(left) && ParseTapTree(lib, b) == Ok(right)
  {
    hide ParseScript, Trim, SplitArguments, PartsOf, ParseTapTree, ParseBranch, StartsWith;
    TreeReads(lib, input);
    BraceFirst(Trim(input));
    match tree
    case Leaf(_) =>
      if |Trim(input)| >= 2 {
        BranchReads(lib, Trim(input)[1..|Trim(input)| - 1]);
      }
    case Branch(left, right) =>
      if ParseTapTree(lib, input) == Ok(tree) {
        BranchIsBraces(lib, Trim(input), tree);
      }
      if a, b :| PartsOf([a, b]) && Trim(input) == "{" + a + "," + b + "}" &&
                 ParseTapTree(lib, a) == Ok(left) && ParseTapTree(lib, b) == Ok(right) {
        BracesAreBranch(lib, Trim(input), a, b);
      }
  }

  lemma BracesAreBranch(lib: Library, text: string, a: string, b: string)
    requires PartsOf([a, b]) && text == "{" + a + "," + b + "}" && ParseTapTree(lib, a).Ok? && ParseTapTree(lib, b).Ok?
    ensures |text| >= 2 && text[0] == '{' && text[|text| - 1] == '}'
    ensures ParseBranch(lib, text[1..|text| - 1]) == Ok(Branch(ParseTapTree(lib, a).value, ParseTapTree(lib, b).value))
  {
    hide ParseTapTree, ParseBranch, SplitArguments, PartsOf, Join;
    var inside := text[1..|text| - 1];
    JoinTwo(a, b);
    assert inside == a + "," + b;
    SplitCounts(inside, [a, b]);
    BranchReads(lib, inside);
  }

  lemma BraceFirst(text: string)
    ensures StartsWith(text, "{") <==> text != "" && text[0] == '{'
  {
    assert text != "" ==> text[..1] == [text[0]];
  }

  lemma BranchIsBraces(lib: Library, text: string, tree: TapTree)
    requires |text| >= 2 && text[0] == '{' && text[|text| - 1] == '}' && tree.Branch?
    requires ParseBranch(lib, text[1..|text| - 1]) == Ok(tree)
    ensures exists a, b :: PartsOf([a, b]) && text == "{" + a + "," + b + "}" &&
                           ParseTapTree(lib, a) == Ok(tree.left) && ParseTapTree(lib, b) == Ok(tree.right)
  {
    hide ParseTapTree, ParseBranch, SplitArguments, PartsOf, Join;
    var inside := text[1..|text| - 1];
    var parts := SplitArguments(inside);
    BranchReads(lib, inside);
    SplitCounts(inside, parts);
    var a, b := parts[0], parts[1];
    assert parts == [a, b];
    JoinTwo(a, b);
    assert text == [text[0]] + inside + [text[|text| - 1]];
  }

  lemma JoinTwo(a: string, b: string)
    ensures Join([a, b], ',') == a + "," + b
  {
    assert [a, b][1..] == [b];
  }

  lemma TreeReads(lib: Library, input: string)
    ensures var text := Trim(input);
            ParseTapTree(lib, input) ==
            if text == "" || text[0] != '{' then
              match ParseScript(lib, text) case Ok(script) => Ok(Leaf(script)) case Err(e) => Err(e)
            else if text[|text| - 1] != '}' then Err(UnclosedTree)
            else ParseBranch(lib, text[1..|text| - 1])
  {
    hide ParseScript, ParseBranch, Trim;
  }

  lemma BranchReads(lib: Library, inside: string)
    ensures var parts := SplitArguments(inside);
            ParseBranch(lib, inside).Ok? <==> |parts| == 2 && ParseTapTree(lib, parts[0]).Ok? && ParseTapTree(lib, parts[1]).Ok?
    ensures var parts := SplitArguments(inside);
            ParseBranch(lib, inside).Ok? ==>
              ParseBranch(lib, inside).value == Branch(ParseTapTree(lib, parts[0]).value, ParseTapTree(lib, parts[1]).value)
  {
    hide ParseTapTree, SplitArguments;
  }
}
