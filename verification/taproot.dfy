/**
 * Taproot addresses, and the quorum of either script kind:
 * packages/core/src/descriptor/taproot.ts, packages/core/src/descriptor/quorum-addresses.ts
 * and findOwnKey of packages/core/src/descriptor/multisig.ts.
 */
module Taproot {
  import opened Text
  import opened Keys
  import opened Script
  import opened RoundTrip
  import opened Placement
  import opened Descriptors
  import opened Order
  import opened Lists
  import opened Derive
  import opened Quorums

  // ----- the script tree at one index

  function XOnly(pubkey: seq<byte>): Result<seq<byte>, Refusal> {
    if |pubkey| == 32 then Ok(pubkey)
    else if |pubkey| == 33 then Ok(pubkey[1..33])
    else Err(UncompressedKey)
  }

  function XOnlyAt(lib: Library, curve: Curve, key: KeyExpression, index: nat, change: bool): Result<seq<byte>, Refusal> {
    var pubkey :- DerivePubkeyAt(lib, curve, key, index, change);
    XOnly(pubkey)
  }

  function LeafKeys(lib: Library, curve: Curve, keys: seq<KeyExpression>, sorted: bool, index: nat, change: bool):
    Result<seq<seq<byte>>, Refusal>
  {
    var derived :- MapOk(keys, key => XOnlyAt(lib, curve, key, index, change));
    Ok(if sorted then Sort(derived, AsInts) else derived)
  }

  function Tapscript(lib: Library, curve: Curve, node: ScriptNode, index: nat, change: bool): Result<TapLeaf, Refusal> {
    match node
    case KeyCall(Pk, key) =>
      var pubkey :- XOnlyAt(lib, curve, key, index, change);
      Ok(OneKey(pubkey))
    case Multisig(MultiA, threshold, keys) =>
      var ordered :- LeafKeys(lib, curve, keys, false, index, change);
      Ok(QuorumLeaf(threshold, ordered))
    case Multisig(SortedMultiA, threshold, keys) =>
      var ordered :- LeafKeys(lib, curve, keys, true, index, change);
      Ok(QuorumLeaf(threshold, ordered))
    case _ => Err(UnsupportedLeaf)
  }

  function BuildTree(lib: Library, curve: Curve, tree: TapTree, index: nat, change: bool): Result<LeafTree, Refusal> {
    match tree
    case Branch(left, right) =>
      var l :- BuildTree(lib, curve, left, index, change);
      var r :- BuildTree(lib, curve, right, index, change);
      Ok(LeafBranch(l, r))
    case Leaf(script) =>
      var leaf :- Tapscript(lib, curve, script, index, change);
      Ok(LeafScript(leaf))
  }

  // ----- the tree keeps its shape

  /** A tree with its leaves left out. */
  datatype Outline = Tip | Fork(left: Outline, right: Outline)

  function OutlineOf(tree: TapTree): Outline {
    match tree
    case Leaf(_) => Tip
    case Branch(left, right) => Fork(OutlineOf(left), OutlineOf(right))
  }

  function BuiltOutline(built: LeafTree): Outline {
    match built
    case LeafScript(_) => Tip
    case LeafBranch(left, right) => Fork(BuiltOutline(left), BuiltOutline(right))
  }

  /** The leaves of a built tree, left to right. */
  function BuiltLeaves(built: LeafTree): (leaves: seq<TapLeaf>)
    ensures leaves != []
  {
    match built
    case LeafScript(leaf) => [leaf]
    case LeafBranch(left, right) => BuiltLeaves(left) + BuiltLeaves(right)
  }

  /**
   * The built tree has the outline the descriptor wrote and, left to right, the
   * tapscripts of its leaves; it is refused only when one of them is.
   */
  lemma {:induction false} TreeKeepsShape(lib: Library, curve: Curve, tree: TapTree, index: nat, change: bool)
    ensures var built := BuildTree(lib, curve, tree, index, change);
            var leaves := MapOk(TapTreeLeaves(tree), leaf => Tapscript(lib, curve, leaf, index, change));
            && built.Ok? == leaves.Ok?
            && (built.Ok? ==> BuiltOutline(built.value) == OutlineOf(tree) && BuiltLeaves(built.value) == leaves.value)
    decreases tree
  {
    hide Tapscript;
    var f := leaf => Tapscript(lib, curve, leaf, index, change);
    match tree
    case Leaf(script) =>
      assert [script][1..] == [];
    case Branch(left, right) =>
      TreeKeepsShape(lib, curve, left, index, change);
      TreeKeepsShape(lib, curve, right, index, change);
      MapConcatOk(TapTreeLeaves(left), TapTreeLeaves(right), f);
  }

  lemma MapConcatOk<A, B, E>(a: seq<A>, b: seq<A>, f: A -> Result<B, E>)
    ensures MapOk(a + b, f).Ok? <==> MapOk(a, f).Ok? && MapOk(b, f).Ok?
    ensures MapOk(a + b, f).Ok? ==> MapOk(a + b, f).value == MapOk(a, f).value + MapOk(b, f).value
  {
    hide MapOk;
    MapOkEach(a + b, f);
    MapOkEach(a, f);
    MapOkEach(b, f);
    assert forall i :: 0 <= i < |a| ==> (a + b)[i] == a[i];
    assert forall i :: 0 <= i < |b| ==> (a + b)[|a| + i] == b[i];
    if MapOk(a, f).Ok? && MapOk(b, f).Ok? {
      MapOkConcat(a, b, f);
    }
  }

  /** An outline and its leaves are one tree: no other tree with these leaves in this order has this outline. */
  lemma {:induction false} OutlineDecides(a: LeafTree, b: LeafTree)
    requires BuiltOutline(a) == BuiltOutline(b) && BuiltLeaves(a) == BuiltLeaves(b)
    ensures a == b
    decreases a
  {
    match a
    case LeafScript(_) =>
      assert BuiltLeaves(a)[0] == BuiltLeaves(b)[0];
    case LeafBranch(left, right) =>
      SameCount(left, b.left);
      var n := |BuiltLeaves(left)|;
      assert BuiltLeaves(left) == BuiltLeaves(a)[..n] && BuiltLeaves(b.left) == BuiltLeaves(b)[..n];
      assert BuiltLeaves(right) == BuiltLeaves(a)[n..] && BuiltLeaves(b.right) == BuiltLeaves(b)[n..];
      OutlineDecides(left, b.left);
      OutlineDecides(right, b.right);
  }

  lemma {:induction false} SameCount(a: LeafTree, b: LeafTree)
    requires BuiltOutline(a) == BuiltOutline(b)
    ensures |BuiltLeaves(a)| == |BuiltLeaves(b)|
    decreases a
  {
    match a
    case LeafScript(_) =>
    case LeafBranch(left, right) =>
      SameCount(left, b.left);
      SameCount(right, b.right);
  }

  // ----- addresses

  datatype TaprootAddress = TaprootAddress(address: string, index: nat, hasScriptPath: bool)

  function TaprootAt(lib: Library, curve: Curve, encoder: Encoder, internal: KeyExpression, tree: Option<TapTree>,
                     index: nat, change: bool): Result<TaprootAddress, Refusal> {
    var key :- XOnlyAt(lib, curve, internal, index, change);
    if tree.None? then
      var address :- encoder.taproot(key, None);
      Ok(TaprootAddress(address, index, false))
    else
      var built :- BuildTree(lib, curve, tree.value, index, change);
      var address :- encoder.taproot(key, Some(built));
      Ok(TaprootAddress(address, index, true))
  }

  predicate LeavesSupported(tree: Option<TapTree>) {
    tree.Some? ==> forall i :: 0 <= i < |TapTreeLeaves(tree.value)| ==> SupportedLeaf(TapTreeLeaves(tree.value)[i])
  }

  function DeriveTaprootAddresses(lib: Library, curve: Curve, encoder: Encoder, script: ScriptNode,
                                  change: bool, start: nat, count: int): Result<seq<TaprootAddress>, Refusal> {
    if !script.Tr? then Err(NotMultisig)
    else if count < 0 || count > MAX_ADDRESSES then Err(TooManyAddresses)
    else if !LeavesSupported(script.tree) then Err(UnsupportedLeaf)
    else AddressRange(start, count, index => TaprootAt(lib, curve, encoder, script.internal, script.tree, index, change))
  }

  /** deriveTaprootAddresses: check every leaf, then push one address an index. */
  method DeriveTaprootAddressesLoop(lib: Library, curve: Curve, encoder: Encoder, script: ScriptNode,
                                    change: bool, start: nat, count: int)
    returns (r: Result<seq<TaprootAddress>, Refusal>)
    ensures r == DeriveTaprootAddresses(lib, curve, encoder, script, change, start, count)
  {
    hide AddressRange, SupportedLeaf, TapTreeLeaves, TaprootAt;
    if !script.Tr? {
      return Err(NotMultisig);
    }
    if count < 0 || count > MAX_ADDRESSES {
      return Err(TooManyAddresses);
    }
    if script.tree.Some? {
      var leaves := TapTreeLeaves(script.tree.value);
      for i := 0 to |leaves|
        invariant forall k :: 0 <= k < i ==> SupportedLeaf(leaves[k])
      {
        if !SupportedLeaf(leaves[i]) {
          return Err(UnsupportedLeaf);
        }
      }
    }
    ghost var at := index => TaprootAt(lib, curve, encoder, script.internal, script.tree, index, change);
    var out: seq<TaprootAddress> := [];
    RangeStart(start, count, at);
    for i := 0 to count
      invariant ContinueRange(out, AddressRange(start + i, count - i, at)) == AddressRange(start, count, at)
    {
      RangeFails(start + i, count - i, at);
      var entry := TaprootAt(lib, curve, encoder, script.internal, script.tree, start + i, change);
      if entry.Err? {
        return Err(entry.error);
      }
      RangeNext(out, start + i, count - i, at);
      out := out + [entry.value];
    }
    RangeEnd(out, start + count, at);
    return Ok(out);
  }

  /** On a descriptor the parser accepts, no leaf is ever refused for its kind. */
  lemma AcceptedLeaves(lib: Library, script: ScriptNode)
    requires Accepted(lib, script) && script.Tr?
    ensures LeavesSupported(script.tree)
  {
    hide NodeOk, OneTupleLength, CheckKeys, SupportedLeaf;
    if script.tree.Some? {
      TreeLeavesSupported(lib, script.tree.value, Under(false, true));
    }
  }

  /** So an accepted taproot descriptor derives exactly when every index in range does. */
  lemma AcceptedTaprootDerives(lib: Library, curve: Curve, encoder: Encoder, script: ScriptNode, change: bool, start: nat, count: int)
    requires Accepted(lib, script) && script.Tr?
    ensures DeriveTaprootAddresses(lib, curve, encoder, script, change, start, count).Ok? <==>
            && 0 <= count <= 1000
            && forall i: nat :: start <= i < start + count ==>
                 TaprootAt(lib, curve, encoder, script.internal, script.tree, i, change).Ok?
  {
    hide Accepted, AddressRange, TaprootAt, SupportedLeaf;
    AcceptedLeaves(lib, script);
    if 0 <= count <= MAX_ADDRESSES {
      var at := index => TaprootAt(lib, curve, encoder, script.internal, script.tree, index, change);
      RangeEach(start, count, at);
      assert forall i: nat :: at(i) == TaprootAt(lib, curve, encoder, script.internal, script.tree, i, change);
    }
  }

  /** Of a 33-byte key the last 32 bytes, a 32-byte key itself, and nothing else is taken. */
  predicate IsXOnly(x: seq<byte>, pubkey: seq<byte>) {
    |x| == 32 && (pubkey == x || (|pubkey| == 33 && pubkey[1..] == x))
  }

  lemma XOnlyMeans(pubkey: seq<byte>)
    ensures XOnly(pubkey).Ok? <==> |pubkey| == 32 || |pubkey| == 33
    ensures XOnly(pubkey).Ok? ==> IsXOnly(XOnly(pubkey).value, pubkey)
  {
    assert |pubkey| == 33 ==> pubkey[1..33] == pubkey[1..];
  }

  /** Every member's x coordinate at one index and side, in the written order. */
  ghost predicate CoordinatesAt(lib: Library, curve: Curve, keys: seq<KeyExpression>, index: nat, change: bool, xs: seq<seq<byte>>) {
    |xs| == |keys| && forall i :: 0 <= i < |keys| ==> CoordinateAt(lib, curve, keys[i], index, change, xs[i])
  }

  ghost predicate CoordinateAt(lib: Library, curve: Curve, key: KeyExpression, index: nat, change: bool, x: seq<byte>) {
    var pubkey := DerivePubkeyAt(lib, curve, key, index, change);
    pubkey.Ok? && IsXOnly(x, pubkey.value)
  }

  lemma CoordinateTaken(lib: Library, curve: Curve, key: KeyExpression, index: nat, change: bool)
    requires XOnlyAt(lib, curve, key, index, change).Ok?
    ensures CoordinateAt(lib, curve, key, index, change, XOnlyAt(lib, curve, key, index, change).value)
  {
    hide DerivePubkeyAt, XOnly, IsXOnly;
    XOnlyMeans(DerivePubkeyAt(lib, curve, key, index, change).value);
  }

  /**
   * The keys of a leaf at one index: every member derived at that very index
   * and cut to its x coordinate, in the written order for multi_a, and those
   * same keys in ascending byte order for sortedmulti_a.
   */
  ghost predicate KeysInLeaf(lib: Library, curve: Curve, keys: seq<KeyExpression>, sorted: bool, index: nat, change: bool,
                             ordered: seq<seq<byte>>) {
    if sorted then
      Lexicographic(ordered) &&
      exists xs :: CoordinatesAt(lib, curve, keys, index, change, xs) && multiset(ordered) == multiset(xs)
    else CoordinatesAt(lib, curve, keys, index, change, ordered)
  }

  lemma LeafKeysMean(lib: Library, curve: Curve, keys: seq<KeyExpression>, sorted: bool, index: nat, change: bool)
    ensures var r := LeafKeys(lib, curve, keys, sorted, index, change);
            && (r.Ok? <==> forall i :: 0 <= i < |keys| ==> XOnlyAt(lib, curve, keys[i], index, change).Ok?)
            && (r.Ok? ==> KeysInLeaf(lib, curve, keys, sorted, index, change, r.value))
  {
    hide XOnlyAt, MapOk, Sort, Lexicographic, CoordinateAt;
    var f := key => XOnlyAt(lib, curve, key, index, change);
    MapOkEach(keys, f);
    assert forall i :: 0 <= i < |keys| ==> f(keys[i]) == XOnlyAt(lib, curve, keys[i], index, change);
    if MapOk(keys, f).Ok? {
      var xs := MapOk(keys, f).value;
      SortedLexicographic(xs);
      forall i | 0 <= i < |keys|
        ensures CoordinateAt(lib, curve, keys[i], index, change, xs[i])
      {
        CoordinateTaken(lib, curve, keys[i], index, change);
      }
      assert CoordinatesAt(lib, curve, keys, index, change, xs);
    }
  }

  // ----- what the script writer is handed

  /** A tapscript of a leaf as it is written: its key, or its own threshold and its keys. */
  ghost predicate LeafMade(lib: Library, curve: Curve, node: ScriptNode, index: nat, change: bool, leaf: TapLeaf) {
    match leaf
    case OneKey(x) => exists key :: node == KeyCall(Pk, key) && CoordinateAt(lib, curve, key, index, change, x)
    case QuorumLeaf(threshold, ordered) =>
      exists keys, sorted :: node == Multisig(if sorted then SortedMultiA else MultiA, threshold, keys) &&
                             KeysInLeaf(lib, curve, keys, sorted, index, change, ordered)
  }

  /** A tree of tapscripts of the shape that is written, each leaf made from the script in its place. */
  ghost predicate TreeMade(lib: Library, curve: Curve, tree: TapTree, index: nat, change: bool, built: LeafTree) {
    match tree
    case Leaf(node) => built.LeafScript? && LeafMade(lib, curve, node, index, change, built.leaf)
    case Branch(left, right) =>
      built.LeafBranch? && TreeMade(lib, curve, left, index, change, built.left) && TreeMade(lib, curve, right, index, change, built.right)
  }

  lemma TapscriptMade(lib: Library, curve: Curve, node: ScriptNode, index: nat, change: bool)
    requires Tapscript(lib, curve, node, index, change).Ok?
    ensures LeafMade(lib, curve, node, index, change, Tapscript(lib, curve, node, index, change).value)
  {
    hide LeafKeys, XOnlyAt, KeysInLeaf, CoordinateAt;
    match node
    case KeyCall(Pk, key) => CoordinateTaken(lib, curve, key, index, change);
    case Multisig(MultiA, _, keys) =>
      LeafKeysMean(lib, curve, keys, false, index, change);
      assert node == Multisig(if false then SortedMultiA else MultiA, node.threshold, keys);
    case Multisig(SortedMultiA, _, keys) =>
      LeafKeysMean(lib, curve, keys, true, index, change);
      assert node == Multisig(if true then SortedMultiA else MultiA, node.threshold, keys);
    case _ => assert false;
  }

  lemma {:induction false} BuiltTreeMade(lib: Library, curve: Curve, tree: TapTree, index: nat, change: bool)
    requires BuildTree(lib, curve, tree, index, change).Ok?
    ensures TreeMade(lib, curve, tree, index, change, BuildTree(lib, curve, tree, index, change).value)
    decreases tree
  {
    hide Tapscript, LeafMade;
    match tree
    case Leaf(node) => TapscriptMade(lib, curve, node, index, change);
    case Branch(left, right) =>
      BuiltTreeMade(lib, curve, left, index, change);
      BuiltTreeMade(lib, curve, right, index, change);
  }

  /**
   * One taproot address: what the script writer makes of the internal key's x
   * coordinate and, where a tree is written, that tree at the same index.
   */
  ghost predicate TaprootMade(lib: Library, curve: Curve, encoder: Encoder, script: ScriptNode, change: bool, entry: TaprootAddress) {
    script.Tr? && entry.hasScriptPath == script.tree.Some? &&
    exists x :: CoordinateAt(lib, curve, script.internal, entry.index, change, x) &&
      if script.tree.None? then encoder.taproot(x, None) == Ok(entry.address)
      else exists built :: TreeMade(lib, curve, script.tree.value, entry.index, change, built) &&
                           encoder.taproot(x, Some(built)) == Ok(entry.address)
  }

  lemma TaprootAtMade(lib: Library, curve: Curve, encoder: Encoder, script: ScriptNode, index: nat, change: bool)
    requires script.Tr? && TaprootAt(lib, curve, encoder, script.internal, script.tree, index, change).Ok?
    ensures var entry := TaprootAt(lib, curve, encoder, script.internal, script.tree, index, change).value;
            entry.index == index && TaprootMade(lib, curve, encoder, script, change, entry)
  {
    hide XOnlyAt, BuildTree, TreeMade, CoordinateAt;
    CoordinateTaken(lib, curve, script.internal, index, change);
    if script.tree.Some? {
      BuiltTreeMade(lib, curve, script.tree.value, index, change);
    }
  }

  /** A run of taproot addresses: of each index in turn, the one the script writer makes of what the descriptor says. */
  lemma TaprootAddressesMade(lib: Library, curve: Curve, encoder: Encoder, script: ScriptNode, change: bool, start: nat, count: int)
    requires DeriveTaprootAddresses(lib, curve, encoder, script, change, start, count).Ok?
    ensures var entries := DeriveTaprootAddresses(lib, curve, encoder, script, change, start, count).value;
            && 0 <= count == |entries| <= 1000
            && forall i :: 0 <= i < count ==>
                 entries[i].index == start + i && TaprootMade(lib, curve, encoder, script, change, entries[i])
  {
    hide TaprootAt, TaprootMade, AddressRange, LeavesSupported;
    var at := (index: nat) => TaprootAt(lib, curve, encoder, script.internal, script.tree, index, change);
    RangeEach(start, count, at);
    assert forall i: nat :: at(i) == TaprootAt(lib, curve, encoder, script.internal, script.tree, i, change);
    var entries := DeriveTaprootAddresses(lib, curve, encoder, script, change, start, count).value;
    forall i | 0 <= i < count
      ensures entries[i].index == start + i && TaprootMade(lib, curve, encoder, script, change, entries[i])
    {
      assert TaprootAt(lib, curve, encoder, script.internal, script.tree, start + i, change).Ok?;
      TaprootAtMade(lib, curve, encoder, script, start + i, change);
    }
  }

  // ----- a sorted leaf does not depend on the order of its keys

  /** Two leaves with one meaning: equal, or sorted quorums of the same members. */
  ghost predicate SameLeaf(a: ScriptNode, b: ScriptNode) {
    a == b || (a.Multisig? && b.Multisig? && a.multi == b.multi == SortedMultiA && a.threshold == b.threshold &&
               multiset(a.keys) == multiset(b.keys))
  }

  /** One tree with the members of its sorted leaves written in another order. */
  ghost predicate SameTree(a: TapTree, b: TapTree) {
    match a
    case Leaf(x) => b.Leaf? && SameLeaf(x, b.script)
    case Branch(left, right) => b.Branch? && SameTree(left, b.left) && SameTree(right, b.right)
  }

  lemma LeafAgrees(lib: Library, curve: Curve, a: ScriptNode, b: ScriptNode, index: nat, change: bool)
    requires SameLeaf(a, b)
    ensures Agree(Tapscript(lib, curve, a, index, change), Tapscript(lib, curve, b, index, change))
  {
    hide LeafKeys, XOnlyAt;
    if a != b {
      LeafKeysAgree(lib, curve, a.keys, b.keys, index, change);
    }
  }

  lemma LeafKeysAgree(lib: Library, curve: Curve, a: seq<KeyExpression>, b: seq<KeyExpression>, index: nat, change: bool)
    requires multiset(a) == multiset(b)
    ensures Agree(LeafKeys(lib, curve, a, true, index, change), LeafKeys(lib, curve, b, true, index, change))
  {
    hide XOnlyAt, MapOk, Sort;
    var f := key => XOnlyAt(lib, curve, key, index, change);
    if MapOk(a, f).Ok? {
      MapOkBag(a, b, f);
      BytesDecide(MapOk(a, f).value);
      SortIgnoresOrder(MapOk(a, f).value, MapOk(b, f).value, AsInts);
    } else if MapOk(b, f).Ok? {
      MapOkBag(b, a, f);
    }
  }

  lemma {:induction false} TreeAgrees(lib: Library, curve: Curve, a: TapTree, b: TapTree, index: nat, change: bool)
    requires SameTree(a, b)
    ensures Agree(BuildTree(lib, curve, a, index, change), BuildTree(lib, curve, b, index, change))
    decreases a
  {
    hide Tapscript, SameLeaf;
    match a
    case Leaf(script) => LeafAgrees(lib, curve, script, b.script, index, change);
    case Branch(left, right) =>
      TreeAgrees(lib, curve, left, b.left, index, change);
      TreeAgrees(lib, curve, right, b.right, index, change);
  }

  lemma TaprootAgrees(lib: Library, curve: Curve, encoder: Encoder, internal: KeyExpression, a: TapTree, b: TapTree,
                      index: nat, change: bool)
    requires SameTree(a, b)
    ensures Agree(TaprootAt(lib, curve, encoder, internal, Some(a), index, change),
                  TaprootAt(lib, curve, encoder, internal, Some(b), index, change))
  {
    hide BuildTree, SameTree, XOnlyAt;
    TreeAgrees(lib, curve, a, b, index, change);
  }

  lemma {:induction false} SameTreeSupported(a: TapTree, b: TapTree)
    requires SameTree(a, b)
    ensures LeavesSupported(Some(a)) <==> LeavesSupported(Some(b))
    decreases a
  {
    match a
    case Leaf(_) =>
      assert TapTreeLeaves(a)[0] == a.script && TapTreeLeaves(b)[0] == b.script;
    case Branch(left, right) =>
      SameTreeSupported(left, b.left);
      SameTreeSupported(right, b.right);
      SupportedBranch(left, right);
      SupportedBranch(b.left, b.right);
  }

  lemma SupportedBranch(left: TapTree, right: TapTree)
    ensures LeavesSupported(Some(Branch(left, right))) <==> LeavesSupported(Some(left)) && LeavesSupported(Some(right))
  {
    hide SupportedLeaf;
    var l, r := TapTreeLeaves(left), TapTreeLeaves(right);
    assert TapTreeLeaves(Branch(left, right)) == l + r;
    assert forall i :: 0 <= i < |l| ==> (l + r)[i] == l[i];
    assert forall i :: 0 <= i < |r| ==> (l + r)[|l| + i] == r[i];
  }

  /** BIP-387: reordering the members of sorted leaves, at any depth, changes no address. */
  lemma TaprootAddressesAgree(lib: Library, curve: Curve, encoder: Encoder, internal: KeyExpression, a: TapTree, b: TapTree,
                              change: bool, start: nat, count: int)
    requires SameTree(a, b)
    ensures Agree(DeriveTaprootAddresses(lib, curve, encoder, Tr(internal, Some(a)), change, start, count),
                  DeriveTaprootAddresses(lib, curve, encoder, Tr(internal, Some(b)), change, start, count))
  {
    hide TaprootAt, AddressRange, LeavesSupported, SameTree;
    SameTreeSupported(a, b);
    if 0 <= count <= MAX_ADDRESSES {
      forall i: nat
        ensures Agree(TaprootAt(lib, curve, encoder, internal, Some(a), i, change),
                      TaprootAt(lib, curve, encoder, internal, Some(b), i, change))
      {
        TaprootAgrees(lib, curve, encoder, internal, a, b, i, change);
      }
      RangeAgrees(start, count, index => TaprootAt(lib, curve, encoder, internal, Some(a), index, change),
                  index => TaprootAt(lib, curve, encoder, internal, Some(b), index, change));
    }
  }

  // ----- the quorum of either kind

  predicate IsTapQuorum(node: ScriptNode) {
    node.Multisig? && (node.multi == MultiA || node.multi == SortedMultiA)
  }

  function QuorumLeaves(leaves: seq<ScriptNode>): (r: seq<ScriptNode>)
    ensures forall i :: 0 <= i < |r| ==> IsTapQuorum(r[i])
  {
    if leaves == [] then []
    else if IsTapQuorum(leaves[0]) then [leaves[0]] + QuorumLeaves(leaves[1..])
    else QuorumLeaves(leaves[1..])
  }

  datatype TapQuorum = TapQuorum(threshold: nat, total: nat, sorted: bool, keys: seq<KeyExpression>)

  /** The multisig leaf of a script tree, when there is exactly one. */
  function TaprootQuorum(script: ScriptNode): Result<Option<TapQuorum>, Refusal> {
    if !script.Tr? || script.tree.None? then Ok(None)
    else
      var multisig := QuorumLeaves(TapTreeLeaves(script.tree.value));
      if |multisig| == 0 then Ok(None)
      else if |multisig| > 1 then Err(SeveralQuorums)
      else
        var only := multisig[0];
        Ok(Some(TapQuorum(only.threshold, |only.keys|, only.multi == SortedMultiA, only.keys)))
  }

  lemma {:induction false} NoQuorumLeaves(leaves: seq<ScriptNode>)
    ensures QuorumLeaves(leaves) == [] <==> forall i :: 0 <= i < |leaves| ==> !IsTapQuorum(leaves[i])
  {
    hide IsTapQuorum;
    if leaves != [] {
      NoQuorumLeaves(leaves[1..]);
      assert forall i :: 0 <= i < |leaves[1..]| ==> leaves[1..][i] == leaves[i + 1];
      assert forall i :: 0 < i < |leaves| ==> leaves[i] == leaves[1..][i - 1];
    }
  }

  /** A summarised quorum is the one leaf of the tree that is a quorum. */
  lemma {:induction false} OnlyQuorumLeaf(leaves: seq<ScriptNode>) returns (i: nat)
    requires |QuorumLeaves(leaves)| == 1
    ensures i < |leaves| && QuorumLeaves(leaves) == [leaves[i]]
    ensures forall j :: 0 <= j < |leaves| ==> (IsTapQuorum(leaves[j]) <==> j == i)
  {
    hide IsTapQuorum;
    var rest := leaves[1..];
    assert forall j :: 0 < j < |leaves| ==> leaves[j] == rest[j - 1];
    if IsTapQuorum(leaves[0]) {
      NoQuorumLeaves(rest);
      i := 0;
    } else {
      var k := OnlyQuorumLeaf(rest);
      i := k + 1;
    }
  }

  /** A summary says what one leaf of the tree does. */
  ghost predicate SummaryOf(quorum: TapQuorum, leaf: ScriptNode) {
    && leaf.Multisig? && quorum.threshold == leaf.threshold && quorum.keys == leaf.keys && quorum.total == |leaf.keys|
    && (leaf.multi == SortedMultiA <==> quorum.sorted) && (leaf.multi == MultiA <==> !quorum.sorted)
  }

  lemma {:induction false} SeveralQuorumLeaves(leaves: seq<ScriptNode>) returns (i: nat, j: nat)
    requires |QuorumLeaves(leaves)| > 1
    ensures i < j < |leaves| && IsTapQuorum(leaves[i]) && IsTapQuorum(leaves[j])
  {
    hide IsTapQuorum;
    var rest := leaves[1..];
    if IsTapQuorum(leaves[0]) {
      NoQuorumLeaves(rest);
      var k: nat :| k < |rest| && IsTapQuorum(rest[k]);
      i, j := 0, k + 1;
    } else {
      var a, b := SeveralQuorumLeaves(rest);
      i, j := a + 1, b + 1;
    }
  }

  /**
   * What a script tree is summarised as: nothing without a quorum leaf, a
   * refusal exactly with several, and with one that leaf's threshold, keys and order.
   */
  lemma TaprootQuorumMeans(script: ScriptNode)
    requires script.Tr? && script.tree.Some?
    ensures var (leaves, r) := (TapTreeLeaves(script.tree.value), TaprootQuorum(script));
            && (r == Ok(None) <==> forall i :: 0 <= i < |leaves| ==> !IsTapQuorum(leaves[i]))
            && (r == Err(SeveralQuorums) <==>
                  exists i, j :: 0 <= i < j < |leaves| && IsTapQuorum(leaves[i]) && IsTapQuorum(leaves[j]))
            && (r.Ok? && r.value.Some? ==>
                  exists i :: 0 <= i < |leaves| && SummaryOf(r.value.value, leaves[i]) &&
                              forall j :: 0 <= j < |leaves| && j != i ==> !IsTapQuorum(leaves[j]))
  {
    hide IsTapQuorum, QuorumLeaves, SummaryOf, TapTreeLeaves;
    var leaves := TapTreeLeaves(script.tree.value);
    NoQuorumLeaves(leaves);
    if |QuorumLeaves(leaves)| == 1 {
      var i := OnlyQuorumLeaf(leaves);
      QuorumSummed(script, leaves[i]);
    } else if |QuorumLeaves(leaves)| > 1 {
      var i, j := SeveralQuorumLeaves(leaves);
    }
  }

  lemma QuorumSummed(script: ScriptNode, leaf: ScriptNode)
    requires script.Tr? && script.tree.Some? && QuorumLeaves(TapTreeLeaves(script.tree.value)) == [leaf]
    ensures TaprootQuorum(script).Ok? && TaprootQuorum(script).value.Some?
    ensures SummaryOf(TaprootQuorum(script).value.value, leaf)
  {
    hide QuorumLeaves, TapTreeLeaves;
    var multisig := QuorumLeaves(TapTreeLeaves(script.tree.value));
    assert multisig[0] == leaf && IsTapQuorum(multisig[0]);
  }

  /** The members of a quorum, of a multisig script or of the one quorum leaf of a tree. */
  function QuorumKeys(script: ScriptNode): Result<Option<seq<KeyExpression>>, Refusal> {
    if script.Tr? then
      var quorum :- TaprootQuorum(script);
      Ok(if quorum.Some? then Some(quorum.value.keys) else None)
    else
      Ok(if MultisigShape(script).Ok? then Some(MultisigShape(script).value.keys) else None)
  }

  /** A quorum's members, as they are written: those of a multisig script, or of the one quorum among a tree's leaves. */
  ghost predicate MembersWritten(script: ScriptNode, keys: seq<KeyExpression>) {
    if script.Tr? then script.tree.Some? && OnlyQuorum(TapTreeLeaves(script.tree.value), keys)
    else
      MultisigShape(script).Ok? && exists kind: Kind, sorted: bool, threshold: nat :: WrittenAs(script, kind, sorted, threshold, keys)
  }

  ghost predicate OnlyQuorum(leaves: seq<ScriptNode>, keys: seq<KeyExpression>) {
    exists i :: 0 <= i < |leaves| && QuorumWith(leaves[i], keys) && forall j :: 0 <= j < |leaves| && j != i ==> !IsTapQuorum(leaves[j])
  }

  ghost predicate TwoQuorums(leaves: seq<ScriptNode>) {
    exists i, j :: 0 <= i < j < |leaves| && IsTapQuorum(leaves[i]) && IsTapQuorum(leaves[j])
  }

  predicate QuorumWith(leaf: ScriptNode, keys: seq<KeyExpression>) {
    leaf.Multisig? && (leaf.multi == MultiA || leaf.multi == SortedMultiA) && leaf.keys == keys
  }

  lemma QuorumKeysMean(script: ScriptNode, keys: seq<KeyExpression>)
    ensures QuorumKeys(script) == Ok(Some(keys)) <==> MembersWritten(script, keys)
    ensures QuorumKeys(script).Err? <==> script.Tr? && script.tree.Some? && TwoQuorums(TapTreeLeaves(script.tree.value))
  {
    hide MultisigShape, WrittenAs, OnlyQuorum, TapTreeLeaves, QuorumLeaves, IsTapQuorum;
    if script.Tr? {
      if script.tree.Some? {
        TreeMembers(script, keys);
        TaprootQuorumMeans(script);
      }
    } else if MultisigShape(script).Ok? {
      ShapeWritten(script);
      WrittenOnce(script, keys);
    }
  }

  lemma WrittenOnce(script: ScriptNode, keys: seq<KeyExpression>)
    requires MultisigShape(script).Ok?
    ensures forall kind: Kind, sorted: bool, threshold: nat :: WrittenAs(script, kind, sorted, threshold, keys) ==>
              MultisigShape(script).value.keys == keys
  {
  }

  lemma TreeMembers(script: ScriptNode, keys: seq<KeyExpression>)
    requires script.Tr? && script.tree.Some?
    ensures QuorumKeys(script) == Ok(Some(keys)) <==> OnlyQuorum(TapTreeLeaves(script.tree.value), keys)
  {
    hide QuorumLeaves, TapTreeLeaves;
    var leaves := TapTreeLeaves(script.tree.value);
    NoQuorumLeaves(leaves);
    if |QuorumLeaves(leaves)| == 1 {
      var i := OnlyQuorumLeaf(leaves);
    } else if |QuorumLeaves(leaves)| > 1 {
      var i, j := SeveralQuorumLeaves(leaves);
    }
  }

  predicate IsOwn(lib: Library, key: KeyExpression, mine: string) {
    key.ExtendedKey? && KeyPayload(lib, key.xpub) == mine
  }

  /** findOwnKey: the first position that carries this device's account key. */
  method FindOwnKey(lib: Library, script: ScriptNode, accountXpub: string) returns (r: Result<Option<nat>, Refusal>)
    ensures QuorumKeys(script).Err? ==> r == Err(QuorumKeys(script).error)
    ensures QuorumKeys(script) == Ok(None) ==> r == Ok(None)
    ensures QuorumKeys(script).Ok? && QuorumKeys(script).value.Some? ==>
              r == Ok(OwnPosition(lib, QuorumKeys(script).value.value, KeyPayload(lib, accountXpub)))
  {
    var keys := QuorumKeys(script);
    if keys.Err? {
      return Err(keys.error);
    }
    if keys.value.None? {
      return Ok(None);
    }
    var mine := KeyPayload(lib, accountXpub);
    for i := 0 to |keys.value.value|
      invariant forall k :: 0 <= k < i ==> !IsOwn(lib, keys.value.value[k], mine)
    {
      if IsOwn(lib, keys.value.value[i], mine) {
        OwnAt(lib, keys.value.value, mine, i);
        return Ok(Some(i));
      }
    }
    OwnNowhere(lib, keys.value.value, mine);
    return Ok(None);
  }

  function OwnPosition(lib: Library, keys: seq<KeyExpression>, mine: string): (r: Option<nat>)
    ensures r.Some? ==> r.value < |keys| && IsOwn(lib, keys[r.value], mine)
  {
    if keys == [] then None
    else if IsOwn(lib, keys[0], mine) then Some(0)
    else match OwnPosition(lib, keys[1..], mine)
         case None => None
         case Some(i) => Some(i + 1)
  }

  lemma {:induction false} OwnAt(lib: Library, keys: seq<KeyExpression>, mine: string, i: nat)
    requires i < |keys| && IsOwn(lib, keys[i], mine) && forall k :: 0 <= k < i ==> !IsOwn(lib, keys[k], mine)
    ensures OwnPosition(lib, keys, mine) == Some(i)
    decreases i, keys
  {
    hide IsOwn;
    if i > 0 {
      assert forall k :: 0 <= k < i - 1 ==> keys[1..][k] == keys[k + 1];
      OwnAt(lib, keys[1..], mine, i - 1);
    }
  }

  lemma {:induction false} OwnNowhere(lib: Library, keys: seq<KeyExpression>, mine: string)
    requires forall k :: 0 <= k < |keys| ==> !IsOwn(lib, keys[k], mine)
    ensures OwnPosition(lib, keys, mine) == None
  {
    hide IsOwn;
    if keys != [] {
      OwnNowhere(lib, keys[1..], mine);
    }
  }

  // ----- one place to ask for a quorum's addresses

  datatype QuorumAddress = QuorumAddress(address: string, index: nat)

  function QuorumAddressAt(lib: Library, curve: Curve, encoder: Encoder, script: ScriptNode, index: nat, change: bool):
    Result<QuorumAddress, Refusal>
  {
    if script.Tr? then
      var entry :- TaprootAt(lib, curve, encoder, script.internal, script.tree, index, change);
      Ok(QuorumAddress(entry.address, entry.index))
    else
      var shape :- MultisigShape(script);
      var entry :- AddressAt(lib, curve, encoder, shape, index, change);
      Ok(QuorumAddress(entry.address, entry.index))
  }

  function DeriveQuorumAddresses(lib: Library, curve: Curve, encoder: Encoder, script: ScriptNode,
                                 change: bool, start: nat, count: int): Result<seq<QuorumAddress>, Refusal> {
    if script.Tr? then
      var entries :- DeriveTaprootAddresses(lib, curve, encoder, script, change, start, count);
      Ok(seq(|entries|, i requires 0 <= i < |entries| => QuorumAddress(entries[i].address, entries[i].index)))
    else
      var entries :- DeriveMultisigAddresses(lib, curve, encoder, script, change, start, count);
      Ok(seq(|entries|, i requires 0 <= i < |entries| => QuorumAddress(entries[i].address, entries[i].index)))
  }

  /** Each entry of a quorum's list is the address of its own index, derived on its own. */
  lemma QuorumAddressesEach(lib: Library, curve: Curve, encoder: Encoder, script: ScriptNode, change: bool, start: nat, count: int)
    requires DeriveQuorumAddresses(lib, curve, encoder, script, change, start, count).Ok?
    ensures var entries := DeriveQuorumAddresses(lib, curve, encoder, script, change, start, count).value;
            && 0 <= count == |entries|
            && forall i :: 0 <= i < count ==>
                 entries[i].index == start + i && QuorumAddressAt(lib, curve, encoder, script, start + i, change) == Ok(entries[i])
  {
    hide MultisigShape, AddressRange, BuildTree, LeavesSupported, OrderedKeys, XOnlyAt;
    if script.Tr? {
      RangeEach(start, count, index => TaprootAt(lib, curve, encoder, script.internal, script.tree, index, change));
    } else {
      RangeEach(start, count, index => AddressAt(lib, curve, encoder, MultisigShape(script).value, index, change));
    }
  }

  /** An entry of a quorum's list is made from its script, of either kind, at its own index. */
  ghost predicate QuorumMade(lib: Library, curve: Curve, encoder: Encoder, script: ScriptNode, change: bool, entry: QuorumAddress) {
    if script.Tr? then TaprootMade(lib, curve, encoder, script, change, TaprootAddress(entry.address, entry.index, script.tree.Some?))
    else exists pubkeys :: AddressMade(lib, curve, encoder, script, change, MultisigAddress(entry.address, entry.index, pubkeys))
  }

  lemma QuorumAddressMade(lib: Library, curve: Curve, encoder: Encoder, script: ScriptNode, index: nat, change: bool)
    requires QuorumAddressAt(lib, curve, encoder, script, index, change).Ok?
    ensures var entry := QuorumAddressAt(lib, curve, encoder, script, index, change).value;
            entry.index == index && QuorumMade(lib, curve, encoder, script, change, entry)
  {
    hide TaprootAt, AddressAt, MultisigShape, AddressMade;
    if script.Tr? {
      TaprootAtMade(lib, curve, encoder, script, index, change);
      TaprootFlag(lib, curve, encoder, script, index, change);
    } else {
      AddressAtMade(lib, curve, encoder, script, index, change);
      var made := AddressAt(lib, curve, encoder, MultisigShape(script).value, index, change).value;
      assert made == MultisigAddress(made.address, made.index, made.pubkeys);
    }
  }

  lemma TaprootFlag(lib: Library, curve: Curve, encoder: Encoder, script: ScriptNode, index: nat, change: bool)
    requires script.Tr? && TaprootAt(lib, curve, encoder, script.internal, script.tree, index, change).Ok?
    ensures TaprootAt(lib, curve, encoder, script.internal, script.tree, index, change).value.hasScriptPath == script.tree.Some?
  {
    hide XOnlyAt, BuildTree;
  }
}
