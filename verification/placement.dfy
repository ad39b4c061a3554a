/** Where a script may sit and which keys it may hold: packages/core/src/descriptor/parse.ts, lines 758 to 990. */
module Placement {
  import opened Text
  import opened Keys
  import opened Script

  datatype Place = AtTop | InSh | InWsh | InTr

  /** Whether a node lies anywhere under wsh() or tr(). */
  datatype Under = Under(wsh: bool, tr: bool)

  /** The longest redeem script a bare sh() may commit to, in bytes (BIP-383). */
  const MAX_SCRIPT_ELEMENT: nat := 520

  // ----- leaves and keys

  /** The scripts at the leaves of a tree, from left to right. */
  function TapTreeLeaves(tree: TapTree): seq<ScriptNode> {
    match tree
    case Leaf(script) => [script]
    case Branch(left, right) => TapTreeLeaves(left) + TapTreeLeaves(right)
  }

  /** The keys of a whole descriptor, as they are written. */
  function DescriptorKeys(node: ScriptNode): seq<KeyExpression> {
    match node
    case KeyCall(_, key) => [key]
    case Wrapped(_, inner) => DescriptorKeys(inner)
    case Tr(internal, None) => [internal]
    case Tr(internal, Some(tree)) => [internal] + TreeKeys(tree)
    case Multisig(_, _, keys) => keys
    case _ => []
  }

  /** The keys of every leaf, in order. */
  function TreeKeys(tree: TapTree): seq<KeyExpression> {
    match tree
    case Leaf(script) => DescriptorKeys(script)
    case Branch(left, right) => TreeKeys(left) + TreeKeys(right)
  }

  predicate KeyRanged(key: KeyExpression) {
    key.ExtendedKey? && key.ranged
  }

  /** A script with a wildcard in one of its keys, at any depth. */
  predicate IsRanged(node: ScriptNode) {
    match node
    case KeyCall(_, key) => KeyRanged(key)
    case Wrapped(_, inner) => IsRanged(inner)
    case Tr(internal, tree) => KeyRanged(internal) || (tree.Some? && TreeRanged(tree.value))
    case Multisig(_, _, keys) => exists i :: 0 <= i < |keys| && KeyRanged(keys[i])
    case _ => false
  }

  predicate TreeRanged(tree: TapTree) {
    match tree
    case Leaf(script) => IsRanged(script)
    case Branch(left, right) => TreeRanged(left) || TreeRanged(right)
  }

  /** The recursion over the tree answers for exactly the keys of the descriptor. */
  lemma {:induction false} RangedMeansSomeKey(node: ScriptNode)
    ensures IsRanged(node) <==> exists key :: key in DescriptorKeys(node) && key.ExtendedKey? && key.ranged
    decreases node
  {
    match node
    case KeyCall(_, key) => assert key in DescriptorKeys(node);
    case Wrapped(_, inner) => RangedMeansSomeKey(inner);
    case Tr(internal, None) => assert internal in DescriptorKeys(node);
    case Tr(internal, Some(tree)) =>
      assert internal in DescriptorKeys(node);
      TreeRangedMeansSomeKey(tree);
      assert forall key :: key in TreeKeys(tree) ==> key in DescriptorKeys(node);
    case Multisig(_, _, keys) =>
      assert forall i :: 0 <= i < |keys| ==> keys[i] in keys;
    case _ =>
  }

  lemma {:induction false} TreeRangedMeansSomeKey(tree: TapTree)
    ensures TreeRanged(tree) <==> exists key :: key in TreeKeys(tree) && key.ExtendedKey? && key.ranged
    decreases tree
  {
    match tree
    case Leaf(script) => RangedMeansSomeKey(script);
    case Branch(left, right) =>
      TreeRangedMeansSomeKey(left);
      TreeRangedMeansSomeKey(right);
      assert forall key :: key in TreeKeys(tree) <==> key in TreeKeys(left) || key in TreeKeys(right);
  }

  // ----- the check

  /** The places each BIP lets an expression stand. */
  predicate Allowed(node: ScriptNode, at: Place) {
    match node
    case KeyCall(Pk, _) => true
    case KeyCall(Pkh, _) => at != InTr
    case KeyCall(Wpkh, _) => at == AtTop || at == InSh
    case KeyCall(Combo, _) => at == AtTop
    case Wrapped(Sh, _) => at == AtTop
    case Wrapped(Wsh, _) => at == AtTop || at == InSh
    case Tr(_, _) => at == AtTop
    case Multisig(multi, _, _) => (at == InTr) == (multi == MultiA || multi == SortedMultiA)
    case Addr(_) => at == AtTop
    case RawScript(_) => at == AtTop
  }

  function KeyBytes(key: KeyExpression): nat {
    if key.RawKey? then key.byteLength else 33
  }

  function CheckKey(key: KeyExpression, wpkh: bool, under: Under): Result<(), Refusal> {
    if !key.RawKey? then Ok(())
    else if key.byteLength == 65 && (wpkh || under.wsh || under.tr) then Err(UncompressedKey)
    else if key.byteLength == 32 && !under.tr then Err(XOnlyKey)
    else Ok(())
  }

  function CheckKeys(keys: seq<KeyExpression>, wpkh: bool, under: Under): Result<(), Refusal> {
    if keys == [] then Ok(())
    else
      var _ :- CheckKey(keys[0], wpkh, under);
      CheckKeys(keys[1..], wpkh, under)
  }

  /** What the keys of a multi() add to its redeem script: a push byte and the key each. */
  function PushedBytes(keys: seq<KeyExpression>): nat {
    if keys == [] then 0 else 1 + KeyBytes(keys[0]) + PushedBytes(keys[1..])
  }

  function CheckMulti(keys: seq<KeyExpression>, at: Place, under: Under): Result<(), Refusal> {
    var _ :- CheckKeys(keys, false, under);
    if at == AtTop && |keys| > 3 then Err(TooManyKeys)
    else if at == InSh && 3 + PushedBytes(keys) > MAX_SCRIPT_ELEMENT then Err(RedeemScriptTooLong)
    else if at == InWsh && |keys| > 20 then Err(TooManyKeys)
    else Ok(())
  }

  function CheckPlacement(lib: Library, node: ScriptNode, at: Place, under: Under): Result<(), Refusal>
    decreases node
  {
    if !Allowed(node, at) then Err(WrongPlace)
    else match node
         case KeyCall(fn, key) => CheckKeys([key], fn == Wpkh, under)
         case Wrapped(Sh, inner) => CheckPlacement(lib, inner, InSh, under)
         case Wrapped(Wsh, inner) => CheckPlacement(lib, inner, InWsh, under.(wsh := true))
         case Tr(internal, tree) =>
           var inside := under.(tr := true);
           var _ :- CheckKeys([internal], false, inside);
           if tree.None? then Ok(()) else CheckTree(lib, tree.value, inside)
         case Multisig(multi, _, keys) =>
           if multi == MultiA || multi == SortedMultiA then CheckKeys(keys, false, under) else CheckMulti(keys, at, under)
         case Addr(address) => if lib.isAddress(address) then Ok(()) else Err(NoSuchAddress)
         case RawScript(_) => Ok(())
  }

  /** The check of every leaf, left to right. */
  function CheckTree(lib: Library, tree: TapTree, inside: Under): Result<(), Refusal>
    decreases tree
  {
    match tree
    case Leaf(script) => CheckPlacement(lib, script, InTr, inside)
    case Branch(left, right) =>
      var _ :- CheckTree(lib, left, inside);
      CheckTree(lib, right, inside)
  }

  // ----- the table, node by node

  datatype Site = Site(node: ScriptNode, at: Place, under: Under)

  /** Every node of a descriptor with the place it stands in. */
  function Sites(node: ScriptNode, at: Place, under: Under): seq<Site>
    decreases node
  {
    [Site(node, at, under)] +
    match node
    case Wrapped(Sh, inner) => Sites(inner, InSh, under)
    case Wrapped(Wsh, inner) => Sites(inner, InWsh, under.(wsh := true))
    case Tr(_, Some(tree)) => TreeSites(tree, under.(tr := true))
    case _ => []
  }

  function TreeSites(tree: TapTree, under: Under): seq<Site>
    decreases tree
  {
    match tree
    case Leaf(script) => Sites(script, InTr, under)
    case Branch(left, right) => TreeSites(left, under) + TreeSites(right, under)
  }

  /** The keys a node itself names. */
  function OwnKeys(node: ScriptNode): seq<KeyExpression> {
    match node
    case KeyCall(_, key) => [key]
    case Tr(internal, _) => [internal]
    case Multisig(_, _, keys) => keys
    case _ => []
  }

  /** BIP-382 and BIP-386: which encodings of a raw key a place takes. */
  predicate KeyFits(key: KeyExpression, site: Site) {
    var tr := site.under.tr || site.node.Tr?;
    key.RawKey? ==>
      && (key.byteLength == 32 ==> tr)
      && (key.byteLength == 65 ==> !tr && !site.under.wsh && !(site.node.KeyCall? && site.node.fn == Wpkh))
  }

  /** BIP-383: how many keys a place takes. */
  predicate SizeFits(site: Site) {
    site.node.Multisig? && (site.node.multi == Multi || site.node.multi == SortedMulti) ==>
      && (site.at == AtTop ==> |site.node.keys| <= 3)
      && (site.at == InSh ==> 3 + PushedBytes(site.node.keys) <= 520)
      && (site.at == InWsh ==> |site.node.keys| <= 20)
  }

  /**
   * What may stand where, place by place: multi_a, sortedmulti_a and pk in a
   * tree; pk, pkh, multi and sortedmulti in wsh; those, wpkh and wsh in sh; and
   * at the top everything but the two of a tree.
   */
  predicate MayStand(node: ScriptNode, at: Place) {
    match at
    case InTr => (node.KeyCall? && node.fn == Pk) || (node.Multisig? && (node.multi == MultiA || node.multi == SortedMultiA))
    case InWsh => (node.KeyCall? && (node.fn == Pk || node.fn == Pkh)) || (node.Multisig? && (node.multi == Multi || node.multi == SortedMulti))
    case InSh =>
      (node.KeyCall? && node.fn != Combo) || (node.Wrapped? && node.wrapper == Wsh) ||
      (node.Multisig? && (node.multi == Multi || node.multi == SortedMulti))
    case AtTop => node.Multisig? ==> node.multi == Multi || node.multi == SortedMulti
  }

  lemma AllowedMeans(node: ScriptNode, at: Place)
    ensures Allowed(node, at) <==> MayStand(node, at)
  {
  }

  ghost predicate SiteOk(lib: Library, site: Site) {
    && MayStand(site.node, site.at)
    && (forall i :: 0 <= i < |OwnKeys(site.node)| ==> KeyFits(OwnKeys(site.node)[i], site))
    && SizeFits(site)
    && (site.node.Addr? ==> lib.isAddress(site.node.address))
  }

  lemma {:induction false} CheckKeysExact(keys: seq<KeyExpression>, wpkh: bool, under: Under)
    ensures CheckKeys(keys, wpkh, under).Ok? <==> forall i :: 0 <= i < |keys| ==> CheckKey(keys[i], wpkh, under).Ok?
  {
    if keys != [] {
      CheckKeysExact(keys[1..], wpkh, under);
      assert forall i :: 0 <= i < |keys[1..]| ==> keys[1..][i] == keys[i + 1];
    }
  }

  ghost predicate AllSitesOk(lib: Library, sites: seq<Site>) {
    forall i :: 0 <= i < |sites| ==> SiteOk(lib, sites[i])
  }

  lemma SitesConcat(lib: Library, a: seq<Site>, b: seq<Site>)
    ensures AllSitesOk(lib, a + b) <==> AllSitesOk(lib, a) && AllSitesOk(lib, b)
  {
    hide SiteOk;
    if AllSitesOk(lib, a + b) {
      forall i | 0 <= i < |a|
        ensures SiteOk(lib, a[i])
      {
        assert (a + b)[i] == a[i];
      }
      forall i | 0 <= i < |b|
        ensures SiteOk(lib, b[i])
      {
        assert (a + b)[|a| + i] == b[i];
      }
    }
  }

  /** What the check asks of one node, before it goes inside. */
  lemma OwnCheck(lib: Library, site: Site)
    ensures SiteOk(lib, site) <==>
            && Allowed(site.node, site.at)
            && CheckKeys(OwnKeys(site.node), site.node.KeyCall? && site.node.fn == Wpkh,
                         if site.node.Tr? then site.under.(tr := true) else site.under).Ok?
            && SizeFits(site) && (site.node.Addr? ==> lib.isAddress(site.node.address))
  {
    hide Allowed, MayStand, SizeFits, CheckKeys;
    AllowedMeans(site.node, site.at);
    CheckKeysExact(OwnKeys(site.node), site.node.KeyCall? && site.node.fn == Wpkh,
                   if site.node.Tr? then site.under.(tr := true) else site.under);
  }

  lemma OneSite(lib: Library, site: Site)
    ensures AllSitesOk(lib, [site]) <==> SiteOk(lib, site)
  {
    hide SiteOk;
    assert [site][0] == site;
  }

  /** A node and the places inside it. */
  lemma SitesUnfold(lib: Library, node: ScriptNode, at: Place, under: Under)
    ensures AllSitesOk(lib, Sites(node, at, under)) <==>
            && SiteOk(lib, Site(node, at, under))
            && (node.Wrapped? && node.wrapper == Sh ==> AllSitesOk(lib, Sites(node.inner, InSh, under)))
            && (node.Wrapped? && node.wrapper == Wsh ==> AllSitesOk(lib, Sites(node.inner, InWsh, under.(wsh := true))))
            && (node.Tr? && node.tree.Some? ==> AllSitesOk(lib, TreeSites(node.tree.value, under.(tr := true))))
  {
    hide SiteOk, AllSitesOk, TreeSites;
    var here := [Site(node, at, under)];
    OneSite(lib, Site(node, at, under));
    NoSites(lib);
    var inside := Sites(node, at, under)[1..];
    assert Sites(node, at, under) == here + inside;
    SitesConcat(lib, here, inside);
  }

  lemma NoSites(lib: Library)
    ensures AllSitesOk(lib, [])
  {
  }

  /**
   * The recursive check accepts a descriptor exactly when every node in it, at
   * every depth, meets the table: its place, its keys and its size.
   */
  lemma {:induction false} PlacementIsTheTable(lib: Library, node: ScriptNode, at: Place, under: Under)
    ensures CheckPlacement(lib, node, at, under).Ok? <==> AllSitesOk(lib, Sites(node, at, under))
    decreases node
  {
    hide SiteOk, AllSitesOk, Sites, TreeSites, Allowed, CheckKeys, PushedBytes, CheckTree;
    OwnCheck(lib, Site(node, at, under));
    SitesUnfold(lib, node, at, under);
    match node
    case Wrapped(Sh, inner) =>
      PlacementIsTheTable(lib, inner, InSh, under);
      NoKeys(under);
    case Wrapped(Wsh, inner) =>
      PlacementIsTheTable(lib, inner, InWsh, under.(wsh := true));
      NoKeys(under);
    case Tr(_, Some(tree)) => TreeIsTheTable(lib, tree, under.(tr := true));
    case _ => NoKeys(under);
  }

  lemma NoKeys(under: Under)
    ensures CheckKeys([], false, under).Ok?
  {
  }

  lemma {:induction false} TreeIsTheTable(lib: Library, tree: TapTree, under: Under)
    ensures CheckTree(lib, tree, under).Ok? <==> AllSitesOk(lib, TreeSites(tree, under))
    decreases tree
  {
    hide AllSitesOk, Sites, CheckPlacement;
    match tree
    case Leaf(script) => PlacementIsTheTable(lib, script, InTr, under);
    case Branch(left, right) =>
      TreeIsTheTable(lib, left, under);
      TreeIsTheTable(lib, right, under);
      SitesConcat(lib, TreeSites(left, under), TreeSites(right, under));
  }

  // ----- what an accepted placement rules out downstream

  predicate SupportedLeaf(node: ScriptNode) {
    (node.KeyCall? && node.fn == Pk) || (node.Multisig? && (node.multi == MultiA || node.multi == SortedMultiA))
  }

  /** Every leaf of an accepted tree is a kind that taproot derivation supports. */
  lemma {:induction false} TreeLeavesSupported(lib: Library, tree: TapTree, inside: Under)
    requires CheckTree(lib, tree, inside).Ok?
    ensures forall i :: 0 <= i < |TapTreeLeaves(tree)| ==> SupportedLeaf(TapTreeLeaves(tree)[i])
    decreases tree
  {
    match tree
    case Leaf(script) =>
    case Branch(left, right) =>
      TreeLeavesSupported(lib, left, inside);
      TreeLeavesSupported(lib, right, inside);
  }

  /** Every key that is not x-only takes at least 34 bytes of a redeem script. */
  lemma {:induction false} PushedAtLeast(keys: seq<KeyExpression>)
    requires forall i :: 0 <= i < |keys| ==> KeyBytes(keys[i]) >= 33
    ensures PushedBytes(keys) >= 34 * |keys|
  {
    if keys != [] {
      PushedAtLeast(keys[1..]);
    }
  }

  /** Of a redeem script's keys: 34 bytes for a compressed one with its push, 32 more for an uncompressed one. */
  lemma {:induction false} PushedMeans(keys: seq<KeyExpression>)
    requires forall i :: 0 <= i < |keys| && keys[i].RawKey? ==> keys[i].byteLength == 33 || keys[i].byteLength == 65
    ensures PushedBytes(keys) == 34 * |keys| + 32 * |UncompressedAt(keys)|
  {
    if keys == [] {
      assert UncompressedAt(keys) == {};
    } else {
      var init, last := keys[..|keys| - 1], |keys| - 1;
      PushedMeans(init);
      PushedLast(init, keys[last]);
      assert keys == init + [keys[last]];
      assert UncompressedAt(keys) == if keys[last].RawKey? && keys[last].byteLength == 65 then UncompressedAt(init) + {last} else UncompressedAt(init);
    }
  }

  function UncompressedAt(keys: seq<KeyExpression>): set<nat> {
    set i: nat | i < |keys| && keys[i].RawKey? && keys[i].byteLength == 65
  }

  lemma {:induction false} PushedLast(keys: seq<KeyExpression>, last: KeyExpression)
    ensures PushedBytes(keys + [last]) == PushedBytes(keys) + 1 + KeyBytes(last)
  {
    if keys == [] {
      assert ([] + [last])[1..] == [];
    } else {
      PushedLast(keys[1..], last);
      assert (keys + [last])[1..] == keys[1..] + [last];
    }
  }

  /** The 520-byte bound already keeps a bare sh() quorum at fifteen keys. */
  lemma BareShHoldsFifteen(lib: Library, multi: MultiFunction, threshold: nat, keys: seq<KeyExpression>)
    requires CheckPlacement(lib, Multisig(multi, threshold, keys), InSh, Under(false, false)).Ok?
    requires forall i :: 0 <= i < |keys| && keys[i].RawKey? ==> keys[i].byteLength >= 32
    ensures |keys| <= 15
  {
    CheckKeysExact(keys, false, Under(false, false));
    forall i | 0 <= i < |keys|
      ensures KeyBytes(keys[i]) >= 33
    {
      assert CheckKey(keys[i], false, Under(false, false)).Ok?;
    }
    PushedAtLeast(keys);
  }
}
