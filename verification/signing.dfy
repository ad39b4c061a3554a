/**
 * The signing path recorded for a quorum's address: packages/daemon/src/psbt.ts,
 * lines 162 to 257, read with packages/core/src/descriptor/derive-key.ts.
 */
module SigningPaths {
  import opened Text
  import opened Path
  import opened Keys
  import opened Canonical
  import opened Script
  import opened KeyPrinting
  import opened RoundTrip
  import opened Placement
  import opened Descriptors
  import opened Order
  import opened Lists
  import opened Derive
  import opened Multipath
  import opened Quorums
  import opened Taproot
  import opened OwnedAddresses

  // ----- our key in a registered quorum

  /** The leaves of an accepted tree are accepted nodes. */
  lemma {:induction false} LeavesOk(lib: Library, tree: TapTree)
    requires TreeOk(lib, tree, true)
    ensures forall i :: 0 <= i < |TapTreeLeaves(tree)| ==> NodeOk(lib, TapTreeLeaves(tree)[i], true)
    decreases tree
  {
    hide KeyOk, KeysOk, AllHex, AllAlphanumeric;
    match tree
    case Leaf(_) =>
    case Branch(left, right) =>
      LeavesOk(lib, left);
      LeavesOk(lib, right);
  }

  /** Every key of a summarised quorum is one the parser could have returned. */
  lemma QuorumKeysParsed(lib: Library, script: ScriptNode)
    requires Accepted(lib, script) && QuorumKeys(script).Ok? && QuorumKeys(script).value.Some?
    ensures KeysOk(lib, QuorumKeys(script).value.value)
  {
    hide KeyOk, OneTupleLength, CheckPlacement, MultisigShape, QuorumLeaves;
    if script.Tr? {
      var leaves := TapTreeLeaves(script.tree.value);
      LeavesOk(lib, script.tree.value);
      var i := OnlyQuorumLeaf(leaves);
      assert QuorumLeaves(leaves)[0] == leaves[i];
    } else {
      ShapeKeysOk(lib, script);
    }
  }

  lemma ShapeKeysOk(lib: Library, script: ScriptNode)
    requires Accepted(lib, script) && MultisigShape(script).Ok?
    ensures KeysOk(lib, MultisigShape(script).value.keys)
  {
    hide KeyOk, OneTupleLength, CheckPlacement;
    BodyOk(lib, script);
  }

  /** The public half of this device's account is the payload of the key it finds. */
  lemma OwnPayload(w: Wallet, body: string)
    requires WalletLawful(w) && OurKey(w, body).Ok? && OurKey(w, body).value.1.ExtendedKey?
    ensures DescendPrivate(w.device, w.device.root, MultisigSteps(w)).Some?
    ensures var key := OurKey(w, body).value.1;
            && KeyOk(w.lib, key) && w.lib.decode58(key.xpub).Some? && |w.lib.decode58(key.xpub).value| == 82
            && Payload(w.lib, key.xpub) == w.device.neuter(DescendPrivate(w.device, w.device.root, MultisigSteps(w)).value)
  {
    hide ParseDescriptor, QuorumKeys, OwnPosition, KeyPayload, KeyOk, Lawful, Accepted, AccountSteps, MultisigSteps, VersionBytes;
    var script := ParseDescriptor(w.lib, body, false).value.script;
    var keys := QuorumKeys(script).value.value;
    AcceptedDescriptor(w.lib, body, false);
    QuorumKeysParsed(w.lib, script);
    var position := OwnPosition(w.lib, keys, KeyPayload(w.lib, OwnXpub(w).value)).value;
    assert KeyOk(w.lib, keys[position]);
    KeyOkDecodes(w.lib, keys[position]);
    OwnXpubPayload(w);
    PayloadText(w.lib, keys[position].xpub);
    HexRoundTrip(Payload(w.lib, keys[position].xpub));
    HexRoundTrip(w.device.neuter(DescendPrivate(w.device, w.device.root, MultisigSteps(w)).value));
  }

  lemma KeyOkDecodes(lib: Library, key: KeyExpression)
    requires Lawful(lib) && KeyOk(lib, key) && key.ExtendedKey?
    ensures lib.decode58(key.xpub).Some? && |lib.decode58(key.xpub).value| == 82
  {
    hide OriginOk, StepsOk, AllAlphanumeric, LooksExtended, AssertExtendedKey;
    ExtendedDecodes(lib, key.xpub);
  }

  lemma PayloadText(lib: Library, xpub: string)
    requires lib.decode58(xpub).Some? && |lib.decode58(xpub).value| == 82
    ensures KeyPayload(lib, xpub) == HexText(Payload(lib, xpub))
  {
    hide HexText;
  }

  lemma OwnXpubPayload(w: Wallet)
    requires WalletLawful(w) && OwnXpub(w).Some?
    ensures DescendPrivate(w.device, w.device.root, MultisigSteps(w)).Some?
    ensures KeyPayload(w.lib, OwnXpub(w).value) ==
            HexText(w.device.neuter(DescendPrivate(w.device, w.device.root, MultisigSteps(w)).value))
  {
    hide HexText, MultisigSteps, DescendPrivate, VersionBytes, CurveLawful;
    var public := w.device.neuter(DescendPrivate(w.device, w.device.root, MultisigSteps(w)).value);
    var body := VersionBytes(w.device.version) + public;
    FourBytes(w.device.version);
    LibraryDecodes(w.lib, body + w.lib.check4(body), body);
    assert (body + w.lib.check4(body))[4..78] == public;
  }

  lemma LibraryDecodes(lib: Library, raw: seq<byte>, body: seq<byte>)
    requires Lawful(lib)
    ensures lib.decode58(lib.encode58(raw)) == Some(raw) && |lib.check4(body)| == 4
  {
  }

  /** Below one node, the private walk and the public walk along unhardened steps reach one key. */
  lemma {:induction false} PublicWalk(w: Wallet, node: seq<byte>, steps: seq<nat>)
    requires WalletLawful(w) && AllPlainSteps(steps)
    ensures Descend(w.curve, w.device.neuter(node), steps) ==
            match DescendPrivate(w.device, node, steps)
            case None => None
            case Some(inner) => Some(w.device.neuter(inner))
    decreases |steps|
  {
    hide Lawful, CurveLawful;
    if steps != [] {
      assert steps[0] < HARDENED_OFFSET;
      assert AllPlainSteps(steps[1..]) by {
        assert forall i :: 0 <= i < |steps| - 1 ==> steps[1..][i] == steps[i + 1];
      }
      if w.device.child(node, steps[0]).Some? {
        PublicWalk(w, w.device.child(node, steps[0]).value, steps[1..]);
      }
    }
  }

  /** What our key derives is what the root derives through the account and the key's own steps. */
  lemma OwnKeyFromRoot(w: Wallet, body: string, index: nat, change: bool)
    requires WalletLawful(w) && OurKey(w, body).Ok? && OurKey(w, body).value.1.ExtendedKey?
    requires DerivePubkeyAt(w.lib, w.curve, OurKey(w, body).value.1, index, change).Ok?
    ensures var key := OurKey(w, body).value.1;
            var steps := DeriveSteps(key, index, change);
            && steps.Ok? && AllPlainSteps(steps.value)
            && KeyFromRoot(w, MultisigSteps(w) + steps.value) == Some(DerivePubkeyAt(w.lib, w.curve, key, index, change).value)
  {
    hide OurKey, KeyOk, DeriveSteps, Descend, DescendPrivate, MultisigSteps, Lawful;
    OwnPayload(w, body);
    var key := OurKey(w, body).value.1;
    var steps := DeriveSteps(key, index, change).value;
    var node := DescendPrivate(w.device, w.device.root, MultisigSteps(w)).value;
    if !AllPlainSteps(steps) {
      var i :| 0 <= i < |steps| && steps[i] >= HARDENED_OFFSET;
      HardenedNothing(w.curve, w.device.neuter(node), steps, i);
    }
    PublicWalk(w, node, steps);
    DescendConcat(w.device, w.device.root, MultisigSteps(w), steps);
  }

  // ----- the branch that is recorded

  lemma {:induction false} StepTextsNamed(steps: seq<nat>)
    requires InRange(steps)
    ensures NamedSteps(StepTexts(steps)) == StepTexts(steps) && |StepTexts(steps)| == |steps|
  {
    hide StepText;
    if steps != [] {
      PlainSegment(steps[0]);
      StepTextsNamed(steps[1..]);
    }
  }

  lemma NamedOfPath(steps: seq<nat>)
    requires InRange(steps)
    ensures NamedSteps(Split(StepPath(steps), '/')) == StepTexts(steps)
  {
    hide Split, StepTexts, StepText;
    StepTextsNamed(steps);
    if steps == [] {
      SplitNothing("", '/');
      NamedNothing();
    } else {
      SplitSteps("m", steps);
      NamedRoot(StepTexts(steps));
    }
  }

  lemma NamedNothing()
    ensures NamedSteps([""]) == [] && StepTexts([]) == []
  {
    assert [""][1..] == [];
  }

  lemma NamedRoot(parts: seq<string>)
    ensures NamedSteps(["m"] + parts) == NamedSteps(parts)
  {
    assert (["m"] + parts)[1..] == parts;
  }

  lemma {:induction false} LastText(steps: seq<nat>)
    requires steps != []
    ensures |StepTexts(steps)| == |steps| && StepTexts(steps)[|steps| - 1] == StepText(steps[|steps| - 1])
  {
    hide StepText;
    if |steps| > 1 {
      LastText(steps[1..]);
    } else {
      assert steps[1..] == [];
    }
  }

  lemma StepDigits(step: nat)
    requires step < 2 * HARDENED_OFFSET
    ensures AllDigits(StepText(step)) <==> step < HARDENED_OFFSET
    ensures step < HARDENED_OFFSET ==> ToNat(StepText(step)) == step
  {
    hide ToNat;
    if step < HARDENED_OFFSET {
      NatRoundTrip(step);
    } else {
      assert StepText(step)[|StepText(step)| - 1] == '\'';
    }
  }

  /** The branch recorded is the last step the key derives through before the index. */
  lemma BranchIsLastStep(lib: Library, key: KeyExpression, index: nat, change: bool)
    requires KeyOk(lib, key) && key.ExtendedKey? && BranchOf(key, change).Some? && DeriveSteps(key, index, change).Ok?
    ensures var steps := PathSteps(key.path);
            && steps != [] && AllPlainSteps(steps)
            && DeriveSteps(key, index, change).value == Indexed(key, steps[..|steps| - 1] + [BranchOf(key, change).value], index)
  {
    hide OriginOk, AssertExtendedKey, AllAlphanumeric, LooksExtended, Split, ReadSegments, NamedSteps, StepPath, PathSteps, Distinct;
    var steps :| StepsOk(steps, key.path, key.multipath);
    PathStepsRead(steps);
    StoredPathSegments(steps);
    if key.multipath.None? {
      NamedOfPath(steps);
      if steps != [] {
        LastText(steps);
        StepDigits(steps[|steps| - 1]);
        assert steps[..|steps| - 1] + [steps[|steps| - 1]] == steps;
      } else {
        NoStepTexts();
      }
    }
  }

  lemma NoStepTexts()
    ensures StepTexts([]) == []
  {
  }

  /** The key stands in the script the address was made from: among its keys, or in a quorum leaf of its tree. */
  ghost predicate ScriptHolds(w: Wallet, script: ScriptNode, address: string, pubkey: seq<byte>, index: nat, change: bool) {
    if script.Tr? then
      && script.tree.Some?
      && exists x, built :: CoordinateAt(w.lib, w.curve, script.internal, index, change, x)
                            && TreeMade(w.lib, w.curve, script.tree.value, index, change, built)
                            && w.encoder.taproot(x, Some(built)) == Ok(address) && TreeHas(built, pubkey)
    else
      exists kind: Kind, sorted: bool, threshold: nat, keys: seq<KeyExpression>, ordered: seq<seq<byte>> ::
        && WrittenAs(script, kind, sorted, threshold, keys)
        && KeysInScript(w.lib, w.curve, keys, sorted, index, change, ordered)
        && w.encoder.quorum(kind, threshold, ordered) == Ok(address) && pubkey in ordered
  }

  ghost predicate TreeHas(built: LeafTree, pubkey: seq<byte>) {
    exists i, x :: 0 <= i < |BuiltLeaves(built)| && LeafHas(BuiltLeaves(built)[i], x) && IsXOnly(x, pubkey)
  }

  predicate LeafHas(leaf: TapLeaf, x: seq<byte>) {
    leaf.QuorumLeaf? && x in leaf.keys
  }

  lemma OrderedHolds(lib: Library, curve: Curve, keys: seq<KeyExpression>, sorted: bool, index: nat, change: bool, position: nat)
    requires OrderedKeys(lib, curve, keys, sorted, index, change).Ok? && position < |keys|
    ensures DerivePubkeyAt(lib, curve, keys[position], index, change).Ok?
    ensures DerivePubkeyAt(lib, curve, keys[position], index, change).value in OrderedKeys(lib, curve, keys, sorted, index, change).value
  {
    hide DerivePubkeyAt, MapOk, Sort;
    var f := key => DerivePubkeyAt(lib, curve, key, index, change);
    MapOkEach(keys, f);
    var derived := MapOk(keys, f).value;
    assert f(keys[position]).Ok? && derived[position] == f(keys[position]).value;
    SortBag(derived, AsInts);
    BagMember(derived[position], derived, if sorted then Sort(derived, AsInts) else derived);
  }

  lemma LeafHolds(lib: Library, curve: Curve, keys: seq<KeyExpression>, sorted: bool, index: nat, change: bool, position: nat)
    requires LeafKeys(lib, curve, keys, sorted, index, change).Ok? && position < |keys|
    ensures var pubkey := DerivePubkeyAt(lib, curve, keys[position], index, change);
            pubkey.Ok? && XOnly(pubkey.value).Ok? && XOnly(pubkey.value).value in LeafKeys(lib, curve, keys, sorted, index, change).value
  {
    hide DerivePubkeyAt, MapOk, Sort, XOnly;
    var f := key => XOnlyAt(lib, curve, key, index, change);
    MapOkEach(keys, f);
    var derived := MapOk(keys, f).value;
    assert f(keys[position]).Ok? && derived[position] == f(keys[position]).value;
    SortBag(derived, AsInts);
    BagMember(derived[position], derived, if sorted then Sort(derived, AsInts) else derived);
  }

  lemma TreeHolds(w: Wallet, script: ScriptNode, index: nat, change: bool, position: nat)
    requires script.Tr? && QuorumKeys(script).Ok? && QuorumKeys(script).value.Some? && position < |QuorumKeys(script).value.value|
    requires QuorumAddressAt(w.lib, w.curve, w.encoder, script, index, change).Ok?
    ensures var pubkey := DerivePubkeyAt(w.lib, w.curve, QuorumKeys(script).value.value[position], index, change);
            var address := QuorumAddressAt(w.lib, w.curve, w.encoder, script, index, change).value.address;
            pubkey.Ok? && ScriptHolds(w, script, address, pubkey.value, index, change)
  {
    hide DerivePubkeyAt, XOnlyAt, LeafKeys, XOnly, IsXOnly, BuildTree, TreeMade, CoordinateAt, TapTreeLeaves, QuorumLeaves, MapOk, TreeHas;
    var tree := script.tree.value;
    var pubkey := DerivePubkeyAt(w.lib, w.curve, QuorumKeys(script).value.value[position], index, change);
    LeafInTree(w, script, index, change, position);
    CoordinateTaken(w.lib, w.curve, script.internal, index, change);
    BuiltTreeMade(w.lib, w.curve, tree, index, change);
  }

  lemma LeafInTree(w: Wallet, script: ScriptNode, index: nat, change: bool, position: nat)
    requires script.Tr? && QuorumKeys(script).Ok? && QuorumKeys(script).value.Some? && position < |QuorumKeys(script).value.value|
    requires script.tree.Some? && BuildTree(w.lib, w.curve, script.tree.value, index, change).Ok?
    ensures var pubkey := DerivePubkeyAt(w.lib, w.curve, QuorumKeys(script).value.value[position], index, change);
            pubkey.Ok? && TreeHas(BuildTree(w.lib, w.curve, script.tree.value, index, change).value, pubkey.value)
  {
    hide DerivePubkeyAt, LeafKeys, XOnly, IsXOnly, BuildTree, TapTreeLeaves, QuorumLeaves, MapOk, BuiltLeaves;
    var tree := script.tree.value;
    var leaves := TapTreeLeaves(tree);
    var i := OnlyQuorumLeaf(leaves);
    assert QuorumLeaves(leaves)[0] == leaves[i] && IsTapQuorum(leaves[i]);
    TreeKeepsShape(w.lib, w.curve, tree, index, change);
    var f := leaf => Tapscript(w.lib, w.curve, leaf, index, change);
    MapOkEach(leaves, f);
    assert f(leaves[i]).Ok?;
    LeafHolds(w.lib, w.curve, leaves[i].keys, leaves[i].multi == SortedMultiA, index, change, position);
    var pubkey := DerivePubkeyAt(w.lib, w.curve, leaves[i].keys[position], index, change).value;
    XOnlyMeans(pubkey);
    var built := BuildTree(w.lib, w.curve, tree, index, change).value;
    assert BuiltLeaves(built)[i] == f(leaves[i]).value;
    assert LeafHas(BuiltLeaves(built)[i], XOnly(pubkey).value);
  }

  /** The script every address of a quorum is made from holds the key this device derives for it. */
  lemma OurKeyInScript(w: Wallet, body: string, index: nat, change: bool)
    requires OurKey(w, body).Ok? && QuorumAddressAt(w.lib, w.curve, w.encoder, OurKey(w, body).value.0, index, change).Ok?
    ensures var (script, key) := OurKey(w, body).value;
            var pubkey := DerivePubkeyAt(w.lib, w.curve, key, index, change);
            var address := QuorumAddressAt(w.lib, w.curve, w.encoder, script, index, change).value.address;
            pubkey.Ok? && ScriptHolds(w, script, address, pubkey.value, index, change)
  {
    hide ParseDescriptor, OwnXpub, OwnPosition, KeyPayload, DerivePubkeyAt, MultisigShape, OrderedKeys, TaprootQuorum, TaprootAt, ScriptHolds,
         QuorumAddressAt;
    var script := ParseDescriptor(w.lib, body, false).value.script;
    var keys := QuorumKeys(script).value.value;
    var position := OwnPosition(w.lib, keys, KeyPayload(w.lib, OwnXpub(w).value)).value;
    if script.Tr? {
      TreeHolds(w, script, index, change, position);
    } else {
      MultisigHolds(w, script, index, change, position);
    }
  }

  lemma MultisigHolds(w: Wallet, script: ScriptNode, index: nat, change: bool, position: nat)
    requires !script.Tr? && MultisigShape(script).Ok? && position < |MultisigShape(script).value.keys|
    requires QuorumAddressAt(w.lib, w.curve, w.encoder, script, index, change).Ok?
    ensures var pubkey := DerivePubkeyAt(w.lib, w.curve, MultisigShape(script).value.keys[position], index, change);
            var address := QuorumAddressAt(w.lib, w.curve, w.encoder, script, index, change).value.address;
            pubkey.Ok? && ScriptHolds(w, script, address, pubkey.value, index, change)
  {
    hide DerivePubkeyAt, MultisigShape, OrderedKeys, WrittenAs, KeysInScript;
    var shape := MultisigShape(script).value;
    ShapeWritten(script);
    OrderedKeysMean(w.lib, w.curve, shape.keys, shape.sorted, index, change);
    OrderedHolds(w.lib, w.curve, shape.keys, shape.sorted, index, change, position);
  }

  /** A ranged key with one step before its wildcard. */
  predicate OneStep(key: KeyExpression) {
    key.ExtendedKey? && key.ranged && |PathSteps(key.path)| == 1
  }

  /**
   * The path recorded for a quorum's address against the steps our key takes
   * to it. They are the same exactly when the key is ranged with one step; a
   * fixed key meets its recorded path at one index at most, by coincidence.
   */
  lemma RecordedSteps(w: Wallet, entry: OwnedAddress, bodies: seq<string>)
    requires WalletLawful(w) && QuorumSound(w, entry, bodies)
    ensures var key := OurKey(w, entry.descriptor.value).value.1;
            var steps := DeriveSteps(key, entry.index, entry.change);
            && steps.Ok?
            && (PathSteps(entry.path) == MultisigSteps(w) + steps.value <==>
                OneStep(key) || (!key.ranged && steps.value == [entry.index, entry.index]))
  {
    hide *;
    SoundParts(w, entry, bodies);
    var body := entry.descriptor.value;
    var key := OurKey(w, body).value.1;
    OurKeyInScript(w, body, entry.index, entry.change);
    OwnKeyFromRoot(w, body, entry.index, entry.change);
    OwnPayload(w, body);
    BranchIsLastStep(w.lib, key, entry.index, entry.change);
    var branch := BranchOf(key, entry.change).value;
    var steps := PathSteps(key.path);
    LawfulAccount(w);
    AccountInRange(w, P2wpkh);
    PlainBranch(key, steps[..|steps| - 1], branch, entry.index);
    BranchSteps(MultisigSteps(w), branch, entry.index);
    StepsCompare(key, MultisigSteps(w), steps[..|steps| - 1], branch, entry.index);
    OneStepMeans(key);
  }

  lemma OneStepMeans(key: KeyExpression)
    requires key.ExtendedKey?
    ensures OneStep(key) <==> key.ranged && |PathSteps(key.path)| == 1
  {
  }

  lemma LawfulAccount(w: Wallet)
    requires WalletLawful(w)
    ensures w.device.coin < HARDENED_OFFSET && w.device.account < HARDENED_OFFSET && 1000 < HARDENED_OFFSET && MAX_GAP == 1000
  {
    hide Lawful, CurveLawful;
  }

  lemma SoundParts(w: Wallet, entry: OwnedAddress, bodies: seq<string>)
    requires QuorumSound(w, entry, bodies)
    ensures entry.descriptor.Some? && entry.index < MAX_GAP && OurKey(w, entry.descriptor.value).Ok?
    ensures var (script, key) := OurKey(w, entry.descriptor.value).value;
            && key.ExtendedKey? && BranchOf(key, entry.change).Some?
            && entry.path == BranchText(FormatPath(MultisigSteps(w)), BranchOf(key, entry.change).value, entry.index)
            && QuorumAddressAt(w.lib, w.curve, w.encoder, script, entry.index, entry.change) == Ok(QuorumAddress(entry.address, entry.index))
  {
    hide OurKey, BranchOf, BranchText, QuorumAddressAt;
  }

  /** The branch on a side is the first or the second alternative of a multipath key, and an unhardened number. */
  lemma BranchTaken(w: Wallet, entry: OwnedAddress, bodies: seq<string>)
    requires WalletLawful(w) && QuorumSound(w, entry, bodies)
    ensures var key := OurKey(w, entry.descriptor.value).value.1;
            var branch := BranchOf(key, entry.change).value;
            && branch < HARDENED_OFFSET
            && (key.multipath.Some? ==>
                  |key.multipath.value| >= 2 && branch == if entry.change then key.multipath.value[1] else key.multipath.value[0])
  {
    hide *;
    SoundParts(w, entry, bodies);
    var body := entry.descriptor.value;
    var key := OurKey(w, body).value.1;
    OurKeyInScript(w, body, entry.index, entry.change);
    OwnKeyFromRoot(w, body, entry.index, entry.change);
    OwnPayload(w, body);
    BranchIsLastStep(w.lib, key, entry.index, entry.change);
    var steps := PathSteps(key.path);
    PlainBranch(key, steps[..|steps| - 1], BranchOf(key, entry.change).value, entry.index);
    BranchAlternative(w.lib, key, entry.change);
  }

  lemma BranchAlternative(lib: Library, key: KeyExpression, change: bool)
    requires KeyOk(lib, key) && key.ExtendedKey? && BranchOf(key, change).Some?
    ensures key.multipath.Some? ==>
              |key.multipath.value| >= 2 && BranchOf(key, change).value == if change then key.multipath.value[1] else key.multipath.value[0]
  {
    hide OriginOk, AssertExtendedKey, AllAlphanumeric, LooksExtended, Split, NamedSteps, StepPath, Distinct;
  }

  lemma PlainBranch(key: KeyExpression, init: seq<nat>, branch: nat, index: nat)
    requires key.ExtendedKey? && AllPlainSteps(Indexed(key, init + [branch], index))
    ensures branch < HARDENED_OFFSET
  {
    assert Indexed(key, init + [branch], index)[|init|] == branch;
  }

  lemma StepsCompare(key: KeyExpression, base: seq<nat>, init: seq<nat>, branch: nat, index: nat)
    requires key.ExtendedKey?
    ensures base + [branch, index] == base + Indexed(key, init + [branch], index) <==>
            (key.ranged && init == []) || (!key.ranged && Indexed(key, init + [branch], index) == [index, index])
  {
    var derived := Indexed(key, init + [branch], index);
    assert (base + [branch, index])[|base|..] == [branch, index] && (base + derived)[|base|..] == derived;
    if key.ranged {
      assert derived == init + [branch] + [index];
      assert |derived| == |init| + 2;
      if init == [] {
        assert derived == [branch, index];
      }
    } else {
      assert derived[|init|] == branch;
      assert [index, index][|[index, index]| - 1] == index;
    }
  }

  /** A suffix of plain steps: what its key stores, the branch recorded for it, and the steps it derives by. */
  lemma PlainSuffix(steps: seq<nat>, ranged: bool, xpub: string, index: nat)
    requires steps != [] && AllPlainSteps(steps)
    ensures ParseDerivation(StepsText(steps) + (if ranged then "/*" else "")) == Ok(Derivation(StepPath(steps), ranged, None))
    ensures var key := ExtendedKey(None, xpub, StepPath(steps), ranged, None);
            && BranchOf(key, false) == Some(steps[|steps| - 1])
            && DeriveSteps(key, index, false) == Ok(Indexed(key, steps, index))
  {
    hide StepPath, StepsText, ParseDerivation, ParseWorking, ReadSegments, Split, StepText, StepTexts, NamedSteps;
    StepsChars(steps);
    StepsRead(steps, ranged);
    WildcardReads(StepsText(steps), ranged);
    StoredPathSegments(steps);
    NamedOfPath(steps);
    LastText(steps);
    StepDigits(steps[|steps| - 1]);
  }

  lemma FiveZero()
    ensures StepsText([5, 0]) == "/5/0" && StepsText([7]) == "/7"
  {
    assert [5, 0][1..] == [0] && [0][1..] == [] && [7][1..] == [];
    assert OfNat(5) == "5" && OfNat(0) == "0" && OfNat(7) == "7";
    assert StepsText([0]) == "/0" + "";
  }

  /**
   * Two suffixes whose recorded path is not the script's. /5/0 before a wildcard
   * is recorded as branch 0, so the path ends in 0 and the index, where the key
   * derives through 5, 0 and the index; a fixed /7 is recorded with an index it
   * does not derive through.
   */
  lemma RecordedElsewhere(w: Wallet, xpub: string, index: nat)
    requires WalletLawful(w) && index < MAX_GAP
    ensures ParseDerivation("/5/0/*") == Ok(Derivation(StepPath([5, 0]), true, None))
    ensures var key := ExtendedKey(None, xpub, StepPath([5, 0]), true, None);
            && BranchOf(key, false) == Some(0) && DeriveSteps(key, index, false) == Ok([5, 0, index])
            && PathSteps(BranchText(FormatPath(MultisigSteps(w)), 0, index)) == MultisigSteps(w) + [0, index]
            && MultisigSteps(w) + [0, index] != MultisigSteps(w) + [5, 0, index]
    ensures ParseDerivation("/7") == Ok(Derivation(StepPath([7]), false, None))
    ensures var key := ExtendedKey(None, xpub, StepPath([7]), false, None);
            && BranchOf(key, false) == Some(7) && DeriveSteps(key, index, false) == Ok([7])
            && PathSteps(BranchText(FormatPath(MultisigSteps(w)), 7, index)) == MultisigSteps(w) + [7, index]
            && MultisigSteps(w) + [7, index] != MultisigSteps(w) + [7]
  {
    hide *;
    FiveZero();
    LawfulAccount(w);
    AccountInRange(w, P2wpkh);
    ShortPlain(5, 0);
    PlainSuffix([5, 0], true, xpub, index);
    ShortPlain(7, 7);
    PlainSuffix([7], false, xpub, index);
    assert "/5/0" + "/*" == "/5/0/*" && "/7" + "" == "/7";
    IndexedBoth(ExtendedKey(None, xpub, StepPath([5, 0]), true, None), [5, 0], index);
    IndexedBoth(ExtendedKey(None, xpub, StepPath([7]), false, None), [7], index);
    assert [5, 0] + [index] == [5, 0, index];
    BranchSteps(MultisigSteps(w), 0, index);
    BranchSteps(MultisigSteps(w), 7, index);
    assert |MultisigSteps(w) + [0, index]| != |MultisigSteps(w) + [5, 0, index]|;
    assert |MultisigSteps(w) + [7, index]| != |MultisigSteps(w) + [7]|;
  }

  lemma ShortPlain(a: nat, b: nat)
    requires a < 1000 && b < 1000
    ensures AllPlainSteps([a, b]) && AllPlainSteps([a]) && 1000 < HARDENED_OFFSET
  {
  }

  lemma IndexedBoth(key: KeyExpression, steps: seq<nat>, index: nat)
    requires key.ExtendedKey?
    ensures Indexed(key, steps, index) == if key.ranged then steps + [index] else steps
  {
  }

  /** The place the key is signed at: this device's BIP-48 account, the key's branch on that side, and the index. */
  ghost predicate SignedAt(w: Wallet, key: KeyExpression, entry: OwnedAddress, pubkey: seq<byte>) {
    key.ExtendedKey? && BranchOf(key, entry.change).Some? &&
    var branch := BranchOf(key, entry.change).value;
    && QuorumPath(w, branch, entry.index, entry.path)
    && KeyFromRoot(w, [48 + 0x8000_0000, w.device.coin + 0x8000_0000, w.device.account + 0x8000_0000, 2 + 0x8000_0000,
                       branch, entry.index]) == Some(pubkey)
    && (key.multipath.Some? ==>
          |key.multipath.value| >= 2 && branch == if entry.change then key.multipath.value[1] else key.multipath.value[0])
  }

  lemma SignedWhere(w: Wallet, entry: OwnedAddress, bodies: seq<string>, pubkey: seq<byte>)
    requires WalletLawful(w) && QuorumSound(w, entry, bodies) && KeyAtPath(w, entry.path) == Some(pubkey)
    ensures SignedAt(w, OurKey(w, entry.descriptor.value).value.1, entry, pubkey)
  {
    hide OurKey, BranchOf, QuorumPath, KeyFromRoot, PathSteps, WalletLawful, QuorumSound;
    SoundParts(w, entry, bodies);
    EntryPath(w, entry, bodies);
    BranchTaken(w, entry, bodies);
  }

  /**
   * Signing agrees with the script: for a quorum our key joins with one step
   * and a wildcard, the key at the recorded path from the root is the key in
   * that address's script, on both sides of the wallet.
   */
  lemma SigningPathAgrees(w: Wallet, entry: OwnedAddress, bodies: seq<string>)
    requires WalletLawful(w) && QuorumSound(w, entry, bodies) && OneStep(OurKey(w, entry.descriptor.value).value.1)
    ensures var (script, key) := OurKey(w, entry.descriptor.value).value;
            var pubkey := DerivePubkeyAt(w.lib, w.curve, key, entry.index, entry.change);
            && pubkey.Ok? && KeyAtPath(w, entry.path) == Some(pubkey.value) && SignedAt(w, key, entry, pubkey.value)
            && ScriptHolds(w, script, entry.address, pubkey.value, entry.index, entry.change)
  {
    hide *;
    SoundParts(w, entry, bodies);
    var body := entry.descriptor.value;
    RecordedSteps(w, entry, bodies);
    OurKeyInScript(w, body, entry.index, entry.change);
    OwnKeyFromRoot(w, body, entry.index, entry.change);
    PathKey(w, entry.path);
    SignedWhere(w, entry, bodies, DerivePubkeyAt(w.lib, w.curve, OurKey(w, body).value.1, entry.index, entry.change).value);
  }

  /** The path of a quorum's entry, in numbers. */
  lemma EntryPath(w: Wallet, entry: OwnedAddress, bodies: seq<string>)
    requires WalletLawful(w) && QuorumSound(w, entry, bodies)
    ensures var branch := BranchOf(OurKey(w, entry.descriptor.value).value.1, entry.change).value;
            && QuorumPath(w, branch, entry.index, entry.path)
            && PathSteps(entry.path) == [48 + 0x8000_0000, w.device.coin + 0x8000_0000, w.device.account + 0x8000_0000, 2 + 0x8000_0000,
                                         branch, entry.index]
  {
    hide *;
    SoundParts(w, entry, bodies);
    BranchTaken(w, entry, bodies);
    var branch := BranchOf(OurKey(w, entry.descriptor.value).value.1, entry.change).value;
    MultisigText(w, branch, entry.index);
    LawfulAccount(w);
    AccountInRange(w, P2wpkh);
    BranchSteps(MultisigSteps(w), branch, entry.index);
  }

  lemma PathKey(w: Wallet, path: string)
    ensures KeyAtPath(w, path) == KeyFromRoot(w, PathSteps(path))
  {
    hide KeyFromRoot, PathSteps;
  }
}
