/** The wallet's own view of a transaction: packages/daemon/src/psbt.ts, lines 38 to 311. */
module OwnedAddresses {
  import opened Text
  import opened Path
  import opened Keys
  import opened Canonical
  import opened Script
  import opened KeyPrinting
  import opened Descriptors
  import opened Derive
  import opened Quorums
  import opened Taproot

  // ----- the device

  datatype ScriptType = P2wpkh | P2tr | P2shP2wpkh | P2pkh

  /** Every script type the device derives, in the order of the index. */
  const SCRIPT_TYPES: seq<ScriptType> := [P2wpkh, P2tr, P2shP2wpkh, P2pkh]

  function Purpose(t: ScriptType): nat {
    match t
    case P2wpkh => 84
    case P2tr => 86
    case P2shP2wpkh => 49
    case P2pkh => 44
  }

  const MULTISIG_PURPOSE: nat := 48

  /**
   * The seed's private nodes as the HD key library holds them, what is public
   * of one, and the address writer of each single-signature script type.
   */
  datatype Device = Device(
    root: seq<byte>,
    child: (seq<byte>, nat) -> Option<seq<byte>>,
    neuter: seq<byte> -> seq<byte>,
    single: (ScriptType, seq<byte>) -> string,
    version: nat,
    coin: nat,
    account: nat)

  datatype Wallet = Wallet(lib: Library, curve: Curve, encoder: Encoder, device: Device)

  /** BIP-32: an unhardened child of the private key and of the public key are one key. Public keys fill 74 bytes. */
  ghost predicate WalletLawful(w: Wallet) {
    && Lawful(w.lib) && CurveLawful(w.curve)
    && (forall node: seq<byte>, i: nat :: i < HARDENED_OFFSET ==>
          match w.device.child(node, i)
          case None => w.curve.child(w.device.neuter(node), i) == None
          case Some(child) => w.curve.child(w.device.neuter(node), i) == Some(w.device.neuter(child)))
    && (forall node :: |w.device.neuter(node)| == 74)
    && w.device.coin < HARDENED_OFFSET && w.device.account < HARDENED_OFFSET
  }

  function DescendPrivate(d: Device, node: seq<byte>, steps: seq<nat>): Option<seq<byte>>
    decreases |steps|
  {
    if steps == [] then Some(node)
    else match d.child(node, steps[0])
         case None => None
         case Some(child) => DescendPrivate(d, child, steps[1..])
  }

  lemma {:induction false} DescendConcat(d: Device, node: seq<byte>, a: seq<nat>, b: seq<nat>)
    ensures DescendPrivate(d, node, a + b) ==
            match DescendPrivate(d, node, a)
            case None => None
            case Some(inner) => DescendPrivate(d, inner, b)
    decreases |a|
  {
    if a == [] {
      assert a + b == b;
    } else if d.child(node, a[0]).Some? {
      assert (a + b)[1..] == a[1..] + b;
      DescendConcat(d, d.child(node, a[0]).value, a[1..], b);
    }
  }

  /** The public key at a path from the root, as signing derives it. */
  function KeyFromRoot(w: Wallet, steps: seq<nat>): Option<seq<byte>> {
    match DescendPrivate(w.device, w.device.root, steps)
    case None => None
    case Some(node) => Some(w.curve.publicKey(w.device.neuter(node)))
  }

  function KeyAtPath(w: Wallet, path: string): Option<seq<byte>> {
    KeyFromRoot(w, PathSteps(path))
  }

  // ----- account paths

  function AccountSteps(w: Wallet, t: ScriptType): seq<nat> {
    [Purpose(t) + HARDENED_OFFSET, w.device.coin + HARDENED_OFFSET, w.device.account + HARDENED_OFFSET]
  }

  function MultisigSteps(w: Wallet): seq<nat> {
    [MULTISIG_PURPOSE + HARDENED_OFFSET, w.device.coin + HARDENED_OFFSET, w.device.account + HARDENED_OFFSET, 2 + HARDENED_OFFSET]
  }

  /** What every recorded path is: an account, a branch and an index. */
  function BranchText(base: string, branch: nat, index: nat): string {
    base + "/" + OfNat(branch) + "/" + OfNat(index)
  }

  lemma BranchSteps(base: seq<nat>, branch: nat, index: nat)
    requires InRange(base) && branch < HARDENED_OFFSET && index < HARDENED_OFFSET
    ensures BranchText(FormatPath(base), branch, index) == FormatPath(base + [branch, index])
    ensures PathSteps(BranchText(FormatPath(base), branch, index)) == base + [branch, index]
  {
    hide OfNat, ParsePath, StepsText;
    var steps := base + [branch, index];
    StepsConcat(base, [branch, index]);
    TwoSteps(branch, index);
    assert FormatPath(steps) == "m" + (StepsText(base) + StepsText([branch, index]));
    PathRoundTrip(steps);
  }

  lemma TwoSteps(branch: nat, index: nat)
    requires branch < HARDENED_OFFSET && index < HARDENED_OFFSET
    ensures StepsText([branch, index]) == "/" + OfNat(branch) + "/" + OfNat(index)
  {
    hide OfNat;
    assert [branch, index][1..] == [index] && [index][1..] == [];
    assert StepsText([index]) == "/" + OfNat(index) + "";
  }

  // ----- one single-signature address

  datatype OwnedAddress = OwnedAddress(
    address: string, path: string, scriptType: Option<ScriptType>, change: bool, index: nat, descriptor: Option<string>)

  function BranchNumber(change: bool): nat {
    if change then 1 else 0
  }

  /** An address of a script type, from the account's key; None where the library would throw. */
  function SingleAddress(w: Wallet, t: ScriptType, change: bool, index: nat): Option<string> {
    match DescendPrivate(w.device, w.device.root, AccountSteps(w, t))
    case None => None
    case Some(account) =>
      match DescendPrivate(w.device, account, [BranchNumber(change), index])
      case None => None
      case Some(node) =>
        var address := w.device.single(t, w.curve.publicKey(w.device.neuter(node)));
        if address == "" then None else Some(address)
  }

  function SingleEntry(w: Wallet, t: ScriptType, change: bool, index: nat, address: string): OwnedAddress {
    OwnedAddress(address, BranchText(FormatPath(AccountSteps(w, t)), BranchNumber(change), index), Some(t), change, index, None)
  }

  type Index = map<string, OwnedAddress>

  /** The entries for the first count indices of one branch, later ones over earlier ones. */
  function SetRun(w: Wallet, index: Index, t: ScriptType, change: bool, count: nat): Option<Index> {
    if count == 0 then Some(index)
    else match SetRun(w, index, t, change, count - 1)
         case None => None
         case Some(before) =>
           match SingleAddress(w, t, change, count - 1)
           case None => None
           case Some(address) => Some(before[address := SingleEntry(w, t, change, count - 1, address)])
  }

  /** The entries for the first n script types, both branches of each. */
  function SetTypes(w: Wallet, n: nat, gap: nat): Option<Index>
    requires n <= |SCRIPT_TYPES|
  {
    if n == 0 then Some(map[])
    else match SetTypes(w, n - 1, gap)
         case None => None
         case Some(before) =>
           match SetRun(w, before, SCRIPT_TYPES[n - 1], false, gap)
           case None => None
           case Some(received) => SetRun(w, received, SCRIPT_TYPES[n - 1], true, gap)
  }

  // ----- one registered quorum

  datatype Outcome = Added | NotOurs | Unreadable

  /** This device's multisig account key, written out. */
  function OwnXpub(w: Wallet): Option<string> {
    match DescendPrivate(w.device, w.device.root, MultisigSteps(w))
    case None => None
    case Some(node) =>
      var body := VersionBytes(w.device.version) + w.device.neuter(node);
      Some(w.lib.encode58(body + w.lib.check4(body)))
  }

  /** The script of a registration and the key of it this device holds. */
  function OurKey(w: Wallet, body: string): Result<(ScriptNode, KeyExpression), Outcome> {
    match ParseDescriptor(w.lib, body, false)
    case Err(_) => Err(Unreadable)
    case Ok(descriptor) =>
      match OwnXpub(w)
      case None => Err(Unreadable)
      case Some(ours) =>
        match QuorumKeys(descriptor.script)
        case Err(_) => Err(Unreadable)
        case Ok(None) => Err(NotOurs)
        case Ok(Some(keys)) =>
          match OwnPosition(w.lib, keys, KeyPayload(w.lib, ours))
          case None => Err(NotOurs)
          case Some(position) => Ok((descriptor.script, keys[position]))
  }

  /** The steps of a stored path that are not empty and not the root. */
  function NamedSteps(parts: seq<string>): seq<string> {
    if parts == [] then []
    else if parts[0] == "" || parts[0] == "m" then NamedSteps(parts[1..])
    else [parts[0]] + NamedSteps(parts[1..])
  }

  /** The branch a key expression uses on one side of the wallet. */
  function BranchOf(key: KeyExpression, change: bool): Option<nat>
    requires key.ExtendedKey?
  {
    if key.multipath.Some? then
      var at := if change then 1 else 0;
      if at < |key.multipath.value| then Some(key.multipath.value[at]) else None
    else if change then None
    else
      var steps := NamedSteps(Split(key.path, '/'));
      if steps == [] || !AllDigits(steps[|steps| - 1]) then None else Some(ToNat(steps[|steps| - 1]))
  }

  function QuorumEntry(w: Wallet, body: string, branch: nat, change: bool, entry: QuorumAddress): OwnedAddress {
    OwnedAddress(entry.address, BranchText(FormatPath(MultisigSteps(w)), branch, entry.index), None, change, entry.index, Some(body))
  }

  /** A quorum's addresses, each recorded unless the index already has it. */
  function AddAll(w: Wallet, index: Index, body: string, branch: nat, change: bool, entries: seq<QuorumAddress>): Index
    decreases |entries|
  {
    if entries == [] then index
    else
      var first := entries[0];
      var next := if first.address in index then index else index[first.address := QuorumEntry(w, body, branch, change, first)];
      AddAll(w, next, body, branch, change, entries[1..])
  }

  /** One side of the wallet: what the index becomes, or None when the addresses cannot be derived. */
  function AddPass(w: Wallet, index: Index, body: string, script: ScriptNode, key: KeyExpression, change: bool, gap: nat): Option<Index>
    requires key.ExtendedKey?
  {
    match BranchOf(key, change)
    case None => Some(index)
    case Some(branch) =>
      match DeriveQuorumAddresses(w.lib, w.curve, w.encoder, script, change, 0, gap)
      case Err(_) => None
      case Ok(entries) => Some(AddAll(w, index, body, branch, change, entries))
  }

  function AddRegistration(w: Wallet, index: Index, body: string, gap: nat): (Index, Outcome) {
    match OurKey(w, body)
    case Err(outcome) => (index, outcome)
    case Ok((script, key)) =>
      if key.RawKey? then (index, Unreadable)
      else match AddPass(w, index, body, script, key, false, gap)
           case None => (index, Unreadable)
           case Some(received) =>
             match AddPass(w, received, body, script, key, true, gap)
             case None => (received, Unreadable)
             case Some(both) => (both, Added)
  }

  function AddRegistrations(w: Wallet, index: Index, bodies: seq<string>, gap: nat): (Index, nat)
    decreases |bodies|
  {
    if bodies == [] then (index, 0)
    else
      var (before, unreadable) := AddRegistrations(w, index, bodies[..|bodies| - 1], gap);
      var (after, outcome) := AddRegistration(w, before, bodies[|bodies| - 1], gap);
      (after, unreadable + if outcome == Unreadable then 1 else 0)
  }

  // ----- the loops

  /** The index the wallet fills and the review reads. */
  class OwnedIndex {
    var entries: Index

    constructor ()
      ensures entries == map[]
    {
      entries := map[];
    }

    /** Record the addresses of one branch. */
    method SetBranch(w: Wallet, t: ScriptType, change: bool, gap: nat) returns (ok: bool)
      modifies this
      ensures ok == SetRun(w, old(entries), t, change, gap).Some?
      ensures ok ==> SetRun(w, old(entries), t, change, gap) == Some(entries)
    {
      hide SingleAddress;
      for i := 0 to gap
        invariant SetRun(w, old(entries), t, change, i) == Some(entries)
      {
        var address := SingleAddress(w, t, change, i);
        if address.None? {
          RunFails(w, old(entries), t, change, i, gap);
          return false;
        }
        entries := entries[address.value := SingleEntry(w, t, change, i, address.value)];
      }
      return true;
    }

    /** Fold one side of a registered quorum in. */
    method AddBranch(w: Wallet, body: string, branch: nat, change: bool, derived: seq<QuorumAddress>)
      modifies this
      ensures entries == AddAll(w, old(entries), body, branch, change, derived)
    {
      for i := 0 to |derived|
        invariant AddAll(w, entries, body, branch, change, derived[i..]) == AddAll(w, old(entries), body, branch, change, derived)
      {
        assert derived[i..][0] == derived[i] && derived[i..][1..] == derived[i + 1..];
        if derived[i].address !in entries {
          entries := entries[derived[i].address := QuorumEntry(w, body, branch, change, derived[i])];
        }
      }
      assert derived[|derived|..] == [];
    }

    /** addRegistration: both sides, receive first, leaving what was recorded when the other side fails. */
    method AddQuorum(w: Wallet, body: string, gap: nat) returns (outcome: Outcome)
      modifies this
      ensures (entries, outcome) == AddRegistration(w, old(entries), body, gap)
    {
      hide OurKey, BranchOf, DeriveQuorumAddresses, AddAll;
      var ours := OurKey(w, body);
      if ours.Err? {
        return ours.error;
      }
      var (script, key) := ours.value;
      if key.RawKey? {
        return Unreadable;
      }
      var receive := BranchOf(key, false);
      if receive.Some? {
        var derived := DeriveQuorumAddresses(w.lib, w.curve, w.encoder, script, false, 0, gap);
        if derived.Err? {
          return Unreadable;
        }
        AddBranch(w, body, receive.value, false, derived.value);
      }
      var change := BranchOf(key, true);
      if change.Some? {
        var derived := DeriveQuorumAddresses(w.lib, w.curve, w.encoder, script, true, 0, gap);
        if derived.Err? {
          return Unreadable;
        }
        AddBranch(w, body, change.value, true, derived.value);
      }
      return Added;
    }
  }

  lemma {:induction false} RunFails(w: Wallet, index: Index, t: ScriptType, change: bool, at: nat, count: nat)
    requires at < count && SingleAddress(w, t, change, at).None?
    ensures SetRun(w, index, t, change, count).None?
    decreases count, at
  {
    hide SingleAddress;
    if at < count - 1 {
      RunFails(w, index, t, change, at, count - 1);
    }
  }

  lemma {:induction false} TypesFail(w: Wallet, gap: nat, n: nat)
    requires n <= |SCRIPT_TYPES| && SetTypes(w, n, gap).None?
    ensures SetTypes(w, |SCRIPT_TYPES|, gap).None?
    decreases |SCRIPT_TYPES| - n
  {
    hide SetRun;
    if n < |SCRIPT_TYPES| {
      TypesFail(w, gap, n + 1);
    }
  }

  const MAX_GAP: nat := 1000

  function Gap(gapLimit: nat): nat {
    if gapLimit < MAX_GAP then gapLimit else MAX_GAP
  }

  /** The whole index: single-signature addresses first, then every registration in order. */
  function OwnedIndexOf(w: Wallet, gapLimit: nat, registrations: seq<string>): Option<(Index, nat)> {
    match SetTypes(w, |SCRIPT_TYPES|, Gap(gapLimit))
    case None => None
    case Some(singles) => Some(AddRegistrations(w, singles, registrations, Gap(gapLimit)))
  }

  method BuildOwnedIndex(w: Wallet, gapLimit: nat, registrations: seq<string>)
    returns (ok: bool, index: OwnedIndex, unreadable: nat)
    ensures fresh(index)
    ensures ok == OwnedIndexOf(w, gapLimit, registrations).Some?
    ensures ok ==> OwnedIndexOf(w, gapLimit, registrations) == Some((index.entries, unreadable))
  {
    hide SetRun, AddRegistration;
    var gap := Gap(gapLimit);
    index := new OwnedIndex();
    unreadable := 0;
    for n := 0 to |SCRIPT_TYPES|
      invariant fresh(index) && SetTypes(w, n, gap) == Some(index.entries)
    {
      var received := index.SetBranch(w, SCRIPT_TYPES[n], false, gap);
      if !received {
        TypesFail(w, gap, n + 1);
        return false, index, 0;
      }
      var change := index.SetBranch(w, SCRIPT_TYPES[n], true, gap);
      if !change {
        TypesFail(w, gap, n + 1);
        return false, index, 0;
      }
    }
    ghost var singles := index.entries;
    assert registrations[..0] == [];
    for i := 0 to |registrations|
      invariant fresh(index)
      invariant AddRegistrations(w, singles, registrations[..i], gap) == (index.entries, unreadable)
    {
      assert registrations[..i + 1][..i] == registrations[..i];
      var outcome := index.AddQuorum(w, registrations[i], gap);
      if outcome == Unreadable {
        unreadable := unreadable + 1;
      }
    }
    assert registrations[..|registrations|] == registrations;
    return true, index, unreadable;
  }

  // ----- what an entry claims

  /**
   * A single-signature address as BIP-44, 49, 84 and 86 place it: on branch 1
   * for change and 0 otherwise, of the hardened account of its script type; the
   * path as it is written, and the key there, from the root, gives the address.
   */
  ghost predicate SingleAt(w: Wallet, t: ScriptType, change: bool, index: nat, path: string, address: string) {
    var purpose := match t case P2wpkh => 84 case P2tr => 86 case P2shP2wpkh => 49 case P2pkh => 44;
    var key := KeyFromRoot(w, [purpose + 0x8000_0000, w.device.coin + 0x8000_0000, w.device.account + 0x8000_0000,
                               if change then 1 else 0, index]);
    && path == (match t case P2wpkh => "m/84'/" case P2tr => "m/86'/" case P2shP2wpkh => "m/49'/" case P2pkh => "m/44'/") +
               OfNat(w.device.coin) + "'/" + OfNat(w.device.account) + "'" + (if change then "/1/" else "/0/") + OfNat(index)
    && KeyAtPath(w, path) == key && key.Some? && w.device.single(t, key.value) == address
  }

  /** A single-signature entry re-derives: its key from the root, at the path it records, gives its address. */
  ghost predicate SingleSound(w: Wallet, entry: OwnedAddress) {
    && entry.scriptType.Some? && entry.descriptor.None? && entry.index < 1000
    && SingleAt(w, entry.scriptType.value, entry.change, entry.index, entry.path, entry.address)
  }

  /** The path a quorum's address is recorded at: this device's multisig account, a branch and an index. */
  predicate QuorumPath(w: Wallet, branch: nat, index: nat, path: string) {
    path == "m/48'/" + OfNat(w.device.coin) + "'/" + OfNat(w.device.account) + "'/2'/" + OfNat(branch) + "/" + OfNat(index)
  }

  /** A quorum's entry re-derives: its descriptor, at its index and side, gives its address. */
  ghost predicate QuorumSound(w: Wallet, entry: OwnedAddress, bodies: seq<string>) {
    && entry.scriptType.None? && entry.descriptor.Some? && entry.descriptor.value in bodies && entry.index < 1000
    && OurKey(w, entry.descriptor.value).Ok?
    && var (script, key) := OurKey(w, entry.descriptor.value).value;
       && key.ExtendedKey? && BranchOf(key, entry.change).Some?
       && entry.path == BranchText(FormatPath(MultisigSteps(w)), BranchOf(key, entry.change).value, entry.index)
       && QuorumPath(w, BranchOf(key, entry.change).value, entry.index, entry.path)
       && QuorumAddressAt(w.lib, w.curve, w.encoder, script, entry.index, entry.change) == Ok(QuorumAddress(entry.address, entry.index))
  }

  ghost predicate Sound(w: Wallet, index: Index, bodies: seq<string>) {
    forall a :: a in index ==> index[a].address == a && (SingleSound(w, index[a]) || QuorumSound(w, index[a], bodies))
  }

  lemma SingleEntrySound(w: Wallet, t: ScriptType, change: bool, index: nat)
    requires WalletLawful(w) && index < MAX_GAP && SingleAddress(w, t, change, index).Some?
    ensures SingleSound(w, SingleEntry(w, t, change, index, SingleAddress(w, t, change, index).value))
  {
    hide Lawful, CurveLawful, OfNat, PathSteps, FormatPath, BranchText;
    AccountInRange(w, t);
    BranchSteps(AccountSteps(w, t), BranchNumber(change), index);
    DescendConcat(w.device, w.device.root, AccountSteps(w, t), [BranchNumber(change), index]);
    SingleText(w, t, change, index);
    SingleSteps(w, t, change, index);
  }

  lemma ThreeHardened(a: nat, b: nat, c: nat)
    ensures FormatPath([a + HARDENED_OFFSET, b + HARDENED_OFFSET, c + HARDENED_OFFSET]) ==
            "m/" + OfNat(a) + "'/" + OfNat(b) + "'/" + OfNat(c) + "'"
  {
    hide OfNat, StepsText;
    var x, y, z := a + HARDENED_OFFSET, b + HARDENED_OFFSET, c + HARDENED_OFFSET;
    StepsConcat([x], [y, z]);
    StepsConcat([y], [z]);
    assert [x] + [y, z] == [x, y, z] && [y] + [z] == [y, z];
    OneHardened(a);
    OneHardened(b);
    OneHardened(c);
  }

  lemma PurposeText(t: ScriptType)
    ensures OfNat(Purpose(t)) == match t case P2wpkh => "84" case P2tr => "86" case P2shP2wpkh => "49" case P2pkh => "44"
  {
    assert OfNat(4) == "4" && OfNat(8) == "8";
  }

  lemma BranchDigit()
    ensures OfNat(0) == "0" && OfNat(1) == "1" && OfNat(2) == "2"
  {
  }

  lemma SingleText(w: Wallet, t: ScriptType, change: bool, index: nat)
    ensures BranchText(FormatPath(AccountSteps(w, t)), BranchNumber(change), index) ==
            (match t case P2wpkh => "m/84'/" case P2tr => "m/86'/" case P2shP2wpkh => "m/49'/" case P2pkh => "m/44'/") +
            OfNat(w.device.coin) + "'/" + OfNat(w.device.account) + "'" + (if change then "/1/" else "/0/") + OfNat(index)
  {
    hide OfNat, FormatPath, Purpose;
    ThreeHardened(Purpose(t), w.device.coin, w.device.account);
    BranchDigit();
    PurposeStart(t);
    var (coin, account) := (OfNat(w.device.coin), OfNat(w.device.account));
    SingleJoined(OfNat(Purpose(t)), coin, account, if change then "1" else "0", OfNat(index));
    assert (if change then "/1/" else "/0/") == "/" + (if change then "1" else "0") + "/";
  }

  lemma PurposeStart(t: ScriptType)
    ensures "m/" + OfNat(Purpose(t)) + "'/" ==
            match t case P2wpkh => "m/84'/" case P2tr => "m/86'/" case P2shP2wpkh => "m/49'/" case P2pkh => "m/44'/"
  {
    hide OfNat, Purpose;
    PurposeText(t);
  }

  lemma SingleJoined(purpose: string, coin: string, account: string, branch: string, index: string)
    ensures "m/" + purpose + "'/" + coin + "'/" + account + "'" + "/" + branch + "/" + index ==
            ("m/" + purpose + "'/") + coin + "'/" + account + "'" + ("/" + branch + "/") + index
  {
    Regroup("m/" + purpose + "'/" + coin + "'/" + account + "'", "/" + branch, "/");
  }

  lemma SingleSteps(w: Wallet, t: ScriptType, change: bool, index: nat)
    ensures var purpose := match t case P2wpkh => 84 case P2tr => 86 case P2shP2wpkh => 49 case P2pkh => 44;
            AccountSteps(w, t) + [BranchNumber(change), index] ==
            [purpose + 0x8000_0000, w.device.coin + 0x8000_0000, w.device.account + 0x8000_0000, if change then 1 else 0, index]
  {
  }

  /** The multisig account of this device, as BIP-48 writes it. */
  lemma MultisigText(w: Wallet, branch: nat, index: nat)
    ensures QuorumPath(w, branch, index, BranchText(FormatPath(MultisigSteps(w)), branch, index))
    ensures MultisigSteps(w) == [48 + 0x8000_0000, w.device.coin + 0x8000_0000, w.device.account + 0x8000_0000, 2 + 0x8000_0000]
  {
    hide OfNat, StepsText;
    var three := [MULTISIG_PURPOSE + HARDENED_OFFSET, w.device.coin + HARDENED_OFFSET, w.device.account + HARDENED_OFFSET];
    ThreeHardened(MULTISIG_PURPOSE, w.device.coin, w.device.account);
    StepsConcat(three, [2 + HARDENED_OFFSET]);
    assert MultisigSteps(w) == three + [2 + HARDENED_OFFSET];
    FortyEight();
    OneHardened(2);
    BranchDigit();
    FourJoined(OfNat(w.device.coin), OfNat(w.device.account));
    assert FormatPath(MultisigSteps(w)) == "m/48'/" + OfNat(w.device.coin) + "'/" + OfNat(w.device.account) + "'/2'";
  }

  lemma FourJoined(coin: string, account: string)
    ensures ("m/48'/" + coin + "'/" + account + "'") + "/2'" == "m/48'/" + coin + "'/" + account + "'/2'"
    ensures "m/" + "48" + "'/" + coin + "'/" + account + "'" == "m/48'/" + coin + "'/" + account + "'"
  {
  }

  lemma FortyEight()
    ensures OfNat(MULTISIG_PURPOSE) == "48"
  {
    assert OfNat(4) == "4";
  }

  lemma OneHardened(a: nat)
    ensures StepsText([a + HARDENED_OFFSET]) == "/" + OfNat(a) + "'"
  {
    hide OfNat;
    assert [a + HARDENED_OFFSET][1..] == [];
  }

  lemma AccountInRange(w: Wallet, t: ScriptType)
    requires w.device.coin < HARDENED_OFFSET && w.device.account < HARDENED_OFFSET
    ensures InRange(AccountSteps(w, t)) && InRange(MultisigSteps(w))
  {
  }

  lemma {:induction false} RunSound(w: Wallet, index: Index, t: ScriptType, change: bool, count: nat, bodies: seq<string>)
    requires WalletLawful(w) && count <= MAX_GAP && Sound(w, index, bodies) && SetRun(w, index, t, change, count).Some?
    ensures Sound(w, SetRun(w, index, t, change, count).value, bodies)
    ensures forall a :: a in index ==> a in SetRun(w, index, t, change, count).value
    ensures forall i: nat :: i < count ==> SingleAddress(w, t, change, i).Some? &&
                                           SingleAddress(w, t, change, i).value in SetRun(w, index, t, change, count).value
    decreases count, index
  {
    hide WalletLawful, SingleAddress, SingleEntry, SingleSound, QuorumSound;
    if count > 0 {
      RunSound(w, index, t, change, count - 1, bodies);
      SingleEntrySound(w, t, change, count - 1);
      EntryAddress(w, t, change, count - 1, SingleAddress(w, t, change, count - 1).value);
    }
  }

  lemma EntryAddress(w: Wallet, t: ScriptType, change: bool, index: nat, address: string)
    ensures SingleEntry(w, t, change, index, address).address == address
  {
  }

  /** Every single-signature address of the first n script types is in the index. */
  ghost predicate Covers(w: Wallet, index: Index, n: nat, gap: nat)
    requires n <= |SCRIPT_TYPES|
  {
    forall k: nat, change: bool, i: nat :: k < n && i < gap ==>
      SingleAddress(w, SCRIPT_TYPES[k], change, i).Some? && SingleAddress(w, SCRIPT_TYPES[k], change, i).value in index
  }

  lemma {:induction false} TypesSound(w: Wallet, n: nat, gap: nat)
    requires WalletLawful(w) && n <= |SCRIPT_TYPES| && gap <= MAX_GAP && SetTypes(w, n, gap).Some?
    ensures Sound(w, SetTypes(w, n, gap).value, []) && Covers(w, SetTypes(w, n, gap).value, n, gap)
    decreases n, gap
  {
    hide WalletLawful, SetRun, SingleAddress, SingleSound, QuorumSound, SCRIPT_TYPES;
    if n > 0 {
      TypesSound(w, n - 1, gap);
      var t := SCRIPT_TYPES[n - 1];
      var before := SetTypes(w, n - 1, gap).value;
      RunSound(w, before, t, false, gap, []);
      var received := SetRun(w, before, t, false, gap).value;
      RunSound(w, received, t, true, gap, []);
      var both := SetRun(w, received, t, true, gap).value;
      assert SetTypes(w, n, gap) == Some(both);
      forall k: nat, change: bool, i: nat | k < n && i < gap
        ensures SingleAddress(w, SCRIPT_TYPES[k], change, i).Some? && SingleAddress(w, SCRIPT_TYPES[k], change, i).value in both
      {
        if k == n - 1 {
          assert change || SingleAddress(w, t, false, i).value in received;
        } else {
          assert SingleAddress(w, SCRIPT_TYPES[k], change, i).value in before;
        }
      }
    }
  }

  // ----- a quorum adds, and never overwrites

  /** Nothing already recorded is changed. */
  ghost predicate Extends(before: Index, after: Index) {
    forall a :: a in before ==> a in after && after[a] == before[a]
  }

  lemma {:induction false} AddAllExtends(w: Wallet, index: Index, body: string, branch: nat, change: bool, entries: seq<QuorumAddress>)
    ensures var after := AddAll(w, index, body, branch, change, entries);
            && Extends(index, after)
            && (forall i :: 0 <= i < |entries| ==> entries[i].address in after)
            && forall a :: a in after && a !in index ==>
                 exists i :: 0 <= i < |entries| && entries[i].address == a && after[a] == QuorumEntry(w, body, branch, change, entries[i])
    decreases |entries|
  {
    hide QuorumEntry;
    if entries != [] {
      var first := entries[0];
      var next := if first.address in index then index else index[first.address := QuorumEntry(w, body, branch, change, first)];
      var rest := entries[1..];
      AddAllExtends(w, next, body, branch, change, rest);
      var after := AddAll(w, next, body, branch, change, rest);
      forall i | 0 <= i < |entries|
        ensures entries[i].address in after
      {
        assert i > 0 ==> entries[i] == rest[i - 1];
      }
      forall a | a in after && a !in index
        ensures exists i :: 0 <= i < |entries| && entries[i].address == a && after[a] == QuorumEntry(w, body, branch, change, entries[i])
      {
        if a in next {
          assert entries[0].address == a;
        } else {
          var i :| 0 <= i < |rest| && rest[i].address == a && after[a] == QuorumEntry(w, body, branch, change, rest[i]);
          assert entries[i + 1] == rest[i];
        }
      }
    }
  }

  lemma PassSound(w: Wallet, index: Index, body: string, change: bool, gap: nat, bodies: seq<string>)
    requires Sound(w, index, bodies) && body in bodies && gap <= MAX_GAP && OurKey(w, body).Ok? && OurKey(w, body).value.1.ExtendedKey?
    ensures var (script, key) := OurKey(w, body).value;
            var after := AddPass(w, index, body, script, key, change, gap);
            after.Some? ==> Sound(w, after.value, bodies) && Extends(index, after.value)
  {
    hide OurKey, BranchOf, DeriveQuorumAddresses, AddAll, Sound, Extends;
    var (script, key) := OurKey(w, body).value;
    if BranchOf(key, change).Some? {
      var derived := DeriveQuorumAddresses(w.lib, w.curve, w.encoder, script, change, 0, gap);
      if derived.Ok? {
        EntriesSound(w, body, bodies, change, gap, derived.value);
        AddAllSound(w, index, body, BranchOf(key, change).value, change, derived.value, bodies);
      }
    } else {
      ExtendsSelf(index);
    }
  }

  lemma ExtendsSelf(index: Index)
    ensures Extends(index, index)
  {
  }

  lemma EntriesSound(w: Wallet, body: string, bodies: seq<string>, change: bool, gap: nat, entries: seq<QuorumAddress>)
    requires body in bodies && gap <= MAX_GAP && OurKey(w, body).Ok? && OurKey(w, body).value.1.ExtendedKey?
    requires BranchOf(OurKey(w, body).value.1, change).Some?
    requires DeriveQuorumAddresses(w.lib, w.curve, w.encoder, OurKey(w, body).value.0, change, 0, gap) == Ok(entries)
    ensures forall i :: 0 <= i < |entries| ==>
              EntrySound(w, QuorumEntry(w, body, BranchOf(OurKey(w, body).value.1, change).value, change, entries[i]), entries[i].address, bodies)
  {
    hide OurKey, BranchOf, DeriveQuorumAddresses, QuorumSound, BranchText, QuorumEntry, QuorumAddressAt;
    QuorumAddressesEach(w.lib, w.curve, w.encoder, OurKey(w, body).value.0, change, 0, gap);
    forall i | 0 <= i < |entries|
      ensures EntrySound(w, QuorumEntry(w, body, BranchOf(OurKey(w, body).value.1, change).value, change, entries[i]), entries[i].address, bodies)
    {
      assert QuorumAddressAt(w.lib, w.curve, w.encoder, OurKey(w, body).value.0, 0 + i, change) == Ok(entries[i]);
      QuorumEntrySound(w, body, bodies, BranchOf(OurKey(w, body).value.1, change).value, change, entries[i]);
    }
  }

  ghost predicate EntrySound(w: Wallet, entry: OwnedAddress, address: string, bodies: seq<string>) {
    entry.address == address && QuorumSound(w, entry, bodies)
  }

  lemma AddAllSound(w: Wallet, index: Index, body: string, branch: nat, change: bool, entries: seq<QuorumAddress>, bodies: seq<string>)
    requires Sound(w, index, bodies)
    requires forall i :: 0 <= i < |entries| ==> EntrySound(w, QuorumEntry(w, body, branch, change, entries[i]), entries[i].address, bodies)
    ensures var after := AddAll(w, index, body, branch, change, entries);
            Sound(w, after, bodies) && Extends(index, after)
  {
    hide AddAll, QuorumEntry, SingleSound, QuorumSound;
    AddAllExtends(w, index, body, branch, change, entries);
    var after := AddAll(w, index, body, branch, change, entries);
    forall a | a in after
      ensures after[a].address == a && (SingleSound(w, after[a]) || QuorumSound(w, after[a], bodies))
    {
      if a !in index {
        var i :| 0 <= i < |entries| && entries[i].address == a && after[a] == QuorumEntry(w, body, branch, change, entries[i]);
      }
    }
  }

  lemma QuorumEntrySound(w: Wallet, body: string, bodies: seq<string>, branch: nat, change: bool, entry: QuorumAddress)
    requires body in bodies && OurKey(w, body).Ok? && OurKey(w, body).value.1.ExtendedKey? && entry.index < MAX_GAP
    requires BranchOf(OurKey(w, body).value.1, change) == Some(branch)
    requires QuorumAddressAt(w.lib, w.curve, w.encoder, OurKey(w, body).value.0, entry.index, change) == Ok(entry)
    ensures QuorumEntry(w, body, branch, change, entry).address == entry.address
    ensures QuorumSound(w, QuorumEntry(w, body, branch, change, entry), bodies)
  {
    hide OurKey, BranchOf, QuorumAddressAt, BranchText, QuorumPath;
    MultisigText(w, branch, entry.index);
  }

  lemma ExtendsTwice(a: Index, b: Index, c: Index)
    requires Extends(a, b) && Extends(b, c)
    ensures Extends(a, c)
  {
  }

  lemma RegistrationSound(w: Wallet, index: Index, body: string, gap: nat, bodies: seq<string>)
    requires Sound(w, index, bodies) && body in bodies && gap <= MAX_GAP
    ensures Sound(w, AddRegistration(w, index, body, gap).0, bodies) && Extends(index, AddRegistration(w, index, body, gap).0)
  {
    hide OurKey, AddPass, Sound;
    if OurKey(w, body).Ok? && OurKey(w, body).value.1.ExtendedKey? {
      var (script, key) := OurKey(w, body).value;
      PassSound(w, index, body, false, gap, bodies);
      var received := AddPass(w, index, body, script, key, false, gap);
      if received.Some? {
        PassSound(w, received.value, body, true, gap, bodies);
        if AddPass(w, received.value, body, script, key, true, gap).Some? {
          ExtendsTwice(index, received.value, AddPass(w, received.value, body, script, key, true, gap).value);
        }
      }
    }
  }

  lemma SoundMore(w: Wallet, index: Index, some: seq<string>, all: seq<string>)
    requires Sound(w, index, some) && forall b :: b in some ==> b in all
    ensures Sound(w, index, all)
  {
    hide SingleSound, OurKey, BranchOf, BranchText, QuorumAddressAt;
  }

  lemma {:induction false} RegistrationsSound(w: Wallet, index: Index, bodies: seq<string>, gap: nat)
    requires Sound(w, index, []) && gap <= MAX_GAP
    ensures Sound(w, AddRegistrations(w, index, bodies, gap).0, bodies) && Extends(index, AddRegistrations(w, index, bodies, gap).0)
    decreases |bodies|
  {
    hide AddRegistration, Sound;
    if bodies != [] {
      var init := bodies[..|bodies| - 1];
      var last := bodies[|bodies| - 1];
      RegistrationsSound(w, index, init, gap);
      var before := AddRegistrations(w, index, init, gap).0;
      SoundMore(w, before, init, bodies);
      RegistrationSound(w, before, last, gap, bodies);
      ExtendsTwice(index, before, AddRegistration(w, before, last, gap).0);
    }
  }

  /** A registration counted unreadable: it does not parse, is ambiguous, or a side it uses cannot be derived. */
  predicate UnreadableAlone(w: Wallet, body: string, gap: nat) {
    Unread(w, body) ||
    match OurKey(w, body)
    case Err(_) => false
    case Ok((script, key)) => key.RawKey? || SideFails(w, script, key, false, gap) || SideFails(w, script, key, true, gap)
  }

  /** It is no descriptor, this device's own key cannot be derived, or it holds two quorums. */
  predicate Unread(w: Wallet, body: string) {
    var read := ParseDescriptor(w.lib, body, false);
    read.Err? || OwnXpub(w).None? || QuorumKeys(read.value.script).Err?
  }

  /** This device has no part in it: no quorum, or none with its key, by the 74 bytes of the key. */
  predicate NoPart(w: Wallet, body: string)
    requires !Unread(w, body)
  {
    var keys := QuorumKeys(ParseDescriptor(w.lib, body, false).value.script).value;
    keys.None? || forall i :: 0 <= i < |keys.value| ==> !IsOwn(w.lib, keys.value[i], KeyPayload(w.lib, OwnXpub(w).value))
  }

  predicate SideFails(w: Wallet, script: ScriptNode, key: KeyExpression, change: bool, gap: nat)
    requires key.ExtendedKey?
  {
    BranchOf(key, change).Some? && DeriveQuorumAddresses(w.lib, w.curve, w.encoder, script, change, 0, gap).Err?
  }

  /** What comes of a registration does not depend on what is recorded already. */
  lemma OutcomeAlone(w: Wallet, index: Index, body: string, gap: nat)
    ensures AddRegistration(w, index, body, gap).1 == Unreadable <==> UnreadableAlone(w, body, gap)
    ensures AddRegistration(w, index, body, gap).1 == NotOurs <==> !Unread(w, body) && NoPart(w, body)
    ensures AddRegistration(w, index, body, gap).1 == Added <==> OurKey(w, body).Ok? && !UnreadableAlone(w, body, gap)
  {
    hide OurKey, BranchOf, DeriveQuorumAddresses, AddAll, Unread, NoPart;
    OurKeyFails(w, body);
  }

  lemma OurKeyFails(w: Wallet, body: string)
    ensures OurKey(w, body) == Err(Unreadable) <==> Unread(w, body)
    ensures OurKey(w, body) == Err(NotOurs) <==> !Unread(w, body) && NoPart(w, body)
    ensures OurKey(w, body).Err? ==> OurKey(w, body).error != Added
  {
    hide ParseDescriptor, OwnXpub, QuorumKeys, OwnPosition, KeyPayload, IsOwn;
    if !Unread(w, body) {
      var keys := QuorumKeys(ParseDescriptor(w.lib, body, false).value.script).value;
      if keys.Some? {
        OwnFound(w.lib, keys.value, KeyPayload(w.lib, OwnXpub(w).value));
      }
    }
  }

  lemma OwnFound(lib: Library, keys: seq<KeyExpression>, mine: string)
    ensures OwnPosition(lib, keys, mine).Some? <==> exists i :: 0 <= i < |keys| && IsOwn(lib, keys[i], mine)
  {
    hide IsOwn, OwnPosition;
    if i :| 0 <= i < |keys| && IsOwn(lib, keys[i], mine) {
      OwnSomewhere(lib, keys, mine, i);
    }
  }

  lemma {:induction false} OwnSomewhere(lib: Library, keys: seq<KeyExpression>, mine: string, i: nat)
    requires i < |keys| && IsOwn(lib, keys[i], mine)
    ensures OwnPosition(lib, keys, mine).Some?
  {
    hide IsOwn;
    if i > 0 {
      OwnSomewhere(lib, keys[1..], mine, i - 1);
    }
  }

  function UnreadableAt(w: Wallet, bodies: seq<string>, gap: nat): set<nat> {
    set j: nat | j < |bodies| && UnreadableAlone(w, bodies[j], gap)
  }

  /** The count of unreadable registrations, whatever their order. */
  lemma {:induction false} UnreadableCount(w: Wallet, index: Index, bodies: seq<string>, gap: nat)
    ensures AddRegistrations(w, index, bodies, gap).1 == |UnreadableAt(w, bodies, gap)|
    decreases |bodies|
  {
    hide AddRegistration, UnreadableAlone, Unread, NoPart, OurKey;
    if bodies == [] {
      assert UnreadableAt(w, bodies, gap) == {};
    } else {
      var last := |bodies| - 1;
      UnreadableCount(w, index, bodies[..last], gap);
      OutcomeAlone(w, AddRegistrations(w, index, bodies[..last], gap).0, bodies[last], gap);
      var before := UnreadableAt(w, bodies[..last], gap);
      assert UnreadableAt(w, bodies, gap) == if UnreadableAlone(w, bodies[last], gap) then before + {last} else before;
    }
  }

  /**
   * The index is sound and complete. Every key maps to an entry for that very
   * address, and the entry re-derives it: from the root at the recorded path,
   * or from the registered descriptor at the recorded side and index. Every
   * single-signature address within the gap limit is present, and still as a
   * single-signature one: no quorum overwrote it. And the count beside it is
   * of the registrations that cannot be read on their own.
   */
  lemma IndexSoundAndComplete(w: Wallet, gapLimit: nat, registrations: seq<string>)
    requires WalletLawful(w) && OwnedIndexOf(w, gapLimit, registrations).Some?
    ensures var (index, unreadable) := OwnedIndexOf(w, gapLimit, registrations).value;
            && Sound(w, index, registrations) && unreadable == |UnreadableAt(w, registrations, Gap(gapLimit))|
            && forall t: ScriptType, change: bool, i: nat :: i < gapLimit && i < 1000 ==>
                 SingleIn(w, index, t, change, i)
  {
    hide WalletLawful, SetTypes, AddRegistrations, SingleAddress, SingleAt, SingleSound, QuorumSound, UnreadableAt;
    var gap := Gap(gapLimit);
    TypesSound(w, |SCRIPT_TYPES|, gap);
    var singles := SetTypes(w, |SCRIPT_TYPES|, gap).value;
    RegistrationsSound(w, singles, registrations, gap);
    UnreadableCount(w, singles, registrations, gap);
    NoQuorumYet(w, singles);
    var index := AddRegistrations(w, singles, registrations, gap).0;
    forall t: ScriptType, change: bool, i: nat | i < gapLimit && i < 1000
      ensures SingleIn(w, index, t, change, i)
    {
      var k := TypePosition(t);
      assert SingleAddress(w, SCRIPT_TYPES[k], change, i).value in singles;
      SingleMade(w, t, change, i);
    }
  }

  /** The address at one place is in the index, as a single-signature one. */
  ghost predicate SingleIn(w: Wallet, index: Index, t: ScriptType, change: bool, i: nat) {
    exists path, address :: SingleAt(w, t, change, i, path, address) && address in index && SingleSound(w, index[address])
  }

  /** The single-signature address the index computes is the one at its place. */
  lemma SingleMade(w: Wallet, t: ScriptType, change: bool, index: nat)
    requires WalletLawful(w) && index < 1000 && SingleAddress(w, t, change, index).Some?
    ensures var address := SingleAddress(w, t, change, index).value;
            exists path :: SingleAt(w, t, change, index, path, address)
  {
    hide WalletLawful, SingleAddress, SingleAt;
    SingleEntrySound(w, t, change, index);
    var entry := SingleEntry(w, t, change, index, SingleAddress(w, t, change, index).value);
    assert SingleAt(w, t, change, index, entry.path, entry.address);
  }

  lemma NoQuorumYet(w: Wallet, index: Index)
    requires Sound(w, index, [])
    ensures forall a :: a in index ==> SingleSound(w, index[a])
  {
    hide SingleSound;
  }

  lemma TypePosition(t: ScriptType) returns (k: nat)
    ensures k < |SCRIPT_TYPES| && SCRIPT_TYPES[k] == t
  {
    k := match t case P2wpkh => 0 case P2tr => 1 case P2shP2wpkh => 2 case P2pkh => 3;
  }

  // ----- nothing a readable quorum owns is missing

  lemma PassComplete(w: Wallet, index: Index, body: string, script: ScriptNode, key: KeyExpression, change: bool, gap: nat, i: nat)
    requires key.ExtendedKey? && AddPass(w, index, body, script, key, change, gap).Some? && BranchOf(key, change).Some? && i < gap
    ensures var at := QuorumAddressAt(w.lib, w.curve, w.encoder, script, i, change);
            at.Ok? && at.value.address in AddPass(w, index, body, script, key, change, gap).value
  {
    hide BranchOf, DeriveQuorumAddresses, AddAll, QuorumAddressAt;
    var entries := DeriveQuorumAddresses(w.lib, w.curve, w.encoder, script, change, 0, gap).value;
    QuorumAddressesEach(w.lib, w.curve, w.encoder, script, change, 0, gap);
    AddAllExtends(w, index, body, BranchOf(key, change).value, change, entries);
    assert QuorumAddressAt(w.lib, w.curve, w.encoder, script, 0 + i, change) == Ok(entries[i]);
  }

  lemma RegistrationComplete(w: Wallet, index: Index, body: string, gap: nat, change: bool, i: nat)
    requires OurKey(w, body).Ok? && AddRegistration(w, index, body, gap).1 == Added && BranchOf(OurKey(w, body).value.1, change).Some? && i < gap
    ensures var at := QuorumAddressAt(w.lib, w.curve, w.encoder, OurKey(w, body).value.0, i, change);
            at.Ok? && at.value.address in AddRegistration(w, index, body, gap).0
  {
    hide OurKey, AddPass, BranchOf, QuorumAddressAt;
    var (script, key) := OurKey(w, body).value;
    var received := AddPass(w, index, body, script, key, false, gap).value;
    if change {
      PassComplete(w, received, body, script, key, true, gap, i);
    } else {
      PassComplete(w, index, body, script, key, false, gap, i);
      PassExtends(w, received, body, script, key, true, gap);
    }
  }

  lemma PassExtends(w: Wallet, index: Index, body: string, script: ScriptNode, key: KeyExpression, change: bool, gap: nat)
    requires key.ExtendedKey? && AddPass(w, index, body, script, key, change, gap).Some?
    ensures Extends(index, AddPass(w, index, body, script, key, change, gap).value)
  {
    hide BranchOf, DeriveQuorumAddresses, AddAll;
    if BranchOf(key, change).Some? {
      AddAllExtends(w, index, body, BranchOf(key, change).value, change,
                    DeriveQuorumAddresses(w.lib, w.curve, w.encoder, script, change, 0, gap).value);
    }
  }

  /** What registrations turned the index into is kept by the ones after them. */
  lemma {:induction false} LaterKeep(w: Wallet, index: Index, bodies: seq<string>, gap: nat, j: nat)
    requires Sound(w, index, []) && gap <= MAX_GAP && j <= |bodies|
    ensures Extends(AddRegistrations(w, index, bodies[..j], gap).0, AddRegistrations(w, index, bodies, gap).0)
    decreases |bodies| - j, bodies
  {
    hide AddRegistration, Sound;
    if j == |bodies| {
      assert bodies[..j] == bodies;
      ExtendsSelf(AddRegistrations(w, index, bodies, gap).0);
    } else {
      var init, last := bodies[..|bodies| - 1], bodies[|bodies| - 1];
      assert init[..j] == bodies[..j];
      LaterKeep(w, index, init, gap, j);
      RegistrationsSound(w, index, init, gap);
      var before := AddRegistrations(w, index, init, gap).0;
      SoundMore(w, before, init, bodies);
      RegistrationSound(w, before, last, gap, bodies);
      ExtendsTwice(AddRegistrations(w, index, bodies[..j], gap).0, before, AddRegistration(w, before, last, gap).0);
    }
  }

  /** Every address within the gap limit, on each side it uses, of every readable quorum with a key of ours is in the index. */
  lemma QuorumsComplete(w: Wallet, gapLimit: nat, registrations: seq<string>, j: nat, change: bool, i: nat)
    requires WalletLawful(w) && OwnedIndexOf(w, gapLimit, registrations).Some? && j < |registrations| && i < Gap(gapLimit)
    requires OurKey(w, registrations[j]).Ok? && !UnreadableAlone(w, registrations[j], Gap(gapLimit))
    requires BranchOf(OurKey(w, registrations[j]).value.1, change).Some?
    ensures var at := QuorumAddressAt(w.lib, w.curve, w.encoder, OurKey(w, registrations[j]).value.0, i, change);
            at.Ok? && at.value.address in OwnedIndexOf(w, gapLimit, registrations).value.0
  {
    hide AddRegistration, OurKey, BranchOf, QuorumAddressAt, WalletLawful, SetTypes, Sound, UnreadableAlone, Unread, NoPart;
    var gap := Gap(gapLimit);
    var singles := SetTypes(w, |SCRIPT_TYPES|, gap).value;
    TypesSound(w, |SCRIPT_TYPES|, gap);
    var before := AddRegistrations(w, singles, registrations[..j], gap).0;
    OutcomeAlone(w, before, registrations[j], gap);
    RegistrationComplete(w, before, registrations[j], gap, change, i);
    assert registrations[..j + 1][..j] == registrations[..j];
    LaterKeep(w, singles, registrations, gap, j + 1);
  }

  // ----- what the review and signing ask of the index

  /** changeLookup: the path of an address on the change branch, and of no other. */
  function ChangeLookup(index: Index, address: string): Option<string> {
    if address in index && index[address].change then Some(index[address].path) else None
  }

  /** A quorum's address on the change side, at a path that ends in the second alternative of our key and an index. */
  ghost predicate QuorumChange(w: Wallet, body: string, index: nat, path: string, address: string) {
    && index < 1000 && OurKey(w, body).Ok?
    && var (script, key) := OurKey(w, body).value;
       && key.ExtendedKey? && key.multipath.Some? && |key.multipath.value| >= 2
       && QuorumAddressAt(w.lib, w.curve, w.encoder, script, index, true) == Ok(QuorumAddress(address, index))
       && QuorumPath(w, key.multipath.value[1], index, path)
  }

  /** An address called change, as the wallet finds it again without the index. */
  ghost predicate ChangeAt(w: Wallet, registrations: seq<string>, path: string, address: string) {
    || (exists t, i :: i < 1000 && SingleAt(w, t, true, i, path, address))
    || (exists body, i :: body in registrations && QuorumChange(w, body, i, path, address))
  }

  ghost predicate AddressAtPlace(w: Wallet, t: ScriptType, change: bool, index: nat, address: string) {
    exists path :: SingleAt(w, t, change, index, path, address)
  }

  ghost predicate ReceiveAt(w: Wallet, address: string) {
    exists t, i, path :: i < 1000 && SingleAt(w, t, false, i, path, address)
  }

  /**
   * What changeLookup answers from the index the wallet builds. An address it
   * answers for is re-derived on the change side: from the root at the path
   * answered, on branch 1, or from a registered descriptor whose key of ours
   * has a second alternative, in which the path ends. And it answers for every
   * single-signature change address within the gap limit, unless that address
   * is a receive one as well.
   */
  lemma ChangeIsOurs(w: Wallet, gapLimit: nat, registrations: seq<string>, address: string)
    requires WalletLawful(w) && OwnedIndexOf(w, gapLimit, registrations).Some?
    ensures var found := ChangeLookup(OwnedIndexOf(w, gapLimit, registrations).value.0, address);
            && (found.Some? ==> ChangeAt(w, registrations, found.value, address))
            && (found.None? ==> forall t: ScriptType, i: nat ::
                  i < gapLimit && i < 1000 && AddressAtPlace(w, t, true, i, address) ==> ReceiveAt(w, address))
  {
    hide WalletLawful, OwnedIndexOf, SingleSound, QuorumSound, ChangeAt, ReceiveAt, SingleIn, AddressAtPlace, UnreadableAt;
    IndexSoundAndComplete(w, gapLimit, registrations);
    var index := OwnedIndexOf(w, gapLimit, registrations).value.0;
    if ChangeLookup(index, address).Some? {
      ChangeEntry(w, index[address], registrations);
    } else {
      forall t: ScriptType, i: nat | i < gapLimit && i < 1000 && AddressAtPlace(w, t, true, i, address)
        ensures ReceiveAt(w, address)
      {
        PlaceIn(w, index, t, true, i, address);
        ReceiveEntry(w, index[address]);
      }
    }
  }

  lemma PlaceIn(w: Wallet, index: Index, t: ScriptType, change: bool, i: nat, address: string)
    requires SingleIn(w, index, t, change, i) && AddressAtPlace(w, t, change, i, address)
    ensures address in index && SingleSound(w, index[address])
  {
    hide SingleSound, KeyFromRoot, KeyAtPath;
  }

  lemma ChangeEntry(w: Wallet, entry: OwnedAddress, registrations: seq<string>)
    requires entry.change && (SingleSound(w, entry) || QuorumSound(w, entry, registrations))
    ensures ChangeAt(w, registrations, entry.path, entry.address)
  {
    hide SingleAt, QuorumPath, OurKey, BranchText, QuorumAddressAt;
    if SingleSound(w, entry) {
      assert SingleAt(w, entry.scriptType.value, true, entry.index, entry.path, entry.address);
    } else {
      assert QuorumChange(w, entry.descriptor.value, entry.index, entry.path, entry.address);
    }
  }

  lemma ReceiveEntry(w: Wallet, entry: OwnedAddress)
    requires !entry.change && SingleSound(w, entry)
    ensures ReceiveAt(w, entry.address)
  {
    hide SingleAt;
    assert SingleAt(w, entry.scriptType.value, false, entry.index, entry.path, entry.address);
  }

  datatype OwnedInput = OwnedInput(index: nat, path: string)

  /** The entry of an input's locking script, when the wallet owns it. */
  function OwnerOf(addressOf: seq<byte> -> Option<string>, script: Option<seq<byte>>, index: Index): Option<OwnedAddress> {
    if script.None? then None
    else match addressOf(script.value)
         case None => None
         case Some(address) => if address in index then Some(index[address]) else None
  }

  /** The locking script is one of an address in the index, recorded at the path. */
  ghost predicate Owns(addressOf: seq<byte> -> Option<string>, script: Option<seq<byte>>, index: Index, path: string) {
    script.Some? && addressOf(script.value).Some? && addressOf(script.value).value in index &&
    index[addressOf(script.value).value].path == path
  }

  lemma OwnerOwns(addressOf: seq<byte> -> Option<string>, script: Option<seq<byte>>, index: Index, path: string)
    ensures Owns(addressOf, script, index, path) <==>
            OwnerOf(addressOf, script, index).Some? && OwnerOf(addressOf, script, index).value.path == path
  {
  }

  /** ownedInputsFor: each owned input once, in order, with the path of its key. */
  method OwnedInputsFor(addressOf: seq<byte> -> Option<string>, scripts: seq<Option<seq<byte>>>, index: Index)
    returns (owned: seq<OwnedInput>)
    ensures forall i, j :: 0 <= i < j < |owned| ==> owned[i].index < owned[j].index
    ensures forall o :: o in owned <==> o.index < |scripts| && Owns(addressOf, scripts[o.index], index, o.path)
  {
    hide OwnerOf;
    owned := [];
    for i := 0 to |scripts|
      invariant forall a, b :: 0 <= a < b < |owned| ==> owned[a].index < owned[b].index
      invariant forall o :: o in owned ==>
                  o.index < i && OwnerOf(addressOf, scripts[o.index], index).Some? &&
                  o.path == OwnerOf(addressOf, scripts[o.index], index).value.path
      invariant forall k :: 0 <= k < i && OwnerOf(addressOf, scripts[k], index).Some? ==>
                  OwnedInput(k, OwnerOf(addressOf, scripts[k], index).value.path) in owned
    {
      var entry := OwnerOf(addressOf, scripts[i], index);
      if entry.Some? {
        assert forall a :: 0 <= a < |owned| ==> owned[a] in owned;
        owned := owned + [OwnedInput(i, entry.value.path)];
      }
    }
    forall o
      ensures o in owned <==> o.index < |scripts| && Owns(addressOf, scripts[o.index], index, o.path)
    {
      if o.index < |scripts| {
        OwnerOwns(addressOf, scripts[o.index], index, o.path);
        assert o == OwnedInput(o.index, o.path);
      }
    }
  }
}
