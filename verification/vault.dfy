/**
 * What reaches the file of the open wallet: the handlers of
 * packages/daemon/src/ipc/methods/multisig.ts and wallets.ts over
 * packages/daemon/src/session.ts, lines 94 to 114 and 412 to 458. A change made
 * for one session stays out of the file, with two exceptions, each exact.
 */
module Vault {
  import opened Text
  import opened Sessions

  /** How a change was asked for: for the session only, saved, or refused by a gate or by a write that threw. */
  datatype Attempt = SessionOnly | Saved | WriteFailed

  /** Create is wallets.create; Reseal is a rename of the wallet or a new passphrase for it. */
  datatype Change =
    | RegisterQuorum(descriptor: string, attempt: Attempt)
    | NameKey(xpub: string, name: string, attempt: Attempt)
    | ForgetQuorum(descriptor: string, attempt: Attempt)
    | Reseal(attempt: Attempt)
    | Create(target: ActiveWallet, attempt: Attempt)

  /** The open wallet and what its file holds, once it has one. */
  datatype Vault = Vault(w: WalletSession, disk: Option<Lists>)

  /** A wallet has a file exactly when the session is attached to it. */
  ghost predicate Filed(v: Vault) {
    v.disk.Some? <==> v.w.active.Some?
  }

  /** A passphrase asks for a save, and an ephemeral session never writes. */
  function Asked(passphrase: bool, ephemeral: bool, writes: bool): Attempt {
    if !passphrase || ephemeral then SessionOnly else if writes then Saved else WriteFailed
  }

  /**
   * What comes of a change. Without a file a registration to be saved is
   * refused, and a name or a forget is for the session only, passphrase or not;
   * a reseal needs a file, and the registry creates none for a seed it holds.
   */
  function Outcome(v: Vault, change: Change): Attempt {
    match change
    case RegisterQuorum(_, attempt) => if v.disk.None? && attempt == Saved then WriteFailed else attempt
    case NameKey(_, _, attempt) => if v.disk.None? then SessionOnly else attempt
    case ForgetQuorum(_, attempt) => if v.disk.None? then SessionOnly else attempt
    case Reseal(attempt) => if v.disk.None? || attempt != Saved then WriteFailed else Saved
    case Create(_, attempt) => if v.disk.Some? || attempt != Saved then WriteFailed else Saved
  }

  function Live(w: WalletSession, lists: Lists): WalletSession {
    w.(lists := lists)
  }

  /** A change: what the lists become in the session, what a save writes, and what came of it. */
  function Settle(v: Vault, live: Lists, written: Lists, outcome: Attempt): Vault {
    match outcome
    case WriteFailed => v
    case Saved => Vault(Recorded(Live(v.w, live), written), Some(written))
    case SessionOnly => v.(w := Live(Held(v.w), live))
  }

  function Handle(v: Vault, change: Change): Vault {
    var live, sealed, outcome := v.w.lists, SealedLists(v.w), Outcome(v, change);
    match change
    case RegisterQuorum(d, _) =>
      Settle(v, live.(registrations := With(live.registrations, d)), sealed.(registrations := With(sealed.registrations, d)), outcome)
    case NameKey(xpub, name, _) =>
      Settle(v, live.(cosigners := Named(live.cosigners, xpub, name)),
             sealed.(cosigners := Named(sealed.cosigners, xpub, name)), outcome)
    case ForgetQuorum(d, _) =>
      if d !in live.registrations then v
      else Settle(v, live.(registrations := Without(live.registrations, d)),
                  sealed.(registrations := Without(sealed.registrations, d)), outcome)
    case Reseal(_) => if outcome == Saved then v.(disk := Some(sealed)) else v
    case Create(target, _) =>
      if outcome == Saved then Vault(Recorded(v.w.(active := Some(target)), live), Some(live)) else v
  }

  // ----- the handlers, call by call

  /** multisig.register: build the list to write, write it, and only then touch the session. */
  method HandleRegister(session: Session, disk: Option<Lists>, descriptor: string, passphrase: bool, writes: bool)
    returns (after: Option<Lists>)
    requires session.wallet.Some? && Filed(Vault(session.wallet.value, disk))
    modifies session
    ensures session.wallet.Some?
    ensures Vault(session.wallet.value, after) ==
            Handle(Vault(old(session.wallet.value), disk), RegisterQuorum(descriptor, Asked(passphrase, old(session.ephemeral), writes)))
    ensures after != disk ==> passphrase && !old(session.ephemeral) && writes && old(session.wallet.value).active.Some?
  {
    var held := session.wallet.value;
    var sealed := SealedLists(held);
    var next := if descriptor in sealed.registrations then sealed.registrations else sealed.registrations + [descriptor];
    var written := Lists(next, sealed.cosigners);
    var persisted := false;
    if passphrase && !session.ephemeral {
      if held.active.None? || !writes {
        return disk;
      }
      persisted := true;
    }
    if !persisted {
      session.HoldUnsavedLists();
      assert session.Now() == Step((_, _) => "", old(session.Now()), HoldUnsaved).0;
    }
    label Held:
    var _ := session.Register(descriptor);
    assert session.Now() == Step((_, _) => "", old@Held(session.Now()), AddRegistration(descriptor)).0;
    label Added:
    if persisted {
      session.RecordSealedLists(written);
      assert session.Now() == Step((_, _) => "", old@Added(session.Now()), RecordSealed(written)).0;
    }
    return if persisted then Some(written) else disk;
  }

  /** multisig.forget: refuse what is not live, write, and only then touch the session. */
  method HandleForget(session: Session, disk: Option<Lists>, descriptor: string, passphrase: bool, writes: bool)
    returns (after: Option<Lists>, refused: bool)
    requires session.wallet.Some? && Filed(Vault(session.wallet.value, disk))
    modifies session
    ensures session.wallet.Some? && refused == (descriptor !in old(session.wallet.value.lists.registrations))
    ensures Vault(session.wallet.value, after) ==
            Handle(Vault(old(session.wallet.value), disk), ForgetQuorum(descriptor, Asked(passphrase, old(session.ephemeral), writes)))
    ensures after != disk ==> passphrase && !old(session.ephemeral) && writes && old(session.wallet.value).active.Some?
  {
    var held := session.wallet.value;
    var next := Without(held.lists.registrations, descriptor);
    var written := SealedLists(held).(registrations := Without(SealedLists(held).registrations, descriptor));
    if |next| == |held.lists.registrations| {
      return disk, true;
    }
    var persisted := false;
    if passphrase && !session.ephemeral && held.active.Some? {
      if !writes {
        return disk, false;
      }
      persisted := true;
    }
    if !persisted {
      session.HoldUnsavedLists();
      assert session.Now() == Step((_, _) => "", old(session.Now()), HoldUnsaved).0;
    }
    label Held:
    var _ := session.ReplaceRegistrations(next);
    assert session.Now() == Step((_, _) => "", old@Held(session.Now()), SetRegistrations(next)).0;
    label Replaced:
    if persisted {
      session.RecordSealedLists(written);
      assert session.Now() == Step((_, _) => "", old@Replaced(session.Now()), RecordSealed(written)).0;
    }
    return if persisted then Some(written) else disk, false;
  }

  /** multisig.labelCosigner, in the same three steps. */
  method HandleName(session: Session, disk: Option<Lists>, xpub: string, name: string, passphrase: bool, writes: bool)
    returns (after: Option<Lists>)
    requires session.wallet.Some? && Filed(Vault(session.wallet.value, disk))
    modifies session
    ensures session.wallet.Some?
    ensures Vault(session.wallet.value, after) ==
            Handle(Vault(old(session.wallet.value), disk), NameKey(xpub, name, Asked(passphrase, old(session.ephemeral), writes)))
    ensures after != disk ==> passphrase && !old(session.ephemeral) && writes && old(session.wallet.value).active.Some?
  {
    hide Named;
    var held := session.wallet.value;
    var next := Named(held.lists.cosigners, xpub, name);
    var written := SealedLists(held).(cosigners := Named(SealedLists(held).cosigners, xpub, name));
    var persisted := false;
    if passphrase && !session.ephemeral && held.active.Some? {
      if !writes {
        return disk;
      }
      persisted := true;
    }
    if !persisted {
      session.HoldUnsavedLists();
      assert session.Now() == Step((_, _) => "", old(session.Now()), HoldUnsaved).0;
    }
    label Held:
    session.ReplaceCosigners(next);
    assert session.Now() == Step((_, _) => "", old@Held(session.Now()), SetCosigners(next)).0;
    label Replaced:
    if persisted {
      session.RecordSealedLists(written);
      assert session.Now() == Step((_, _) => "", old@Replaced(session.Now()), RecordSealed(written)).0;
    }
    return if persisted then Some(written) else disk;
  }

  /** The gates of wallets.create, and whether the registry writes. */
  function CreateAsked(persistable: bool, confirmed: bool, writes: bool): Attempt {
    if persistable && confirmed && writes then Saved else WriteFailed
  }

  /** wallets.create: the two gates, write the live lists, attach the session and record what was written. */
  method HandleCreate(session: Session, disk: Option<Lists>, target: ActiveWallet, writes: bool)
    returns (after: Option<Lists>)
    requires session.wallet.Some? && Filed(Vault(session.wallet.value, disk))
    modifies session
    ensures session.wallet.Some?
    ensures var before := old(session.wallet.value);
            Vault(session.wallet.value, after) ==
            Handle(Vault(before, disk), Create(target, CreateAsked(!old(session.ephemeral), before.confirmedBackup, writes)))
    ensures after != disk ==> !old(session.ephemeral) && old(session.wallet.value).confirmedBackup &&
                              old(session.wallet.value).active.None? && writes
  {
    var persistable := session.CheckPersistable();
    assert persistable == Step((_, _) => "", session.Now(), AssertPersistable).1;
    var held := session.wallet.value;
    // The registry holds the seed of an attached wallet and refuses it.
    if persistable != Done || !held.confirmedBackup || held.active.Some? || !writes {
      return disk;
    }
    var _ := session.Attach(target);
    assert session.Now() == Step((_, _) => "", old(session.Now()), AttachTo(target)).0;
    label Attached:
    session.RecordSealedLists(held.lists);
    assert session.Now() == Step((_, _) => "", old@Attached(session.Now()), RecordSealed(held.lists)).0;
    return Some(held.lists);
  }

  // ----- the sealed view is the disk

  function RunChanges(v: Vault, changes: seq<Change>): Vault
    decreases |changes|
  {
    if changes == [] then v else RunChanges(Handle(v, changes[0]), changes[1..])
  }

  /** What a reseal would write is what the file holds. */
  ghost predicate Tied(v: Vault) {
    Filed(v) && (v.disk.Some? ==> SealedLists(v.w) == v.disk.value)
  }

  lemma HandleTied(v: Vault, change: Change)
    requires Tied(v)
    ensures Tied(Handle(v, change))
    ensures Handle(v, change).disk != v.disk ==> Outcome(v, change) == Saved
  {
    hide Named, With, Without;
  }

  /** Over every run of changes, saved or not, the session's sealed view is the file, from the moment there is one. */
  lemma {:induction false} SealedViewIsDisk(v: Vault, changes: seq<Change>)
    requires Tied(v)
    ensures Tied(RunChanges(v, changes))
    decreases |changes|
  {
    hide Handle, Tied;
    if changes != [] {
      HandleTied(v, changes[0]);
      SealedViewIsDisk(Handle(v, changes[0]), changes[1..]);
    }
  }

  // ----- deleting the unsaved changes

  /** A change made for this session only. */
  predicate Unsaved(v: Vault, change: Change) {
    Outcome(v, change) == SessionOnly
  }

  /** The run without the changes made for this session only. */
  function SavedOnly(v: Vault, changes: seq<Change>): seq<Change>
    decreases |changes|
  {
    if changes == [] then []
    else
      var rest := SavedOnly(Handle(v, changes[0]), changes[1..]);
      if Unsaved(v, changes[0]) then rest else [changes[0]] + rest
  }

  /** A forget the session refuses although the file has the quorum: an unsaved forget took it out of the live list first. */
  predicate Stranded(v: Vault, change: Change) {
    change.ForgetQuorum? && Outcome(v, change) == Saved &&
    change.descriptor !in v.w.lists.registrations && v.disk.Some? && change.descriptor in v.disk.value.registrations
  }

  /** A first save made while changes for this session only are pending: it writes the live lists. */
  predicate SealsPending(v: Vault, change: Change) {
    change.Create? && Outcome(v, change) == Saved && v.w.lists != SealedLists(v.w)
  }

  predicate LeavesTrace(v: Vault, change: Change) {
    Stranded(v, change) || SealsPending(v, change)
  }

  predicate NoneLeavesTrace(v: Vault, changes: seq<Change>)
    decreases |changes|
  {
    changes != [] ==> !LeavesTrace(v, changes[0]) && NoneLeavesTrace(Handle(v, changes[0]), changes[1..])
  }

  /** One wallet with unsaved changes and one without, over the same file or none. */
  ghost predicate Twins(v: Vault, u: Vault) {
    && v.disk == u.disk && SealedLists(v.w) == u.w.lists && u.w.sealed.None?
    && (v.disk.Some? ==> u.w.lists == v.disk.value)
  }

  /** Any other change leaves the same file from either twin, exactly unless it is one of the two exceptions. */
  lemma SavedAlike(v: Vault, u: Vault, change: Change)
    requires Twins(v, u) && !Unsaved(v, change)
    ensures Handle(v, change).disk == Handle(u, change).disk <==> !LeavesTrace(v, change)
    ensures !LeavesTrace(v, change) ==> Twins(Handle(v, change), Handle(u, change))
  {
    hide Named, With;
  }

  lemma UnsavedAlike(v: Vault, u: Vault, change: Change)
    requires Twins(v, u) && Unsaved(v, change)
    ensures Twins(Handle(v, change), u) && !LeavesTrace(v, change)
  {
    hide Named, With, Without;
  }

  /** After the first k changes of a run, the file is the one the run without its unsaved changes leaves. */
  ghost predicate SameFile(v: Vault, u: Vault, changes: seq<Change>, k: nat)
    requires k <= |changes|
  {
    RunChanges(v, changes[..k]).disk == RunChanges(u, SavedOnly(v, changes[..k])).disk
  }

  lemma SameFileNext(v: Vault, u: Vault, changes: seq<Change>, k: nat)
    requires k < |changes|
    ensures SameFile(v, u, changes, k + 1) ==
            SameFile(Handle(v, changes[0]), if Unsaved(v, changes[0]) then u else Handle(u, changes[0]), changes[1..], k)
  {
    hide Handle, Unsaved;
    var some := changes[..k + 1];
    assert some[0] == changes[0] && some[1..] == changes[1..][..k];
    var rest := SavedOnly(Handle(v, some[0]), some[1..]);
    if !Unsaved(v, changes[0]) {
      assert ([changes[0]] + rest)[1..] == rest;
    }
  }

  lemma SameFileStart(v: Vault, u: Vault, changes: seq<Change>)
    ensures SameFile(v, u, changes, 0) <==> v.disk == u.disk
  {
    assert changes[..0] == [];
  }

  lemma {:induction false} TwinsTrace(v: Vault, u: Vault, changes: seq<Change>)
    requires Twins(v, u)
    ensures (forall k: nat :: k <= |changes| ==> SameFile(v, u, changes, k)) <==> NoneLeavesTrace(v, changes)
    decreases |changes|
  {
    hide Handle, LeavesTrace, SameFile, Unsaved, SavedOnly;
    SameFileStart(v, u, changes);
    if changes != [] {
      var next, other, rest := Handle(v, changes[0]), if Unsaved(v, changes[0]) then u else Handle(u, changes[0]), changes[1..];
      forall k: nat | k < |changes|
        ensures SameFile(v, u, changes, k + 1) == SameFile(next, other, rest, k)
      {
        SameFileNext(v, u, changes, k);
      }
      SameFileStart(next, other, rest);
      if Unsaved(v, changes[0]) {
        UnsavedAlike(v, u, changes[0]);
      } else {
        SavedAlike(v, u, changes[0]);
      }
      if LeavesTrace(v, changes[0]) {
        assert !SameFile(v, u, changes, 0 + 1);
      } else {
        TwinsTrace(next, other, rest);
        forall k: nat | k <= |changes|
          ensures SameFile(v, u, changes, k) <==> k == 0 || SameFile(next, other, rest, k - 1)
        {
          if k > 0 {
            SameFileNext(v, u, changes, k - 1);
          }
        }
        assert forall j: nat :: j <= |rest| ==> SameFile(next, other, rest, j) == SameFile(v, u, changes, j + 1);
      }
    }
  }

  /** A wallet as it is opened, restored or made: nothing unsaved, and its file, if it has one, holds its lists. */
  ghost predicate JustOpened(v: Vault) {
    Filed(v) && v.w.sealed.None? && (v.disk.Some? ==> v.w.lists == v.disk.value)
  }

  /**
   * Deleting the unsaved changes of a run leaves the same file at every moment
   * of it, if and only if no saved forget names a quorum that an earlier
   * unsaved forget took out of the session, and the wallet is not saved for
   * the first time while unsaved changes are pending.
   */
  lemma UnsavedLeavesNoTrace(v: Vault, changes: seq<Change>)
    requires JustOpened(v)
    ensures (forall k: nat :: k <= |changes| ==>
               RunChanges(v, changes[..k]).disk == RunChanges(v, SavedOnly(v, changes[..k])).disk) <==>
            NoneLeavesTrace(v, changes)
  {
    hide RunChanges, SavedOnly, NoneLeavesTrace;
    TwinsTrace(v, v, changes);
    assert forall k: nat :: k <= |changes| ==>
             SameFile(v, v, changes, k) == (RunChanges(v, changes[..k]).disk == RunChanges(v, SavedOnly(v, changes[..k])).disk);
  }

  // ----- both exceptions happen

  lemma TwoChanges(v: Vault, first: Change, second: Change)
    requires Unsaved(v, first) && !Unsaved(Handle(v, first), second)
    ensures RunChanges(v, [first, second]) == Handle(Handle(v, first), second)
    ensures RunChanges(v, SavedOnly(v, [first, second])) == Handle(v, second)
  {
    hide Handle, Unsaved;
    var changes, once := [first, second], Handle(v, first);
    assert changes[1..] == [second] && [second][1..] == [];
    assert SavedOnly(once, [second]) == [second];
    assert RunChanges(once, [second]) == RunChanges(Handle(once, second), []);
    assert RunChanges(v, [second]) == RunChanges(Handle(v, second), []);
  }

  /** Forget a saved quorum for this session, then try to forget it for good: the file keeps it. */
  lemma StrandedForget(w: WalletSession)
    requires w.sealed.None? && w.lists == Lists(["quorum"], []) && w.active.Some?
    ensures var (v, changes) := (Vault(w, Some(w.lists)), [ForgetQuorum("quorum", SessionOnly), ForgetQuorum("quorum", Saved)]);
            && RunChanges(v, changes).disk == Some(Lists(["quorum"], []))
            && RunChanges(v, SavedOnly(v, changes)).disk == Some(Lists([], []))
  {
    var v := Vault(w, Some(w.lists));
    assert ["quorum"][1..] == [];
    assert Without(["quorum"], "quorum") == [];
    TwoChanges(v, ForgetQuorum("quorum", SessionOnly), ForgetQuorum("quorum", Saved));
  }

  /** Register a quorum for this session in a wallet never saved, then save the wallet: the file holds the quorum. */
  lemma CreateSealsPending(w: WalletSession, target: ActiveWallet)
    requires w.sealed.None? && w.lists == Lists([], []) && w.active.None?
    ensures var (v, changes) := (Vault(w, None), [RegisterQuorum("quorum", SessionOnly), Create(target, Saved)]);
            && RunChanges(v, changes).disk == Some(Lists(["quorum"], []))
            && RunChanges(v, SavedOnly(v, changes)).disk == Some(Lists([], []))
  {
    assert [] + ["quorum"] == ["quorum"];
    TwoChanges(Vault(w, None), RegisterQuorum("quorum", SessionOnly), Create(target, Saved));
  }
}
