/** The session that holds the seed: packages/daemon/src/session.ts. */
module Sessions {
  import opened Text

  /** A Secret, by identity; whether its bytes are zeroized is kept beside the session. */
  type SecretId = nat

  type Network = nat

  const MAINNET: Network := 0

  /** masterFingerprint of a seed on a network. */
  type Fingerprints = (SecretId, Network) -> string

  const WRONG_WORDS_ALLOWED: int := 15
  const CHILD_DERIVATIONS_ALLOWED: int := 8

  datatype Provenance = Generated | Imported | Loaded

  datatype ActiveWallet = ActiveWallet(id: string, name: string, colour: string, nameVerified: bool)

  datatype Cosigner = Cosigner(xpub: string, name: string)

  datatype SessionLabel = SessionLabel(kind: string, ref: string, name: string)

  /** The two lists that are sealed with a wallet. */
  datatype Lists = Lists(registrations: seq<string>, cosigners: seq<Cosigner>)

  datatype WalletSession = WalletSession(
    seed: SecretId,
    mnemonic: Option<string>,
    lists: Lists,
    sealed: Option<Lists>,
    labels: seq<SessionLabel>,
    provenance: Provenance,
    fingerprint: string,
    confirmedBackup: bool,
    wordChecksLeft: int,
    childDerivationsLeft: int,
    active: Option<ActiveWallet>)

  datatype State = State(
    wallet: Option<WalletSession>,
    network: Network,
    unlocked: bool,
    ephemeral: bool,
    bip39Passphrase: bool,
    disposed: set<SecretId>)

  const FRESH: State := State(None, MAINNET, false, false, false, {})

  datatype SessionError =
    | NoWallet | NetworkFixed | SecretDisposed | EphemeralWallet | OtherWallet | NoStoredWallet | Locked
    | LoadedFromStorage | BackupConfirmed | NoMnemonic | NothingToCheck | ChecksSpent | NoSuchWord | ChildrenSpent

  /** Every call the daemon makes on a session; CheckWord is seed.checkWord, the only caller of recordWrongWord. */
  datatype Call =
    | SetNetwork(network: Network)
    | Load(seed: SecretId, words: string, provenance: Provenance, ephemeral: bool, passphrase: bool)
    | LoadFromStore(seed: SecretId, stored: Option<ActiveWallet>)
    | SetBip39Passphrase(used: bool)
    | AssertPersistable
    | AttachTo(target: ActiveWallet)
    | Relabel(name: string, colour: string)
    | LabelCosigner(xpub: string, name: string)
    | HoldUnsaved
    | RecordSealed(written: Lists)
    | SetLabels(labels: seq<SessionLabel>)
    | SetCosigners(cosigners: seq<Cosigner>)
    | AddRegistration(descriptor: string)
    | ForgetRegistration(descriptor: string)
    | SetRegistrations(descriptors: seq<string>)
    | RequireSeed
    | RevealMnemonic
    | PeekWords
    | RecordWrongWord
    | CheckWord(index: nat, word: string)
    | TakeChildDerivation
    | ConfirmBackup
    | Lock

  datatype Answer =
    | Done
    | Refused(why: SessionError)
    | SeedOf(seed: SecretId)
    | Mnemonic(words: string)
    | Words(list: seq<string>)
    | Checked(correct: bool)
    | Removed(any: bool)

  // ----- one wallet's lists

  function WithoutKey(cosigners: seq<Cosigner>, xpub: string): (r: seq<Cosigner>)
    ensures forall i :: 0 <= i < |r| ==> r[i].xpub != xpub
  {
    if cosigners == [] then []
    else if cosigners[0].xpub == xpub then WithoutKey(cosigners[1..], xpub)
    else [cosigners[0]] + WithoutKey(cosigners[1..], xpub)
  }

  /** A list with one key named, or its name cleared by an empty name. */
  function Named(cosigners: seq<Cosigner>, xpub: string, name: string): seq<Cosigner> {
    if name == "" then WithoutKey(cosigners, xpub) else WithoutKey(cosigners, xpub) + [Cosigner(xpub, name)]
  }

  function Without(list: seq<string>, item: string): (r: seq<string>)
    ensures item !in r && |r| <= |list| && (|r| == |list| <==> item !in list)
    ensures item !in list ==> r == list
  {
    if list == [] then []
    else if list[0] == item then Without(list[1..], item)
    else [list[0]] + Without(list[1..], item)
  }

  function With(list: seq<string>, item: string): seq<string> {
    if item in list then list else list + [item]
  }

  /** Adding an entry leaves it there once, and the others as they were. */
  lemma WithBag(list: seq<string>, item: string)
    ensures multiset(With(list, item)) == if item in list then multiset(list) else multiset(list)[item := 1]
    ensures list <= With(list, item)
  {
    if item !in list {
      assert multiset(list)[item] == 0;
    }
  }

  /** Forgetting an entry takes out every copy of it and nothing else. */
  lemma {:induction false} WithoutBag(list: seq<string>, item: string)
    ensures multiset(Without(list, item)) == multiset(list)[item := 0]
  {
    if list != [] {
      var first, rest := list[0], list[1..];
      WithoutBag(rest, item);
      assert list == [first] + rest;
      assert multiset(list) == multiset{first} + multiset(rest);
      assert first != item ==> multiset([first] + Without(rest, item)) == multiset{first} + multiset(Without(rest, item));
    }
  }

  lemma {:induction false} WithoutKeyBag(cosigners: seq<Cosigner>, xpub: string, other: Cosigner)
    ensures multiset(WithoutKey(cosigners, xpub))[other] == if other.xpub == xpub then 0 else multiset(cosigners)[other]
  {
    if cosigners != [] {
      WithoutKeyBag(cosigners[1..], xpub, other);
      assert cosigners == [cosigners[0]] + cosigners[1..];
      assert multiset(cosigners) == multiset{cosigners[0]} + multiset(cosigners[1..]);
    }
  }

  /** Naming a key leaves one name for it, or none when it is cleared, and every other name as it was. */
  lemma NamedBag(cosigners: seq<Cosigner>, xpub: string, name: string, other: Cosigner)
    ensures multiset(Named(cosigners, xpub, name))[other] ==
            if other.xpub != xpub then multiset(cosigners)[other]
            else if name != "" && other == Cosigner(xpub, name) then 1 else 0
  {
    hide WithoutKey;
    WithoutKeyBag(cosigners, xpub, other);
    assert multiset(WithoutKey(cosigners, xpub) + [Cosigner(xpub, name)]) ==
           multiset(WithoutKey(cosigners, xpub)) + multiset{Cosigner(xpub, name)};
  }

  /** What a reseal writes: the sealed lists, not unsaved changes. */
  function SealedLists(w: WalletSession): Lists {
    if w.sealed.Some? then w.sealed.value else w.lists
  }

  /** holdUnsaved: remember what is sealed before a change that is not saved. */
  function Held(w: WalletSession): WalletSession {
    if w.sealed.Some? then w else w.(sealed := Some(w.lists))
  }

  /** recordSealed: what a write just sealed, dropped again when the live lists agree. */
  function Recorded(w: WalletSession, written: Lists): WalletSession {
    w.(sealed := if written == w.lists then None else Some(written))
  }

  // ----- the gates

  function Reveal(w: WalletSession): Result<string, SessionError> {
    if w.provenance == Loaded then Err(LoadedFromStorage)
    else if w.confirmedBackup then Err(BackupConfirmed)
    else if w.mnemonic.None? then Err(NoMnemonic)
    else Ok(w.mnemonic.value)
  }

  function Peek(w: WalletSession): Result<seq<string>, SessionError> {
    if w.provenance != Generated || w.mnemonic.None? then Err(NothingToCheck)
    else if w.confirmedBackup then Err(BackupConfirmed)
    else if w.wordChecksLeft <= 0 then Err(ChecksSpent)
    else Ok(Split(w.mnemonic.value, ' '))
  }

  // ----- one call

  /** The seeds disposed once the current one, if any, is. */
  function Disposed(s: State): set<SecretId> {
    if s.wallet.Some? then s.disposed + {s.wallet.value.seed} else s.disposed
  }

  /** A wallet as load and loadFromStore start it. */
  function Opened(seed: SecretId, mnemonic: Option<string>, provenance: Provenance, fingerprint: string,
                  active: Option<ActiveWallet>): WalletSession {
    WalletSession(seed, mnemonic, Lists([], []), None, [], provenance, fingerprint, provenance != Generated,
                  WRONG_WORDS_ALLOWED, CHILD_DERIVATIONS_ALLOWED, active)
  }

  function Replace(s: State, w: WalletSession): State {
    s.(wallet := Some(w))
  }

  function Step(fp: Fingerprints, s: State, call: Call): (State, Answer) {
    match call
    case SetNetwork(network) => if s.wallet.Some? then (s, Refused(NetworkFixed)) else (s.(network := network), Done)
    case Load(seed, words, provenance, ephemeral, passphrase) =>
      var cleared := s.(disposed := Disposed(s), ephemeral := ephemeral, bip39Passphrase := passphrase);
      if seed in cleared.disposed then (cleared, Refused(SecretDisposed))
      else (cleared.(wallet := Some(Opened(seed, Some(words), provenance, fp(seed, s.network), None)), unlocked := true), Done)
    case LoadFromStore(seed, stored) =>
      var cleared := s.(disposed := Disposed(s), ephemeral := false, bip39Passphrase := false);
      if seed in cleared.disposed then (cleared, Refused(SecretDisposed))
      else (cleared.(wallet := Some(Opened(seed, None, Loaded, fp(seed, s.network), stored)), unlocked := true), Done)
    case SetBip39Passphrase(used) => (s.(bip39Passphrase := used), Done)
    case AssertPersistable => (s, if s.ephemeral then Refused(EphemeralWallet) else Done)
    case RecordWrongWord =>
      if s.wallet.None? then (s, Done)
      else (Replace(s, s.wallet.value.(wordChecksLeft := s.wallet.value.wordChecksLeft - 1)), Done)
    case HoldUnsaved => if s.wallet.None? then (s, Done) else (Replace(s, Held(s.wallet.value)), Done)
    case RecordSealed(written) => if s.wallet.None? then (s, Done) else (Replace(s, Recorded(s.wallet.value, written)), Done)
    case SetCosigners(cosigners) =>
      if s.wallet.None? then (s, Done)
      else (Replace(s, s.wallet.value.(lists := s.wallet.value.lists.(cosigners := cosigners))), Done)
    case Lock => (FRESH.(disposed := Disposed(s)), Done)
    case Relabel(name, colour) =>
      if s.wallet.None? || s.wallet.value.active.None? then (s, Refused(NoStoredWallet))
      else (Replace(s, s.wallet.value.(active := Some(ActiveWallet(s.wallet.value.active.value.id, name, colour, true)))), Done)
    case _ =>
      if s.wallet.None? then (s, Refused(NoWallet)) else OnWallet(s, s.wallet.value, call)
  }

  /** The calls that throw when no wallet is loaded: those on its lists, and those on its gates. */
  function OnWallet(s: State, w: WalletSession, call: Call): (State, Answer)
    requires s.wallet == Some(w)
  {
    match call
    case AttachTo(target) =>
      if w.active.Some? && w.active.value.id != target.id then (s, Refused(OtherWallet))
      else (Replace(s, w.(active := Some(target))), Done)
    case LabelCosigner(xpub, name) =>
      (Replace(s, w.(lists := w.lists.(cosigners := Named(w.lists.cosigners, xpub, name)))), Done)
    case SetLabels(labels) => (Replace(s, w.(labels := labels)), Done)
    case AddRegistration(descriptor) =>
      (Replace(s, w.(lists := w.lists.(registrations := With(w.lists.registrations, descriptor)))), Done)
    case ForgetRegistration(descriptor) =>
      (Replace(s, w.(lists := w.lists.(registrations := Without(w.lists.registrations, descriptor)))),
       Removed(|Without(w.lists.registrations, descriptor)| != |w.lists.registrations|))
    case SetRegistrations(descriptors) => (Replace(s, w.(lists := w.lists.(registrations := descriptors))), Done)
    case _ => AtGate(s, w, call)
  }

  function AtGate(s: State, w: WalletSession, call: Call): (State, Answer)
    requires s.wallet == Some(w)
  {
    match call
    case RequireSeed => (s, if s.unlocked then SeedOf(w.seed) else Refused(Locked))
    case RevealMnemonic => (s, if Reveal(w).Ok? then Mnemonic(Reveal(w).value) else Refused(Reveal(w).error))
    case PeekWords => (s, if Peek(w).Ok? then Words(Peek(w).value) else Refused(Peek(w).error))
    case CheckWord(index, word) =>
      if Peek(w).Err? then (s, Refused(Peek(w).error))
      else if index >= |Peek(w).value| then (s, Refused(NoSuchWord))
      else if Peek(w).value[index] == word then (s, Checked(true))
      else (Replace(s, w.(wordChecksLeft := w.wordChecksLeft - 1)), Checked(false))
    case TakeChildDerivation =>
      if w.childDerivationsLeft <= 0 then (s, Refused(ChildrenSpent))
      else (Replace(s, w.(childDerivationsLeft := w.childDerivationsLeft - 1)), Done)
    case ConfirmBackup => (Replace(s, w.(confirmedBackup := true)), Done)
    case _ => (s, Done)
  }

  // ----- a run of calls

  /** The state after a history of calls, from a new session. */
  function Run(fp: Fingerprints, history: seq<Call>): State
    decreases |history|
  {
    if history == [] then FRESH else Step(fp, Run(fp, history[..|history| - 1]), history[|history| - 1]).0
  }

  /** What a call answers after a history. */
  function AnswerTo(fp: Fingerprints, history: seq<Call>, call: Call): Answer {
    Step(fp, Run(fp, history), call).1
  }

  predicate IsLoad(call: Call) {
    call.Load? || call.LoadFromStore?
  }

  /** Every seed ever handed to the session. */
  function SeedsGiven(history: seq<Call>): set<SecretId>
    decreases |history|
  {
    if history == [] then {}
    else
      var last := history[|history| - 1];
      SeedsGiven(history[..|history| - 1]) + if IsLoad(last) then {last.seed} else {}
  }

  /** A load of a seed that was never given before, so is not zeroized. */
  predicate Opens(before: seq<Call>, call: Call) {
    IsLoad(call) && call.seed !in SeedsGiven(before)
  }

  /** The load that opened the current wallet. */
  function OpenedBy(history: seq<Call>): (r: Option<Call>)
    ensures r.Some? ==> IsLoad(r.value)
    decreases |history|
  {
    if history == [] then None
    else
      var before, last := history[..|history| - 1], history[|history| - 1];
      if Opens(before, last) then Some(last)
      else if last.Lock? then None
      else OpenedBy(before)
  }

  /** Whether the backup was confirmed since the current wallet was opened. */
  predicate ConfirmedSince(history: seq<Call>)
    decreases |history|
  {
    history != [] &&
    var before, last := history[..|history| - 1], history[|history| - 1];
    if Opens(before, last) || last.Lock? then false
    else last.ConfirmBackup? || ConfirmedSince(before)
  }

  /** Guesses that cost something since the current wallet was opened. */
  function SpentSince(fp: Fingerprints, history: seq<Call>): nat
    decreases |history|
  {
    if history == [] then 0
    else
      var before, last := history[..|history| - 1], history[|history| - 1];
      if Opens(before, last) || last.Lock? then 0
      else SpentSince(fp, before) +
           if last.RecordWrongWord? || AnswerTo(fp, before, last) == Checked(false) then 1 else 0
  }

  /** Wrong words answered as wrong since the current wallet was opened. */
  function WrongSince(fp: Fingerprints, history: seq<Call>): nat
    decreases |history|
  {
    if history == [] then 0
    else
      var before, last := history[..|history| - 1], history[|history| - 1];
      if Opens(before, last) || last.Lock? then 0
      else WrongSince(fp, before) + if AnswerTo(fp, before, last) == Checked(false) then 1 else 0
  }

  /** Child seeds derived since the current wallet was opened. */
  function ChildrenSince(fp: Fingerprints, history: seq<Call>): nat
    decreases |history|
  {
    if history == [] then 0
    else
      var before, last := history[..|history| - 1], history[|history| - 1];
      if Opens(before, last) || last.Lock? then 0
      else ChildrenSince(fp, before) + if last.TakeChildDerivation? && AnswerTo(fp, before, last) == Done then 1 else 0
  }

  // ----- what every run keeps

  /** The wallet in memory is the one the history opened, with the network and fingerprint of its opening. */
  ghost predicate Faithful(fp: Fingerprints, history: seq<Call>, s: State) {
    && s.unlocked == s.wallet.Some?
    && (s.wallet.Some? <==> OpenedBy(history).Some?)
    && (s.wallet.Some? ==>
          var (w, opening) := (s.wallet.value, OpenedBy(history).value);
          && w.seed == opening.seed && w.fingerprint == fp(w.seed, s.network)
          && w.mnemonic == (if opening.Load? then Some(opening.words) else None)
          && w.provenance == (if opening.Load? then opening.provenance else Loaded)
          && w.confirmedBackup == (w.provenance != Generated || ConfirmedSince(history)))
  }

  /** Every seed but the one in memory is zeroized, and nothing the session was not given is. */
  ghost predicate Clean(history: seq<Call>, s: State) {
    && s.disposed <= SeedsGiven(history)
    && (s.wallet.None? ==> s.disposed == SeedsGiven(history))
    && (s.wallet.Some? ==> s.wallet.value.seed in SeedsGiven(history) &&
                           SeedsGiven(history) - {s.wallet.value.seed} <= s.disposed)
  }

  lemma {:induction false} RunClean(fp: Fingerprints, history: seq<Call>)
    ensures Clean(history, Run(fp, history))
    decreases |history|
  {
    hide Peek, Reveal, Split, Named, Without, With, Held, Recorded;
    if history != [] {
      var before, last := history[..|history| - 1], history[|history| - 1];
      RunClean(fp, before);
      StepClean(fp, before, Run(fp, before), last);
      assert history == before + [last];
    }
  }

  lemma SeedsNext(before: seq<Call>, last: Call)
    ensures SeedsGiven(before + [last]) == SeedsGiven(before) + if IsLoad(last) then {last.seed} else {}
  {
    assert (before + [last])[..|before|] == before;
  }

  /** What a call that neither loads nor locks leaves of the wallet in memory. */
  ghost predicate KeepsWallet(w: WalletSession, x: WalletSession, call: Call, answer: Answer) {
    && x.seed == w.seed && x.mnemonic == w.mnemonic && x.provenance == w.provenance && x.fingerprint == w.fingerprint
    && x.confirmedBackup == (w.confirmedBackup || call.ConfirmBackup?)
    && x.wordChecksLeft == w.wordChecksLeft - (if call.RecordWrongWord? || answer == Checked(false) then 1 else 0)
    && x.childDerivationsLeft == w.childDerivationsLeft - (if call.TakeChildDerivation? && answer == Done then 1 else 0)
  }

  ghost predicate KeepsState(s: State, t: State, call: Call, answer: Answer) {
    && t.disposed == s.disposed && t.wallet.Some? == s.wallet.Some? && t.unlocked == s.unlocked && t.ephemeral == s.ephemeral
    && (s.wallet.Some? ==> t.network == s.network && KeepsWallet(s.wallet.value, t.wallet.value, call, answer))
    && (s.wallet.None? ==> answer != Checked(false))
  }

  lemma OnWalletKeeps(s: State, w: WalletSession, call: Call)
    requires s.wallet == Some(w) && !call.RecordWrongWord?
    ensures KeepsState(s, OnWallet(s, w, call).0, call, OnWallet(s, w, call).1)
  {
    hide AtGate, Named, Without, With;
    AtGateKeeps(s, w, call);
  }

  lemma AtGateKeeps(s: State, w: WalletSession, call: Call)
    requires s.wallet == Some(w) && !call.RecordWrongWord?
    ensures KeepsState(s, AtGate(s, w, call).0, call, AtGate(s, w, call).1)
  {
    hide Peek, Reveal;
  }

  /** Only a load and a lock touch what is zeroized or which seed is in memory. */
  lemma OtherCalls(fp: Fingerprints, s: State, call: Call)
    requires !IsLoad(call) && !call.Lock?
    ensures KeepsState(s, Step(fp, s, call).0, call, Step(fp, s, call).1)
  {
    hide OnWallet;
    if s.wallet.Some? {
      if !call.RecordWrongWord? {
        OnWalletKeeps(s, s.wallet.value, call);
      }
    }
  }

  lemma StepClean(fp: Fingerprints, before: seq<Call>, s: State, last: Call)
    requires Clean(before, s)
    ensures Clean(before + [last], Step(fp, s, last).0)
  {
    hide OnWallet, SeedsGiven;
    SeedsNext(before, last);
    if !IsLoad(last) && !last.Lock? {
      OtherCalls(fp, s, last);
    }
  }

  lemma HistoryNext(before: seq<Call>, last: Call)
    ensures OpenedBy(before + [last]) ==
            if Opens(before, last) then Some(last) else if last.Lock? then None else OpenedBy(before)
    ensures ConfirmedSince(before + [last]) ==
            if Opens(before, last) || last.Lock? then false else last.ConfirmBackup? || ConfirmedSince(before)
  {
    assert (before + [last])[..|before|] == before;
  }

  /** A load that opens nothing leaves the wallet in memory as it was. */
  lemma LoadStep(fp: Fingerprints, before: seq<Call>, s: State, last: Call)
    requires Clean(before, s) && IsLoad(last)
    ensures var (t, answer) := Step(fp, s, last);
            && t.network == s.network
            && (Opens(before, last) <==> answer == Done)
            && (Opens(before, last) ==>
                  t.unlocked && t.wallet == Some(Opened(last.seed, if last.Load? then Some(last.words) else None,
                                                        if last.Load? then last.provenance else Loaded, fp(last.seed, s.network),
                                                        if last.Load? then None else last.stored)))
            && (!Opens(before, last) ==> answer == Refused(SecretDisposed) && t.wallet == s.wallet && t.unlocked == s.unlocked)
  {
    hide SeedsGiven;
  }

  lemma StepFaithful(fp: Fingerprints, before: seq<Call>, s: State, last: Call)
    requires Clean(before, s) && Faithful(fp, before, s)
    ensures Faithful(fp, before + [last], Step(fp, s, last).0)
  {
    hide OnWallet, SeedsGiven, Opens, OpenedBy, ConfirmedSince, Clean;
    HistoryNext(before, last);
    if IsLoad(last) {
      LoadStep(fp, before, s, last);
      NotLock(last);
    } else {
      NotOpening(before, last);
      if !last.Lock? {
        OtherCalls(fp, s, last);
      }
    }
  }

  lemma NotLock(call: Call)
    requires IsLoad(call)
    ensures !call.Lock? && !call.ConfirmBackup?
  {
  }

  lemma NotOpening(before: seq<Call>, call: Call)
    requires !IsLoad(call)
    ensures !Opens(before, call)
  {
  }

  lemma {:induction false} RunFaithful(fp: Fingerprints, history: seq<Call>)
    ensures Faithful(fp, history, Run(fp, history))
    decreases |history|
  {
    hide Step, Faithful, Clean, SeedsGiven, OpenedBy, ConfirmedSince;
    if history == [] {
      StartFaithful(fp);
    } else {
      var before, last := history[..|history| - 1], history[|history| - 1];
      RunFaithful(fp, before);
      RunClean(fp, before);
      StepFaithful(fp, before, Run(fp, before), last);
      assert history == before + [last];
    }
  }

  lemma StartFaithful(fp: Fingerprints)
    ensures Faithful(fp, [], FRESH)
  {
  }

  // ----- the budgets

  lemma CountsNext(fp: Fingerprints, before: seq<Call>, last: Call)
    ensures var wrong := if AnswerTo(fp, before, last) == Checked(false) then 1 else 0;
            var kept := !(Opens(before, last) || last.Lock?);
            && SpentSince(fp, before + [last]) ==
               (if kept then SpentSince(fp, before) + (if last.RecordWrongWord? then 1 else wrong) else 0)
            && WrongSince(fp, before + [last]) == (if kept then WrongSince(fp, before) + wrong else 0)
            && ChildrenSince(fp, before + [last]) ==
               (if kept then ChildrenSince(fp, before) +
                             (if last.TakeChildDerivation? && AnswerTo(fp, before, last) == Done then 1 else 0) else 0)
  {
    assert (before + [last])[..|before|] == before;
    WrongRecord(fp, Run(fp, before), last);
  }

  lemma WrongRecord(fp: Fingerprints, s: State, call: Call)
    ensures call.RecordWrongWord? ==> Step(fp, s, call).1 == Done
  {
  }

  /** The budgets are what the history has not spent. */
  ghost predicate Budgeted(fp: Fingerprints, history: seq<Call>, s: State) {
    && (s.wallet.Some? ==> s.wallet.value.wordChecksLeft == WRONG_WORDS_ALLOWED - SpentSince(fp, history))
    && (s.wallet.Some? ==> s.wallet.value.childDerivationsLeft == CHILD_DERIVATIONS_ALLOWED - ChildrenSince(fp, history))
    && WrongSince(fp, history) <= SpentSince(fp, history) && WrongSince(fp, history) <= WRONG_WORDS_ALLOWED
    && ChildrenSince(fp, history) <= CHILD_DERIVATIONS_ALLOWED
  }

  /** A wrong word is only answered, and a child only derived, while there is budget for it. */
  lemma WrongNeedsBudget(fp: Fingerprints, s: State, call: Call)
    ensures Step(fp, s, call).1 == Checked(false) ==>
              call.CheckWord? && s.wallet.Some? && s.wallet.value.wordChecksLeft > 0
    ensures call.TakeChildDerivation? && Step(fp, s, call).1 == Done ==>
              s.wallet.Some? && s.wallet.value.childDerivationsLeft > 0
  {
    hide Reveal, Split, Named, Without, With, OnWallet;
    if s.wallet.Some? {
      GateNeedsBudget(s, s.wallet.value, call);
    }
  }

  lemma GateNeedsBudget(s: State, w: WalletSession, call: Call)
    requires s.wallet == Some(w)
    ensures OnWallet(s, w, call).1 == Checked(false) ==> call.CheckWord? && w.wordChecksLeft > 0
    ensures call.TakeChildDerivation? && OnWallet(s, w, call).1 == Done ==> w.childDerivationsLeft > 0
  {
    hide Reveal, Split, Named, Without, With;
  }

  lemma StepBudgeted(fp: Fingerprints, before: seq<Call>, last: Call)
    requires Clean(before, Run(fp, before)) && Budgeted(fp, before, Run(fp, before))
    ensures Budgeted(fp, before + [last], Step(fp, Run(fp, before), last).0)
  {
    hide Step, Run, SeedsGiven, Opens, Clean, SpentSince, WrongSince, ChildrenSince;
    var s := Run(fp, before);
    CountsNext(fp, before, last);
    WrongNeedsBudget(fp, s, last);
    if IsLoad(last) {
      NotLock(last);
      LoadStep(fp, before, s, last);
      LoadAnswers(fp, s, last);
    } else {
      NotOpening(before, last);
      if last.Lock? {
        LockEmpties(fp, s, last);
      } else {
        OtherCalls(fp, s, last);
        WrongRecord(fp, s, last);
      }
    }
  }

  lemma LoadAnswers(fp: Fingerprints, s: State, call: Call)
    requires IsLoad(call)
    ensures Step(fp, s, call).1 != Checked(false) && !call.TakeChildDerivation? && !call.RecordWrongWord?
  {
  }

  lemma LockEmpties(fp: Fingerprints, s: State, call: Call)
    requires call.Lock?
    ensures Step(fp, s, call).0.wallet.None?
  {
  }

  lemma {:induction false} RunBudgeted(fp: Fingerprints, history: seq<Call>)
    ensures Budgeted(fp, history, Run(fp, history))
    decreases |history|
  {
    hide Step, Budgeted, Clean;
    if history == [] {
      StartBudgeted(fp);
    } else {
      var before, last := history[..|history| - 1], history[|history| - 1];
      RunBudgeted(fp, before);
      RunClean(fp, before);
      StepBudgeted(fp, before, last);
      assert history == before + [last];
    }
  }

  lemma StartBudgeted(fp: Fingerprints)
    ensures Budgeted(fp, [], FRESH)
  {
  }

  // ----- the main results, over every run

  /** The words the last opening brought, when it generated them and nothing since confirmed the backup. */
  function Revealable(history: seq<Call>): Option<string> {
    match OpenedBy(history)
    case Some(Load(_, words, Generated, _, _)) => if ConfirmedSince(history) then None else Some(words)
    case _ => None
  }

  /**
   * A mnemonic is returned exactly when the wallet in memory was generated in
   * this session and its backup has not been confirmed since, and it is that
   * wallet's own: never an imported or a stored one's, nor one already confirmed.
   */
  lemma RevealExactly(fp: Fingerprints, history: seq<Call>, words: string)
    ensures AnswerTo(fp, history, RevealMnemonic) == Mnemonic(words) <==> Revealable(history) == Some(words)
  {
    hide Run, OpenedBy, ConfirmedSince, Split;
    RunFaithful(fp, history);
  }

  /** The words are handed out for checking under the same condition and within the budget of wrong ones. */
  lemma PeekExactly(fp: Fingerprints, history: seq<Call>)
    ensures AnswerTo(fp, history, PeekWords).Words? <==>
            Revealable(history).Some? && SpentSince(fp, history) < 15
    ensures AnswerTo(fp, history, PeekWords).Words? ==>
              AnswerTo(fp, history, PeekWords) == Words(Split(Revealable(history).value, ' '))
  {
    hide Run, OpenedBy, ConfirmedSince, Split, SpentSince, ChildrenSince, WrongSince;
    RunFaithful(fp, history);
    RunBudgeted(fp, history);
  }

  /** While they are handed out, a word check answers whether the word is the one in that place. */
  lemma CheckWordExactly(fp: Fingerprints, history: seq<Call>, index: nat, word: string)
    ensures var answer := AnswerTo(fp, history, CheckWord(index, word));
            if Revealable(history).Some? && SpentSince(fp, history) < 15 then
              var words := Split(Revealable(history).value, ' ');
              answer == if index < |words| then Checked(words[index] == word) else Refused(NoSuchWord)
            else answer.Refused? && answer != Refused(NoSuchWord)
  {
    hide Run, OpenedBy, ConfirmedSince, Split, SpentSince, ChildrenSince, WrongSince;
    RunFaithful(fp, history);
    RunBudgeted(fp, history);
  }

  /** At most fifteen wrong words are ever answered for one opened wallet, and at most eight children derived. */
  lemma BudgetsHold(fp: Fingerprints, history: seq<Call>)
    ensures WrongSince(fp, history) <= 15 && ChildrenSince(fp, history) <= 8
    ensures AnswerTo(fp, history, TakeChildDerivation) == Done <==>
            OpenedBy(history).Some? && ChildrenSince(fp, history) < 8
  {
    hide Run, OpenedBy, ConfirmedSince, Split, SpentSince, ChildrenSince, WrongSince;
    RunFaithful(fp, history);
    RunBudgeted(fp, history);
  }

  /** Unlocked exactly when a wallet is in memory, and every other seed the session was ever given is zeroized. */
  lemma OneLiveSeed(fp: Fingerprints, history: seq<Call>)
    ensures var s := Run(fp, history);
            && s.unlocked == s.wallet.Some? == OpenedBy(history).Some?
            && (forall seed :: seed in SeedsGiven(history) && seed !in s.disposed ==>
                  s.wallet.Some? && s.wallet.value.seed == seed && OpenedBy(history).value.seed == seed)
            && (forall seed :: seed in s.disposed ==> seed in SeedsGiven(history))
  {
    hide Run, OpenedBy, ConfirmedSince, SeedsGiven;
    RunFaithful(fp, history);
    RunClean(fp, history);
  }

  /** While one wallet stays in memory, no call changes the network or its fingerprint. */
  lemma NetworkFixedWhileOpen(fp: Fingerprints, history: seq<Call>, call: Call)
    requires Run(fp, history).wallet.Some? && !Opens(history, call) && !call.Lock?
    ensures var (s, t) := (Run(fp, history), Run(fp, history + [call]));
            && t.wallet.Some? && t.wallet.value.seed == s.wallet.value.seed
            && t.network == s.network && t.wallet.value.fingerprint == s.wallet.value.fingerprint
            && t.wallet.value.fingerprint == fp(t.wallet.value.seed, t.network)
    ensures AnswerTo(fp, history, SetNetwork(0)) == Refused(NetworkFixed)
  {
    RunNext(fp, history, call);
    RunFaithful(fp, history + [call]);
    RunClean(fp, history);
    hide Run, OpenedBy, ConfirmedSince, SeedsGiven, Opens, OnWallet, Clean;
    if IsLoad(call) {
      LoadStep(fp, history, Run(fp, history), call);
    } else {
      OtherCalls(fp, Run(fp, history), call);
    }
  }

  lemma RunNext(fp: Fingerprints, history: seq<Call>, call: Call)
    ensures Run(fp, history + [call]) == Step(fp, Run(fp, history), call).0
  {
    hide Step;
    assert (history + [call])[..|history|] == history;
  }

  /** The network the history chose: the last one set while no wallet was in memory, since the last lock. */
  function ChosenNetwork(history: seq<Call>): Network
    decreases |history|
  {
    if history == [] then 0
    else
      var before, last := history[..|history| - 1], history[|history| - 1];
      match last
      case SetNetwork(network) => if OpenedBy(before).None? then network else ChosenNetwork(before)
      case Lock => 0
      case _ => ChosenNetwork(before)
  }

  lemma NetworkStep(fp: Fingerprints, s: State, call: Call)
    requires s.unlocked == s.wallet.Some?
    ensures Step(fp, s, call).0.network ==
            match call
            case SetNetwork(network) => if s.wallet.None? then network else s.network
            case Lock => 0
            case _ => s.network
  {
    hide OnWallet;
    if s.wallet.Some? {
      OnWalletNetwork(s, s.wallet.value, call);
    }
  }

  lemma OnWalletNetwork(s: State, w: WalletSession, call: Call)
    requires s.wallet == Some(w)
    ensures OnWallet(s, w, call).0.network == s.network
  {
    hide Peek, Reveal, Named, Without, With;
  }

  /** Over every run the session is on the network that was chosen, and its wallet's fingerprint is of that network. */
  lemma {:induction false} NetworkIsChosen(fp: Fingerprints, history: seq<Call>)
    ensures var s := Run(fp, history);
            s.network == ChosenNetwork(history) &&
            (s.wallet.Some? ==> s.wallet.value.fingerprint == fp(s.wallet.value.seed, ChosenNetwork(history)))
    decreases |history|
  {
    RunFaithful(fp, history);
    if history != [] {
      hide Step, OpenedBy, ConfirmedSince;
      var before, last := history[..|history| - 1], history[|history| - 1];
      NetworkIsChosen(fp, before);
      RunFaithful(fp, before);
      NetworkStep(fp, Run(fp, before), last);
    }
  }

  /** Whether the last load of either kind, or the call made to say so, had a BIP-39 passphrase. */
  function SaidPassphrase(history: seq<Call>): bool
    decreases |history|
  {
    if history == [] then false
    else
      match history[|history| - 1]
      case Load(_, _, _, _, passphrase) => passphrase
      case LoadFromStore(_, _) => false
      case SetBip39Passphrase(used) => used
      case Lock => false
      case _ => SaidPassphrase(history[..|history| - 1])
  }

  lemma OnWalletPassphrase(s: State, w: WalletSession, call: Call)
    requires s.wallet == Some(w)
    ensures OnWallet(s, w, call).0.bip39Passphrase == s.bip39Passphrase
  {
    hide Peek, Reveal, Named, Without, With;
  }

  /** The flag a wallet is sealed with is the one that was last said. */
  lemma {:induction false} PassphraseIsSaid(fp: Fingerprints, history: seq<Call>)
    ensures Run(fp, history).bip39Passphrase == SaidPassphrase(history)
    decreases |history|
  {
    hide OnWallet;
    if history != [] {
      var before, last := history[..|history| - 1], history[|history| - 1];
      var s := Run(fp, before);
      PassphraseIsSaid(fp, before);
      if s.wallet.Some? {
        OnWalletPassphrase(s, s.wallet.value, last);
      }
    }
  }

  lemma OnWalletActive(s: State, w: WalletSession, call: Call)
    requires s.wallet == Some(w)
    ensures var t := OnWallet(s, w, call).0;
            t.wallet.Some? && (w.active.Some? ==> t.wallet.value.active.Some? && t.wallet.value.active.value.id == w.active.value.id)
  {
    hide AtGate, Named, Without, With;
    AtGateActive(s, w, call);
  }

  lemma AtGateActive(s: State, w: WalletSession, call: Call)
    requires s.wallet == Some(w)
    ensures AtGate(s, w, call).0.wallet.Some? && AtGate(s, w, call).0.wallet.value.active == w.active
  {
    hide Peek, Reveal;
  }

  /** While one wallet stays in memory, no call points it at another stored one: it is never rebound. */
  lemma NeverRebound(fp: Fingerprints, history: seq<Call>, call: Call)
    requires Run(fp, history).wallet.Some? && Run(fp, history).wallet.value.active.Some? && !Opens(history, call) && !call.Lock?
    ensures var (s, t) := (Run(fp, history), Run(fp, history + [call]));
            t.wallet.Some? && t.wallet.value.active.Some? && t.wallet.value.active.value.id == s.wallet.value.active.value.id
    ensures call.AttachTo? && call.target.id != Run(fp, history).wallet.value.active.value.id ==>
              AnswerTo(fp, history, call) == Refused(OtherWallet)
  {
    RunNext(fp, history, call);
    RunClean(fp, history);
    hide Run, SeedsGiven, Opens, OnWallet, Clean;
    var s := Run(fp, history);
    if IsLoad(call) {
      LoadStep(fp, history, s, call);
    } else {
      OnWalletActive(s, s.wallet.value, call);
      if call.AttachTo? {
        AttachRefused(s, s.wallet.value, call);
      }
    }
  }

  lemma AttachRefused(s: State, w: WalletSession, call: Call)
    requires s.wallet == Some(w) && w.active.Some? && call.AttachTo?
    ensures call.target.id != w.active.value.id ==> OnWallet(s, w, call).1 == Refused(OtherWallet)
  {
  }

  /** The seed is handed out exactly while a wallet is open, and it is that wallet's. */
  lemma SeedExactly(fp: Fingerprints, history: seq<Call>)
    ensures AnswerTo(fp, history, RequireSeed) ==
            if OpenedBy(history).Some? then SeedOf(OpenedBy(history).value.seed) else Refused(NoWallet)
  {
    hide Run, OpenedBy, ConfirmedSince;
    RunFaithful(fp, history);
  }

  /** Why the words are not revealed: no wallet, then a stored one, then a confirmed backup. */
  lemma RevealRefusals(fp: Fingerprints, history: seq<Call>)
    requires Revealable(history).None?
    ensures AnswerTo(fp, history, RevealMnemonic) ==
            match OpenedBy(history)
            case None => Refused(NoWallet)
            case Some(opening) =>
              Refused(if opening.LoadFromStore? || opening.provenance == Loaded then LoadedFromStorage else BackupConfirmed)
  {
    hide Run, OpenedBy, ConfirmedSince;
    RunFaithful(fp, history);
  }

  /** A wallet opened for one session only, and whose seed is not zeroized. */
  predicate OpenedEphemerally(history: seq<Call>) {
    OpenedBy(history).Some? && OpenedBy(history).value.Load? && OpenedBy(history).value.ephemeral
  }

  /** The flag is the one the wallet in memory was opened with, as long as its seed is there to be written. */
  ghost predicate FlagHolds(history: seq<Call>, s: State) {
    (s.wallet.Some? && s.wallet.value.seed !in s.disposed ==> s.ephemeral == OpenedEphemerally(history))
  }

  lemma StepFlag(fp: Fingerprints, before: seq<Call>, s: State, last: Call)
    requires Clean(before, s) && FlagHolds(before, s)
    ensures FlagHolds(before + [last], Step(fp, s, last).0)
  {
    hide OnWallet, SeedsGiven, Opens, OpenedBy, ConfirmedSince, Clean;
    HistoryNext(before, last);
    if IsLoad(last) {
      NotLock(last);
      LoadStep(fp, before, s, last);
    } else {
      NotOpening(before, last);
      if !last.Lock? {
        OtherCalls(fp, s, last);
      }
    }
  }

  lemma {:induction false} RunFlag(fp: Fingerprints, history: seq<Call>)
    ensures FlagHolds(history, Run(fp, history))
    decreases |history|
  {
    hide Step, Clean, OpenedBy;
    if history != [] {
      var before, last := history[..|history| - 1], history[|history| - 1];
      RunFlag(fp, before);
      RunClean(fp, before);
      StepFlag(fp, before, Run(fp, before), last);
      assert history == before + [last];
    }
  }

  /** An ephemeral seed never passes assertPersistable: if the check passes and the seed is live, it was not opened for one session. */
  lemma EphemeralNeverPersists(fp: Fingerprints, history: seq<Call>)
    requires Run(fp, history).wallet.Some? && Run(fp, history).wallet.value.seed !in Run(fp, history).disposed
    ensures AnswerTo(fp, history, AssertPersistable) == Done <==> !OpenedEphemerally(history)
  {
    hide Run, OpenedBy;
    RunFlag(fp, history);
  }

  /** What the last load of either kind since the last lock asked for, whether it was carried out or refused. */
  function AskedEphemeral(history: seq<Call>): bool
    decreases |history|
  {
    if history == [] then false
    else
      match history[|history| - 1]
      case Load(_, _, _, ephemeral, _) => ephemeral
      case LoadFromStore(_, _) => false
      case Lock => false
      case _ => AskedEphemeral(history[..|history| - 1])
  }

  lemma {:induction false} RunAsked(fp: Fingerprints, history: seq<Call>)
    ensures Run(fp, history).ephemeral == AskedEphemeral(history)
    decreases |history|
  {
    hide OnWallet;
    if history != [] {
      var before, last := history[..|history| - 1], history[|history| - 1];
      RunAsked(fp, before);
      if !IsLoad(last) && !last.Lock? {
        OtherCalls(fp, Run(fp, before), last);
      }
    }
  }

  /**
   * assertPersistable over every run: it passes exactly when the last load since
   * the last lock, even a refused one, did not ask for one session only. That
   * differs from how the wallet in memory was opened only once its seed is zeroized.
   */
  lemma PersistableExactly(fp: Fingerprints, history: seq<Call>)
    ensures AnswerTo(fp, history, AssertPersistable) == Done <==> !AskedEphemeral(history)
    ensures var s := Run(fp, history);
            s.wallet.Some? && AskedEphemeral(history) != OpenedEphemerally(history) ==> s.wallet.value.seed in s.disposed
  {
    hide Run, OpenedBy, AskedEphemeral;
    RunAsked(fp, history);
    RunFlag(fp, history);
  }

  /** The flag can be lost: load a seed for one session, then hand over the same seed without asking for that. */
  lemma RefusedLoadClearsFlag(fp: Fingerprints, words: string)
    ensures var history := [Load(1, words, Generated, true, false), Load(1, words, Generated, false, false)];
            && OpenedEphemerally(history) && Run(fp, history).wallet.Some?
            && AnswerTo(fp, history, AssertPersistable) == Done
  {
    var first, second := Load(1, words, Generated, true, false), Load(1, words, Generated, false, false);
    RunNext(fp, [], first);
    RunNext(fp, [first], second);
    HistoryNext([], first);
    HistoryNext([first], second);
    SeedsNext([], first);
    assert [] + [first] == [first] && [first] + [second] == [first, second];
  }

  // ----- the class

  /** Session: its fields, and which secrets are zeroized. Every method is one call of the machine above. */
  class Session {
    var wallet: Option<WalletSession>
    var network: Network
    var unlocked: bool
    var ephemeral: bool
    var bip39Passphrase: bool
    var disposed: set<SecretId>

    ghost function Now(): State
      reads this
    {
      State(wallet, network, unlocked, ephemeral, bip39Passphrase, disposed)
    }

    constructor ()
      ensures Now() == FRESH
    {
      wallet, network, unlocked, ephemeral, bip39Passphrase, disposed := None, MAINNET, false, false, false, {};
    }

    method DisposeCurrent()
      modifies this`disposed
      ensures disposed == Disposed(old(Now()))
    {
      if wallet.Some? {
        disposed := disposed + {wallet.value.seed};
      }
    }

    method ChooseNetwork(chosen: Network) returns (answer: Answer)
      modifies this
      ensures forall fp: Fingerprints :: (Now(), answer) == Step(fp, old(Now()), SetNetwork(chosen))
    {
      if wallet.Some? {
        return Refused(NetworkFixed);
      }
      network := chosen;
      return Done;
    }

    /** Takes ownership: the seed in memory is disposed first, and the flags are set before the new one is read. */
    method LoadSeed(fp: Fingerprints, seed: SecretId, words: string, provenance: Provenance, once: bool, passphrase: bool)
      returns (answer: Answer)
      modifies this
      ensures (Now(), answer) == Step(fp, old(Now()), Load(seed, words, provenance, once, passphrase))
    {
      DisposeCurrent();
      ephemeral := once;
      bip39Passphrase := passphrase;
      if seed in disposed {
        return Refused(SecretDisposed);
      }
      wallet := Some(Opened(seed, Some(words), provenance, fp(seed, network), None));
      unlocked := true;
      return Done;
    }

    method LoadStored(fp: Fingerprints, seed: SecretId, stored: Option<ActiveWallet>) returns (answer: Answer)
      modifies this
      ensures (Now(), answer) == Step(fp, old(Now()), LoadFromStore(seed, stored))
    {
      DisposeCurrent();
      ephemeral := false;
      bip39Passphrase := false;
      if seed in disposed {
        return Refused(SecretDisposed);
      }
      wallet := Some(Opened(seed, None, Loaded, fp(seed, network), stored));
      unlocked := true;
      return Done;
    }

    /** Bind the session's wallet to a stored one, refusing to point it at another. */
    method Attach(target: ActiveWallet) returns (answer: Answer)
      modifies this
      ensures forall fp: Fingerprints :: (Now(), answer) == Step(fp, old(Now()), AttachTo(target))
    {
      if wallet.None? {
        return Refused(NoWallet);
      }
      if wallet.value.active.Some? && wallet.value.active.value.id != target.id {
        return Refused(OtherWallet);
      }
      wallet := Some(wallet.value.(active := Some(target)));
      return Done;
    }

    method SeedForUse() returns (answer: Answer)
      ensures forall fp: Fingerprints :: (Now(), answer) == Step(fp, old(Now()), RequireSeed)
    {
      if wallet.None? {
        return Refused(NoWallet);
      }
      return if unlocked then SeedOf(wallet.value.seed) else Refused(Locked);
    }

    method ReplaceRegistrations(descriptors: seq<string>) returns (answer: Answer)
      modifies this
      ensures forall fp: Fingerprints :: (Now(), answer) == Step(fp, old(Now()), SetRegistrations(descriptors))
    {
      if wallet.None? {
        return Refused(NoWallet);
      }
      wallet := Some(wallet.value.(lists := wallet.value.lists.(registrations := descriptors)));
      return Done;
    }

    method ReplaceCosigners(cosigners: seq<Cosigner>)
      modifies this
      ensures forall fp: Fingerprints :: (Now(), Done) == Step(fp, old(Now()), SetCosigners(cosigners))
    {
      if wallet.None? {
        return;
      }
      wallet := Some(wallet.value.(lists := wallet.value.lists.(cosigners := cosigners)));
    }

    method CheckPersistable() returns (answer: Answer)
      ensures forall fp: Fingerprints :: (Now(), answer) == Step(fp, old(Now()), AssertPersistable)
    {
      return if ephemeral then Refused(EphemeralWallet) else Done;
    }

    method HoldUnsavedLists()
      modifies this
      ensures forall fp: Fingerprints :: (Now(), Done) == Step(fp, old(Now()), HoldUnsaved)
    {
      if wallet.None? || wallet.value.sealed.Some? {
        return;
      }
      wallet := Some(wallet.value.(sealed := Some(wallet.value.lists)));
    }

    method RecordSealedLists(written: Lists)
      modifies this
      ensures forall fp: Fingerprints :: (Now(), Done) == Step(fp, old(Now()), RecordSealed(written))
    {
      if wallet.None? {
        return;
      }
      var same := written.registrations == wallet.value.lists.registrations && written.cosigners == wallet.value.lists.cosigners;
      wallet := Some(wallet.value.(sealed := if same then None else Some(written)));
    }

    method Register(descriptor: string) returns (answer: Answer)
      modifies this
      ensures forall fp: Fingerprints :: (Now(), answer) == Step(fp, old(Now()), AddRegistration(descriptor))
    {
      if wallet.None? {
        return Refused(NoWallet);
      }
      if descriptor !in wallet.value.lists.registrations {
        wallet := Some(wallet.value.(lists := wallet.value.lists.(registrations := wallet.value.lists.registrations + [descriptor])));
      }
      return Done;
    }

    method Forget(descriptor: string) returns (answer: Answer)
      modifies this
      ensures forall fp: Fingerprints :: (Now(), answer) == Step(fp, old(Now()), ForgetRegistration(descriptor))
    {
      if wallet.None? {
        return Refused(NoWallet);
      }
      var before := |wallet.value.lists.registrations|;
      wallet := Some(wallet.value.(lists := wallet.value.lists.(registrations := Without(wallet.value.lists.registrations, descriptor))));
      return Removed(|wallet.value.lists.registrations| != before);
    }

    method RevealWords() returns (answer: Answer)
      ensures forall fp: Fingerprints :: (Now(), answer) == Step(fp, old(Now()), RevealMnemonic)
    {
      if wallet.None? {
        return Refused(NoWallet);
      }
      var held := wallet.value;
      if held.provenance == Loaded {
        return Refused(LoadedFromStorage);
      }
      if held.confirmedBackup {
        return Refused(BackupConfirmed);
      }
      if held.mnemonic.None? {
        return Refused(NoMnemonic);
      }
      return Mnemonic(held.mnemonic.value);
    }

    method PeekWordsForVerification() returns (answer: Answer)
      ensures forall fp: Fingerprints :: (Now(), answer) == Step(fp, old(Now()), PeekWords)
    {
      if wallet.None? {
        return Refused(NoWallet);
      }
      var held := wallet.value;
      if held.provenance != Generated || held.mnemonic.None? {
        return Refused(NothingToCheck);
      }
      if held.confirmedBackup {
        return Refused(BackupConfirmed);
      }
      if held.wordChecksLeft <= 0 {
        return Refused(ChecksSpent);
      }
      return Words(Split(held.mnemonic.value, ' '));
    }

    method CountWrongWord()
      modifies this
      ensures forall fp: Fingerprints :: (Now(), Done) == Step(fp, old(Now()), RecordWrongWord)
    {
      if wallet.None? {
        return;
      }
      wallet := Some(wallet.value.(wordChecksLeft := wallet.value.wordChecksLeft - 1));
    }

    /** seed.checkWord: peek, compare, and spend the budget on a word that does not match. */
    method CheckOneWord(index: nat, word: string) returns (answer: Answer)
      modifies this
      ensures forall fp: Fingerprints :: (Now(), answer) == Step(fp, old(Now()), CheckWord(index, word))
    {
      hide Split;
      var words := PeekWordsForVerification();
      assert words == Step((_, _) => "", Now(), PeekWords).1;
      if !words.Words? {
        return words;
      }
      if index >= |words.list| {
        return Refused(NoSuchWord);
      }
      if words.list[index] != word {
        CountWrongWord();
        assert Now() == Step((_, _) => "", old(Now()), RecordWrongWord).0;
        return Checked(false);
      }
      return Checked(true);
    }

    method TakeChild() returns (answer: Answer)
      modifies this
      ensures forall fp: Fingerprints :: (Now(), answer) == Step(fp, old(Now()), TakeChildDerivation)
    {
      if wallet.None? {
        return Refused(NoWallet);
      }
      if wallet.value.childDerivationsLeft <= 0 {
        return Refused(ChildrenSpent);
      }
      wallet := Some(wallet.value.(childDerivationsLeft := wallet.value.childDerivationsLeft - 1));
      return Done;
    }

    method Confirm() returns (answer: Answer)
      modifies this
      ensures forall fp: Fingerprints :: (Now(), answer) == Step(fp, old(Now()), ConfirmBackup)
    {
      if wallet.None? {
        return Refused(NoWallet);
      }
      wallet := Some(wallet.value.(confirmedBackup := true));
      return Done;
    }

    method LockNow()
      modifies this
      ensures forall fp: Fingerprints :: (Now(), Done) == Step(fp, old(Now()), Lock)
    {
      DisposeCurrent();
      wallet, unlocked, network, ephemeral, bip39Passphrase := None, false, MAINNET, false, false;
    }
  }
}
