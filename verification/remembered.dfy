/** What the open wallet holds, as its history alone says: packages/daemon/src/session.ts, lines 369 to 523. */
module Remembered {
  import opened Text
  import opened Sessions

  // ----- what a history says, since its last opening

  /** A quorum is registered: the last call that named it, or replaced the whole list, put it there. */
  predicate RegisteredSince(history: seq<Call>, descriptor: string)
    decreases |history|
  {
    history != [] &&
    var before, last := history[..|history| - 1], history[|history| - 1];
    if Opens(before, last) || last.Lock? then false
    else if last.SetRegistrations? then descriptor in last.descriptors
    else if last.AddRegistration? && last.descriptor == descriptor then true
    else if last.ForgetRegistration? && last.descriptor == descriptor then false
    else RegisteredSince(before, descriptor)
  }

  /** A key has this name: the last call about the key gave it, and not the empty name, which clears. */
  predicate NamedSince(history: seq<Call>, cosigner: Cosigner)
    decreases |history|
  {
    history != [] &&
    var before, last := history[..|history| - 1], history[|history| - 1];
    if Opens(before, last) || last.Lock? then false
    else if last.SetCosigners? then cosigner in last.cosigners
    else if last.LabelCosigner? && last.xpub == cosigner.xpub then last.name != "" && last.name == cosigner.name
    else NamedSince(before, cosigner)
  }

  /** The labels last given. */
  function LabelsSince(history: seq<Call>): seq<SessionLabel>
    decreases |history|
  {
    if history == [] then []
    else
      var before, last := history[..|history| - 1], history[|history| - 1];
      if Opens(before, last) || last.Lock? then []
      else if last.SetLabels? then last.labels
      else LabelsSince(before)
  }

  /** The stored wallet the session is using: the one it was read from, or the first it was attached to, as last renamed. */
  function UsedSince(history: seq<Call>): Option<ActiveWallet>
    decreases |history|
  {
    if history == [] then None
    else
      var before, last := history[..|history| - 1], history[|history| - 1];
      if Opens(before, last) then (if last.LoadFromStore? then last.stored else None)
      else
        var used := UsedSince(before);
        match last
        case Lock => None
        case AttachTo(target) => if used.Some? && used.value.id != target.id then used else Some(target)
        case Relabel(name, colour) =>
          if used.None? then None else Some(used.value.(name := name, colour := colour, nameVerified := true))
        case _ => used
  }

  // ----- one call

  /** Whether an entry is on the list after a call that neither loads nor locks. */
  predicate StaysRegistered(before: seq<string>, call: Call, descriptor: string) {
    if call.SetRegistrations? then descriptor in call.descriptors
    else if call.AddRegistration? && call.descriptor == descriptor then true
    else if call.ForgetRegistration? && call.descriptor == descriptor then false
    else descriptor in before
  }

  predicate StaysNamed(before: seq<Cosigner>, call: Call, cosigner: Cosigner) {
    if call.SetCosigners? then cosigner in call.cosigners
    else if call.LabelCosigner? && call.xpub == cosigner.xpub then call.name != "" && call.name == cosigner.name
    else cosigner in before
  }

  ghost predicate RegistrationsStep(before: seq<string>, after: seq<string>, call: Call) {
    forall d :: d in after <==> StaysRegistered(before, call, d)
  }

  ghost predicate CosignersStep(before: seq<Cosigner>, after: seq<Cosigner>, call: Call) {
    forall c :: c in after <==> StaysNamed(before, call, c)
  }

  ghost predicate ActiveStep(before: Option<ActiveWallet>, after: Option<ActiveWallet>, call: Call) {
    match call
    case AttachTo(target) => after == if before.Some? && before.value.id != target.id then before else Some(target)
    case Relabel(name, colour) =>
      after == if before.None? then None else Some(before.value.(name := name, colour := colour, nameVerified := true))
    case _ => after == before
  }

  ghost predicate WalletStep(w: WalletSession, x: WalletSession, call: Call) {
    && RegistrationsStep(w.lists.registrations, x.lists.registrations, call)
    && CosignersStep(w.lists.cosigners, x.lists.cosigners, call)
    && ActiveStep(w.active, x.active, call)
    && x.labels == (if call.SetLabels? then call.labels else w.labels)
  }

  lemma {:induction false} WithoutHas(list: seq<string>, item: string, d: string)
    ensures d in Without(list, item) <==> d != item && d in list
  {
    if list != [] {
      WithoutHas(list[1..], item, d);
    }
  }

  lemma {:induction false} WithoutKeyHas(cosigners: seq<Cosigner>, xpub: string, c: Cosigner)
    ensures c in WithoutKey(cosigners, xpub) <==> c.xpub != xpub && c in cosigners
  {
    if cosigners != [] {
      WithoutKeyHas(cosigners[1..], xpub, c);
    }
  }

  lemma ForgetStep(list: seq<string>, item: string)
    ensures RegistrationsStep(list, Without(list, item), ForgetRegistration(item))
  {
    forall d ensures d in Without(list, item) <==> d != item && d in list {
      WithoutHas(list, item, d);
    }
  }

  lemma NameStep(cosigners: seq<Cosigner>, xpub: string, name: string)
    ensures CosignersStep(cosigners, Named(cosigners, xpub, name), LabelCosigner(xpub, name))
  {
    forall c ensures c in WithoutKey(cosigners, xpub) <==> c.xpub != xpub && c in cosigners {
      WithoutKeyHas(cosigners, xpub, c);
    }
  }

  lemma OnWalletStep(s: State, w: WalletSession, call: Call)
    requires s.wallet == Some(w) && !IsLoad(call) && !call.Lock?
    requires !call.Relabel? && !call.SetCosigners? && !call.RecordWrongWord? && !call.HoldUnsaved? && !call.RecordSealed?
    ensures OnWallet(s, w, call).0.wallet.Some?
    ensures WalletStep(w, OnWallet(s, w, call).0.wallet.value, call)
  {
    hide AtGate, Named, Without;
    match call
    case ForgetRegistration(d) => ForgetStep(w.lists.registrations, d);
    case LabelCosigner(xpub, name) => NameStep(w.lists.cosigners, xpub, name);
    case AddRegistration(_) =>
    case AttachTo(_) =>
    case SetLabels(_) =>
    case SetRegistrations(_) =>
    case _ => AtGateStep(s, w, call);
  }

  lemma AtGateStep(s: State, w: WalletSession, call: Call)
    requires s.wallet == Some(w)
    requires !call.AttachTo? && !call.LabelCosigner? && !call.SetLabels? && !call.AddRegistration? && !call.ForgetRegistration?
    requires !call.SetRegistrations? && !call.SetCosigners? && !call.Relabel?
    ensures AtGate(s, w, call).0.wallet.Some?
    ensures WalletStep(w, AtGate(s, w, call).0.wallet.value, call)
  {
    hide Peek, Reveal;
  }

  lemma CallStep(fp: Fingerprints, s: State, call: Call)
    requires s.wallet.Some? && !IsLoad(call) && !call.Lock?
    ensures Step(fp, s, call).0.wallet.Some?
    ensures WalletStep(s.wallet.value, Step(fp, s, call).0.wallet.value, call)
  {
    hide OnWallet, Held, Recorded, WalletStep;
    var w := s.wallet.value;
    match call
    case HoldUnsaved => HeldKeeps(w);
    case RecordSealed(written) => RecordedKeeps(w, written);
    case SetNetwork(_) => OpenStep(fp, s, call);
    case SetBip39Passphrase(_) => OpenStep(fp, s, call);
    case AssertPersistable => OpenStep(fp, s, call);
    case RecordWrongWord => OpenStep(fp, s, call);
    case SetCosigners(_) => OpenStep(fp, s, call);
    case Relabel(_, _) => OpenStep(fp, s, call);
    case _ => OnWalletStep(s, w, call);
  }

  /** The calls that do not ask for a wallet first. */
  lemma OpenStep(fp: Fingerprints, s: State, call: Call)
    requires s.wallet.Some?
    requires call.SetNetwork? || call.SetBip39Passphrase? || call.AssertPersistable? || call.RecordWrongWord? ||
             call.SetCosigners? || call.Relabel?
    ensures Step(fp, s, call).0.wallet.Some?
    ensures WalletStep(s.wallet.value, Step(fp, s, call).0.wallet.value, call)
  {
    hide OnWallet, Held, Recorded;
  }

  lemma HeldKeeps(w: WalletSession)
    ensures WalletStep(w, Held(w), HoldUnsaved)
  {
  }

  lemma RecordedKeeps(w: WalletSession, written: Lists)
    ensures WalletStep(w, Recorded(w, written), RecordSealed(written))
  {
  }

  // ----- every run

  /** What a nonempty run with a wallet in memory ends with: that wallet's opening, or a call that left it there. */
  ghost predicate Ending(fp: Fingerprints, before: seq<Call>, call: Call, w: WalletSession) {
    if Opens(before, call) then
      w.lists == Lists([], []) && w.labels == [] && w.active == (if call.LoadFromStore? then call.stored else None)
    else
      !call.Lock? && Run(fp, before).wallet.Some? &&
      (if IsLoad(call) then w == Run(fp, before).wallet.value else WalletStep(Run(fp, before).wallet.value, w, call))
  }

  lemma LastCall(fp: Fingerprints, history: seq<Call>)
    requires Run(fp, history).wallet.Some?
    ensures history != [] && Ending(fp, history[..|history| - 1], history[|history| - 1], Run(fp, history).wallet.value)
  {
    hide WalletStep, OpenedBy, Faithful, Clean, Opens, Step;
    var before, last := history[..|history| - 1], history[|history| - 1];
    RunClean(fp, before);
    RunFaithful(fp, before);
    if IsLoad(last) {
      LoadStep(fp, before, Run(fp, before), last);
      NotLock(last);
    } else {
      NotOpening(before, last);
      NoneStays(fp, Run(fp, before), last);
      if !last.Lock? && Run(fp, before).wallet.Some? {
        CallStep(fp, Run(fp, before), last);
      }
    }
  }

  lemma NoneStays(fp: Fingerprints, s: State, call: Call)
    requires !IsLoad(call)
    ensures s.wallet.None? || call.Lock? ==> Step(fp, s, call).0.wallet.None?
  {
  }

  /** Over every run: a quorum is registered exactly when the history says so, and forgetting it answers whether it was. */
  lemma {:induction false} RegisteredExactly(fp: Fingerprints, history: seq<Call>, descriptor: string)
    requires Run(fp, history).wallet.Some?
    ensures descriptor in Run(fp, history).wallet.value.lists.registrations <==> RegisteredSince(history, descriptor)
    ensures AnswerTo(fp, history, ForgetRegistration(descriptor)) == Removed(RegisteredSince(history, descriptor))
    decreases |history|
  {
    hide Opens, Run;
    LastCall(fp, history);
    var before, last := history[..|history| - 1], history[|history| - 1];
    if !Opens(before, last) {
      RegisteredExactly(fp, before, descriptor);
    }
  }

  /** Over every run: the names of the other keys are the ones the history gives them. */
  lemma {:induction false} NamedExactly(fp: Fingerprints, history: seq<Call>, cosigner: Cosigner)
    requires Run(fp, history).wallet.Some?
    ensures cosigner in Run(fp, history).wallet.value.lists.cosigners <==> NamedSince(history, cosigner)
    decreases |history|
  {
    hide Opens, Run;
    LastCall(fp, history);
    var before, last := history[..|history| - 1], history[|history| - 1];
    if !Opens(before, last) {
      NamedExactly(fp, before, cosigner);
    }
  }

  /** Over every run: the labels are the last ones given, and the stored wallet in use the one the history names. */
  lemma {:induction false} UsedExactly(fp: Fingerprints, history: seq<Call>)
    requires Run(fp, history).wallet.Some?
    ensures Run(fp, history).wallet.value.labels == LabelsSince(history)
    ensures Run(fp, history).wallet.value.active == UsedSince(history)
    decreases |history|
  {
    hide Opens, Run, RegistrationsStep, CosignersStep;
    LastCall(fp, history);
    var before, last := history[..|history| - 1], history[|history| - 1];
    if !Opens(before, last) {
      UsedExactly(fp, before);
    }
  }
}
