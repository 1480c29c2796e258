// Runs of the whole system: any number of applications, one update counter, and the promises that hold
// in every state of every run.
module SyncSystem {
  import opened Base
  import opened SyncProtocol
  import opened SyncSoundness
  import opened PolicySync

  datatype System = System(counter: nat, apps: map<AppKey, App>)

  // Removing a group or an identity changes the certificates of several applications in one write; the
  // affected applications are announced, or marked for reset, one by one afterwards.
  datatype Label =
    | One(key: AppKey, event: Event)
    | GroupRemoved(guid: Guid, call: nat)
    | IdentityRemoved(holders: set<AppKey>, call: nat)

  predicate Holds(a: App, guid: Guid) { guid in a.tables.memberships }

  predicate Can(s: System, l: Label) {
    match l
    case One(key, event) => key in s.apps && Enabled(s.apps[key], event)
    case GroupRemoved(guid, call) =>
      forall k :: k in s.apps && Holds(s.apps[k], guid) ==> CallEnabled(s.apps[k], DropMembership(call, guid))
    case IdentityRemoved(holders, call) =>
      forall k :: k in s.apps && k in holders ==> CallEnabled(s.apps[k], DropIdentity(call))
  }

  function Do(s: System, l: Label): System
    requires Can(s, l)
  {
    match l
    case One(key, event) =>
      var (counter, a) := After(s.counter, s.apps[key], event);
      System(counter, s.apps[key := a])
    case GroupRemoved(guid, call) =>
      s.(apps := map k | k in s.apps ::
        if Holds(s.apps[k], guid) then AfterCall(s.counter, s.apps[k], DropMembership(call, guid)).1 else s.apps[k])
    case IdentityRemoved(holders, call) =>
      s.(apps := map k | k in s.apps ::
        if k in holders then AfterCall(s.counter, s.apps[k], DropIdentity(call)).1 else s.apps[k])
  }

  // Nothing is managed yet; devices may be in any state.
  predicate Fresh(a: App) {
    a.tables == NO_ROW && a.updater == IDLE && a.claim.NoClaim? && a.calls == map[] && !a.unannounced && a.published == map[] && !a.leftover
  }

  ghost predicate IsRun(states: seq<System>, labels: seq<Label>) {
    && |states| == |labels| + 1
    && (forall k :: k in states[0].apps ==> Fresh(states[0].apps[k]))
    && (forall i :: 0 <= i < |labels| ==> Can(states[i], labels[i]) && states[i + 1] == Do(states[i], labels[i]))
  }

  // What every step keeps of an application.
  ghost predicate Kept(counter: nat, a: App) { Inv(counter, a) && Accountable(a) && ManagedRow(a) }

  ghost predicate SystemInv(s: System) {
    forall k :: k in s.apps ==> Kept(s.counter, s.apps[k])
  }

  lemma CounterOnlyGrows(counter: nat, a: App, e: Event)
    requires Enabled(a, e)
    ensures counter <= After(counter, a, e).0 <= counter + 1
  {
  }

  lemma EventKeepsAll(counter: nat, a: App, e: Event)
    requires Kept(counter, a) && Enabled(a, e)
    ensures Kept(After(counter, a, e).0, After(counter, a, e).1)
  {
    EventKeepsInv(counter, a, e);
    EventKeepsAccountable(counter, a, e);
    EventKeepsManaged(counter, a, e);
  }

  // Whatever happens to other applications at most moves the counter on.
  lemma OneStepKeepsInv(s: System, key: AppKey, event: Event)
    requires SystemInv(s) && Can(s, One(key, event))
    ensures SystemInv(Do(s, One(key, event)))
  {
    var s' := Do(s, One(key, event));
    CounterOnlyGrows(s.counter, s.apps[key], event);
    EventKeepsAll(s.counter, s.apps[key], event);
    forall k | k in s'.apps ensures Kept(s'.counter, s'.apps[k]) {
      if k != key {
        OthersKeepInv(s.counter, s'.counter, s.apps[k], s.apps[k].calls);
      }
    }
  }

  // The counter does not move when a certificate is removed.
  lemma DropKeepsAll(counter: nat, a: App, e: CallEvent)
    requires Kept(counter, a) && CallEnabled(a, e) && (e.DropMembership? || e.DropIdentity?)
    ensures Kept(counter, AfterCall(counter, a, e).1)
  {
    EventKeepsAll(counter, a, ByCall(e));
  }

  lemma StepKeepsInv(s: System, l: Label)
    requires SystemInv(s) && Can(s, l)
    ensures SystemInv(Do(s, l))
  {
    match l
    case One(key, event) => OneStepKeepsInv(s, key, event);
    case GroupRemoved(guid, call) =>
      forall k | k in s.apps && Holds(s.apps[k], guid) ensures Kept(s.counter, Do(s, l).apps[k]) {
        DropKeepsAll(s.counter, s.apps[k], DropMembership(call, guid));
      }
    case IdentityRemoved(holders, call) =>
      forall k | k in s.apps && k in holders ensures Kept(s.counter, Do(s, l).apps[k]) {
        DropKeepsAll(s.counter, s.apps[k], DropIdentity(call));
      }
  }

  lemma {:induction false} RunKeepsInv(states: seq<System>, labels: seq<Label>, i: nat)
    requires IsRun(states, labels) && i < |states|
    ensures SystemInv(states[i])
  {
    if i > 0 {
      RunKeepsInv(states, labels, i - 1);
      StepKeepsInv(states[i - 1], labels[i - 1]);
    }
  }

  // Sync soundness: whenever SyncOk is stored and no table write is newer than the last announcement for
  // the application, the device has exactly the stored memberships and identity. A claim that has inserted
  // the row and not yet stored its certificate is exempt, and so is a row that a failed claim left behind.
  lemma StoredOkMeansInSync(states: seq<System>, labels: seq<Label>, i: nat, k: AppKey)
    requires IsRun(states, labels) && i < |states| && k in states[i].apps
    requires states[i].apps[k].tables.row == Some(SyncOk) && !states[i].apps[k].unannounced
    requires !states[i].apps[k].claim.Inserted? && !states[i].apps[k].leftover
    ensures Agree(states[i].apps[k].tables, states[i].apps[k].device)
  {
    RunKeepsInv(states, labels, i);
  }

  // In particular it has them when no UI call on the application is past its write. Calls that gave up
  // there are over as soon as another one announced what they wrote.
  lemma QuietOkMeansInSync(states: seq<System>, labels: seq<Label>, i: nat, k: AppKey)
    requires IsRun(states, labels) && i < |states| && k in states[i].apps
    requires states[i].apps[k].tables.row == Some(SyncOk)
    requires forall c :: c in states[i].apps[k].calls ==> states[i].apps[k].calls[c].PolicyChecked?
    requires !states[i].apps[k].claim.Inserted? && !states[i].apps[k].leftover
    ensures Agree(states[i].apps[k].tables, states[i].apps[k].device)
  {
    RunKeepsInv(states, labels, i);
    StoredOkMeansInSync(states, labels, i, k);
  }

  // The second exemption is needed: a claim whose commit fails and whose insertion cannot be taken back
  // leaves SyncOk stored for a device that is then reset.
  lemma LeftoverBreaksSync(k: AppKey, cert: CertId) returns (states: seq<System>, labels: seq<Label>)
    ensures IsRun(states, labels) && |labels| == 5 && k in states[5].apps
    ensures var a := states[5].apps[k];
            && a.tables.row == Some(SyncOk) && !a.unannounced && a.claim.NoClaim? && a.calls == map[]
            && a.leftover && a.device.Unclaimed?
  {
    var a0 := App(NO_ROW, Unclaimed, IDLE, NoClaim, map[], false, map[], false);
    var moves := [ClaimDevice(cert), ClaimInsert(true), ClaimCert, ClaimRollback(false), ClaimGiveUp(true)];
    var a1 := AfterClaim(a0, moves[0]);
    var a2 := AfterClaim(a1, moves[1]);
    var a3 := AfterClaim(a2, moves[2]);
    var a4 := AfterClaim(a3, moves[3]);
    var a5 := AfterClaim(a4, moves[4]);
    var apps := [a0, a1, a2, a3, a4, a5];
    labels := seq(5, i requires 0 <= i < 5 => One(k, ByClaim(moves[i])));
    states := seq(6, i requires 0 <= i < 6 => System(0, map[k := apps[i]]));
    forall i | 0 <= i < 5 ensures Can(states[i], labels[i]) && states[i + 1] == Do(states[i], labels[i]) {
      assert ClaimEnabled(apps[i], moves[i]) && apps[i + 1] == AfterClaim(apps[i], moves[i]);
    }
  }

  // The managed-row invariant: in use, an application has an identity and a manifest unless a claim or a
  // call that removed the identity is on its way, or gave up.
  lemma RowsAreManaged(states: seq<System>, labels: seq<Label>, i: nat, k: AppKey)
    requires IsRun(states, labels) && i < |states| && k in states[i].apps
    requires var a := states[i].apps[k]; !a.leftover && !a.claim.Inserted? && !a.claim.CertStored? && !OwesReset(a.calls)
    ensures var t := states[i].apps[k].tables;
            && t.row in {None, Some(SyncOk), Some(SyncPending), Some(SyncWillReset)}
            && (t.row.Some? && t.row != Some(SyncWillReset) ==> t.identity.Some? && t.manifest.Some?)
  {
    RunKeepsInv(states, labels, i);
  }

  // The loop of UpdateApplication runs at most once more than the counter was raised since it started.
  lemma LoopIsBounded(states: seq<System>, labels: seq<Label>, i: nat, k: AppKey)
    requires IsRun(states, labels) && i < |states| && k in states[i].apps
    ensures var u := states[i].apps[k].updater;
            !u.pc.Idle? ==> u.first <= states[i].counter && u.rounds <= 1 + states[i].counter - u.first
  {
    RunKeepsInv(states, labels, i);
  }

  // An iteration whose remote calls succeeded ends the transaction, with the row removed or SyncOk stored
  // at the counter value with which the iteration began, or it restarts with a larger transaction id.
  lemma SuccessEndsOrRestarts(states: seq<System>, labels: seq<Label>, i: nat, k: AppKey)
    requires IsRun(states, labels) && i < |states| && k in states[i].apps
    requires var u := states[i].apps[k].updater; u.pc.Finishing? && (u.st.SyncOk? || u.st.SyncReset?)
    ensures var u, counter := states[i].apps[k].updater, states[i].counter;
            var a' := AfterComplete(counter, states[i].apps[k], true);
            || (u.st.SyncReset? && a'.updater.pc.Idle? && a'.tables.row.None?)
            || (u.st.SyncOk? && u.tid == counter && a'.updater.pc.Idle? && a'.tables.row == Some(SyncOk))
            || (u.st.SyncOk? && u.tid < counter && a'.updater.pc.Looping? && a'.updater.tid == counter && a'.updater.rounds == u.rounds + 1)
  {
    RunKeepsInv(states, labels, i);
  }

  lemma RemovedRowWaited(counter: nat, a: App)
    requires Inv(counter, a) && UpdaterEnabled(a, Complete(true)) && a.tables.row.Some?
    requires AfterComplete(counter, a, true).tables.row.None?
    ensures a.tables.row == Some(SyncWillReset) && a.updater.st.SyncReset?
  {
  }

  // With one updater per application, a row that is removed after a reset is one that waited for it, and
  // its device is unclaimed or was reported so.
  lemma OnlyWaitingRowsAreRemoved(states: seq<System>, labels: seq<Label>, i: nat, k: AppKey)
    requires IsRun(states, labels) && i < |labels| && k in states[i].apps
    requires labels[i] == One(k, ByUpdater(Complete(true)))
    requires states[i].apps[k].tables.row.Some? && states[i + 1].apps[k].tables.row.None?
    ensures states[i].apps[k].tables.row == Some(SyncWillReset) && states[i].apps[k].updater.st.SyncReset?
  {
    RunKeepsInv(states, labels, i);
    var a := states[i].apps[k];
    assert Can(states[i], labels[i]) && states[i + 1] == Do(states[i], labels[i]);
    assert states[i + 1].apps[k] == AfterComplete(states[i].counter, a, true);
    RemovedRowWaited(states[i].counter, a);
  }

  // Only the three states that mean something to the protocol are ever stored.
  lemma StoredStates(states: seq<System>, labels: seq<Label>, i: nat, k: AppKey)
    requires IsRun(states, labels) && i < |states| && k in states[i].apps
    ensures states[i].apps[k].tables.row in {None, Some(SyncOk), Some(SyncPending), Some(SyncWillReset)}
  {
    RunKeepsInv(states, labels, i);
  }

  // ---------------------------------------------------------------- policies

  // What a step means for an application.
  function EventOn(s: System, l: Label, k: AppKey): Option<Event>
    requires k in s.apps
  {
    match l
    case One(key, event) => if key == k then Some(event) else None
    case GroupRemoved(guid, call) => if Holds(s.apps[k], guid) then Some(ByCall(DropMembership(call, guid))) else None
    case IdentityRemoved(holders, call) => if k in holders then Some(ByCall(DropIdentity(call))) else None
  }

  ghost predicate SerializedStep(s: System, l: Label) {
    forall k :: k in s.apps && EventOn(s, l, k).Some? ==> Serialized(s.apps[k], EventOn(s, l, k).value)
  }

  ghost predicate IsSerializedRun(states: seq<System>, labels: seq<Label>) {
    IsRun(states, labels) && forall i :: 0 <= i < |labels| ==> SerializedStep(states[i], labels[i])
  }

  ghost predicate AllPolicyInv(s: System) { forall k :: k in s.apps ==> PolicyInv(s.apps[k]) }

  lemma StepKeepsPolicyInv(s: System, l: Label)
    requires SystemInv(s) && AllPolicyInv(s) && Can(s, l) && SerializedStep(s, l)
    ensures AllPolicyInv(Do(s, l))
  {
    match l
    case One(key, event) => EventKeepsPolicyInv(s.counter, s.apps[key], event);
    case GroupRemoved(guid, call) =>
      forall k | k in s.apps && Holds(s.apps[k], guid) ensures PolicyInv(Do(s, l).apps[k]) {
        CallKeepsPolicyInv(s.counter, s.apps[k], DropMembership(call, guid));
      }
    case IdentityRemoved(holders, call) =>
      forall k | k in s.apps && k in holders ensures PolicyInv(Do(s, l).apps[k]) {
        CallKeepsPolicyInv(s.counter, s.apps[k], DropIdentity(call));
      }
  }

  lemma {:induction false} RunKeepsPolicyInv(states: seq<System>, labels: seq<Label>, i: nat)
    requires IsSerializedRun(states, labels) && i < |states|
    ensures AllPolicyInv(states[i])
  {
    if i > 0 {
      RunKeepsInv(states, labels, i - 1);
      RunKeepsPolicyInv(states, labels, i - 1);
      StepKeepsPolicyInv(states[i - 1], labels[i - 1]);
    }
  }

  // Policy agreement: under the same reading of SyncOk the device has the stored policy, contents
  // included, although only versions are ever compared.
  lemma StoredOkMeansSamePolicy(states: seq<System>, labels: seq<Label>, i: nat, k: AppKey)
    requires IsSerializedRun(states, labels) && i < |states| && k in states[i].apps
    requires states[i].apps[k].tables.row == Some(SyncOk) && !states[i].apps[k].unannounced && !states[i].apps[k].leftover
    ensures PolicyAgrees(states[i].apps[k].tables, states[i].apps[k].device)
  {
    RunKeepsInv(states, labels, i);
    RunKeepsPolicyInv(states, labels, i);
  }

  // The device is never ahead of a stored policy, and a policy that is sent is newer than what the device has.
  lemma PoliciesOnlyAdvance(states: seq<System>, labels: seq<Label>, i: nat, k: AppKey)
    requires IsSerializedRun(states, labels) && i < |states| && k in states[i].apps && !states[i].apps[k].leftover
    ensures var a := states[i].apps[k];
            && (a.device.Claimed? && a.tables.policy.Some? ==> a.device.policy.version <= a.tables.policy.value.version)
            && (a.updater.pc.PushingPolicy? && a.updater.policy.Some? && a.device.Claimed? ==>
                  var pushed := PushedPolicy(a.updater.policy, a.device.policy);
                  pushed == a.updater.policy.value && (pushed == a.device.policy || pushed.version > a.device.policy.version))
  {
    RunKeepsInv(states, labels, i);
    RunKeepsPolicyInv(states, labels, i);
  }

  // ---------------------------------------------------------------- without RemovePolicy

  predicate RemovesPolicy(l: Label) { l.One? && l.event.ByCall? && l.event.call.DropPolicy? }

  // One UI call at a time on each application, versions below the last one, and RemovePolicy is not used.
  ghost predicate IsPlainRun(states: seq<System>, labels: seq<Label>) {
    && IsRun(states, labels)
    && (forall i :: 0 <= i < |labels| ==> !RemovesPolicy(labels[i]))
    && forall i, k :: 0 <= i < |labels| && k in states[i].apps && EventOn(states[i], labels[i], k).Some?
         ==> OneAtATime(states[i].apps[k], EventOn(states[i], labels[i], k).value)
  }

  lemma StepOnApp(s: System, l: Label, k: AppKey)
    requires Can(s, l) && k in s.apps
    ensures k in Do(s, l).apps
    ensures EventOn(s, l, k).None? ==> Do(s, l).apps[k] == s.apps[k]
    ensures EventOn(s, l, k).Some? ==>
              Enabled(s.apps[k], EventOn(s, l, k).value) && Do(s, l).apps[k] == After(s.counter, s.apps[k], EventOn(s, l, k).value).1
  {
  }

  ghost predicate AllNeverRemoved(s: System) { forall k :: k in s.apps ==> NeverRemoved(s.apps[k]) }

  lemma StepKeepsNeverRemoved(s: System, l: Label)
    requires SystemInv(s) && AllNeverRemoved(s) && Can(s, l) && !RemovesPolicy(l)
    ensures AllNeverRemoved(Do(s, l))
  {
    forall k | k in s.apps ensures NeverRemoved(Do(s, l).apps[k]) {
      StepOnApp(s, l, k);
      assert Kept(s.counter, s.apps[k]);
      if EventOn(s, l, k).Some? {
        EventKeepsNeverRemoved(s.counter, s.apps[k], EventOn(s, l, k).value);
      }
    }
  }

  lemma {:induction false} RunsWithoutRemoval(states: seq<System>, labels: seq<Label>, i: nat)
    requires IsRun(states, labels) && i < |states| && forall j :: 0 <= j < |labels| ==> !RemovesPolicy(labels[j])
    ensures AllNeverRemoved(states[i])
  {
    if i > 0 {
      RunsWithoutRemoval(states, labels, i - 1);
      RunKeepsInv(states, labels, i - 1);
      StepKeepsNeverRemoved(states[i - 1], labels[i - 1]);
    }
  }

  // Runs without RemovePolicy meet the condition on versions, so that policies agree in them.
  lemma PlainRunsAreSerialized(states: seq<System>, labels: seq<Label>)
    requires IsPlainRun(states, labels)
    ensures IsSerializedRun(states, labels)
  {
    forall i, k | 0 <= i < |labels| && k in states[i].apps && EventOn(states[i], labels[i], k).Some?
      ensures Serialized(states[i].apps[k], EventOn(states[i], labels[i], k).value)
    {
      RunsWithoutRemoval(states, labels, i);
    }
  }
}
