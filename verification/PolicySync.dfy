// Agreement of policies, which the updater compares by version only. It holds in runs whose UI calls are
// serialized, unless a version is used again after a removal before the removal reached the device.
module PolicySync {
  import opened Base
  import opened SyncProtocol
  import opened SyncSoundness

  // No UI call is in progress; calls that gave up do not count.
  ghost predicate Quiet(calls: map<nat, Call>) { forall c :: c in calls ==> calls[c].GaveUp? }

  predicate StartsCall(e: CallEvent) {
    e.InstallMembership? || e.DropMembership? || e.StoreIdentity? || e.CheckPolicy? || e.DropPolicy? || e.DropIdentity? || (e.MarkReset? && e.caller.None?)
  }

  // Neither the device nor the updater has a policy of the application.
  predicate NoPolicyLeft(a: App) {
    && (a.tables.row.Some? && a.device.Claimed? ==> a.device.policy == DEFAULT_POLICY)
    && (HasPolicy(a.updater.pc) ==> a.updater.policy.None?)
  }

  // What a caller of UpdatePolicy can see: that the storage says SyncOk, with every write announced.
  predicate Settled(a: App) { a.tables.row == Some(SyncOk) && !a.unannounced }

  // One UI call at a time, and versions below the last 32-bit value.
  ghost predicate OneAtATime(a: App, e: Event) {
    && VersionOf(a.tables.policy) < UINT32_MODULUS - 1
    && (e.ByCall? && StartsCall(e.call) ==> Quiet(a.calls))
  }

  // Where no policy is stored, a new one gets a version above those it follows, unless the storage says SyncOk.
  ghost predicate Ascending(a: App, e: Event) {
    e.ByCall? && e.call.CheckPolicy? && CallEnabled(a, e.call) ==>
      || a.tables.policy.Some?
      || Settled(a)
      || Newest(a.published, Versioned(a.tables.policy, e.call.policy).value.version)
  }

  ghost predicate Serialized(a: App, e: Event) { OneAtATime(a, e) && Ascending(a, e) }

  predicate PolicyAgrees(t: Tables, d: Device) {
    d.Claimed? && d.policy == if t.policy.Some? then t.policy.value else DEFAULT_POLICY
  }

  predicate Published(a: App, policy: Policy) {
    policy.version in a.published && a.published[policy.version] == policy
  }

  // The stored policy is the newest one of its sequence.
  ghost predicate StoredIsNewest(a: App) {
    && (forall v :: v in a.published ==> 0 < v)
    && (a.tables.policy.Some? ==>
          Published(a, a.tables.policy.value) && forall v :: v in a.published ==> v <= a.tables.policy.value.version)
  }

  // The device never runs ahead of the storage.
  predicate DeviceKnown(a: App) {
    a.tables.row.Some? && a.device.Claimed? ==> a.device.policy == DEFAULT_POLICY || Published(a, a.device.policy)
  }

  // What the updater is about to push is not older than what the device has.
  predicate PushIsNewer(a: App) {
    var u := a.updater;
    HasPolicy(u.pc) && u.policy.Some? ==>
      && Published(a, u.policy.value)
      && (a.device.Claimed? ==> a.device.policy.version <= u.policy.value.version)
  }

  ghost predicate History(a: App) { StoredIsNewest(a) && DeviceKnown(a) && PushIsNewer(a) }

  // At most one UI call is in progress, and what it checked about the version still holds.
  ghost predicate CallsInOrder(a: App) {
    && (forall c, other :: c in a.calls && other in a.calls && c != other
         ==> a.calls[c].GaveUp? || a.calls[other].GaveUp?)
    && (forall c :: c in a.calls && a.calls[c].PolicyChecked? ==> a.calls[c].policy.version > VersionOf(a.tables.policy))
  }

  // A policy that passed its version check continues the sequence of versions or may start a new one.
  ghost predicate MayStore(a: App) {
    forall c :: c in a.calls && a.calls[c].PolicyChecked? ==>
      Newest(a.published, a.calls[c].policy.version) || (a.tables.policy.None? && NoPolicyLeft(a))
  }

  predicate PolicySynced(a: App) {
    && (a.tables.row == Some(SyncOk) && !a.unannounced ==> PolicyAgrees(a.tables, a.device))
    && (a.updater.pc.Finishing? && a.updater.st.SyncOk? && Undisturbed(a) ==> PolicyAgrees(a.tables, a.device))
  }

  // Where a failed claim left its row behind nothing is known of the device.
  ghost predicate PolicyInv(a: App) {
    && CallsInOrder(a)
    && (a.tables.row.None? ==> a.published == map[])
    && (!a.leftover ==> History(a) && MayStore(a) && PolicySynced(a))
  }

  // Only what concerns policies matters for their history.
  lemma HistoryDependsOnPolicies(a: App, a': App)
    requires History(a)
    requires a'.tables.policy in {None, a.tables.policy} && a'.published == a.published && a'.device == a.device
    requires a'.tables.row.Some? ==> a.tables.row.Some?
    requires a'.updater.pc == a.updater.pc && a'.updater.policy == a.updater.policy
    ensures History(a')
  {
  }

  // Storing a policy with a version above all earlier ones of its sequence.
  lemma NewerPolicyKeepsHistory(a: App, policy: Policy)
    requires History(a) && a.tables.row.Some? && policy.version > VersionOf(a.tables.policy)
    requires Newest(a.published, policy.version) || (a.tables.policy.None? && NoPolicyLeft(a))
    ensures History(Publish(a, policy))
  {
  }

  lemma AnnounceKeepsHistory(counter: nat, a: App, call: nat, outcome: Outcome)
    requires History(a) && CallEnabled(a, Announce(call, outcome))
    requires VersionOf(a.tables.policy) < UINT32_MODULUS - 1
    ensures History(AfterAnnounce(counter, a, call, outcome).1)
  {
    var a' := AfterAnnounce(counter, a, call, outcome).1;
    if !(a.tables.row == Some(SyncOk) && outcome.Stored? && a.calls[call].policyUpdateNeeded && a.tables.policy.Some?) {
      HistoryDependsOnPolicies(a, a');
    } else {
      var pending := Announced(a).(calls := a'.calls, tables := a.tables.(row := Some(SyncPending)));
      HistoryDependsOnPolicies(a, pending);
      NewerPolicyKeepsHistory(pending, a'.tables.policy.value);
    }
  }

  lemma StoreKeepsHistory(counter: nat, a: App, call: nat)
    requires History(a) && CallsInOrder(a) && MayStore(a) && CallEnabled(a, StorePolicy(call))
    ensures History(AfterCall(counter, a, StorePolicy(call)).1)
  {
    if a.tables.row.Some? {
      var wrote := Wrote(a, call, NeedsUpdate(false), a.tables);
      HistoryDependsOnPolicies(a, wrote);
      NewerPolicyKeepsHistory(wrote, a.calls[call].policy);
    } else {
      HistoryDependsOnPolicies(a, AfterCall(counter, a, StorePolicy(call)).1);
    }
  }

  lemma CallKeepsHistory(counter: nat, a: App, e: CallEvent)
    requires History(a) && CallsInOrder(a) && MayStore(a) && CallEnabled(a, e)
    requires VersionOf(a.tables.policy) < UINT32_MODULUS - 1
    ensures History(AfterCall(counter, a, e).1)
  {
    match e
    case StorePolicy(call) => StoreKeepsHistory(counter, a, call);
    case Announce(call, outcome) => AnnounceKeepsHistory(counter, a, call, outcome);
    case ForcedRemoval =>
    case _ => HistoryDependsOnPolicies(a, AfterCall(counter, a, e).1);
  }

  // Moving one call on, or starting one while all others are over.
  lemma OneCallMoves(a: App, a': App, call: nat)
    requires CallsInOrder(a)
    requires call in a'.calls && a'.calls == a.calls[call := a'.calls[call]]
    requires Quiet(Without(a.calls, call)) || a'.calls[call].GaveUp?
    requires a'.tables.policy == a.tables.policy || Quiet(Without(a.calls, call))
    requires a'.calls[call].PolicyChecked? ==> a'.calls[call].policy.version > VersionOf(a'.tables.policy)
    ensures CallsInOrder(a')
  {
    forall c, other | c in a'.calls && other in a'.calls && c != other
      ensures a'.calls[c].GaveUp? || a'.calls[other].GaveUp?
    {
      assert c != call ==> c in Without(a.calls, call);
      assert other != call ==> other in Without(a.calls, call);
    }
    forall c | c in a'.calls && a'.calls[c].PolicyChecked?
      ensures a'.calls[c].policy.version > VersionOf(a'.tables.policy) {
      if c != call {
        assert c in Without(a.calls, call) && !Without(a.calls, call)[c].GaveUp?;
      }
    }
  }

  lemma CallsEnd(a: App, a': App)
    requires CallsInOrder(a) && forall c :: c in a'.calls ==> c in a.calls && a'.calls[c] == a.calls[c]
    requires VersionOf(a'.tables.policy) <= VersionOf(a.tables.policy) || forall c :: c in a'.calls ==> !a'.calls[c].PolicyChecked?
    ensures CallsInOrder(a')
  {
  }

  // A call that is not over is the only one.
  lemma OthersAreOver(a: App, call: nat)
    requires CallsInOrder(a) && call in a.calls && !a.calls[call].GaveUp?
    ensures Quiet(Without(a.calls, call))
  {
  }

  // The end of a call that settles what others left.
  lemma CallEnds(a: App, a': App, call: nat, identity: bool)
    requires CallsInOrder(a) && call in a.calls && !a.calls[call].GaveUp?
    requires a'.calls == Settle(Without(a.calls, call), identity)
    ensures CallsInOrder(a')
  {
    forall c | c in a'.calls ensures a'.calls[c].GaveUp? {
      assert c in Without(a.calls, call);
    }
  }

  lemma AnnounceKeepsOrder(counter: nat, a: App, call: nat, outcome: Outcome)
    requires CallsInOrder(a) && CallEnabled(a, Announce(call, outcome))
    ensures CallsInOrder(AfterAnnounce(counter, a, call, outcome).1)
  {
    var a' := AfterAnnounce(counter, a, call, outcome).1;
    if a'.calls == a.calls[call := GaveUp(false)] {
      OneCallMoves(a, a', call);
    } else {
      CallEnds(a, a', call, a.tables.identity.Some?);
    }
  }

  lemma MarkResetKeepsOrder(counter: nat, a: App, caller: Option<nat>, stored: bool)
    requires CallsInOrder(a) && CallEnabled(a, MarkReset(caller, stored))
    ensures CallsInOrder(AfterMarkReset(counter, a, caller, stored).1)
  {
    var a' := AfterMarkReset(counter, a, caller, stored).1;
    if caller.Some? && !stored {
      OneCallMoves(a, a', caller.value);
    } else {
      CallsEnd(a, a');
    }
  }

  lemma StartKeepsOrder(counter: nat, a: App, e: CallEvent)
    requires CallsInOrder(a) && CallEnabled(a, e) && StartsCall(e) && !e.MarkReset? && Quiet(a.calls)
    requires VersionOf(a.tables.policy) < UINT32_MODULUS - 1
    ensures CallsInOrder(AfterCall(counter, a, e).1)
  {
    OneCallMoves(a, AfterCall(counter, a, e).1, e.call);
  }

  lemma CallKeepsOrder(counter: nat, a: App, e: CallEvent)
    requires CallsInOrder(a) && CallEnabled(a, e) && (StartsCall(e) ==> Quiet(a.calls))
    requires VersionOf(a.tables.policy) < UINT32_MODULUS - 1
    ensures CallsInOrder(AfterCall(counter, a, e).1)
  {
    var a' := AfterCall(counter, a, e).1;
    match e
    case Announce(call, outcome) => AnnounceKeepsOrder(counter, a, call, outcome);
    case MarkReset(caller, stored) => MarkResetKeepsOrder(counter, a, caller, stored);
    case ForcedRemoval => CallsEnd(a, a');
    case Abandon(call) =>
      if a.calls[call].PolicyChecked? {
        CallsEnd(a, a');
      } else {
        OneCallMoves(a, a', call);
      }
    case StoreManifest(call, _) => OthersAreOver(a, call); OneCallMoves(a, a', call);
    case StorePolicy(call) => OthersAreOver(a, call); OneCallMoves(a, a', call);
    case _ => StartKeepsOrder(counter, a, e);
  }

  // SyncOk with everything announced means that a removal has reached the device and the updater.
  lemma SettledHasNoPolicyLeft(counter: nat, a: App)
    requires Inv(counter, a) && PolicySynced(a) && !a.leftover && Settled(a) && a.tables.policy.None?
    ensures NoPolicyLeft(a)
  {
  }

  lemma CheckKeepsMayStore(counter: nat, a: App, call: nat, policy: Policy)
    requires Inv(counter, a) && !a.leftover && History(a) && PolicySynced(a) && CallEnabled(a, CheckPolicy(call, policy))
    requires Serialized(a, ByCall(CheckPolicy(call, policy)))
    ensures MayStore(AfterCall(counter, a, CheckPolicy(call, policy)).1)
  {
    var a' := AfterCall(counter, a, CheckPolicy(call, policy)).1;
    if Settled(a) && a.tables.policy.None? {
      SettledHasNoPolicyLeft(counter, a);
    }
    forall c | c in a'.calls && a'.calls[c].PolicyChecked? ensures c == call {
      assert c != call ==> c in a.calls;
    }
  }

  lemma CallKeepsMayStore(counter: nat, a: App, e: CallEvent)
    requires CallsInOrder(a) && MayStore(a) && CallEnabled(a, e) && !e.CheckPolicy?
    requires StartsCall(e) ==> Quiet(a.calls)
    ensures MayStore(AfterCall(counter, a, e).1)
  {
    var a' := AfterCall(counter, a, e).1;
    if !e.ForcedRemoval? {
      forall c | c in a'.calls && a'.calls[c].PolicyChecked? ensures c in a.calls && e.Abandon? {
        assert c in a.calls && !StartsCall(e);
      }
    }
  }

  lemma CallKeepsPolicySynced(counter: nat, a: App, e: CallEvent)
    requires Inv(counter, a) && PolicySynced(a) && CallEnabled(a, e)
    ensures PolicySynced(AfterCall(counter, a, e).1)
  {
  }

  lemma ClaimKeepsPolicyInv(counter: nat, a: App, e: ClaimEvent)
    requires Inv(counter, a) && PolicyInv(a) && ClaimEnabled(a, e)
    ensures PolicyInv(AfterClaim(a, e))
  {
  }

  lemma ReadKeepsHistory(counter: nat, a: App, e: UpdaterEvent)
    requires Rows(a) && History(a) && IsReadEvent(e) && UpdaterEnabled(a, e)
    ensures History(AfterUpdater(counter, a, e))
  {
  }

  lemma PushKeepsHistory(counter: nat, a: App, e: UpdaterEvent)
    requires Rows(a) && History(a) && IsPushEvent(e) && UpdaterEnabled(a, e)
    ensures History(AfterUpdater(counter, a, e))
  {
  }

  // An updater that has no policy in hand takes no part in the history.
  lemma WithoutPolicyInHand(a: App, a': App)
    requires History(a) && !HasPolicy(a'.updater.pc)
    requires (a'.tables.policy == a.tables.policy && a'.published == a.published)
          || (a'.tables.policy.None? && a'.published == map[] && a'.tables.row.None?)
    requires a'.tables.row.Some? ==> a.tables.row.Some?
    requires a'.device == a.device || a'.device.Unclaimed?
    ensures History(a')
  {
  }

  lemma EndKeepsHistory(counter: nat, a: App, e: UpdaterEvent)
    requires Rows(a) && History(a) && !IsReadEvent(e) && !IsPushEvent(e) && UpdaterEnabled(a, e)
    ensures History(AfterUpdater(counter, a, e))
  {
    WithoutPolicyInHand(a, AfterUpdater(counter, a, e));
  }

  lemma UpdaterKeepsHistory(counter: nat, a: App, e: UpdaterEvent)
    requires Rows(a) && History(a) && UpdaterEnabled(a, e)
    ensures History(AfterUpdater(counter, a, e))
  {
    if IsReadEvent(e) {
      ReadKeepsHistory(counter, a, e);
    } else if IsPushEvent(e) {
      PushKeepsHistory(counter, a, e);
    } else {
      EndKeepsHistory(counter, a, e);
    }
  }

  lemma UpdaterBringsNoPolicy(counter: nat, a: App, e: UpdaterEvent)
    requires Rounds(counter, a) && a.tables.policy.None? && NoPolicyLeft(a) && UpdaterEnabled(a, e)
    ensures NoPolicyLeft(AfterUpdater(counter, a, e))
  {
  }

  lemma UpdaterKeepsMayStore(counter: nat, a: App, e: UpdaterEvent)
    requires Rounds(counter, a) && MayStore(a) && UpdaterEnabled(a, e)
    ensures MayStore(AfterUpdater(counter, a, e))
  {
    var a' := AfterUpdater(counter, a, e);
    if a.tables.policy.None? && NoPolicyLeft(a) {
      UpdaterBringsNoPolicy(counter, a, e);
    }
    if a'.tables.row.Some? {
      assert a'.calls == a.calls && a'.published == a.published && a'.tables.policy == a.tables.policy;
    }
  }

  // The last push: equal versions stand for equal policies.
  lemma PushKeepsPolicySynced(counter: nat, a: App)
    requires Inv(counter, a) && History(a) && PolicySynced(a) && UpdaterEnabled(a, PushPolicy)
    ensures PolicySynced(AfterUpdater(counter, a, PushPolicy))
  {
    if Undisturbed(a) {
      assert a.updater.policy == a.tables.policy;
    }
  }

  lemma EndKeepsPolicySynced(counter: nat, a: App, e: UpdaterEvent)
    requires Inv(counter, a) && PolicySynced(a) && UpdaterEnabled(a, e) && (e.PushFails? || e.Complete?)
    ensures PolicySynced(AfterUpdater(counter, a, e))
  {
  }

  lemma UpdaterKeepsPolicySynced(counter: nat, a: App, e: UpdaterEvent)
    requires Inv(counter, a) && !a.leftover && History(a) && PolicySynced(a) && UpdaterEnabled(a, e)
    ensures PolicySynced(AfterUpdater(counter, a, e))
  {
    if e.PushPolicy? {
      PushKeepsPolicySynced(counter, a);
    } else if e.PushFails? || e.Complete? {
      EndKeepsPolicySynced(counter, a, e);
    }
  }

  lemma UpdaterKeepsPolicyInv(counter: nat, a: App, e: UpdaterEvent)
    requires Inv(counter, a) && PolicyInv(a) && UpdaterEnabled(a, e)
    ensures PolicyInv(AfterUpdater(counter, a, e))
  {
    var a' := AfterUpdater(counter, a, e);
    UpdaterKeepsMayStoreAndOrder(counter, a, e);
    if !a.leftover {
      UpdaterKeepsHistory(counter, a, e);
      UpdaterKeepsPolicySynced(counter, a, e);
    }
    assert a'.leftover == a.leftover;
  }

  lemma UpdaterKeepsMayStoreAndOrder(counter: nat, a: App, e: UpdaterEvent)
    requires Inv(counter, a) && PolicyInv(a) && UpdaterEnabled(a, e)
    ensures var a' := AfterUpdater(counter, a, e);
            CallsInOrder(a') && (a'.tables.row.None? ==> a'.published == map[]) && (!a.leftover ==> MayStore(a'))
  {
    var a' := AfterUpdater(counter, a, e);
    if !a.leftover {
      UpdaterKeepsMayStore(counter, a, e);
    }
    CallsEnd(a, a');
  }

  lemma CallKeepsPolicyInv(counter: nat, a: App, e: CallEvent)
    requires Inv(counter, a) && PolicyInv(a) && CallEnabled(a, e) && Serialized(a, ByCall(e))
    ensures PolicyInv(AfterCall(counter, a, e).1)
  {
    CallKeepsOrder(counter, a, e);
    CallKeepsNoRow(counter, a, e);
    if !a.leftover {
      CallKeepsHistory(counter, a, e);
      CallKeepsPolicySynced(counter, a, e);
      if e.CheckPolicy? {
        CheckKeepsMayStore(counter, a, e.call, e.policy);
      } else {
        CallKeepsMayStore(counter, a, e);
      }
    }
  }

  lemma CallKeepsNoRow(counter: nat, a: App, e: CallEvent)
    requires CallEnabled(a, e) && (a.tables.row.None? ==> a.published == map[])
    ensures var a' := AfterCall(counter, a, e).1;
            (a'.tables.row.None? ==> a'.published == map[]) && a'.leftover == a.leftover
  {
  }

  lemma EventKeepsPolicyInv(counter: nat, a: App, e: Event)
    requires Inv(counter, a) && PolicyInv(a) && Enabled(a, e) && Serialized(a, e)
    ensures PolicyInv(After(counter, a, e).1)
  {
    match e
    case ByCall(c) => CallKeepsPolicyInv(counter, a, c);
    case ByClaim(c) => ClaimKeepsPolicyInv(counter, a, c);
    case ByUpdater(u) => UpdaterKeepsPolicyInv(counter, a, u);
  }

  // As long as no policy is removed, an application without one has never had one since it was claimed.
  ghost predicate NeverRemoved(a: App) { a.tables.policy.None? ==> a.published == map[] }

  lemma CallKeepsNeverRemoved(counter: nat, a: App, e: CallEvent)
    requires NeverRemoved(a) && CallEnabled(a, e) && !e.DropPolicy?
    ensures NeverRemoved(AfterCall(counter, a, e).1)
  {
  }

  lemma ClaimKeepsNeverRemoved(a: App, e: ClaimEvent)
    requires NeverRemoved(a) && (a.tables.row.None? ==> a.tables == NO_ROW) && ClaimEnabled(a, e)
    ensures NeverRemoved(AfterClaim(a, e))
  {
  }

  lemma UpdaterKeepsNeverRemoved(counter: nat, a: App, e: UpdaterEvent)
    requires NeverRemoved(a) && UpdaterEnabled(a, e)
    ensures NeverRemoved(AfterUpdater(counter, a, e))
  {
  }

  lemma EventKeepsNeverRemoved(counter: nat, a: App, e: Event)
    requires NeverRemoved(a) && (a.tables.row.None? ==> a.tables == NO_ROW) && Enabled(a, e) && !(e.ByCall? && e.call.DropPolicy?)
    ensures NeverRemoved(After(counter, a, e).1)
  {
    match e
    case ByCall(c) => CallKeepsNeverRemoved(counter, a, c);
    case ByClaim(c) => ClaimKeepsNeverRemoved(a, c);
    case ByUpdater(u) => UpdaterKeepsNeverRemoved(counter, a, u);
  }
}
