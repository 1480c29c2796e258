// What every interleaving of UI calls, claims and the updater keeps: a stored SyncOk means that the
// device really has the stored memberships and identity.
module SyncSoundness {
  import opened Base
  import opened SyncProtocol

  // The device has exactly the stored certificates.
  predicate Agree(t: Tables, d: Device) {
    d.Claimed? && d.memberships == Ids(t) && t.identity.Some? && d.identity == [t.identity.value]
  }

  // While a claim is between inserting the row and storing the certificate, the certificate sent to the
  // device stands in for the one in the tables.
  predicate Synced(a: App) {
    && a.device.Claimed?
    && a.device.memberships == Ids(a.tables)
    && match a.tables.identity
       case Some(id) => a.device.identity == [id]
       case None => a.claim.Inserted? && a.device.identity == [a.claim.cert]
  }

  // Nothing about the application was written since the updater (re)started.
  predicate Undisturbed(a: App) { a.updater.clean && !a.unannounced }

  predicate HasMemberships(pc: Pc) { HasIdentity(pc) || pc.GotMemberships? }
  predicate HasIdentity(pc: Pc) { HasPolicy(pc) || pc.GotIdentity? || pc.GotManifest? }
  predicate HasPolicy(pc: Pc) { Pushing(pc) || pc.GotPolicy? }

  // What the updater collected is what the tables still say.
  predicate ReadsCurrent(a: App) {
    var u := a.updater;
    && (HasMemberships(u.pc) ==> u.memberships == Ids(a.tables))
    && (HasIdentity(u.pc) ==> u.identity.Some? && u.identity == a.tables.identity)
    && (HasPolicy(u.pc) ==> u.policy == a.tables.policy)
    && (Collecting(u.pc) || Pushing(u.pc) ==> Some(u.st) == a.tables.row)
  }

  // How far the updater has pushed, whatever it collected.
  predicate PushProgress(u: Updater, d: Device) {
    && (HasIdentity(u.pc) ==> u.identity.Some?)
    && (Pushing(u.pc) ==> d.Claimed?)
    && (u.pc.Installing? ==> u.install == u.memberships - d.memberships)
    && (u.pc.Installing? || u.pc.Removing? ==> u.remove == d.memberships - u.memberships)
    && (u.pc.Removing? ==> u.memberships <= d.memberships)
    && (u.pc.PushingIdentity? || u.pc.PushingPolicy? ==> d.memberships == u.memberships)
    && (u.pc.PushingPolicy? ==> d.identity == [u.identity.value])
  }

  // The updater finished with SyncOk, either after pushing everything or, when a push failed, because
  // that is what it found at the start. Either way the device is in sync unless something was written.
  predicate FinishedInSync(a: App) {
    a.updater.pc.Finishing? && a.updater.st.SyncOk? && Undisturbed(a) ==> Synced(a)
  }

  predicate AwaitsRemoval(a: App) {
    a.updater.pc.Finishing? && a.updater.st.SyncReset? && a.tables.row == Some(SyncWillReset)
  }

  // What the stored state has to do with the updater, whatever the device is like.
  predicate Rows(a: App) {
    var t, u := a.tables, a.updater;
    && t.row in {None, Some(SyncOk), Some(SyncPending), Some(SyncWillReset)}
    && (t.row.None? ==> t == NO_ROW)
    && (!u.pc.Idle? ==> t.row.Some?)
    && ((u.pc.Looping? && u.st.SyncWillReset?) || u.st.SyncReset? ==> t.row == Some(SyncWillReset))
    && (u.st.SyncReset? ==> u.pc.Finishing?)
    && ((Collecting(u.pc) && !u.pc.Looping?) || Pushing(u.pc) ==> !u.st.SyncWillReset?)
    && (!u.pc.Idle? && u.clean && t.row == Some(SyncWillReset) ==> u.st.SyncWillReset? || u.st.SyncReset?)
    && (!u.pc.Idle? && !u.clean ==> t.row != Some(SyncOk) || a.unannounced)
  }

  predicate DeviceAndClaims(a: App) {
    var t := a.tables;
    && (a.device.Unclaimed? ==> t.row.None? || AwaitsRemoval(a))
    && (a.claim.Sent? || a.claim.Failed? ==> t.row.None? || AwaitsRemoval(a))
    && (a.claim.Sent? ==> a.device == Claimed({}, [a.claim.cert], DEFAULT_POLICY))
    && (a.claim.CertStored? && t.identity.None? ==> a.unannounced || t.row != Some(SyncOk))
  }

  predicate Rounds(counter: nat, a: App) {
    var u := a.updater;
    && (u.pc.Idle? ==> u == IDLE)
    && (!u.pc.Idle? ==> u.first <= u.tid <= counter && 1 <= u.rounds <= 1 + u.tid - u.first)
    && (!u.pc.Idle? && u.tid == counter ==> u.clean)
  }

  // What is known of the device, unless a failed claim left its row behind.
  ghost predicate DeviceInv(a: App) {
    && DeviceAndClaims(a)
    && PushProgress(a.updater, a.device)
    && (a.tables.row == Some(SyncOk) && !a.unannounced ==> Synced(a))
    && FinishedInSync(a)
  }

  ghost predicate Inv(counter: nat, a: App) {
    && Rounds(counter, a)
    && Rows(a)
    && (Undisturbed(a) ==> ReadsCurrent(a))
    && (!a.leftover ==> DeviceInv(a))
  }

  // An exhausted work list means that the inclusion it was computed for holds.
  lemma NothingLeft(u: Updater, d: Device)
    requires PushProgress(u, d)
    ensures u.pc.Installing? && u.install == {} ==> u.memberships <= d.memberships
    ensures u.pc.Removing? && u.remove == {} ==> d.memberships == u.memberships
  {
    if u.pc.Installing? && u.install == {} {
      assert forall id :: id in u.memberships ==> id in d.memberships || id in u.install;
    }
    if u.pc.Removing? && u.remove == {} {
      assert forall id :: id in d.memberships ==> id in u.memberships || id in u.remove;
    }
  }

  // A write that is recorded as unannounced costs nothing but the promise about SyncOk.
  lemma WriteKeepsInv(counter: nat, a: App, a': App)
    requires Inv(counter, a)
    requires a'.device == a.device && a'.updater == a.updater && a'.claim == a.claim
    requires a'.tables.row == a.tables.row && a'.leftover == a.leftover
    requires (a'.tables == a.tables && a'.unannounced == a.unannounced) || (a.tables.row.Some? && a'.unannounced)
    ensures Inv(counter, a')
  {
  }

  lemma RemovalKeepsInv(counter: nat, a: App)
    requires Inv(counter, a) && a.updater.pc.Idle?
    ensures Inv(counter, Removed(a))
  {
  }

  // An increment of the counter without an announcement, whatever else happens to the calls.
  lemma OthersKeepInv(counter: nat, counter': nat, a: App, calls: map<nat, Call>)
    requires Inv(counter, a) && counter <= counter'
    ensures Inv(counter', a.(calls := calls))
  {
  }

  // An announcement makes SyncOk pending and tells the updater, and may come with a new policy version.
  lemma AnnouncementKeepsInv(counter: nat, a: App, calls: map<nat, Call>, policy: Option<Policy>, published: map<nat, Policy>)
    requires Inv(counter, a) && a.tables.row.Some?
    requires policy == a.tables.policy || a.tables.row.value.SyncOk?
    ensures Inv(counter + 1, Announced(a).(
                calls := calls, published := published,
                tables := a.tables.(row := Some(AnnouncedState(a.tables.row.value)), policy := policy)))
  {
  }

  lemma AnnounceKeepsInv(counter: nat, a: App, call: nat, outcome: Outcome)
    requires Inv(counter, a) && CallEnabled(a, Announce(call, outcome))
    ensures Inv(AfterAnnounce(counter, a, call, outcome).0, AfterAnnounce(counter, a, call, outcome).1)
  {
    var (counter', a') := AfterAnnounce(counter, a, call, outcome);
    if a'.updater == a.updater && a'.unannounced == a.unannounced && a'.tables == a.tables {
      OthersKeepInv(counter, counter', a, a'.calls);
    } else {
      AnnouncementKeepsInv(counter, a, a'.calls, a'.tables.policy, a'.published);
    }
  }

  lemma MarkResetKeepsInv(counter: nat, a: App, caller: Option<nat>, stored: bool)
    requires Inv(counter, a) && CallEnabled(a, MarkReset(caller, stored))
    ensures Inv(AfterMarkReset(counter, a, caller, stored).0, AfterMarkReset(counter, a, caller, stored).1)
  {
  }

  lemma CallKeepsInv(counter: nat, a: App, e: CallEvent)
    requires Inv(counter, a) && CallEnabled(a, e)
    ensures Inv(AfterCall(counter, a, e).0, AfterCall(counter, a, e).1)
  {
    match e
    case Announce(call, outcome) => AnnounceKeepsInv(counter, a, call, outcome);
    case MarkReset(caller, stored) => MarkResetKeepsInv(counter, a, caller, stored);
    case ForcedRemoval => RemovalKeepsInv(counter, a);
    case _ => WriteKeepsInv(counter, a, AfterCall(counter, a, e).1);
  }

  lemma ClaimKeepsInv(counter: nat, a: App, e: ClaimEvent)
    requires Inv(counter, a) && ClaimEnabled(a, e)
    ensures Inv(counter, AfterClaim(a, e))
  {
  }

  predicate IsReadEvent(e: UpdaterEvent) {
    e.Start? || e.ReadMemberships? || e.ReadIdentity? || e.ReadManifest? || e.ReadPolicy?
  }

  predicate IsPushEvent(e: UpdaterEvent) {
    e.Summarize? || e.Install? || e.Remove? || e.NextPush? || e.PushIdentity? || e.PushPolicy? || e.PushFails?
  }

  lemma ReadKeepsInv(counter: nat, a: App, e: UpdaterEvent)
    requires Inv(counter, a) && IsReadEvent(e) && UpdaterEnabled(a, e)
    ensures Inv(counter, AfterUpdater(counter, a, e))
  {
  }

  lemma PushKeepsInv(counter: nat, a: App, e: UpdaterEvent)
    requires Inv(counter, a) && IsPushEvent(e) && UpdaterEnabled(a, e)
    ensures Inv(counter, AfterUpdater(counter, a, e))
  {
    if e.NextPush? && !a.leftover {
      NothingLeft(a.updater, a.device);
    }
  }

  lemma RestartKeepsInv(counter: nat, a: App, stored: bool)
    requires Inv(counter, a) && UpdaterEnabled(a, Complete(stored))
    requires Completed(a.tables.row, counter, a.updater.st, a.updater.tid, stored) == Restarted
    ensures Inv(counter, AfterComplete(counter, a, stored))
  {
  }

  lemma PersistKeepsInv(counter: nat, a: App, stored: bool)
    requires Inv(counter, a) && UpdaterEnabled(a, Complete(stored))
    requires Completed(a.tables.row, counter, a.updater.st, a.updater.tid, stored) == Persisted
    ensures Inv(counter, AfterComplete(counter, a, stored))
  {
  }

  lemma CompleteKeepsInv(counter: nat, a: App, stored: bool)
    requires Inv(counter, a) && UpdaterEnabled(a, Complete(stored))
    ensures Inv(counter, AfterComplete(counter, a, stored))
  {
    match Completed(a.tables.row, counter, a.updater.st, a.updater.tid, stored)
    case Restarted => RestartKeepsInv(counter, a, stored);
    case Persisted => PersistKeepsInv(counter, a, stored);
    case _ =>
  }

  lemma UpdaterKeepsInv(counter: nat, a: App, e: UpdaterEvent)
    requires Inv(counter, a) && UpdaterEnabled(a, e)
    ensures Inv(counter, AfterUpdater(counter, a, e))
  {
    if IsReadEvent(e) {
      ReadKeepsInv(counter, a, e);
    } else if IsPushEvent(e) {
      PushKeepsInv(counter, a, e);
    } else if e.Complete? {
      CompleteKeepsInv(counter, a, e.stored);
    }
  }

  lemma EventKeepsInv(counter: nat, a: App, e: Event)
    requires Inv(counter, a) && Enabled(a, e)
    ensures Inv(After(counter, a, e).0, After(counter, a, e).1)
  {
    match e
    case ByCall(c) => CallKeepsInv(counter, a, c);
    case ByClaim(c) => ClaimKeepsInv(counter, a, c);
    case ByUpdater(u) => UpdaterKeepsInv(counter, a, u);
  }

  // ---------------------------------------------------------------- who still owes an announcement

  // Every unannounced write belongs to a UI call that is past its write or gave up after it.
  ghost predicate Accountable(a: App) {
    a.unannounced ==> exists call :: call in a.calls && !a.calls[call].PolicyChecked?
  }

  lemma CallKeepsAccountable(counter: nat, a: App, e: CallEvent)
    requires Accountable(a) && CallEnabled(a, e)
    ensures Accountable(AfterCall(counter, a, e).1)
  {
    var a' := AfterCall(counter, a, e).1;
    if a'.unannounced && !a.unannounced {
      assert e.call in a'.calls;
    } else if a'.unannounced {
      var call :| call in a.calls && !a.calls[call].PolicyChecked?;
      assert call in a'.calls;
    }
  }

  lemma EventKeepsAccountable(counter: nat, a: App, e: Event)
    requires Accountable(a) && Enabled(a, e)
    ensures Accountable(After(counter, a, e).1)
  {
    var a' := After(counter, a, e).1;
    if e.ByCall? {
      CallKeepsAccountable(counter, a, e.call);
    } else if a'.unannounced {
      assert a'.calls == a.calls;
    }
  }

  // ---------------------------------------------------------------- what an application in use always has

  // Some call removed the identity and still has to mark the application, or gave up before it did.
  ghost predicate OwesReset(calls: map<nat, Call>) {
    exists c :: c in calls && (calls[c].NeedsReset? || calls[c] == GaveUp(true))
  }

  // An application that does not wait for its reset has an identity and a manifest; claims that are under
  // way and calls that removed the identity account for the exceptions.
  ghost predicate ManagedRow(a: App) {
    !a.leftover && a.tables.row in {Some(SyncOk), Some(SyncPending)} ==>
      && (a.tables.manifest.Some? || a.claim.Inserted? || a.claim.CertStored?)
      && (a.tables.identity.Some? || a.claim.Inserted? || OwesReset(a.calls))
  }

  lemma DebtRemains(calls: map<nat, Call>, calls': map<nat, Call>)
    requires OwesReset(calls)
    requires forall c :: c in calls && (calls[c].NeedsReset? || calls[c] == GaveUp(true)) ==>
               c in calls' && (calls'[c].NeedsReset? || calls'[c] == GaveUp(true))
    ensures OwesReset(calls')
  {
    var c :| c in calls && (calls[c].NeedsReset? || calls[c] == GaveUp(true));
    assert c in calls';
  }

  lemma AnnounceKeepsManaged(counter: nat, a: App, call: nat, outcome: Outcome)
    requires ManagedRow(a) && CallEnabled(a, Announce(call, outcome))
    ensures ManagedRow(AfterAnnounce(counter, a, call, outcome).1)
  {
    var a' := AfterAnnounce(counter, a, call, outcome).1;
    if a'.tables.identity.None? && OwesReset(a.calls) {
      DebtRemains(a.calls, a'.calls);
    }
  }

  lemma CallKeepsManaged(counter: nat, a: App, e: CallEvent)
    requires Rows(a) && ManagedRow(a) && CallEnabled(a, e)
    ensures ManagedRow(AfterCall(counter, a, e).1)
  {
    var a' := AfterCall(counter, a, e).1;
    if e.DropIdentity? {
      assert e.call in a'.calls;
    } else if e.Announce? {
      AnnounceKeepsManaged(counter, a, e.call, e.outcome);
    } else if a'.tables.identity.None? && a'.tables.row.Some? && !(e.MarkReset? && e.stored) && OwesReset(a.calls) {
      DebtRemains(a.calls, a'.calls);
    }
  }

  lemma ClaimKeepsManaged(counter: nat, a: App, e: ClaimEvent)
    requires Inv(counter, a) && ManagedRow(a) && ClaimEnabled(a, e)
    ensures ManagedRow(AfterClaim(a, e))
  {
  }

  lemma UpdaterKeepsManaged(counter: nat, a: App, e: UpdaterEvent)
    requires Rounds(counter, a) && Rows(a) && ManagedRow(a) && UpdaterEnabled(a, e)
    ensures ManagedRow(AfterUpdater(counter, a, e))
  {
    var a' := AfterUpdater(counter, a, e);
    if a'.tables.row.Some? {
      assert a'.calls == a.calls && a'.claim == a.claim && a'.leftover == a.leftover;
    }
  }

  lemma EventKeepsManaged(counter: nat, a: App, e: Event)
    requires Inv(counter, a) && ManagedRow(a) && Enabled(a, e)
    ensures ManagedRow(After(counter, a, e).1)
  {
    match e
    case ByCall(c) => CallKeepsManaged(counter, a, c);
    case ByClaim(c) => ClaimKeepsManaged(counter, a, c);
    case ByUpdater(u) => UpdaterKeepsManaged(counter, a, u);
  }
}
