// The configuration-sync protocol between the storage, which UI calls change table by table, and the
// updater, which pushes the stored configuration to a device. One App value is everything that concerns
// one application; the update counter is shared by all of them.
module SyncProtocol {
  import opened Base

  // ---------------------------------------------------------------- state

  // The rows of one application in the database tables.
  datatype Tables = Tables(
    row: Option<SyncState>,
    identity: Option<CertId>,
    manifest: Option<seq<Rule>>,
    memberships: map<Guid, CertId>,
    policy: Option<Policy>)

  // Deleting the row cascades to the certificates of the application.
  const NO_ROW := Tables(None, None, None, map[], None)

  datatype Device =
    | Unclaimed
    | Claimed(memberships: set<CertId>, identity: seq<CertId>, policy: Policy)

  datatype Pc =
    | Idle | Looping | GotMemberships | GotIdentity | GotManifest | GotPolicy
    | Installing | Removing | PushingIdentity | PushingPolicy | Finishing

  // The local variables of UpdateApplication. The last three record the run and steer nothing:
  // `clean` says that no UI call announced a change of this application since the loop (re)started,
  // `first` is the transaction id that StartUpdates returned and `rounds` counts loop iterations.
  datatype Updater = Updater(
    pc: Pc, tid: nat, st: SyncState,
    memberships: set<CertId>, identity: Option<CertId>, policy: Option<Policy>,
    install: set<CertId>, remove: set<CertId>,
    clean: bool, first: nat, rounds: nat)

  const IDLE := Updater(Idle, 0, SyncUnknown, {}, None, None, {}, {}, false, 0, 0)

  // A UI call after its first effect. A call that gave up returned an error before announcing its write;
  // `reset` tells that it had removed the identity, so that the application still has to be reset.
  datatype Call =
    | PolicyChecked(policy: Policy)
    | IdentityStored
    | NeedsUpdate(policyUpdateNeeded: bool)
    | NeedsReset
    | GaveUp(reset: bool)

  // The phases of a claim of this application: the device accepted the certificate, the row is
  // inserted, the certificate is stored, or storing failed and the device is still to be reset.
  datatype Claim = NoClaim | Sent(cert: CertId) | Inserted(cert: CertId) | CertStored(cert: CertId) | Failed

  // The last three record the run: a table write that no ApplicationUpdated followed yet; by version, the
  // policies stored in a sequence of ascending versions; and that a claim failed and could not take its row
  // back, which is over when the application is claimed again without a row.
  datatype App = App(
    tables: Tables, device: Device, updater: Updater, claim: Claim,
    calls: map<nat, Call>, unannounced: bool, published: map<nat, Policy>, leftover: bool)

  // ---------------------------------------------------------------- events

  // How ApplicationUpdated ends: everything stored; state stored but not the new policy version;
  // state not stored; the row could not be read.
  datatype Outcome = Stored | VersionNotStored | NotStored | NotRead

  datatype CallEvent =
    | InstallMembership(call: nat, guid: Guid, cert: CertId)
    | DropMembership(call: nat, guid: Guid)
    | StoreIdentity(call: nat, cert: CertId)
    | StoreManifest(call: nat, manifest: seq<Rule>)
    | CheckPolicy(call: nat, policy: Policy)
    | StorePolicy(call: nat)
    | DropPolicy(call: nat)
    | DropIdentity(call: nat)
    | Announce(call: nat, outcome: Outcome)
    | MarkReset(caller: Option<nat>, stored: bool)
    | Abandon(call: nat)
    | ForcedRemoval

  datatype ClaimEvent =
    | ClaimDevice(cert: CertId)
    | ClaimInsert(inserted: bool)
    | ClaimCert
    | ClaimManifest(manifest: seq<Rule>)
    | ClaimRollback(removed: bool)
    | ClaimGiveUp(deviceReset: bool)

  datatype UpdaterEvent =
    | Start
    | ReadMemberships
    | ReadIdentity
    | ReadManifest
    | ReadPolicy
    | Summarize
    | Install(id: CertId)
    | Remove(id: CertId)
    | NextPush
    | PushIdentity
    | PushPolicy
    | PushFails
    | GiveUp
    | ResetDevice
    | AlreadyReset
    | ResetFails
    | Complete(stored: bool)

  datatype Event = ByCall(call: CallEvent) | ByClaim(claim: ClaimEvent) | ByUpdater(updater: UpdaterEvent)

  // ---------------------------------------------------------------- UI calls

  predicate CallEnabled(a: App, e: CallEvent)
  {
    var t := a.tables;
    match e
    // Foreign and primary keys: the row must exist, the membership must not.
    case InstallMembership(call, guid, _) => call !in a.calls && t.row.Some? && guid !in t.memberships
    case DropMembership(call, _) => call !in a.calls && t.row.Some?
    case StoreIdentity(call, _) => call !in a.calls && t.row.Some?
    case StoreManifest(call, _) => call in a.calls && a.calls[call].IdentityStored?
    case CheckPolicy(call, policy) => call !in a.calls && t.row.Some? && Versioned(t.policy, policy).Some?
    case StorePolicy(call) => call in a.calls && a.calls[call].PolicyChecked?
    case DropPolicy(call) => call !in a.calls && t.row.Some?
    case DropIdentity(call) => call !in a.calls && t.identity.Some?
    case Announce(call, outcome) =>
      call in a.calls && a.calls[call].NeedsUpdate? && (t.row.None? ==> outcome.NotRead?)
    case MarkReset(caller, stored) =>
      && (caller.Some? ==> caller.value in a.calls && a.calls[caller.value].NeedsReset?)
      && (t.row.None? ==> !stored)
    case Abandon(call) => call in a.calls && !a.calls[call].GaveUp?
    // Not while a transaction on the application is open.
    case ForcedRemoval => a.updater.pc.Idle?
  }

  // A table write of a UI call that still has to be announced. Without a row nothing is written.
  function Wrote(a: App, call: nat, next: Call, t: Tables): App {
    var a' := a.(calls := a.calls[call := next]);
    if a.tables.row.Some? then a'.(tables := t, unannounced := true) else a'
  }

  function Announced(a: App): App {
    a.(unannounced := false, updater := a.updater.(clean := false))
  }

  // Every version stored so far is older.
  predicate Newest(published: map<nat, Policy>, version: nat) { forall v :: v in published ==> v < version }

  function Publish(a: App, policy: Policy): App {
    var earlier := if Newest(a.published, policy.version) then a.published else map[];
    a.(tables := a.tables.(policy := Some(policy)), published := earlier[policy.version := policy])
  }

  // Calls that gave up no longer matter once a later call announced what they wrote; one that left the
  // application without identity matters until there is one.
  function Settle(calls: map<nat, Call>, identity: bool): map<nat, Call> {
    map c | c in calls && !(calls[c].GaveUp? && (identity || !calls[c].reset)) :: calls[c]
  }

  function Removed(a: App): App {
    a.(tables := NO_ROW, unannounced := false, published := map[], calls := Settle(a.calls, true))
  }

  // ApplicationUpdated, which runs under the update lock.
  function AfterAnnounce(counter: nat, a: App, call: nat, outcome: Outcome): (nat, App)
    requires CallEnabled(a, Announce(call, outcome))
  {
    var lost := a.(calls := a.calls[call := GaveUp(false)]);
    if outcome.NotRead? then (counter, lost)
    else
      var told := Announced(a).(calls := Settle(Without(a.calls, call), a.tables.identity.Some?));
      match a.tables.row.value
      case SyncOk =>
        if outcome.NotStored? then (counter + 1, lost)
        else
          var pending := told.(tables := a.tables.(row := Some(AnnouncedState(SyncOk))));
          if outcome.Stored? && a.calls[call].policyUpdateNeeded && a.tables.policy.Some? then
            var policy := a.tables.policy.value;
            (counter + 1, Publish(pending, policy.(version := NextVersion(policy.version))))
          else
            (counter + 1, pending)
      case SyncPending => (counter + 1, told)
      case SyncWillReset => (counter + 1, told)
      case _ => (counter + 1, lost)
  }

  function AfterMarkReset(counter: nat, a: App, caller: Option<nat>, stored: bool): (nat, App)
    requires CallEnabled(a, MarkReset(caller, stored))
  {
    if stored then
      var told := Announced(a).(tables := a.tables.(row := Some(SyncWillReset)));
      (counter + 1, told.(calls := Settle(if caller.Some? then Without(a.calls, caller.value) else a.calls, true)))
    else
      (counter + 1, if caller.Some? then a.(calls := a.calls[caller.value := GaveUp(true)]) else a)
  }

  function AfterCall(counter: nat, a: App, e: CallEvent): (nat, App)
    requires CallEnabled(a, e)
  {
    var t := a.tables;
    match e
    case InstallMembership(call, guid, cert) =>
      (counter, Wrote(a, call, NeedsUpdate(true), t.(memberships := t.memberships[guid := cert])))
    case DropMembership(call, guid) =>
      (counter, Wrote(a, call, NeedsUpdate(true), t.(memberships := t.memberships - {guid})))
    case StoreIdentity(call, cert) =>
      (counter, Wrote(a, call, IdentityStored, t.(identity := Some(cert))))
    case StoreManifest(call, manifest) =>
      (counter, Wrote(a, call, NeedsUpdate(true), t.(manifest := Some(manifest))))
    case CheckPolicy(call, policy) =>
      (counter, a.(calls := a.calls[call := PolicyChecked(Versioned(t.policy, policy).value)]))
    case StorePolicy(call) =>
      var policy := a.calls[call].policy;
      var a' := Wrote(a, call, NeedsUpdate(false), t);
      (counter, if t.row.Some? then Publish(a', policy) else a')
    case DropPolicy(call) =>
      (counter, Wrote(a, call, NeedsUpdate(false), t.(policy := None)))
    case DropIdentity(call) =>
      (counter, Wrote(a, call, NeedsReset, t.(identity := None)))
    case Announce(call, outcome) => AfterAnnounce(counter, a, call, outcome)
    case MarkReset(caller, stored) => AfterMarkReset(counter, a, caller, stored)
    case Abandon(call) =>
      (counter, a.(calls := if a.calls[call].PolicyChecked? then Without(a.calls, call)
                            else a.calls[call := GaveUp(a.calls[call].NeedsReset?)]))
    case ForcedRemoval => (counter, Removed(a))
  }

  // ---------------------------------------------------------------- claiming

  predicate ClaimEnabled(a: App, e: ClaimEvent)
  {
    var t := a.tables;
    match e
    case ClaimDevice(_) => a.claim.NoClaim? && a.device.Unclaimed?
    case ClaimInsert(inserted) => a.claim.Sent? && (inserted ==> t.row.None?)
    case ClaimCert => a.claim.Inserted? && t.row.Some? && t.identity.None?
    case ClaimManifest(_) => a.claim.CertStored?
    // ApplicationClaimed undoes its insertion; not while a transaction on the application is open.
    case ClaimRollback(removed) => (a.claim.Inserted? || a.claim.CertStored?) && (removed ==> a.updater.pc.Idle?)
    case ClaimGiveUp(_) => a.claim.Failed?
  }

  function AfterClaim(a: App, e: ClaimEvent): App
    requires ClaimEnabled(a, e)
  {
    var t := a.tables;
    match e
    case ClaimDevice(cert) =>
      a.(claim := Sent(cert), device := Claimed({}, [cert], DEFAULT_POLICY), leftover := a.leftover && t.row.Some?)
    case ClaimInsert(inserted) =>
      if inserted then a.(claim := Inserted(a.claim.cert), tables := NO_ROW.(row := Some(SyncOk)))
      else a.(claim := Failed)
    case ClaimCert => a.(claim := CertStored(a.claim.cert), tables := t.(identity := Some(a.claim.cert)))
    case ClaimManifest(manifest) =>
      a.(claim := NoClaim, tables := if t.row.Some? then t.(manifest := Some(manifest)) else t)
    case ClaimRollback(removed) =>
      if removed then Removed(a).(claim := Failed) else a.(claim := Failed, leftover := a.leftover || t.row.Some?)
    case ClaimGiveUp(deviceReset) => a.(claim := NoClaim, device := if deviceReset then Unclaimed else a.device)
  }

  // ---------------------------------------------------------------- the updater

  predicate Pushing(pc: Pc) {
    pc.Installing? || pc.Removing? || pc.PushingIdentity? || pc.PushingPolicy?
  }

  predicate Collecting(pc: Pc) {
    pc.Looping? || pc.GotMemberships? || pc.GotIdentity? || pc.GotManifest? || pc.GotPolicy?
  }

  predicate UpdaterEnabled(a: App, e: UpdaterEvent)
  {
    var u := a.updater;
    match e
    case Start => u.pc.Idle? && a.tables.row.Some?
    case ReadMemberships => u.pc.Looping? && !u.st.SyncWillReset?
    case ReadIdentity => u.pc.GotMemberships? && a.tables.identity.Some?
    case ReadManifest => u.pc.GotIdentity? && a.tables.manifest.Some?
    case ReadPolicy => u.pc.GotManifest?
    case Summarize => u.pc.GotPolicy? && a.device.Claimed?
    case Install(id) => u.pc.Installing? && id in u.install && a.device.Claimed?
    case Remove(id) => u.pc.Removing? && id in u.remove && a.device.Claimed?
    case NextPush => (u.pc.Installing? && u.install == {}) || (u.pc.Removing? && u.remove == {})
    case PushIdentity => u.pc.PushingIdentity? && u.identity.Some? && a.device.Claimed?
    case PushPolicy => u.pc.PushingPolicy? && a.device.Claimed?
    case PushFails => u.pc.GotPolicy? || Pushing(u.pc)
    case GiveUp => Collecting(u.pc) && !(u.pc.Looping? && u.st.SyncWillReset?)
    case ResetDevice => u.pc.Looping? && u.st.SyncWillReset? && a.device.Claimed?
    case AlreadyReset => u.pc.Looping? && u.st.SyncWillReset?
    case ResetFails => u.pc.Looping? && u.st.SyncWillReset?
    case Complete(stored) => u.pc.Finishing? && (u.st.SyncReset? ==> stored)
  }

  function Ids(t: Tables): set<CertId> { t.memberships.Values }

  // UpdatePolicy of the updater: versions decide whether anything is sent.
  function PushedPolicy(local: Option<Policy>, remote: Policy): Policy {
    match local
    case None => if remote.version != 0 then DEFAULT_POLICY else remote
    case Some(p) => if p.version == remote.version then remote else p
  }

  // UpdatesCompleted, which runs under the update lock.
  function AfterComplete(counter: nat, a: App, stored: bool): App
    requires UpdaterEnabled(a, Complete(stored))
  {
    var u := a.updater;
    var idle := a.(updater := IDLE);
    match Completed(a.tables.row, counter, u.st, u.tid, stored)
    case RowRemoved => Removed(idle)
    case Restarted =>
      a.(updater := u.(pc := Looping, st := a.tables.row.value, tid := counter, clean := true, rounds := u.rounds + 1))
    case Persisted => idle.(tables := a.tables.(row := Some(SyncOk)))
    case NothingDone => idle
  }

  function AfterUpdater(counter: nat, a: App, e: UpdaterEvent): App
    requires UpdaterEnabled(a, e)
  {
    var u := a.updater;
    var t := a.tables;
    var d := a.device;
    match e
    case Start =>
      a.(updater := IDLE.(pc := Looping, tid := counter, st := t.row.value, clean := true, first := counter, rounds := 1))
    case ReadMemberships => a.(updater := u.(pc := GotMemberships, memberships := Ids(t)))
    case ReadIdentity => a.(updater := u.(pc := GotIdentity, identity := t.identity))
    case ReadManifest => a.(updater := u.(pc := GotManifest))
    case ReadPolicy => a.(updater := u.(pc := GotPolicy, policy := t.policy))
    case Summarize =>
      a.(updater := u.(pc := Installing, install := u.memberships - d.memberships, remove := d.memberships - u.memberships))
    case Install(id) =>
      a.(updater := u.(install := u.install - {id}), device := d.(memberships := d.memberships + {id}))
    case Remove(id) =>
      a.(updater := u.(remove := u.remove - {id}), device := d.(memberships := d.memberships - {id}))
    case NextPush => a.(updater := u.(pc := if u.pc.Installing? then Removing else PushingIdentity))
    case PushIdentity => a.(updater := u.(pc := PushingPolicy), device := d.(identity := [u.identity.value]))
    case PushPolicy =>
      a.(updater := u.(pc := Finishing, st := SyncOk), device := d.(policy := PushedPolicy(u.policy, d.policy)))
    case PushFails => a.(updater := u.(pc := Finishing))
    case GiveUp => a.(updater := IDLE)
    case ResetDevice => a.(updater := u.(pc := Finishing, st := SyncReset), device := Unclaimed)
    case AlreadyReset => a.(updater := u.(pc := Finishing, st := SyncReset))
    case ResetFails => a.(updater := u.(pc := Finishing))
    case Complete(stored) => AfterComplete(counter, a, stored)
  }

  // ---------------------------------------------------------------- steps

  predicate Enabled(a: App, e: Event) {
    match e
    case ByCall(c) => CallEnabled(a, c)
    case ByClaim(c) => ClaimEnabled(a, c)
    case ByUpdater(u) => UpdaterEnabled(a, u)
  }

  function After(counter: nat, a: App, e: Event): (nat, App)
    requires Enabled(a, e)
  {
    match e
    case ByCall(c) => AfterCall(counter, a, c)
    case ByClaim(c) => (counter, AfterClaim(a, c))
    case ByUpdater(u) => (counter, AfterUpdater(counter, a, u))
  }
}
