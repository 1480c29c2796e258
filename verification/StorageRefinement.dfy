// The calls of the storage, run to completion, are runs of the sync protocol: seen per application, the
// tables that a successful call leaves behind are those after its protocol events.
module StorageRefinement {
  import opened Base
  import S = SqlStorage
  import opened SyncProtocol
  import opened SyncSystem

  type Rows = map<AppKey, S.AppRow>
  type Certs = map<AppKey, S.IdentityCert>
  type Memberships = map<(AppKey, Guid), CertId>

  ghost function MembershipsOf(memberships: Memberships, app: AppKey): map<Guid, CertId> {
    map k | k in memberships && k.0 == app :: k.1 := memberships[k]
  }

  // What the database says about one application.
  ghost function TablesOf(rows: Rows, certs: Certs, memberships: Memberships, app: AppKey): Tables {
    if app !in rows then NO_ROW
    else Tables(Some(rows[app].state), if app in certs then Some(certs[app].id) else None,
                rows[app].manifest, MembershipsOf(memberships, app), rows[app].policy)
  }

  ghost predicate IsStateOf(a: App, rows: Rows, certs: Certs, memberships: Memberships, app: AppKey) {
    && app in rows && rows[app].state in {SyncOk, SyncPending, SyncWillReset}
    && a.tables == TablesOf(rows, certs, memberships, app)
  }

  // ---------------------------------------------------------------- announcing

  lemma AnnouncedRowRefines(counter: nat, a: App, call: nat, rows: Rows, certs: Certs, memberships: Memberships, app: AppKey)
    requires IsStateOf(a, rows, certs, memberships, app) && call in a.calls && a.calls[call].NeedsUpdate?
    ensures CallEnabled(a, Announce(call, Stored))
    ensures var (counter', a') := AfterCall(counter, a, Announce(call, Stored));
            var told := S.AnnouncedRow(rows[app], a.calls[call].policyUpdateNeeded);
            && counter' == counter + 1 && !a'.unannounced
            && a'.calls == Settle(Without(a.calls, call), a.tables.identity.Some?)
            && IsStateOf(a', rows[app := told], certs, memberships, app)
  {
  }

  ghost predicate Moves(from: (nat, App), e: Event, to: (nat, App)) {
    Enabled(from.1, e) && After(from.0, from.1, e) == to
  }

  // The announcement that ends a call with its write done.
  lemma ThenAnnounced(counter: nat, written: App, call: nat, calls: map<nat, Call>, policyUpdateNeeded: bool,
                      rows: Rows, row: S.AppRow, certs: Certs, memberships: Memberships, app: AppKey)
    returns (a': App)
    requires IsStateOf(written, rows[app := row], certs, memberships, app)
    requires call !in calls && written.calls == calls[call := NeedsUpdate(policyUpdateNeeded)]
    ensures Moves((counter, written), ByCall(Announce(call, Stored)), (counter + 1, a'))
    ensures !a'.unannounced && a'.calls == Settle(calls, written.tables.identity.Some?)
    ensures IsStateOf(a', rows[app := S.AnnouncedRow(row, policyUpdateNeeded)], certs, memberships, app)
  {
    AnnouncedRowRefines(counter, written, call, rows[app := row], certs, memberships, app);
    a' := AfterCall(counter, written, Announce(call, Stored)).1;
    assert Without(written.calls, call) == calls;
    RowWrittenTwice(rows, app, row, S.AnnouncedRow(row, policyUpdateNeeded));
  }

  lemma RowWrittenTwice(rows: Rows, app: AppKey, row: S.AppRow, row': S.AppRow)
    ensures rows[app := row][app := row'] == rows[app := row']
  {
  }

  // ---------------------------------------------------------------- writing

  lemma MembershipStored(memberships: Memberships, app: AppKey, guid: Guid, cert: CertId)
    ensures MembershipsOf(memberships[(app, guid) := cert], app) == MembershipsOf(memberships, app)[guid := cert]
  {
    var m, m' := memberships, memberships[(app, guid) := cert];
    forall g | g in MembershipsOf(m', app) ensures g in MembershipsOf(m, app)[guid := cert] {
      assert (app, g) in m';
    }
    forall g | g in MembershipsOf(m, app)[guid := cert] ensures g in MembershipsOf(m', app) {
      assert (app, g) in m';
    }
  }

  // Removing one or more memberships of an application, one of them for the group.
  lemma MembershipDropped(memberships: Memberships, rest: Memberships, app: AppKey, guid: Guid)
    requires forall k :: k in rest ==> k in memberships && rest[k] == memberships[k]
    requires forall k :: k in memberships && k.0 == app ==> (k in rest <==> k.1 != guid)
    ensures MembershipsOf(rest, app) == MembershipsOf(memberships, app) - {guid}
  {
    forall g | g in MembershipsOf(memberships, app) - {guid} ensures g in MembershipsOf(rest, app) {
      assert (app, g) in memberships && (app, g) in rest;
    }
    forall g | g in MembershipsOf(rest, app) ensures g in MembershipsOf(memberships, app) - {guid} {
      assert (app, g) in rest && (app, g) in memberships;
    }
  }

  // ---------------------------------------------------------------- the calls on one application

  // InstallMembership that returns ER_OK.
  lemma InstallMembershipRefines(counter: nat, a: App, call: nat, rows: Rows, certs: Certs, memberships: Memberships,
                                 app: AppKey, guid: Guid, cert: CertId)
    returns (written: App, a': App)
    requires IsStateOf(a, rows, certs, memberships, app) && call !in a.calls && (app, guid) !in memberships
    ensures Moves((counter, a), ByCall(InstallMembership(call, guid, cert)), (counter, written))
    ensures Moves((counter, written), ByCall(Announce(call, Stored)), (counter + 1, a'))
    ensures IsStateOf(a', rows[app := S.AnnouncedRow(rows[app], true)], certs, memberships[(app, guid) := cert], app)
    ensures !a'.unannounced && a'.calls == Settle(a.calls, a.tables.identity.Some?)
  {
    MembershipStored(memberships, app, guid, cert);
    written := AfterCall(counter, a, InstallMembership(call, guid, cert)).1;
    a' := ThenAnnounced(counter, written, call, a.calls, true, rows, rows[app], certs, memberships[(app, guid) := cert], app);
  }

  // RemoveMembership that returns ER_OK.
  lemma RemoveMembershipRefines(counter: nat, a: App, call: nat, rows: Rows, certs: Certs, memberships: Memberships,
                                app: AppKey, guid: Guid)
    returns (written: App, a': App)
    requires IsStateOf(a, rows, certs, memberships, app) && call !in a.calls
    ensures Moves((counter, a), ByCall(DropMembership(call, guid)), (counter, written))
    ensures Moves((counter, written), ByCall(Announce(call, Stored)), (counter + 1, a'))
    ensures IsStateOf(a', rows[app := S.AnnouncedRow(rows[app], true)], certs, Without(memberships, (app, guid)), app)
    ensures !a'.unannounced && a'.calls == Settle(a.calls, a.tables.identity.Some?)
  {
    MembershipDropped(memberships, Without(memberships, (app, guid)), app, guid);
    written := AfterCall(counter, a, DropMembership(call, guid)).1;
    a' := ThenAnnounced(counter, written, call, a.calls, true, rows, rows[app], certs, Without(memberships, (app, guid)), app);
  }

  // RemovePolicy that returns ER_OK.
  lemma RemovePolicyRefines(counter: nat, a: App, call: nat, rows: Rows, certs: Certs, memberships: Memberships, app: AppKey)
    returns (written: App, a': App)
    requires IsStateOf(a, rows, certs, memberships, app) && call !in a.calls
    ensures Moves((counter, a), ByCall(DropPolicy(call)), (counter, written))
    ensures Moves((counter, written), ByCall(Announce(call, Stored)), (counter + 1, a'))
    ensures IsStateOf(a', rows[app := S.AnnouncedRow(rows[app].(policy := None), false)], certs, memberships, app)
    ensures !a'.unannounced && a'.calls == Settle(a.calls, a.tables.identity.Some?)
  {
    written := AfterCall(counter, a, DropPolicy(call)).1;
    a' := ThenAnnounced(counter, written, call, a.calls, false, rows, rows[app].(policy := None), certs, memberships, app);
  }

  lemma PolicyChecks(counter: nat, a: App, call: nat, policy: Policy)
    requires a.tables.row.Some? && call !in a.calls
    ensures CallEnabled(a, CheckPolicy(call, policy)) <==> Versioned(a.tables.policy, policy).Some?
    ensures Versioned(a.tables.policy, policy).Some? ==>
              Moves((counter, a), ByCall(CheckPolicy(call, policy)),
                    (counter, a.(calls := a.calls[call := PolicyChecked(Versioned(a.tables.policy, policy).value)])))
  {
  }

  // An application after the check and the write of UpdatePolicy.
  ghost function PolicyWritten(a: App, call: nat, policy: Policy): App {
    Publish(a, policy).(calls := a.calls[call := NeedsUpdate(false)], unannounced := true)
  }

  lemma PolicyStores(counter: nat, a: App, call: nat, policy: Policy)
    requires a.tables.row.Some? && call !in a.calls
    ensures Moves((counter, a.(calls := a.calls[call := PolicyChecked(policy)])), ByCall(StorePolicy(call)),
                  (counter, PolicyWritten(a, call, policy)))
  {
    assert a.calls[call := PolicyChecked(policy)][call := NeedsUpdate(false)] == a.calls[call := NeedsUpdate(false)];
  }

  lemma WrittenRow(a: App, call: nat, policy: Policy, rows: Rows, certs: Certs, memberships: Memberships, app: AppKey)
    requires IsStateOf(a, rows, certs, memberships, app)
    ensures IsStateOf(PolicyWritten(a, call, policy), rows[app := rows[app].(policy := Some(policy))], certs, memberships, app)
    ensures PolicyWritten(a, call, policy).calls == a.calls[call := NeedsUpdate(false)]
    ensures PolicyWritten(a, call, policy).tables.identity == a.tables.identity
  {
    assert PolicyWritten(a, call, policy).tables == a.tables.(policy := Some(policy));
  }

  // UpdatePolicy: it gets past its version check exactly if the policy is acceptable, and then the check,
  // the write and the announcement leave the rows of a call that returns ER_OK.
  lemma UpdatePolicyRefines(counter: nat, a: App, call: nat, rows: Rows, certs: Certs, memberships: Memberships,
                            app: AppKey, policy: Policy)
    returns (checked: App, written: App, a': App)
    requires IsStateOf(a, rows, certs, memberships, app) && call !in a.calls
    ensures var accepted := Versioned(rows[app].policy, policy);
            && (CallEnabled(a, CheckPolicy(call, policy)) <==> accepted.Some?)
            && (accepted.Some? ==>
                  && Moves((counter, a), ByCall(CheckPolicy(call, policy)), (counter, checked))
                  && Moves((counter, checked), ByCall(StorePolicy(call)), (counter, written))
                  && Moves((counter, written), ByCall(Announce(call, Stored)), (counter + 1, a'))
                  && IsStateOf(a', rows[app := S.AnnouncedRow(rows[app].(policy := accepted), false)], certs, memberships, app)
                  && !a'.unannounced && a'.calls == Settle(a.calls, a.tables.identity.Some?))
  {
    PolicyChecks(counter, a, call, policy);
    checked, written, a' := a, a, a;
    var accepted := Versioned(rows[app].policy, policy);
    if accepted.Some? {
      checked := a.(calls := a.calls[call := PolicyChecked(accepted.value)]);
      written := PolicyWritten(a, call, accepted.value);
      PolicyStores(counter, a, call, accepted.value);
      WrittenRow(a, call, accepted.value, rows, certs, memberships, app);
      a' := ThenAnnounced(counter, written, call, a.calls, false, rows, rows[app].(policy := accepted), certs, memberships, app);
    }
  }

  // UpdateIdentity: certificate and manifest are two writes.
  lemma UpdateIdentityRefines(counter: nat, a: App, call: nat, rows: Rows, certs: Certs, memberships: Memberships,
                              app: AppKey, cert: S.IdentityCert, manifest: seq<Rule>)
    returns (stored: App, written: App, a': App)
    requires IsStateOf(a, rows, certs, memberships, app) && call !in a.calls
    ensures Moves((counter, a), ByCall(StoreIdentity(call, cert.id)), (counter, stored))
    ensures Moves((counter, stored), ByCall(StoreManifest(call, manifest)), (counter, written))
    ensures Moves((counter, written), ByCall(Announce(call, Stored)), (counter + 1, a'))
    ensures IsStateOf(a', rows[app := S.AnnouncedRow(rows[app].(manifest := Some(manifest)), true)], certs[app := cert], memberships, app)
    ensures !a'.unannounced && a'.calls == Settle(a.calls, true)
  {
    stored := AfterCall(counter, a, StoreIdentity(call, cert.id)).1;
    written := AfterCall(counter, stored, StoreManifest(call, manifest)).1;
    assert written.calls == a.calls[call := NeedsUpdate(true)];
    a' := ThenAnnounced(counter, written, call, a.calls, true, rows, rows[app].(manifest := Some(manifest)), certs[app := cert], memberships, app);
  }

  // ResetApplication that returns ER_OK, called by the UI or while an identity is removed.
  lemma ResetApplicationRefines(counter: nat, a: App, caller: Option<nat>, rows: Rows, certs: Certs, memberships: Memberships, app: AppKey)
    requires IsStateOf(a, rows, certs, memberships, app) && CallEnabled(a, MarkReset(caller, true))
    ensures var (counter', a') := AfterCall(counter, a, MarkReset(caller, true));
            && counter' == counter + 1 && !a'.unannounced && !a'.updater.clean
            && IsStateOf(a', rows[app := rows[app].(state := SyncWillReset)], certs, memberships, app)
  {
  }

  // ApplicationClaimed that returns ER_OK, after the device accepted the certificate.
  lemma ApplicationClaimedRefines(counter: nat, a: App, rows: Rows, certs: Certs, memberships: Memberships,
                                  app: AppKey, cert: S.IdentityCert, manifest: seq<Rule>)
    returns (inserted: App, stored: App, a': App)
    requires app !in rows && (forall k :: k in memberships ==> k.0 != app)
    requires a.tables == TablesOf(rows, certs, memberships, app) && a.claim == Sent(cert.id)
    ensures Moves((counter, a), ByClaim(ClaimInsert(true)), (counter, inserted))
    ensures Moves((counter, inserted), ByClaim(ClaimCert), (counter, stored))
    ensures Moves((counter, stored), ByClaim(ClaimManifest(manifest)), (counter, a'))
    ensures a'.claim.NoClaim? && IsStateOf(a', rows[app := S.AppRow(SyncOk, Some(manifest), None)], certs[app := cert], memberships, app)
  {
    assert MembershipsOf(memberships, app) == map[];
    inserted := AfterClaim(a, ClaimInsert(true));
    stored := AfterClaim(inserted, ClaimCert);
    a' := AfterClaim(stored, ClaimManifest(manifest));
  }

  // UpdatesCompleted, for the transaction that the updater of the application has open.
  lemma UpdatesCompletedRefines(counter: nat, a: App, stored: bool, rows: Rows, certs: Certs, memberships: Memberships, app: AppKey)
    requires IsStateOf(a, rows, certs, memberships, app) && UpdaterEnabled(a, Complete(stored))
    ensures var completion := Completed(Some(rows[app].state), counter, a.updater.st, a.updater.tid, stored);
            var a' := AfterComplete(counter, a, stored);
            && (completion.RowRemoved? ==>
                  a'.tables == TablesOf(Without(rows, app), Without(certs, app),
                                        map k | k in memberships && k.0 != app :: memberships[k], app))
            && (completion.Persisted? ==>
                  a'.tables == TablesOf(rows[app := rows[app].(state := SyncOk)], certs, memberships, app))
            && (completion.Restarted? ==> a'.updater.st == rows[app].state && a'.updater.tid == counter && a'.tables == a.tables)
            && (completion.NothingDone? ==> a'.tables == a.tables && a'.updater.pc.Idle?)
  {
  }

  // ---------------------------------------------------------------- other applications

  // None of these calls touches another application.
  lemma WritesLeaveOthers(rows: Rows, certs: Certs, memberships: Memberships, app: AppKey, other: AppKey,
                          row: S.AppRow, cert: S.IdentityCert, guid: Guid, id: CertId)
    requires other != app
    ensures TablesOf(rows[app := row], certs[app := cert], memberships[(app, guid) := id], other)
            == TablesOf(rows, certs, memberships, other)
  {
    var m, m' := memberships, memberships[(app, guid) := id];
    assert forall k :: k in m' && k.0 == other <==> k in m && k.0 == other;
    assert MembershipsOf(m', other) == MembershipsOf(m, other);
  }

  lemma RemovalsLeaveOthers(rows: Rows, certs: Certs, memberships: Memberships, app: AppKey, other: AppKey, gone: set<(AppKey, Guid)>)
    requires other != app && forall k :: k in gone ==> k.0 == app
    ensures TablesOf(Without(rows, app), Without(certs, app), memberships - gone, other)
            == TablesOf(rows, certs, memberships, other)
  {
    assert forall k :: k in memberships - gone && k.0 == other <==> k in memberships && k.0 == other;
    assert MembershipsOf(memberships - gone, other) == MembershipsOf(memberships, other);
  }

  // ---------------------------------------------------------------- the calls on several applications

  ghost predicate IsStateOfAll(s: System, rows: Rows, certs: Certs, memberships: Memberships) {
    && rows.Keys <= s.apps.Keys
    && forall k :: k in s.apps ==> s.apps[k].tables == TablesOf(rows, certs, memberships, k)
                                   && (k in rows ==> rows[k].state in {SyncOk, SyncPending, SyncWillReset})
  }

  ghost predicate Steps(s: System, labels: seq<Label>, s': System)
    decreases |labels|
  {
    if labels == [] then s == s' else Can(s, labels[0]) && Steps(Do(s, labels[0]), labels[1..], s')
  }

  function WithoutGroup(memberships: Memberships, guid: Guid): Memberships {
    map k | k in memberships && k.1 != guid :: memberships[k]
  }

  function WithoutIdentity(certs: Certs, guid: Guid): Certs { map k | k in certs && certs[k].guid != guid :: certs[k] }

  function AnnouncedAll(rows: Rows, told: seq<AppKey>): Rows {
    map k | k in rows :: if k in told then S.AnnouncedRow(rows[k], true) else rows[k]
  }

  function ResetAll(rows: Rows, told: seq<AppKey>): Rows {
    map k | k in rows :: if k in told then rows[k].(state := SyncWillReset) else rows[k]
  }

  lemma StepsFrom(s: System, l: Label, more: seq<Label>, s': System)
    requires Can(s, l) && Steps(Do(s, l), more, s')
    ensures Steps(s, [l] + more, s')
  {
    assert ([l] + more)[1..] == more;
  }

  lemma HoldsExactly(s: System, k: AppKey, guid: Guid, rows: Rows, certs: Certs, memberships: Memberships)
    requires IsStateOfAll(s, rows, certs, memberships) && k in s.apps
    ensures Holds(s.apps[k], guid) <==> k in rows && (k, guid) in memberships
  {
    if k in rows && (k, guid) in memberships {
      assert guid in MembershipsOf(memberships, k);
    }
  }

  lemma GroupDropped(counter: nat, a: App, k: AppKey, guid: Guid, call: nat, rows: Rows, certs: Certs, memberships: Memberships)
    requires k in rows && a.tables == TablesOf(rows, certs, memberships, k) && call !in a.calls
    ensures CallEnabled(a, DropMembership(call, guid))
    ensures var a' := AfterCall(counter, a, DropMembership(call, guid)).1;
            a'.calls == a.calls[call := NeedsUpdate(true)] && a'.tables == TablesOf(rows, certs, WithoutGroup(memberships, guid), k)
  {
    MembershipDropped(memberships, WithoutGroup(memberships, guid), k, guid);
  }

  lemma NothingDropped(k: AppKey, guid: Guid, rows: Rows, certs: Certs, memberships: Memberships)
    requires k in rows ==> (k, guid) !in memberships
    ensures TablesOf(rows, certs, WithoutGroup(memberships, guid), k) == TablesOf(rows, certs, memberships, k)
  {
    if k in rows {
      MembershipDropped(memberships, WithoutGroup(memberships, guid), k, guid);
      assert MembershipsOf(memberships, k) - {guid} == MembershipsOf(memberships, k);
    }
  }

  // Deleting a group takes its memberships from all applications in one step.
  lemma GroupRemovedRefines(s: System, guid: Guid, call: nat, rows: Rows, certs: Certs, memberships: Memberships)
    requires IsStateOfAll(s, rows, certs, memberships) && forall k :: k in s.apps ==> call !in s.apps[k].calls
    ensures Can(s, GroupRemoved(guid, call))
    ensures var s' := Do(s, GroupRemoved(guid, call));
            && s'.counter == s.counter && IsStateOfAll(s', rows, certs, WithoutGroup(memberships, guid))
            && forall k :: k in rows && (k, guid) in memberships ==> s'.apps[k].calls == s.apps[k].calls[call := NeedsUpdate(true)]
  {
    forall k | k in s.apps ensures Holds(s.apps[k], guid) <==> k in rows && (k, guid) in memberships {
      HoldsExactly(s, k, guid, rows, certs, memberships);
    }
    forall k | k in s.apps && Holds(s.apps[k], guid) ensures CallEnabled(s.apps[k], DropMembership(call, guid)) {
      GroupDropped(s.counter, s.apps[k], k, guid, call, rows, certs, memberships);
    }
    var s' := Do(s, GroupRemoved(guid, call));
    forall k | k in s.apps
      ensures s'.apps[k].tables == TablesOf(rows, certs, WithoutGroup(memberships, guid), k)
      ensures Holds(s.apps[k], guid) ==> s'.apps[k].calls == s.apps[k].calls[call := NeedsUpdate(true)]
    {
      if Holds(s.apps[k], guid) {
        GroupDropped(s.counter, s.apps[k], k, guid, call, rows, certs, memberships);
      } else {
        NothingDropped(k, guid, rows, certs, memberships);
      }
    }
  }

  lemma IdentityDropped(counter: nat, a: App, k: AppKey, guid: Guid, call: nat, rows: Rows, certs: Certs, memberships: Memberships)
    requires k in rows && k in certs && certs[k].guid == guid && a.tables == TablesOf(rows, certs, memberships, k) && call !in a.calls
    ensures CallEnabled(a, DropIdentity(call))
    ensures var a' := AfterCall(counter, a, DropIdentity(call)).1;
            a'.calls == a.calls[call := NeedsReset] && a'.tables == TablesOf(rows, WithoutIdentity(certs, guid), memberships, k)
  {
  }

  // Deleting an identity takes its certificates from all applications in one step.
  lemma IdentityRemovedRefines(s: System, guid: Guid, holders: set<AppKey>, call: nat, rows: Rows, certs: Certs, memberships: Memberships)
    requires IsStateOfAll(s, rows, certs, memberships) && forall k :: k in s.apps ==> call !in s.apps[k].calls
    requires forall k :: k in holders <==> k in rows && k in certs && certs[k].guid == guid
    ensures Can(s, IdentityRemoved(holders, call))
    ensures var s' := Do(s, IdentityRemoved(holders, call));
            && s'.counter == s.counter && IsStateOfAll(s', rows, WithoutIdentity(certs, guid), memberships)
            && forall k :: k in holders ==> s'.apps[k].calls == s.apps[k].calls[call := NeedsReset]
  {
    forall k | k in s.apps && k in holders ensures CallEnabled(s.apps[k], DropIdentity(call)) {
      IdentityDropped(s.counter, s.apps[k], k, guid, call, rows, certs, memberships);
    }
    var s' := Do(s, IdentityRemoved(holders, call));
    forall k | k in s.apps
      ensures s'.apps[k].tables == TablesOf(rows, WithoutIdentity(certs, guid), memberships, k)
      ensures k in holders ==> s'.apps[k].calls == s.apps[k].calls[call := NeedsReset]
    {
      if k in holders {
        IdentityDropped(s.counter, s.apps[k], k, guid, call, rows, certs, memberships);
      }
    }
  }

  lemma RowOfOther(rows: Rows, certs: Certs, memberships: Memberships, k: AppKey, row: S.AppRow, j: AppKey)
    requires j != k
    ensures TablesOf(rows[k := row], certs, memberships, j) == TablesOf(rows, certs, memberships, j)
  {
  }

  // A step of one application leaves the tables of the others as they were.
  lemma OneMoves(s: System, s': System, k: AppKey, a': App, rows: Rows, row: S.AppRow, certs: Certs, memberships: Memberships)
    requires IsStateOfAll(s, rows, certs, memberships) && k in rows && s'.apps == s.apps[k := a']
    requires IsStateOf(a', rows[k := row], certs, memberships, k)
    ensures IsStateOfAll(s', rows[k := row], certs, memberships)
  {
    forall j | j in s'.apps
      ensures s'.apps[j].tables == TablesOf(rows[k := row], certs, memberships, j)
    {
      if j != k {
        RowOfOther(rows, certs, memberships, k, row, j);
      }
    }
  }

  lemma OneAnnounced(s: System, k: AppKey, call: nat, rows: Rows, certs: Certs, memberships: Memberships)
    requires IsStateOfAll(s, rows, certs, memberships) && k in rows && call in s.apps[k].calls && s.apps[k].calls[call] == NeedsUpdate(true)
    ensures Can(s, One(k, ByCall(Announce(call, Stored))))
    ensures var s' := Do(s, One(k, ByCall(Announce(call, Stored))));
            && s'.counter == s.counter + 1
            && IsStateOfAll(s', rows[k := S.AnnouncedRow(rows[k], true)], certs, memberships)
            && forall j :: j in s.apps && j != k ==> s'.apps[j] == s.apps[j]
  {
    AnnouncedRowRefines(s.counter, s.apps[k], call, rows, certs, memberships, k);
    var s', a' := Do(s, One(k, ByCall(Announce(call, Stored)))), AfterCall(s.counter, s.apps[k], Announce(call, Stored)).1;
    OneMoves(s, s', k, a', rows, S.AnnouncedRow(rows[k], true), certs, memberships);
  }

  lemma OneReset(s: System, k: AppKey, call: nat, rows: Rows, certs: Certs, memberships: Memberships)
    requires IsStateOfAll(s, rows, certs, memberships) && k in rows && call in s.apps[k].calls && s.apps[k].calls[call].NeedsReset?
    ensures Can(s, One(k, ByCall(MarkReset(Some(call), true))))
    ensures var s' := Do(s, One(k, ByCall(MarkReset(Some(call), true))));
            && s'.counter == s.counter + 1
            && IsStateOfAll(s', rows[k := rows[k].(state := SyncWillReset)], certs, memberships)
            && forall j :: j in s.apps && j != k ==> s'.apps[j] == s.apps[j]
  {
    ResetApplicationRefines(s.counter, s.apps[k], Some(call), rows, certs, memberships, k);
    var s', a' := Do(s, One(k, ByCall(MarkReset(Some(call), true)))), AfterCall(s.counter, s.apps[k], MarkReset(Some(call), true)).1;
    OneMoves(s, s', k, a', rows, rows[k].(state := SyncWillReset), certs, memberships);
  }

  lemma FirstIsTold(rows: Rows, told: seq<AppKey>)
    requires told != [] && Distinct(told) && told[0] in rows
    ensures Distinct(told[1..]) && forall j :: j in told[1..] ==> j in told && j != told[0]
    ensures AnnouncedAll(rows[told[0] := S.AnnouncedRow(rows[told[0]], true)], told[1..]) == AnnouncedAll(rows, told)
    ensures ResetAll(rows[told[0] := rows[told[0]].(state := SyncWillReset)], told[1..]) == ResetAll(rows, told)
  {
    assert told == [told[0]] + told[1..];
  }

  lemma {:induction false} AllAnnounced(s: System, told: seq<AppKey>, call: nat, rows: Rows, certs: Certs, memberships: Memberships)
    returns (labels: seq<Label>, s': System)
    requires IsStateOfAll(s, rows, certs, memberships) && Distinct(told)
    requires forall k :: k in told ==> k in rows && call in s.apps[k].calls && s.apps[k].calls[call] == NeedsUpdate(true)
    ensures Steps(s, labels, s') && s'.counter == s.counter + |told|
    ensures IsStateOfAll(s', AnnouncedAll(rows, told), certs, memberships)
    decreases |told|
  {
    if told == [] {
      assert AnnouncedAll(rows, told) == rows;
      labels, s' := [], s;
    } else {
      var k := told[0];
      var l, rows1 := One(k, ByCall(Announce(call, Stored))), rows[k := S.AnnouncedRow(rows[k], true)];
      OneAnnounced(s, k, call, rows, certs, memberships);
      FirstIsTold(rows, told);
      var more;
      more, s' := AllAnnounced(Do(s, l), told[1..], call, rows1, certs, memberships);
      StepsFrom(s, l, more, s');
      labels := [l] + more;
    }
  }

  lemma {:induction false} AllReset(s: System, told: seq<AppKey>, call: nat, rows: Rows, certs: Certs, memberships: Memberships)
    returns (labels: seq<Label>, s': System)
    requires IsStateOfAll(s, rows, certs, memberships) && Distinct(told)
    requires forall k :: k in told ==> k in rows && call in s.apps[k].calls && s.apps[k].calls[call].NeedsReset?
    ensures Steps(s, labels, s') && s'.counter == s.counter + |told|
    ensures IsStateOfAll(s', ResetAll(rows, told), certs, memberships)
    decreases |told|
  {
    if told == [] {
      assert ResetAll(rows, told) == rows;
      labels, s' := [], s;
    } else {
      var k := told[0];
      var l, rows1 := One(k, ByCall(MarkReset(Some(call), true))), rows[k := rows[k].(state := SyncWillReset)];
      OneReset(s, k, call, rows, certs, memberships);
      FirstIsTold(rows, told);
      var more;
      more, s' := AllReset(Do(s, l), told[1..], call, rows1, certs, memberships);
      StepsFrom(s, l, more, s');
      labels := [l] + more;
    }
  }

  // RemoveGroup that returns ER_OK: the removal and one announcement for each application looked up.
  lemma RemoveGroupRefines(s: System, guid: Guid, told: seq<AppKey>, call: nat, rows: Rows, certs: Certs, memberships: Memberships)
    returns (labels: seq<Label>, s': System)
    requires IsStateOfAll(s, rows, certs, memberships) && forall k :: k in s.apps ==> call !in s.apps[k].calls
    requires Distinct(told) && forall k :: k in told ==> k in rows && (k, guid) in memberships
    ensures Steps(s, [GroupRemoved(guid, call)] + labels, s') && s'.counter == s.counter + |told|
    ensures IsStateOfAll(s', AnnouncedAll(rows, told), certs, WithoutGroup(memberships, guid))
  {
    GroupRemovedRefines(s, guid, call, rows, certs, memberships);
    labels, s' := AllAnnounced(Do(s, GroupRemoved(guid, call)), told, call, rows, certs, WithoutGroup(memberships, guid));
    StepsFrom(s, GroupRemoved(guid, call), labels, s');
  }

  // RemoveIdentity that returns ER_OK: the removal and one mark for each application looked up.
  lemma RemoveIdentityRefines(s: System, guid: Guid, holders: set<AppKey>, told: seq<AppKey>, call: nat,
                              rows: Rows, certs: Certs, memberships: Memberships)
    returns (labels: seq<Label>, s': System)
    requires IsStateOfAll(s, rows, certs, memberships) && forall k :: k in s.apps ==> call !in s.apps[k].calls
    requires forall k :: k in holders <==> k in rows && k in certs && certs[k].guid == guid
    requires Distinct(told) && forall k :: k in told ==> k in holders
    ensures Steps(s, [IdentityRemoved(holders, call)] + labels, s') && s'.counter == s.counter + |told|
    ensures IsStateOfAll(s', ResetAll(rows, told), WithoutIdentity(certs, guid), memberships)
  {
    IdentityRemovedRefines(s, guid, holders, call, rows, certs, memberships);
    labels, s' := AllReset(Do(s, IdentityRemoved(holders, call)), told, call, rows, WithoutIdentity(certs, guid), memberships);
    StepsFrom(s, IdentityRemoved(holders, call), labels, s');
  }
}
