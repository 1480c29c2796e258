// The updater: it brings the certificates and the policy of a device in line with the storage, in a
// transaction that starts over when the storage changed meanwhile.
module ApplicationUpdater {
  import opened Base
  import opened SqlStorage
  import opened UIStorage
  import opened MembershipPlan
  import Sync = SyncProtocol

  // What the bus last reported about an application. It may be out of date.
  datatype ApplicationState = NotClaimable | Claimable | IsClaimed | NeedUpdate

  // The remote application, as the management proxy shows it. A call that fails leaves it alone; no call of
  // a reliable application does.
  // `requests` records every call that asks it to change, carried out or not.
  class RemoteApplication {
    const reliable: bool
    var claimed: bool
    var memberships: seq<CertId>
    var identity: seq<CertId>
    var policy: Policy
    ghost var requests: seq<Request>

    method Answers() returns (done: bool)
      ensures reliable ==> done
    {
      done := *;
      done := done || reliable;
    }

    method InstallMembership(id: CertId) returns (status: Status)
      modifies `memberships, `requests
      ensures status in {ER_OK, ER_FAIL} && (reliable ==> status == ER_OK) && requests == old(requests) + [Install(id)]
      ensures memberships == if status == ER_OK then Applied(Install(id), old(memberships)) else old(memberships)
    {
      requests := requests + [Install(id)];
      var done := Answers();
      if !done {
        return ER_FAIL;
      }
      memberships := Applied(Install(id), memberships);
      status := ER_OK;
    }

    method RemoveMembership(id: CertId) returns (status: Status)
      modifies `memberships, `requests
      ensures status in {ER_OK, ER_FAIL} && (reliable ==> status == ER_OK) && requests == old(requests) + [Remove(id)]
      ensures memberships == if status == ER_OK then Applied(Remove(id), old(memberships)) else old(memberships)
    {
      requests := requests + [Remove(id)];
      var done := Answers();
      if !done {
        return ER_FAIL;
      }
      memberships := Applied(Remove(id), memberships);
      status := ER_OK;
    }

    method UpdateIdentity(chain: seq<CertId>) returns (status: Status)
      modifies `identity, `requests
      ensures status in {ER_OK, ER_FAIL} && (reliable ==> status == ER_OK) && requests == old(requests) + [SendIdentity]
      ensures identity == if status == ER_OK then chain else old(identity)
    {
      requests := requests + [SendIdentity];
      var done := Answers();
      if !done {
        return ER_FAIL;
      }
      identity := chain;
      status := ER_OK;
    }

    method UpdatePolicy(newPolicy: Policy) returns (status: Status)
      modifies `policy, `requests
      ensures status in {ER_OK, ER_FAIL} && (reliable ==> status == ER_OK) && requests == old(requests) + [SendPolicy]
      ensures policy == if status == ER_OK then newPolicy else old(policy)
    {
      requests := requests + [SendPolicy];
      var done := Answers();
      if !done {
        return ER_FAIL;
      }
      policy := newPolicy;
      status := ER_OK;
    }

    method ResetPolicy() returns (status: Status)
      modifies `policy, `requests
      ensures status in {ER_OK, ER_FAIL} && (reliable ==> status == ER_OK) && requests == old(requests) + [MembershipPlan.ResetPolicy]
      ensures policy == if status == ER_OK then DEFAULT_POLICY else old(policy)
    {
      requests := requests + [MembershipPlan.ResetPolicy];
      var done := Answers();
      if !done {
        return ER_FAIL;
      }
      policy := DEFAULT_POLICY;
      status := ER_OK;
    }

    method Reset() returns (status: Status)
      modifies `claimed, `requests
      ensures status in {ER_OK, ER_FAIL} && (reliable ==> status == ER_OK) && requests == old(requests) + [MembershipPlan.Reset]
      ensures claimed == (old(claimed) && status != ER_OK)
    {
      requests := requests + [MembershipPlan.Reset];
      var done := Answers();
      if !done {
        return ER_FAIL;
      }
      claimed := false;
      status := ER_OK;
    }
  }

  // ---------------------------------------------------------------- comparing certificates

  // memcmp(a, b, n) == 0
  predicate SameBytes(a: string, b: string, n: nat)
    requires n <= |a| && n <= |b|
  {
    a[..n] == b[..n]
  }

  // Lengths are compared first, so that no comparison runs over the end of a buffer.
  function IsSameCertificate(summary: CertId, cert: CertId): (same: bool)
    ensures same <==> summary == cert
  {
    assert |summary.serial| == |cert.serial| ==> summary.serial[..|cert.serial|] == summary.serial && cert.serial[..|cert.serial|] == cert.serial;
    var (issuer, aki) := (summary.authorityKeyId, cert.authorityKeyId);
    assert |issuer| == |aki| ==> issuer[..|aki|] == issuer && aki[..|aki|] == aki;
    if |summary.serial| != |cert.serial| then false
    else if !SameBytes(cert.serial, summary.serial, |cert.serial|) then false
    else if |issuer| != |aki| then false
    else SameBytes(issuer, aki, |aki|)
  }

  // The search for a certificate in a list.
  method IsListed(id: CertId, list: seq<CertId>) returns (listed: bool)
    ensures listed <==> id in list
  {
    for i := 0 to |list|
      invariant id !in list[..i]
    {
      if IsSameCertificate(list[i], id) {
        return true;
      }
    }
    return false;
  }

  // Whether the chain on the device has to be replaced.
  method IdentityDiffers(remote: seq<CertId>, persisted: seq<CertId>) returns (needUpdate: bool)
    ensures needUpdate <==> remote != persisted
  {
    if |remote| != |persisted| {
      return true;
    }
    for i := 0 to |persisted|
      invariant remote[..i] == persisted[..i]
    {
      if |remote[i].serial| != |persisted[i].serial| {
        return true;
      }
      if !SameBytes(persisted[i].serial, remote[i].serial, |remote[i].serial|)
         || remote[i].authorityKeyId != persisted[i].authorityKeyId {
        return true;
      }
      assert persisted[i].serial[..|remote[i].serial|] == persisted[i].serial;
      assert remote[i].serial[..|remote[i].serial|] == remote[i].serial;
    }
    assert remote[..|remote|] == remote && persisted[..|remote|] == persisted;
    return false;
  }

  // ---------------------------------------------------------------- memberships

  // What the search decides about the next certificate.
  lemma NotInNext(ids: seq<CertId>, others: seq<CertId>, i: nat)
    requires i < |ids|
    ensures NotIn(ids[..i + 1], others)
            == if ids[i] in others then NotIn(ids[..i], others) else NotIn(ids[..i], others) + [ids[i]]
  {
    assert ids[..i + 1][..i] == ids[..i];
  }

  lemma NotInStep(ids: seq<CertId>, others: seq<CertId>, i: nat)
    requires i < |ids|
    ensures NotIn(ids[..i], others) <= NotIn(ids[..i + 1], others)
  {
    NotInNext(ids, others, i);
  }

  lemma PrefixOfPrefix(a: seq<CertId>, b: seq<CertId>, c: seq<CertId>)
    requires a <= b <= c
    ensures a <= c
  {
  }

  lemma {:induction false} NotInPrefix(ids: seq<CertId>, others: seq<CertId>, i: nat)
    requires i <= |ids|
    ensures NotIn(ids[..i], others) <= NotIn(ids, others)
    decreases |ids| - i
  {
    if i < |ids| {
      NotInStep(ids, others, i);
      NotInPrefix(ids, others, i + 1);
      PrefixOfPrefix(NotIn(ids[..i], others), NotIn(ids[..i + 1], others), NotIn(ids, others));
    } else {
      assert ids[..i] == ids;
    }
  }

  lemma InstallsOfMore(ids: seq<CertId>, id: CertId)
    ensures Installs(ids + [id]) == Installs(ids) + [Install(id)]
  {
  }

  lemma RemovesOfMore(ids: seq<CertId>, id: CertId)
    ensures Removes(ids + [id]) == Removes(ids) + [Remove(id)]
  {
  }

  lemma InstallsOfPrefix(part: seq<CertId>, ids: seq<CertId>)
    requires part <= ids
    ensures Installs(part) <= Installs(ids)
  {
  }

  lemma RemovesOfPrefix(part: seq<CertId>, ids: seq<CertId>)
    requires part <= ids
    ensures Removes(part) <= Removes(ids)
  {
  }

  lemma InstallsNext(ids: seq<CertId>, others: seq<CertId>, i: nat)
    requires i < |ids|
    ensures Installs(NotIn(ids[..i + 1], others))
            == if ids[i] in others then Installs(NotIn(ids[..i], others)) else Installs(NotIn(ids[..i], others)) + [Install(ids[i])]
    ensures Installs(NotIn(ids[..i + 1], others)) <= Installs(NotIn(ids, others))
  {
    var found, all := NotIn(ids[..i], others), NotIn(ids, others);
    NotInNext(ids, others, i);
    NotInPrefix(ids, others, i + 1);
    InstallsOfMore(found, ids[i]);
    InstallsOfPrefix(NotIn(ids[..i + 1], others), all);
  }

  lemma RemovesNext(ids: seq<CertId>, others: seq<CertId>, i: nat)
    requires i < |ids|
    ensures Removes(NotIn(ids[..i + 1], others))
            == if ids[i] in others then Removes(NotIn(ids[..i], others)) else Removes(NotIn(ids[..i], others)) + [Remove(ids[i])]
    ensures Removes(NotIn(ids[..i + 1], others)) <= Removes(NotIn(ids, others))
  {
    var found, all := NotIn(ids[..i], others), NotIn(ids, others);
    NotInNext(ids, others, i);
    NotInPrefix(ids, others, i + 1);
    RemovesOfMore(found, ids[i]);
    RemovesOfPrefix(NotIn(ids[..i + 1], others), all);
  }

  lemma RunNext(rs: seq<Request>, r: Request, memberships: seq<CertId>)
    ensures Run(rs + [r], memberships) == Applied(r, Run(rs, memberships))
  {
    assert (rs + [r])[..|rs|] == rs;
  }

  lemma Appended(a: seq<Request>, b: seq<Request>, c: seq<Request>)
    ensures a + b + c == a + (b + c)
  {
  }

  // Of a list of requests, `asked` were made and `done` carried out; only the last one may have failed.
  predicate PartOf(status: Status, asked: seq<Request>, done: seq<Request>, plan: seq<Request>) {
    && done <= asked <= plan && |asked| <= |done| + 1
    && (status == ER_OK ==> done == plan)
  }

  method InstallMissingMemberships(proxy: RemoteApplication, local: seq<CertId>, remote: seq<CertId>)
    returns (status: Status, ghost asked: seq<Request>, ghost done: seq<Request>)
    modifies proxy`memberships, proxy`requests
    ensures proxy.requests == old(proxy.requests) + asked && proxy.memberships == Run(done, old(proxy.memberships))
    ensures PartOf(status, asked, done, Installs(NotIn(local, remote)))
    ensures proxy.reliable ==> status == ER_OK
  {
    status, asked, done := ER_OK, [], [];
    for i := 0 to |local|
      invariant status == ER_OK && done == asked == Installs(NotIn(local[..i], remote))
      invariant proxy.requests == old(proxy.requests) + asked && proxy.memberships == Run(done, old(proxy.memberships))
    {
      InstallsNext(local, remote, i);
      var listed := IsListed(local[i], remote);
      if !listed {
        RunNext(done, Install(local[i]), old(proxy.memberships));
        Appended(old(proxy.requests), done, [Install(local[i])]);
        asked := done + [Install(local[i])];
        status := proxy.InstallMembership(local[i]);
        if status != ER_OK {
          return;
        }
        done := asked;
      }
    }
    assert local[..|local|] == local;
  }

  method RemoveRedundantMemberships(proxy: RemoteApplication, local: seq<CertId>, remote: seq<CertId>)
    returns (status: Status, ghost asked: seq<Request>, ghost done: seq<Request>)
    modifies proxy`memberships, proxy`requests
    ensures proxy.requests == old(proxy.requests) + asked && proxy.memberships == Run(done, old(proxy.memberships))
    ensures PartOf(status, asked, done, Removes(NotIn(remote, local)))
    ensures proxy.reliable ==> status == ER_OK
  {
    status, asked, done := ER_OK, [], [];
    for i := 0 to |remote|
      invariant status == ER_OK && done == asked == Removes(NotIn(remote[..i], local))
      invariant proxy.requests == old(proxy.requests) + asked && proxy.memberships == Run(done, old(proxy.memberships))
    {
      RemovesNext(remote, local, i);
      var listed := IsListed(remote[i], local);
      if !listed {
        RunNext(done, Remove(remote[i]), old(proxy.memberships));
        Appended(old(proxy.requests), done, [Remove(remote[i])]);
        asked := done + [Remove(remote[i])];
        status := proxy.RemoveMembership(remote[i]);
        if status != ER_OK {
          return;
        }
        done := asked;
      }
    }
    assert remote[..|remote|] == remote;
  }

  lemma PartOfBoth(status: Status, asked: seq<Request>, done: seq<Request>, first: seq<Request>, second: seq<Request>)
    requires PartOf(status, asked, done, second)
    ensures PartOf(status, first + asked, first + done, first + second)
  {
  }

  lemma PartOfFirst(status: Status, asked: seq<Request>, done: seq<Request>, first: seq<Request>, second: seq<Request>)
    requires status != ER_OK && PartOf(status, asked, done, first)
    ensures PartOf(status, asked, done, first + second)
  {
  }

  // Interrupted anywhere, it leaves the device between the old and the new certificates, and lost none
  // of the old ones before all new ones were there.
  method UpdateMemberships(proxy: RemoteApplication, local: seq<CertId>)
    returns (status: Status, ghost asked: seq<Request>, ghost done: seq<Request>)
    modifies proxy`memberships, proxy`requests
    ensures proxy.requests == old(proxy.requests) + asked && proxy.memberships == Run(done, old(proxy.memberships))
    ensures PartOf(status, asked, done, Plan(local, old(proxy.memberships)))
    ensures proxy.reliable ==> status == ER_OK
    ensures status == ER_OK ==> Elements(proxy.memberships) == Elements(local)
    ensures Between(Elements(local), Elements(old(proxy.memberships)), Elements(proxy.memberships))
  {
    asked, done := [], [];
    var remote := proxy.memberships;
    var answered := proxy.Answers();
    if answered {
      status, asked, done := ReconcileMemberships(proxy, local, remote);
    } else {
      status := ER_FAIL;
    }
    PartOfPlanIsSafe(local, remote, |done|);
    PlanReaches(local, remote);
    assert done == Plan(local, remote)[..|done|];
  }

  method ReconcileMemberships(proxy: RemoteApplication, local: seq<CertId>, remote: seq<CertId>)
    returns (status: Status, ghost asked: seq<Request>, ghost done: seq<Request>)
    requires remote == proxy.memberships
    modifies proxy`memberships, proxy`requests
    ensures proxy.requests == old(proxy.requests) + asked && proxy.memberships == Run(done, remote)
    ensures PartOf(status, asked, done, Plan(local, remote))
    ensures proxy.reliable ==> status == ER_OK
  {
    ghost var installs, removes := Installs(NotIn(local, remote)), Removes(NotIn(remote, local));
    status, asked, done := InstallMissingMemberships(proxy, local, remote);
    if status != ER_OK {
      PartOfFirst(status, asked, done, installs, removes);
      return;
    }
    ghost var askedToRemove, removed;
    status, askedToRemove, removed := RemoveRedundantMemberships(proxy, local, remote);
    RunSplit(done, removed, remote);
    Appended(old(proxy.requests), asked, askedToRemove);
    PartOfBoth(status, askedToRemove, removed, installs, removes);
    asked, done := asked + askedToRemove, done + removed;
  }

  // ---------------------------------------------------------------- identity, policy, reset

  // The chain is sent only if it differs. In the reported state NeedUpdate the manifest that the application
  // asks for is fetched as well.
  method UpdateIdentity(proxy: RemoteApplication, persisted: seq<CertId>, reported: ApplicationState) returns (status: Status)
    modifies proxy`identity, proxy`requests
    ensures status == ER_OK ==> proxy.identity == persisted
    ensures proxy.identity in {old(proxy.identity), persisted}
    ensures proxy.requests == old(proxy.requests) || proxy.requests == old(proxy.requests) + [SendIdentity]
    ensures persisted == old(proxy.identity) ==> proxy.requests == old(proxy.requests)
    ensures proxy.reliable ==> status == ER_OK
  {
    var answered := proxy.Answers();
    if !answered {
      return ER_FAIL;
    }
    var needUpdate := IdentityDiffers(proxy.identity, persisted);
    if needUpdate {
      status := proxy.UpdateIdentity(persisted);
      return;
    }
    status := ER_OK;
    if reported.NeedUpdate? {
      answered := proxy.Answers();
      if !answered {
        status := ER_FAIL;
      }
    }
  }

  method UpdatePolicy(proxy: RemoteApplication, local: Option<Policy>) returns (status: Status)
    modifies proxy`policy, proxy`requests
    ensures status in {ER_OK, ER_FAIL}
    ensures proxy.policy == if status == ER_OK then Sync.PushedPolicy(local, old(proxy.policy)) else old(proxy.policy)
    ensures status == ER_OK ==> proxy.policy.version == VersionOf(local)
    ensures status == ER_OK && local.Some? && local.value.version != old(proxy.policy).version ==> proxy.policy == local.value
    ensures VersionOf(local) == old(proxy.policy).version ==> proxy.requests == old(proxy.requests)
    ensures proxy.requests == old(proxy.requests)
         || proxy.requests == old(proxy.requests) + [if local.Some? then SendPolicy else ResetPolicy]
    ensures proxy.reliable ==> status == ER_OK
  {
    var answered := proxy.Answers();
    if !answered {
      return ER_FAIL;
    }
    var remoteVersion := proxy.policy.version;
    if local.None? {
      status := ER_OK;
      if remoteVersion != 0 {
        status := proxy.ResetPolicy();
      }
      return;
    }
    if local.value.version == remoteVersion {
      return ER_OK;
    }
    status := proxy.UpdatePolicy(local.value);
  }

  // An application that was reported as not claimed is taken to have been reset already.
  method ResetApplication(proxy: RemoteApplication, reported: ApplicationState) returns (status: Status)
    modifies proxy`claimed, proxy`requests
    ensures status in {ER_OK, ER_FAIL}
    ensures reported.NotClaimable? || reported.Claimable? ==> status == ER_OK && unchanged(proxy)
    ensures reported.IsClaimed? || reported.NeedUpdate? ==>
              && proxy.claimed == (old(proxy.claimed) && status != ER_OK)
              && (proxy.requests == old(proxy.requests) || proxy.requests == old(proxy.requests) + [MembershipPlan.Reset])
              && (status == ER_OK ==> proxy.requests == old(proxy.requests) + [MembershipPlan.Reset])
    ensures proxy.reliable ==> status == ER_OK
  {
    if reported in {NotClaimable, Claimable} {
      return ER_OK;
    }
    var connected := proxy.Answers();
    if !connected {
      return ER_FAIL;
    }
    status := proxy.Reset();
  }

  // ---------------------------------------------------------------- the transaction

  // The tables as every storage call leaves them.
  ghost predicate Consistent(ui: UIStorageImpl)
    reads ui, ui.storage
  {
    ui.Valid() && forall k :: k in ui.storage.rows ==> ui.storage.rows[k].state in {SyncOk, SyncPending, SyncWillReset}
  }

  // What the other threads do to the storage between two calls of the updater, if there are any: anything
  // that keeps the tables consistent and does not lower the update counter, which never exceeds `limit`.
  method OtherThreads(ui: UIStorageImpl, busy: bool, limit: nat)
    requires Consistent(ui) && ui.updateCounter <= limit
    modifies ui`updateCounter, ui.storage
    ensures Consistent(ui) && old(ui.updateCounter) <= ui.updateCounter <= limit
    ensures !busy ==> unchanged(ui) && unchanged(ui.storage)
  {
    if !busy {
      return;
    }
    var counter: nat := *;
    if ui.updateCounter <= counter <= limit {
      ui.updateCounter := counter;
    }
    var rows: map<AppKey, AppRow> := *;
    var certs: map<AppKey, IdentityCert> := *;
    var memberships: map<(AppKey, Guid), CertId> := *;
    var groups: map<Guid, string> := *;
    var identities: map<Guid, string> := *;
    if && (forall k :: k in rows ==> rows[k].state in {SyncOk, SyncPending, SyncWillReset})
       && (forall k :: k in certs ==> k in rows && certs[k].guid in identities)
       && (forall k :: k in memberships ==> k.0 in rows && k.1 in groups) {
      ui.storage.rows, ui.storage.identityCerts, ui.storage.memberships := rows, certs, memberships;
      ui.storage.groups, ui.storage.identities := groups, identities;
    }
  }

  // The configuration of an application as one iteration read it, possibly torn.
  datatype Snapshot = Snapshot(memberships: seq<CertId>, identity: CertId, policy: Option<Policy>)

  ghost predicate IsStored(snapshot: Snapshot, storage: SQLStorage, app: AppKey)
    reads storage
  {
    && (forall id :: id in snapshot.memberships <==> exists k :: k in storage.memberships && k.0 == app && storage.memberships[k] == id)
    && app in storage.identityCerts && storage.identityCerts[app].id == snapshot.identity
    && app in storage.rows && storage.rows[app].policy == snapshot.policy
  }

  predicate Has(memberships: seq<CertId>, identity: seq<CertId>, policy: Policy, snapshot: Snapshot, before: Policy) {
    && Elements(memberships) == Elements(snapshot.memberships)
    && identity == [snapshot.identity]
    && policy == Sync.PushedPolicy(snapshot.policy, before)
  }

  // Reads what is stored, table by table.
  method Collect(ui: UIStorageImpl, app: AppKey, busy: bool, limit: nat) returns (status: Status, snapshot: Snapshot)
    requires Consistent(ui) && ui.updateCounter <= limit && (!busy ==> app in ui.storage.rows)
    modifies ui`updateCounter, ui.storage
    ensures Consistent(ui) && old(ui.updateCounter) <= ui.updateCounter <= limit
    ensures !busy ==> unchanged(ui) && unchanged(ui.storage)
    ensures !busy && status == ER_OK ==> IsStored(snapshot, ui.storage, app)
    ensures !busy && ui.storage.reliable && app in ui.storage.identityCerts && ui.storage.rows[app].manifest.Some? ==> status == ER_OK
  {
    snapshot := Snapshot([], CertId("", ""), None);
    var memberships;
    status, memberships := ui.storage.GetMembershipCertificates(app);
    if status != ER_OK {
      return;
    }
    OtherThreads(ui, busy, limit);
    var identity;
    status, identity := ui.storage.GetIdentityCertificate(app);
    if status != ER_OK {
      return;
    }
    OtherThreads(ui, busy, limit);
    var manifest;
    status, manifest := ui.storage.GetManifest(app);
    if status != ER_OK {
      return;
    }
    OtherThreads(ui, busy, limit);
    var policy;
    status, policy := ui.storage.GetPolicy(app);
    if status != ER_OK && status != ER_END_OF_DATA {
      return;
    }
    snapshot := Snapshot(memberships, identity.value, if status == ER_OK then policy else None);
    status := ER_OK;
  }

  // Pushes what was read; the first failure ends it.
  method Push(proxy: RemoteApplication, snapshot: Snapshot, reported: ApplicationState) returns (status: Status)
    modifies proxy`memberships, proxy`identity, proxy`policy, proxy`requests
    ensures status == ER_OK ==> Has(proxy.memberships, proxy.identity, proxy.policy, snapshot, old(proxy.policy))
    ensures Between(Elements(snapshot.memberships), Elements(old(proxy.memberships)), Elements(proxy.memberships))
    // memberships first, then the identity, then the policy
    ensures proxy.identity != old(proxy.identity) || proxy.policy != old(proxy.policy) ==>
              Elements(proxy.memberships) == Elements(snapshot.memberships)
    ensures proxy.policy != old(proxy.policy) ==> proxy.identity == [snapshot.identity]
    ensures proxy.reliable ==> status == ER_OK
    ensures proxy.identity in {old(proxy.identity), [snapshot.identity]}
    ensures proxy.policy in {old(proxy.policy), Sync.PushedPolicy(snapshot.policy, old(proxy.policy))}
  {
    ghost var asked, done;
    status, asked, done := UpdateMemberships(proxy, snapshot.memberships);
    if status != ER_OK {
      return;
    }
    status := UpdateIdentity(proxy, [snapshot.identity], reported);
    if status != ER_OK {
      return;
    }
    status := UpdatePolicy(proxy, snapshot.policy);
  }

  // How an iteration of the loop leaves the switch: with a new state to report, or by leaving the method.
  datatype Iteration = GaveUp | Reported(state: SyncState)

  method Update(ui: UIStorageImpl, proxy: RemoteApplication, app: AppKey, state: SyncState,
                reported: ApplicationState, busy: bool, limit: nat)
    returns (status: Status, outcome: Iteration, ghost snapshot: Snapshot)
    requires Consistent(ui) && ui.updateCounter <= limit && (!busy ==> app in ui.storage.rows)
    modifies ui`updateCounter, ui.storage, proxy
    ensures Consistent(ui) && old(ui.updateCounter) <= ui.updateCounter <= limit
    ensures !busy ==> unchanged(ui) && unchanged(ui.storage)
    ensures outcome.GaveUp? ==> status != ER_OK && !state.SyncWillReset?
    ensures status != ER_OK ==> outcome in {GaveUp, Reported(state)}
    ensures status == ER_OK ==> outcome == Reported(if state.SyncWillReset? then SyncReset else SyncOk)
    ensures status == ER_OK && state.SyncWillReset? ==> !proxy.claimed || reported in {NotClaimable, Claimable}
    ensures status == ER_OK && !state.SyncWillReset? ==>
              && Has(proxy.memberships, proxy.identity, proxy.policy, snapshot, old(proxy.policy))
              && (!busy ==> IsStored(snapshot, ui.storage, app))
    ensures status != ER_OK || !state.SyncWillReset? ==> proxy.claimed == old(proxy.claimed)
    ensures proxy.reliable && state.SyncWillReset? ==> status == ER_OK
    ensures (!busy && ui.storage.reliable && proxy.reliable && !state.SyncWillReset? && reported in {IsClaimed, NeedUpdate}
             && app in ui.storage.identityCerts && ui.storage.rows[app].manifest.Some?) ==> status == ER_OK
  {
    snapshot := Snapshot([], CertId("", ""), None);
    outcome := Reported(state);
    if state.SyncWillReset? {
      status := ResetApplication(proxy, reported);
      if status == ER_OK {
        outcome := Reported(SyncReset);
      }
      return;
    }
    if reported in {NotClaimable, Claimable} {
      return ER_FAIL, GaveUp, snapshot;
    }
    var collected;
    status, collected := Collect(ui, app, busy, limit);
    snapshot := collected;
    if status != ER_OK {
      outcome := GaveUp;
      return;
    }
    OtherThreads(ui, busy, limit);
    var connected := proxy.Answers();
    if !connected {
      return ER_FAIL, GaveUp, snapshot;
    }
    status := Push(proxy, collected, reported);
    OtherThreads(ui, busy, limit);
    if status == ER_OK {
      outcome := Reported(SyncOk);
    }
  }

  // The calls of UpdatesCompleted that one transaction makes, begun when the counter was `start`: all but the
  // last one restart it, with the counter as the new and larger id.
  ghost predicate IsTransaction(entries: seq<Entry>, start: nat) {
    && (entries != [] ==> entries[0].updateID == start)
    && forall i :: 0 < i < |entries| ==> Follows(entries, i)
  }

  ghost predicate Follows(entries: seq<Entry>, i: nat)
    requires 0 < i < |entries|
  {
    var last := entries[i - 1];
    last.completion.Restarted? && entries[i].updateID == last.counter > last.updateID
  }

  // The next call of a transaction, if there is one.
  ghost predicate MayFollow(entries: seq<Entry>, start: nat, updateID: nat) {
    if entries == [] then updateID == start
    else
      var last := entries[|entries| - 1];
      last.completion.Restarted? && updateID == last.counter > last.updateID
  }

  lemma TransactionGrows(entries: seq<Entry>, start: nat, e: Entry)
    requires IsTransaction(entries, start) && MayFollow(entries, start, e.updateID)
    ensures IsTransaction(entries + [e], start) && |entries + [e]| <= 1 + e.updateID - start
  {
    forall i | 0 < i < |entries + [e]| ensures Follows(entries + [e], i) {
      if i < |entries| {
        assert Follows(entries, i);
      }
    }
    RestartsAreBounded(entries + [e], start);
  }

  lemma OpenTransactionIsBounded(entries: seq<Entry>, start: nat, updateID: nat)
    requires IsTransaction(entries, start) && MayFollow(entries, start, updateID)
    ensures |entries| <= updateID - start
  {
    if entries != [] {
      RestartsAreBounded(entries, start);
    }
  }

  // There are at most as many restarts as increments of the counter.
  lemma {:induction false} RestartsAreBounded(entries: seq<Entry>, start: nat)
    requires IsTransaction(entries, start) && entries != []
    ensures |entries| <= 1 + entries[|entries| - 1].updateID - start
    decreases |entries|
  {
    if |entries| > 1 {
      var init := entries[..|entries| - 1];
      assert Follows(entries, |entries| - 1);
      forall i | 0 < i < |init| ensures Follows(init, i) {
        assert Follows(entries, i);
      }
      RestartsAreBounded(init, start);
    }
  }

  // Nothing stands in the way of a transaction: no other thread, no failing statement or call.
  ghost predicate Undisturbed(ui: UIStorageImpl, proxy: RemoteApplication, busy: bool)
  {
    !busy && ui.storage.reliable && proxy.reliable
  }

  ghost predicate IsGone(storage: SQLStorage, app: AppKey)
    reads storage
  {
    app !in storage.rows && app !in storage.identityCerts && forall k :: k in storage.memberships ==> k.0 != app
  }

  // How a completed call leaves the storage and the device.
  ghost predicate CallMeans(call: Entry, ui: UIStorageImpl, proxy: RemoteApplication, app: AppKey, reported: ApplicationState)
    reads ui, ui.storage, proxy
  {
    && (call.completion.Persisted? ==>
          app in ui.storage.rows && ui.storage.rows[app].state.SyncOk? && ui.updateCounter == call.updateID)
    && (call.completion.RowRemoved? ==> IsGone(ui.storage, app) && (!proxy.claimed || reported.NotClaimable? || reported.Claimable?))
  }

  // A transaction that pushed everything does not end with a restart, and if the database works and there
  // still is a row, the row has been written.
  ghost predicate Ends(calls: seq<Entry>, status: Status, storage: SQLStorage, app: AppKey)
    reads storage
  {
    status == ER_OK ==>
      && calls != [] && !calls[|calls| - 1].completion.Restarted?
      && (storage.reliable && app in storage.rows ==> calls[|calls| - 1].completion.Persisted?)
  }

  // One iteration of the loop, with `again` for another one. `calls` is what it adds to the log, if anything.
  method Iterate(ui: UIStorageImpl, proxy: RemoteApplication, app: AppKey, state: SyncState, transactionID: nat,
                 reported: ApplicationState, busy: bool, limit: nat)
    returns (status: Status, again: bool, state': SyncState, transactionID': nat, ghost calls: seq<Entry>, ghost snapshot: Snapshot)
    requires Consistent(ui) && transactionID <= ui.updateCounter <= limit && state in {SyncOk, SyncPending, SyncWillReset}
    requires !busy ==> app in ui.storage.rows && state == ui.storage.rows[app].state && transactionID == ui.updateCounter
    modifies ui, ui.storage, proxy
    ensures Consistent(ui) && old(ui.updateCounter) <= ui.updateCounter <= limit
    ensures ui.completions == old(ui.completions) + calls && |calls| <= 1
    ensures calls != [] ==> calls[0].updateID == transactionID && CallMeans(calls[0], ui, proxy, app, reported)
    ensures again ==>
              && busy && calls != [] && calls[0].completion.Restarted? && transactionID < transactionID' == calls[0].counter <= ui.updateCounter
              && proxy.claimed == old(proxy.claimed) && state' in {SyncOk, SyncPending, SyncWillReset}
    ensures !again ==> Ends(calls, status, ui.storage, app) && (calls != [] ==> !calls[0].completion.Restarted?)
    ensures proxy.claimed != old(proxy.claimed) ==> status == ER_OK && !again
    ensures !busy && status == ER_OK && !state.SyncWillReset? ==>
              && IsStored(snapshot, ui.storage, app)
              && Has(proxy.memberships, proxy.identity, proxy.policy, snapshot, old(proxy.policy))
    ensures (Undisturbed(ui, proxy, busy) && !state.SyncWillReset? && reported in {IsClaimed, NeedUpdate}
             && app in old(ui.storage.identityCerts) && old(ui.storage.rows)[app].manifest.Some?) ==>
              && status == ER_OK
              && ui.storage.rows == old(ui.storage.rows)[app := old(ui.storage.rows)[app].(state := SyncOk)]
    ensures Undisturbed(ui, proxy, busy) && state.SyncWillReset? ==>
              && status == ER_OK && IsGone(ui.storage, app)
              && (reported in {IsClaimed, NeedUpdate} ==> !proxy.claimed)
  {
    again, state', transactionID', calls := false, state, transactionID, [];
    OtherThreads(ui, busy, limit);
    var outcome;
    status, outcome, snapshot := Update(ui, proxy, app, state, reported, busy, limit);
    if outcome.GaveUp? {
      return;
    }
    var storageStatus;
    ghost var completion;
    storageStatus, state', transactionID', completion := ui.UpdatesCompleted(app, outcome.state, transactionID);
    calls := [Entry(completion, transactionID, ui.updateCounter)];
    again := storageStatus == ER_OK && transactionID != transactionID';
  }

  // The transaction starts over as long as the storage hands back a new id.
  method UpdateApplication(ui: UIStorageImpl, proxy: RemoteApplication, app: AppKey,
                           reported: ApplicationState, busy: bool, limit: nat)
    returns (status: Status, ghost snapshot: Snapshot)
    requires Consistent(ui) && ui.updateCounter <= limit
    modifies ui, ui.storage, proxy
    ensures Consistent(ui) && old(ui.completions) <= ui.completions
    // at most one iteration more than increments of the counter, each with the counter it began with; and
    // SyncOk is stored only at a counter that did not change since
    ensures var calls := ui.completions[|old(ui.completions)|..];
            && IsTransaction(calls, old(ui.updateCounter)) && |calls| <= 1 + ui.updateCounter - old(ui.updateCounter)
            && (calls != [] ==> CallMeans(calls[|calls| - 1], ui, proxy, app, reported))
            && Ends(calls, status, ui.storage, app)
    ensures proxy.claimed != old(proxy.claimed) ==> status == ER_OK
    // without other threads, success means that the device has what is stored
    ensures !busy && status == ER_OK && app in old(ui.storage.rows) && !old(ui.storage.rows)[app].state.SyncWillReset? ==>
              && IsStored(snapshot, ui.storage, app)
              && Has(proxy.memberships, proxy.identity, proxy.policy, snapshot, old(proxy.policy))
    // and undisturbed, a transaction succeeds and says so in the storage
    ensures (Undisturbed(ui, proxy, busy) && app in old(ui.storage.rows) && !old(ui.storage.rows)[app].state.SyncWillReset?
             && reported in {IsClaimed, NeedUpdate} && app in old(ui.storage.identityCerts) && old(ui.storage.rows)[app].manifest.Some?) ==>
              && status == ER_OK
              && ui.storage.rows == old(ui.storage.rows)[app := old(ui.storage.rows)[app].(state := SyncOk)]
    ensures Undisturbed(ui, proxy, busy) && app in old(ui.storage.rows) && old(ui.storage.rows)[app].state.SyncWillReset? ==>
              && status == ER_OK && IsGone(ui.storage, app)
              && (reported in {IsClaimed, NeedUpdate} ==> !proxy.claimed)
  {
    snapshot := Snapshot([], CertId("", ""), None);
    ghost var before := ui.completions;
    var state, transactionID;
    status, state, transactionID := ui.StartUpdates(app);
    if status != ER_OK {
      return;
    }
    ghost var calls: seq<Entry> := [];
    while true
      invariant Consistent(ui) && transactionID <= ui.updateCounter <= limit && old(ui.updateCounter) <= ui.updateCounter
      invariant ui.completions == before + calls && IsTransaction(calls, old(ui.updateCounter))
      invariant MayFollow(calls, old(ui.updateCounter), transactionID)
      invariant proxy.claimed == old(proxy.claimed) && state in {SyncOk, SyncPending, SyncWillReset}
      invariant !busy ==> calls == [] && unchanged(ui) && unchanged(ui.storage) && unchanged(proxy)
      invariant !busy ==> app in ui.storage.rows && state == ui.storage.rows[app].state && transactionID == ui.updateCounter
      decreases limit - transactionID
    {
      OpenTransactionIsBounded(calls, old(ui.updateCounter), transactionID);
      var again;
      ghost var more;
      status, again, state, transactionID, more, snapshot := Iterate(ui, proxy, app, state, transactionID, reported, busy, limit);
      if more != [] {
        TransactionGrows(calls, old(ui.updateCounter), more[0]);
        Logged(before, calls, more[0]);
        assert more == [more[0]];
        calls := calls + more;
      }
      if !again {
        assert ui.completions[|before|..] == calls;
        return;
      }
    }
  }

  lemma Logged(before: seq<Entry>, calls: seq<Entry>, e: Entry)
    ensures before + calls + [e] == before + (calls + [e])
  {
  }
}
