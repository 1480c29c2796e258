// The storage as the UI and the agent see it: database tables plus the update counter.
module UIStorage {
  import opened Base
  import opened SqlStorage

  // What the protocol relies on between calls: only three states are stored, and whatever is not waiting
  // for its reset has an identity certificate and a manifest.
  ghost predicate Managed(rows: map<AppKey, AppRow>, certs: map<AppKey, IdentityCert>) {
    forall k :: k in rows ==> rows[k].state in {SyncOk, SyncPending, SyncWillReset}
                              && (rows[k].state.SyncWillReset? || (k in certs && rows[k].manifest.Some?))
  }

  // A call of UpdatesCompleted: what it amounted to, its transaction id and the update counter then.
  datatype Entry = Entry(completion: Completion, updateID: nat, counter: nat)

  class UIStorageImpl {
    const storage: SQLStorage
    var updateCounter: nat
    // The calls of UpdatesCompleted that one updater made.
    ghost var completions: seq<Entry>

    ghost predicate Valid()
      reads this, storage
    {
      storage.Valid()
    }

    constructor (localStorage: SQLStorage)
      requires localStorage.Valid()
      ensures Valid() && storage == localStorage && updateCounter == 0 && completions == []
    {
      storage := localStorage;
      updateCounter := 0;
      completions := [];
    }

    method StartUpdates(app: AppKey) returns (status: Status, state: SyncState, updateID: nat)
      requires Valid()
      ensures updateID == updateCounter
      ensures status == ER_OK ==> app in storage.rows && state == storage.rows[app].state
      ensures status == ER_END_OF_DATA ==> app !in storage.rows
      ensures storage.reliable ==> status == if app in storage.rows then ER_OK else ER_END_OF_DATA
    {
      status, state := storage.GetManagedApplication(app);
      updateID := updateCounter;
    }

    // `completion` is what the call amounted to. Failing database calls turn it into NothingDone.
    method UpdatesCompleted(app: AppKey, state: SyncState, updateID: nat)
      returns (status: Status, state': SyncState, updateID': nat, ghost completion: Completion)
      requires Valid()
      modifies storage, `completions
      ensures Valid() && completions == old(completions) + [Entry(completion, updateID, updateCounter)]
      ensures var row := if app in old(storage.rows) then Some(old(storage.rows)[app].state) else None;
              completion == Completed(row, updateCounter, state, updateID, true) || (completion == NothingDone && !storage.reliable)
      ensures status == ER_OK <==> !completion.NothingDone?
      ensures completion.RowRemoved? ==>
                && storage.rows == Without(old(storage.rows), app)
                && storage.identityCerts == Without(old(storage.identityCerts), app)
                && storage.memberships == (map k | k in old(storage.memberships) && k.0 != app :: old(storage.memberships)[k])
      ensures completion.Persisted? ==> storage.rows == old(storage.rows)[app := old(storage.rows[app]).(state := SyncOk)]
      ensures completion.Restarted? ==> updateID' == updateCounter && app in storage.rows && state' == storage.rows[app].state
      ensures !completion.Restarted? ==> updateID' == updateID
      ensures completion.Restarted? || completion.NothingDone? ==> unchanged(storage)
      ensures !completion.RowRemoved? ==> unchanged(storage`identityCerts, storage`memberships)
      ensures unchanged(storage`groups, storage`identities)
      ensures Managed(old(storage.rows), old(storage.identityCerts))
              && (completion.Persisted? ==> !old(storage.rows)[app].state.SyncWillReset?)
              ==> Managed(storage.rows, storage.identityCerts)
    {
      status, state', updateID', completion := ER_FAIL, state, updateID, NothingDone;
      match state {
        case SyncReset =>
          status := storage.RemoveApplication(app);
          if status == ER_OK {
            completion := RowRemoved;
          }
        case SyncOk =>
          var managed;
          status, managed := storage.GetManagedApplication(app);
          if status == ER_OK {
            if updateID != updateCounter {
              state', updateID', completion := managed, updateCounter, Restarted;
            } else {
              status := storage.UpdateApplication(app, SyncOk, false);
              if status == ER_OK {
                completion := Persisted;
              }
            }
          }
        case _ =>
      }
      completions := completions + [Entry(completion, updateID, updateCounter)];
    }

    method ResetApplication(app: AppKey) returns (status: Status)
      requires Valid()
      modifies `updateCounter, storage`rows
      ensures Valid()
      ensures updateCounter == old(updateCounter) + 1
      ensures status == ER_OK ==>
                app in old(storage.rows) && storage.rows == old(storage.rows)[app := old(storage.rows[app]).(state := SyncWillReset)]
      ensures status != ER_OK ==> storage.rows == old(storage.rows)
      ensures Managed(old(storage.rows), storage.identityCerts) ==> Managed(storage.rows, storage.identityCerts)
      ensures storage.reliable ==> (status == ER_OK <==> app in old(storage.rows))
    {
      status := storage.UpdateApplication(app, SyncWillReset, false);
      updateCounter := updateCounter + 1;
    }

    method ApplicationUpdated(app: AppKey, policyUpdateNeeded: bool) returns (status: Status)
      requires Valid()
      modifies `updateCounter, storage`rows
      ensures Valid() && status in {ER_OK, ER_END_OF_DATA, ER_FAIL}
      ensures status == ER_OK ==>
                && app in old(storage.rows) && updateCounter == old(updateCounter) + 1
                && storage.rows == old(storage.rows)[app := AnnouncedRow(old(storage.rows[app]), policyUpdateNeeded)]
      ensures status != ER_OK ==> updateCounter in {old(updateCounter), old(updateCounter) + 1}
      ensures status != ER_OK && storage.rows != old(storage.rows) ==>
                && app in old(storage.rows) && updateCounter == old(updateCounter) + 1
                && storage.rows == old(storage.rows)[app := AnnouncedRow(old(storage.rows[app]), false)]
      ensures Managed(old(storage.rows), storage.identityCerts) ==> Managed(storage.rows, storage.identityCerts)
      ensures storage.reliable ==> status == if app in old(storage.rows) then ER_OK else ER_END_OF_DATA
    {
      var state;
      status, state := storage.GetManagedApplication(app);
      if status == ER_OK {
        updateCounter := updateCounter + 1;
        match state {
          case SyncOk => status := storage.UpdateApplication(app, SyncPending, policyUpdateNeeded);
          case SyncWillReset =>
          case SyncPending =>
          case _ =>
        }
      }
      assert status == ER_OK && state != SyncOk ==> storage.rows == old(storage.rows)[app := old(storage.rows[app])];
    }

    method ApplicationsUpdated(apps: seq<AppKey>) returns (status: Status)
      requires Valid()
      modifies `updateCounter, storage`rows
      ensures Valid()
      ensures status == ER_OK ==>
                && storage.rows.Keys == old(storage.rows).Keys && updateCounter == old(updateCounter) + |apps|
                && forall k :: k in storage.rows ==>
                     storage.rows[k] == if k in apps then AnnouncedRow(old(storage.rows)[k], true) else old(storage.rows)[k]
      ensures Managed(old(storage.rows), storage.identityCerts) ==> Managed(storage.rows, storage.identityCerts)
      ensures storage.reliable && (forall k :: k in apps ==> k in old(storage.rows)) ==> status == ER_OK
    {
      status := ER_OK;
      for i := 0 to |apps|
        invariant Valid()
        invariant status == ER_OK && updateCounter == old(updateCounter) + i
        invariant storage.rows.Keys == old(storage.rows).Keys
        invariant forall k :: k in storage.rows ==>
                    storage.rows[k] == if k in apps[..i] then AnnouncedRow(old(storage.rows)[k], true) else old(storage.rows)[k]
      {
        status := ApplicationUpdated(apps[i], true);
        if status != ER_OK {
          return;
        }
        assert apps[..i + 1] == apps[..i] + [apps[i]];
      }
      assert apps[..|apps|] == apps;
    }

    // The certificate and the manifest of a row that was just inserted.
    method StoreClaimData(app: AppKey, cert: IdentityCert, manifest: seq<Rule>) returns (status: Status)
      requires Valid() && app in storage.rows
      modifies storage`rows, storage`identityCerts
      ensures Valid()
      ensures status == ER_OK ==>
                && storage.rows == old(storage.rows)[app := old(storage.rows[app]).(manifest := Some(manifest))]
                && storage.identityCerts == old(storage.identityCerts)[app := cert]
      ensures app in storage.rows
      ensures Without(storage.rows, app) == Without(old(storage.rows), app)
      ensures Without(storage.identityCerts, app) == Without(old(storage.identityCerts), app)
      ensures storage.reliable ==> (status == ER_OK <==> cert.guid in storage.identities && app !in old(storage.identityCerts))
    {
      status := storage.StoreIdentityCertificate(app, cert, false);
      if status == ER_OK {
        status := storage.StoreManifest(app, manifest);
      }
    }

    // Commits a claim. `undone` tells whether a failed commit could take its insertion back.
    method ApplicationClaimed(app: AppKey, state: SyncState, cert: IdentityCert, manifest: seq<Rule>)
      returns (status: Status, ghost undone: bool)
      requires Valid()
      modifies storage
      ensures Valid()
      ensures status == ER_OK ==>
                && app !in old(storage.rows)
                && storage.rows == old(storage.rows)[app := AppRow(state, Some(manifest), None)]
                && storage.identityCerts == old(storage.identityCerts)[app := cert]
      ensures status != ER_OK && undone ==>
                storage.rows == old(storage.rows) && storage.identityCerts == old(storage.identityCerts)
      ensures status != ER_OK && !undone ==> app !in old(storage.rows) && app in storage.rows
      ensures storage.memberships == old(storage.memberships)
      ensures state.SyncOk? && (status == ER_OK || undone) && Managed(old(storage.rows), old(storage.identityCerts))
              ==> Managed(storage.rows, storage.identityCerts)
      ensures storage.reliable ==> undone && (status == ER_OK <==> app !in old(storage.rows) && cert.guid in old(storage.identities))
    {
      undone := true;
      status := storage.InsertApplication(app, state);
      if status != ER_OK {
        return;
      }
      status := StoreClaimData(app, cert, manifest);
      if status != ER_OK {
        Inserted(old(storage.rows), app, AppRow(state, None, None));
        NothingCascades(old(storage.identityCerts), old(storage.memberships), app);
        var removed := storage.RemoveApplication(app);
        undone := removed == ER_OK;
      }
    }

    // ---------------------------------------------------------------- calls of the UI

    // Each of them that returns ER_OK has written its table and announced the write: the application is
    // no longer SyncOk. Managed rows stay managed whatever fails.

    method InstallMembership(app: AppKey, guid: Guid, authority: string, cert: CertId, generated: bool) returns (status: Status)
      requires Valid()
      modifies `updateCounter, storage`memberships, storage`rows
      ensures Valid()
      ensures status == ER_OK ==>
                && app in old(storage.rows) && (app, guid) !in old(storage.memberships)
                && storage.memberships == old(storage.memberships)[(app, guid) := cert]
                && storage.rows == old(storage.rows)[app := AnnouncedRow(old(storage.rows[app]), true)]
                && updateCounter == old(updateCounter) + 1
      ensures Managed(old(storage.rows), storage.identityCerts) ==> Managed(storage.rows, storage.identityCerts)
      ensures storage.reliable ==>
                (status == ER_OK <==> guid in storage.groups && storage.groups[guid] == authority && app in old(storage.rows)
                                      && generated && (app, guid) !in old(storage.memberships))
    {
      status := storage.GetInfo(storage.groups, guid, authority);
      if status != ER_OK {
        return;
      }
      var stored;
      status, stored := storage.GetManagedApplication(app);
      if status != ER_OK {
        return;
      }
      if !generated {
        return ER_FAIL;
      }
      status := storage.StoreMembershipCertificate(app, guid, cert);
      if status != ER_OK {
        return;
      }
      status := ApplicationUpdated(app, true);
    }

    method RemoveMembership(app: AppKey, guid: Guid, authority: string) returns (status: Status)
      requires Valid()
      modifies `updateCounter, storage`memberships, storage`rows
      ensures Valid()
      ensures status == ER_OK ==>
                && app in old(storage.rows) && (app, guid) in old(storage.memberships)
                && storage.memberships == Without(old(storage.memberships), (app, guid))
                && storage.rows == old(storage.rows)[app := AnnouncedRow(old(storage.rows[app]), true)]
                && updateCounter == old(updateCounter) + 1
      ensures Managed(old(storage.rows), storage.identityCerts) ==> Managed(storage.rows, storage.identityCerts)
      ensures storage.reliable ==>
                (status == ER_OK <==> guid in storage.groups && storage.groups[guid] == authority && app in old(storage.rows)
                                      && (app, guid) in old(storage.memberships))
    {
      status := storage.GetInfo(storage.groups, guid, authority);
      if status != ER_OK {
        return;
      }
      var stored;
      status, stored := storage.GetManagedApplication(app);
      if status != ER_OK {
        return;
      }
      status := storage.GetMembershipCertificate(app, guid);
      if status != ER_OK {
        return;
      }
      status := storage.RemoveMembershipCertificate(app, guid);
      if status != ER_OK {
        return;
      }
      status := ApplicationUpdated(app, true);
    }

    // `validDenyRules` is the verdict of a library on the policy.
    method UpdatePolicy(app: AppKey, policy: Policy, validDenyRules: bool) returns (status: Status)
      requires Valid()
      modifies `updateCounter, storage`rows
      ensures Valid()
      ensures status == ER_OK ==>
                && validDenyRules && app in old(storage.rows) && Versioned(old(storage.rows[app]).policy, policy).Some?
                && storage.rows == old(storage.rows)[app := AnnouncedRow(
                     old(storage.rows[app]).(policy := Versioned(old(storage.rows[app]).policy, policy)), false)]
                && updateCounter == old(updateCounter) + 1
      ensures status == ER_POLICY_NOT_NEWER ==>
                && app in old(storage.rows) && 0 < policy.version <= VersionOf(old(storage.rows[app]).policy)
                && storage.rows == old(storage.rows) && updateCounter == old(updateCounter)
      ensures Managed(old(storage.rows), storage.identityCerts) ==> Managed(storage.rows, storage.identityCerts)
      // a version that is given is kept, and 0 stands for the one after the stored version
      ensures status == ER_OK && policy.version != 0 ==> storage.rows[app].policy == Some(policy)
      ensures status == ER_OK && policy.version == 0 && VersionOf(old(storage.rows[app]).policy) < UINT32_MODULUS - 1 ==>
                storage.rows[app].policy == Some(Policy(VersionOf(old(storage.rows[app]).policy) + 1, policy.acls))
      ensures storage.reliable ==>
                (status == ER_OK <==> validDenyRules && app in old(storage.rows)
                                      && !(0 < policy.version <= VersionOf(old(storage.rows[app]).policy)))
    {
      if !validDenyRules {
        return ER_FAIL;
      }
      var stored;
      status, stored := storage.GetManagedApplication(app);
      if status != ER_OK {
        return;
      }
      var local;
      status, local := storage.GetPolicy(app);
      if status != ER_OK && status != ER_END_OF_DATA {
        return;
      }
      var version := policy.version;
      if version == 0 {
        version := NextVersion(VersionOf(local));
      } else if VersionOf(local) >= version {
        return ER_POLICY_NOT_NEWER;
      }
      status := storage.StorePolicy(app, policy.(version := version));
      if status != ER_OK {
        return;
      }
      status := ApplicationUpdated(app, false);
    }

    method RemovePolicy(app: AppKey) returns (status: Status)
      requires Valid()
      modifies `updateCounter, storage`rows
      ensures Valid()
      ensures status == ER_OK ==>
                && app in old(storage.rows) && updateCounter == old(updateCounter) + 1
                && storage.rows == old(storage.rows)[app := AnnouncedRow(old(storage.rows[app]).(policy := None), false)]
      ensures Managed(old(storage.rows), storage.identityCerts) ==> Managed(storage.rows, storage.identityCerts)
      ensures storage.reliable ==> (status == ER_OK <==> app in old(storage.rows))
    {
      status := storage.RemovePolicy(app);
      if status != ER_OK {
        return;
      }
      status := ApplicationUpdated(app, false);
    }

    // The certificate and manifest of a managed application are replaced one after the other.
    method ReplaceIdentity(app: AppKey, cert: IdentityCert, manifest: seq<Rule>) returns (status: Status)
      requires Valid() && app in storage.rows
      modifies storage`rows, storage`identityCerts
      ensures Valid()
      ensures status == ER_OK ==>
                && storage.identityCerts == old(storage.identityCerts)[app := cert]
                && storage.rows == old(storage.rows)[app := old(storage.rows[app]).(manifest := Some(manifest))]
      ensures status != ER_OK ==>
                && storage.rows == old(storage.rows)
                && storage.identityCerts in {old(storage.identityCerts), old(storage.identityCerts)[app := cert]}
      ensures storage.reliable ==> (status == ER_OK <==> cert.guid in storage.identities)
    {
      status := storage.StoreIdentityCertificate(app, cert, true);
      if status == ER_OK {
        status := storage.StoreManifest(app, manifest);
      }
    }

    method UpdateIdentity(app: AppKey, cert: IdentityCert, manifest: seq<Rule>, generated: bool) returns (status: Status)
      requires Valid()
      modifies `updateCounter, storage`rows, storage`identityCerts
      ensures Valid()
      ensures status == ER_OK ==>
                && app in old(storage.rows) && updateCounter == old(updateCounter) + 1
                && storage.identityCerts == old(storage.identityCerts)[app := cert]
                && storage.rows == old(storage.rows)[app := AnnouncedRow(old(storage.rows[app]).(manifest := Some(manifest)), true)]
      ensures Managed(old(storage.rows), old(storage.identityCerts)) ==> Managed(storage.rows, storage.identityCerts)
      ensures storage.reliable ==> (status == ER_OK <==> app in old(storage.rows) && generated && cert.guid in storage.identities)
    {
      var stored;
      status, stored := storage.GetManagedApplication(app);
      if status != ER_OK {
        return;
      }
      if !generated {
        return ER_FAIL;
      }
      status := ReplaceIdentity(app, cert, manifest);
      if status != ER_OK {
        return;
      }
      assert Managed(old(storage.rows), old(storage.identityCerts)) ==> Managed(storage.rows, storage.identityCerts);
      status := ApplicationUpdated(app, true);
    }

    // `queried` tells whether the lookup of the affected applications works, and `told` are those that it
    // returned; the code does not notice when it fails.
    method RemoveGroup(guid: Guid, authority: string, queried: bool) returns (status: Status, ghost told: seq<AppKey>)
      requires Valid()
      modifies `updateCounter, storage`groups, storage`memberships, storage`rows
      ensures Valid()
      ensures Distinct(told) && forall k :: k in told ==> (k, guid) in old(storage.memberships)
      ensures status == ER_OK ==>
                && guid !in storage.groups
                && (forall k :: k in storage.memberships <==> k in old(storage.memberships) && k.1 != guid)
                && (forall k :: k in storage.memberships ==> storage.memberships[k] == old(storage.memberships)[k])
                && updateCounter == old(updateCounter) + |told|
                && storage.rows.Keys == old(storage.rows).Keys
                && forall k :: k in storage.rows ==>
                     storage.rows[k] == if k in told then AnnouncedRow(old(storage.rows)[k], true) else old(storage.rows)[k]
      ensures Managed(old(storage.rows), storage.identityCerts) ==> Managed(storage.rows, storage.identityCerts)
      // a lookup that works misses none of them
      ensures status == ER_OK && queried ==>
                && updateCounter == old(updateCounter) + |set k | k in old(storage.memberships) && k.1 == guid :: k.0|
                && forall k :: (k, guid) in old(storage.memberships) ==> k in told
      ensures status == ER_OK && queried && Managed(old(storage.rows), storage.identityCerts) ==>
                forall k :: (k, guid) in old(storage.memberships) ==> storage.rows[k].state in {SyncPending, SyncWillReset}
      // otherwise that depends on what it returned
      ensures status == ER_OK && Managed(old(storage.rows), storage.identityCerts) ==>
                ((forall k :: (k, guid) in old(storage.memberships) ==> storage.rows[k].state in {SyncPending, SyncWillReset})
                 <==> forall k :: (k, guid) in old(storage.memberships) && old(storage.rows)[k].state.SyncOk? ==> k in told)
      ensures storage.reliable ==> (status == ER_OK <==> guid in old(storage.groups) && old(storage.groups)[guid] == authority)
    {
      ghost var before, affected := storage.rows, set k | k in storage.memberships && k.1 == guid :: k.0;
      ghost var members := storage.memberships;
      var appsToSync;
      status, appsToSync := storage.RemoveGroup(guid, authority, queried);
      told := appsToSync;
      if status == ER_OK && |appsToSync| > 0 {
        status := ApplicationsUpdated(appsToSync);
      }
      if status == ER_OK {
        assert forall k :: k in affected <==> (k, guid) in members;
        if queried {
          ListedOnce(told, affected);
        }
        if Managed(before, storage.identityCerts) {
          GroupRemovalReachesAllExactly(before, storage.rows, storage.identityCerts, affected, told);
        }
      }
    }

    // The loop of RemoveIdentity.
    method ResetApplications(apps: seq<AppKey>) returns (status: Status)
      requires Valid()
      modifies `updateCounter, storage`rows
      ensures Valid()
      ensures status == ER_OK ==>
                && updateCounter == old(updateCounter) + |apps| && storage.rows.Keys == old(storage.rows).Keys
                && forall k :: k in storage.rows ==>
                     storage.rows[k] == if k in apps then old(storage.rows)[k].(state := SyncWillReset) else old(storage.rows)[k]
      ensures storage.reliable && (forall k :: k in apps ==> k in old(storage.rows)) ==> status == ER_OK
    {
      status := ER_OK;
      for i := 0 to |apps|
        invariant Valid() && status == ER_OK && updateCounter == old(updateCounter) + i
        invariant storage.rows.Keys == old(storage.rows).Keys
        invariant forall k :: k in storage.rows ==>
                    storage.rows[k] == if k in apps[..i] then old(storage.rows)[k].(state := SyncWillReset) else old(storage.rows)[k]
      {
        status := ResetApplication(apps[i]);
        if status != ER_OK {
          return;
        }
        assert apps[..i + 1] == apps[..i] + [apps[i]];
      }
      assert apps[..|apps|] == apps;
    }

    method RemoveIdentity(guid: Guid, authority: string, queried: bool) returns (status: Status, ghost told: seq<AppKey>)
      requires Valid()
      modifies `updateCounter, storage`identities, storage`identityCerts, storage`rows
      ensures Valid()
      ensures Distinct(told) && forall k :: k in told ==> k in old(storage.identityCerts) && old(storage.identityCerts)[k].guid == guid
      ensures status == ER_OK ==>
                && guid !in storage.identities
                && (forall k :: k in storage.identityCerts <==> k in old(storage.identityCerts) && old(storage.identityCerts)[k].guid != guid)
                && updateCounter == old(updateCounter) + |told|
                && storage.rows.Keys == old(storage.rows).Keys
                && forall k :: k in storage.rows ==>
                     storage.rows[k] == if k in told then old(storage.rows)[k].(state := SyncWillReset) else old(storage.rows)[k]
      // a lookup that works misses none of them
      ensures status == ER_OK && queried ==>
                && updateCounter == old(updateCounter) + |set k | k in old(storage.identityCerts) && old(storage.identityCerts)[k].guid == guid|
                && (forall k :: k in old(storage.identityCerts) && old(storage.identityCerts)[k].guid == guid ==> k in told)
                && (Managed(old(storage.rows), old(storage.identityCerts)) ==> Managed(storage.rows, storage.identityCerts))
      // otherwise that depends on what it returned
      ensures status == ER_OK && Managed(old(storage.rows), old(storage.identityCerts)) ==>
                (Managed(storage.rows, storage.identityCerts)
                 <==> forall k :: k in old(storage.identityCerts) && old(storage.identityCerts)[k].guid == guid ==>
                        k in told || old(storage.rows)[k].state.SyncWillReset?)
      ensures storage.reliable ==> (status == ER_OK <==> guid in old(storage.identities) && old(storage.identities)[guid] == authority)
    {
      ghost var before, certs := storage.rows, storage.identityCerts;
      ghost var holders := set k | k in certs && certs[k].guid == guid;
      var appsToSync;
      status, appsToSync := storage.RemoveIdentity(guid, authority, queried);
      told := appsToSync;
      if status != ER_OK {
        return;
      }
      status := ResetApplications(appsToSync);
      if status != ER_OK {
        return;
      }
      if queried {
        ListedOnce(told, holders);
      }
      if Managed(before, certs) {
        IdentityRemovalIsManagedExactly(before, storage.rows, certs, storage.identityCerts, holders, told);
      }
    }
  }

  // ---------------------------------------------------------------- what the calls amount to

  lemma Inserted(rows: map<AppKey, AppRow>, app: AppKey, row: AppRow)
    requires app !in rows
    ensures Without(rows[app := row], app) == rows
  {
  }

  lemma NothingCascades(certs: map<AppKey, IdentityCert>, memberships: map<(AppKey, Guid), CertId>, app: AppKey)
    requires app !in certs && forall k :: k in memberships ==> k.0 != app
    ensures Without(certs, app) == certs
    ensures (map k | k in memberships && k.0 != app :: memberships[k]) == memberships
  {
  }

  lemma {:induction false} ListedOnce(list: seq<AppKey>, keys: set<AppKey>)
    requires Distinct(list) && forall k :: k in list <==> k in keys
    ensures |list| == |keys|
    decreases |list|
  {
    if list == [] {
      assert keys == {};
    } else {
      var n := |list| - 1;
      assert list == list[..n] + [list[n]];
      ListedOnce(list[..n], keys - {list[n]});
    }
  }

  // After a group removal every affected application will be visited by the updater exactly if the lookup
  // returned all of them that were SyncOk.
  lemma GroupRemovalReachesAllExactly(
      before: map<AppKey, AppRow>, after: map<AppKey, AppRow>, certs: map<AppKey, IdentityCert>, affected: set<AppKey>, told: seq<AppKey>)
    requires Managed(before, certs) && affected <= before.Keys && after.Keys == before.Keys
    requires forall k :: k in before ==> after[k] == if k in told then AnnouncedRow(before[k], true) else before[k]
    ensures (forall k :: k in affected ==> after[k].state in {SyncPending, SyncWillReset})
        <==> forall k :: k in affected && before[k].state.SyncOk? ==> k in told
  {
  }

  // Removing an identity keeps the remaining applications managed exactly if the lookup returned all
  // holders that do not wait for their reset anyway.
  lemma IdentityRemovalIsManagedExactly(
      before: map<AppKey, AppRow>, after: map<AppKey, AppRow>,
      certs: map<AppKey, IdentityCert>, certs': map<AppKey, IdentityCert>, holders: set<AppKey>, told: seq<AppKey>)
    requires Managed(before, certs) && holders <= before.Keys && after.Keys == before.Keys
    requires forall k :: k in certs' <==> k in certs && k !in holders
    requires forall k :: k in before ==> after[k] == if k in told then before[k].(state := SyncWillReset) else before[k]
    ensures Managed(after, certs') <==> forall k :: k in holders ==> k in told || before[k].state.SyncWillReset?
  {
  }
}
