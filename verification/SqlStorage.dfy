// The database tables behind the storage. Every method is one call under the storage mutex; a write that
// fails leaves the tables alone. Whether a statement works is not determined by the model, except that all
// statements of a reliable database do.
module SqlStorage {
  import opened Base

  datatype AppRow = AppRow(state: SyncState, manifest: Option<seq<Rule>>, policy: Option<Policy>)

  datatype IdentityCert = IdentityCert(id: CertId, guid: Guid)

  // What ApplicationUpdated makes of a row: the state, and with it the policy version if asked for.
  function AnnouncedRow(row: AppRow, updatePolicy: bool): AppRow {
    var told := row.(state := AnnouncedState(row.state));
    if row.state.SyncOk? && updatePolicy then told.(policy := BumpedPolicy(row.policy)) else told
  }

  function BumpedPolicy(policy: Option<Policy>): Option<Policy> {
    if policy.Some? then Some(policy.value.(version := NextVersion(policy.value.version))) else None
  }

  // In plain terms: only SyncOk becomes SyncPending, and only then a policy gets the next version.
  lemma AnnouncedRowExactly(row: AppRow, updatePolicy: bool)
    ensures var told := AnnouncedRow(row, updatePolicy);
            && told.manifest == row.manifest
            && told.state == (if row.state == SyncOk then SyncPending else row.state)
            && (told.policy != row.policy ==> row.state == SyncOk && updatePolicy && row.policy.Some?)
            && (row.state == SyncOk && updatePolicy && row.policy.Some? && row.policy.value.version < UINT32_MODULUS - 1 ==>
                  told.policy == Some(Policy(row.policy.value.version + 1, row.policy.value.acls)))
  {
  }

  // The rows of a query come in some order, each once.
  method InSomeOrder<K(==)>(keys: set<K>) returns (list: seq<K>)
    ensures forall k :: k in list <==> k in keys
    ensures Distinct(list) && |list| == |keys|
  {
    list := [];
    var rest := keys;
    while rest != {}
      invariant rest <= keys
      invariant forall k :: k in list <==> k in keys - rest
      invariant Distinct(list) && |list| + |rest| == |keys|
      decreases |rest|
    {
      var k :| k in rest;
      assert k !in list;
      rest := rest - {k};
      list := list + [k];
    }
  }

  // A query that fails half-way has returned some of its rows.
  method SomeOf<K(==)>(keys: set<K>) returns (list: seq<K>)
    ensures forall k :: k in list ==> k in keys
    ensures Distinct(list)
  {
    list := InSomeOrder(keys);
    var n: int := *;
    if 0 <= n < |list| {
      list := list[..n];
    }
  }

  class SQLStorage {
    const reliable: bool
    var rows: map<AppKey, AppRow>
    var identityCerts: map<AppKey, IdentityCert>
    var memberships: map<(AppKey, Guid), CertId>
    var groups: map<Guid, string>
    var identities: map<Guid, string>

    // The foreign keys.
    ghost predicate Valid()
      reads this
    {
      && (forall k :: k in identityCerts ==> k in rows && identityCerts[k].guid in identities)
      && (forall k :: k in memberships ==> k.0 in rows && k.1 in groups)
    }

    constructor (reliable: bool)
      ensures Valid() && rows == map[] && this.reliable == reliable
    {
      this.reliable := reliable;
      rows, identityCerts, memberships, groups, identities := map[], map[], map[], map[], map[];
    }

    // A statement that may fail.
    method Execute() returns (done: bool)
      ensures reliable ==> done
    {
      done := *;
      done := done || reliable;
    }

    method GetManagedApplication(app: AppKey) returns (status: Status, state: SyncState)
      ensures status in {ER_OK, ER_END_OF_DATA, ER_FAIL}
      ensures status == ER_OK ==> app in rows && state == rows[app].state
      ensures status == ER_END_OF_DATA ==> app !in rows
      ensures status != ER_OK ==> state == SyncUnknown
      ensures reliable ==> status == if app in rows then ER_OK else ER_END_OF_DATA
    {
      var done := Execute();
      if !done {
        return ER_FAIL, SyncUnknown;
      }
      if app in rows {
        return ER_OK, rows[app].state;
      }
      return ER_END_OF_DATA, SyncUnknown;
    }

    method InsertApplication(app: AppKey, state: SyncState) returns (status: Status)
      requires Valid()
      modifies this
      ensures Valid()
      ensures status == ER_OK ==> app !in old(rows) && rows == old(rows)[app := AppRow(state, None, None)]
      ensures status == ER_OK ==> unchanged(`identityCerts, `memberships, `groups, `identities)
      ensures status != ER_OK ==> unchanged(this)
      ensures reliable ==> (status == ER_OK <==> app !in old(rows))
    {
      var done := Execute();
      if !done || app in rows {
        return ER_FAIL;
      }
      rows := rows[app := AppRow(state, None, None)];
      status := ER_OK;
    }

    // StoreApplication with `update` set. The new policy version is a second write.
    method UpdateApplication(app: AppKey, state: SyncState, updatePolicy: bool) returns (status: Status)
      requires Valid()
      modifies `rows
      ensures Valid() && status in {ER_OK, ER_FAIL}
      ensures status == ER_OK ==> app in old(rows) && rows == old(rows)[app := old(rows[app]).(
                state := state, policy := if updatePolicy then BumpedPolicy(old(rows[app]).policy) else old(rows[app]).policy)]
      ensures status != ER_OK && rows != old(rows) ==>
                updatePolicy && app in old(rows) && rows == old(rows)[app := old(rows[app]).(state := state)]
      ensures reliable ==> (status == ER_OK <==> app in old(rows))
    {
      var found, _ := GetManagedApplication(app);
      if found != ER_OK {
        return ER_FAIL;
      }
      var done := Execute();
      if !done {
        return ER_FAIL;
      }
      rows := rows[app := rows[app].(state := state)];
      if updatePolicy && rows[app].policy.Some? {
        var policy := rows[app].policy.value;
        done := Execute();
        if !done {
          return ER_FAIL;
        }
        rows := rows[app := rows[app].(policy := Some(policy.(version := NextVersion(policy.version))))];
      }
      status := ER_OK;
    }

    method RemoveApplication(app: AppKey) returns (status: Status)
      requires Valid()
      modifies this
      ensures Valid()
      ensures status == ER_OK ==>
                && rows == Without(old(rows), app) && identityCerts == Without(old(identityCerts), app)
                && memberships == (map k | k in old(memberships) && k.0 != app :: old(memberships)[k])
                && unchanged(`groups, `identities)
      ensures status != ER_OK ==> unchanged(this)
      ensures reliable ==> status == ER_OK
    {
      var done := Execute();
      if !done {
        return ER_FAIL;
      }
      rows := Without(rows, app);
      identityCerts := Without(identityCerts, app);
      memberships := map k | k in memberships && k.0 != app :: memberships[k];
      status := ER_OK;
    }

    method GetPolicy(app: AppKey) returns (status: Status, policy: Option<Policy>)
      ensures status in {ER_OK, ER_END_OF_DATA, ER_FAIL}
      ensures status == ER_OK ==> app in rows && policy.Some? && policy == rows[app].policy
      ensures status == ER_END_OF_DATA ==> policy.None? && (app in rows ==> rows[app].policy.None?)
      ensures reliable ==> (status == ER_OK <==> app in rows && rows[app].policy.Some?) && status != ER_FAIL
    {
      var done := Execute();
      if !done {
        return ER_FAIL, None;
      }
      if app in rows && rows[app].policy.Some? {
        return ER_OK, rows[app].policy;
      }
      return ER_END_OF_DATA, None;
    }

    // Updating a row that does not exist succeeds and changes nothing.
    method StorePolicy(app: AppKey, policy: Policy) returns (status: Status)
      requires Valid()
      modifies `rows
      ensures Valid() && status in {ER_OK, ER_FAIL}
      ensures status == ER_OK ==>
                rows == if app in old(rows) then old(rows)[app := old(rows[app]).(policy := Some(policy))] else old(rows)
      ensures status != ER_OK ==> rows == old(rows)
      ensures reliable ==> status == ER_OK
    {
      var done := Execute();
      if !done {
        return ER_FAIL;
      }
      if app in rows {
        rows := rows[app := rows[app].(policy := Some(policy))];
      }
      status := ER_OK;
    }

    // Unlike the other updates this one rejects an application that has no row.
    method RemovePolicy(app: AppKey) returns (status: Status)
      requires Valid()
      modifies `rows
      ensures Valid() && status in {ER_OK, ER_END_OF_DATA, ER_FAIL}
      ensures status == ER_OK ==> app in old(rows) && rows == old(rows)[app := old(rows[app]).(policy := None)]
      ensures status != ER_OK ==> rows == old(rows)
      ensures app !in old(rows) ==> status != ER_OK
      ensures reliable ==> (status == ER_OK <==> app in old(rows))
    {
      var state;
      status, state := GetManagedApplication(app);
      if status != ER_OK {
        return;
      }
      var done := Execute();
      if !done {
        return ER_FAIL;
      }
      rows := rows[app := rows[app].(policy := None)];
      status := ER_OK;
    }

    method StoreManifest(app: AppKey, manifest: seq<Rule>) returns (status: Status)
      requires Valid()
      modifies `rows
      ensures Valid()
      ensures status == ER_OK ==>
                rows == if app in old(rows) then old(rows)[app := old(rows[app]).(manifest := Some(manifest))] else old(rows)
      ensures status != ER_OK ==> rows == old(rows)
      ensures reliable ==> status == ER_OK
    {
      var done := Execute();
      if !done {
        return ER_FAIL;
      }
      if app in rows {
        rows := rows[app := rows[app].(manifest := Some(manifest))];
      }
      status := ER_OK;
    }

    method StoreIdentityCertificate(app: AppKey, cert: IdentityCert, update: bool) returns (status: Status)
      requires Valid()
      modifies `identityCerts
      ensures Valid()
      ensures status == ER_OK ==> app in rows && cert.guid in identities && (!update ==> app !in old(identityCerts))
      ensures status == ER_OK ==> identityCerts == old(identityCerts)[app := cert]
      ensures status != ER_OK ==> identityCerts == old(identityCerts)
      ensures reliable ==> (status == ER_OK <==> app in rows && cert.guid in identities && (!update ==> app !in old(identityCerts)))
    {
      var done := Execute();
      if !done || app !in rows || cert.guid !in identities || (!update && app in identityCerts) {
        return ER_FAIL;
      }
      identityCerts := identityCerts[app := cert];
      status := ER_OK;
    }

    method StoreMembershipCertificate(app: AppKey, guid: Guid, cert: CertId) returns (status: Status)
      requires Valid()
      modifies `memberships
      ensures Valid()
      ensures status == ER_OK ==> app in rows && guid in groups && (app, guid) !in old(memberships)
      ensures status == ER_OK ==> memberships == old(memberships)[(app, guid) := cert]
      ensures status != ER_OK ==> memberships == old(memberships)
      ensures reliable ==> (status == ER_OK <==> app in rows && guid in groups && (app, guid) !in old(memberships))
    {
      var done := Execute();
      if !done || app !in rows || guid !in groups || (app, guid) in memberships {
        return ER_FAIL;
      }
      memberships := memberships[(app, guid) := cert];
      status := ER_OK;
    }

    method GetMembershipCertificate(app: AppKey, guid: Guid) returns (status: Status)
      ensures status == ER_OK ==> (app, guid) in memberships
      ensures reliable ==> (status == ER_OK <==> (app, guid) in memberships)
    {
      var done := Execute();
      if !done {
        return ER_FAIL;
      }
      status := if (app, guid) in memberships then ER_OK else ER_END_OF_DATA;
    }

    method RemoveMembershipCertificate(app: AppKey, guid: Guid) returns (status: Status)
      requires Valid()
      modifies `memberships
      ensures Valid()
      ensures status == ER_OK ==> memberships == Without(old(memberships), (app, guid))
      ensures status != ER_OK ==> memberships == old(memberships)
      ensures reliable ==> status == ER_OK
    {
      var done := Execute();
      if !done {
        return ER_FAIL;
      }
      memberships := Without(memberships, (app, guid));
      status := ER_OK;
    }

    method GetInfo(table: map<Guid, string>, guid: Guid, authority: string) returns (status: Status)
      ensures status == ER_OK ==> guid in table && table[guid] == authority
      ensures reliable ==> (status == ER_OK <==> guid in table && table[guid] == authority)
    {
      var done := Execute();
      if !done {
        return ER_FAIL;
      }
      status := if guid in table && table[guid] == authority then ER_OK else ER_END_OF_DATA;
    }

    method GetMembershipCertificates(app: AppKey) returns (status: Status, certs: seq<CertId>)
      ensures status == ER_OK ==> forall id :: id in certs <==> exists k :: k in memberships && k.0 == app && memberships[k] == id
      ensures reliable ==> status == ER_OK
    {
      certs := [];
      var done := Execute();
      if !done {
        return ER_FAIL, [];
      }
      var mine := set k | k in memberships && k.0 == app;
      var keys := InSomeOrder(mine);
      assert forall n :: 0 <= n < |keys| ==> keys[n] in keys && keys[n] in mine;
      for i := 0 to |keys|
        invariant |certs| == i
        invariant forall n :: 0 <= n < i ==> certs[n] == memberships[keys[n]]
      {
        certs := certs + [memberships[keys[i]]];
      }
      forall id | id in certs ensures exists k :: k in memberships && k.0 == app && memberships[k] == id {
        var n :| 0 <= n < |certs| && certs[n] == id;
        assert keys[n] in mine;
      }
      forall k | k in memberships && k.0 == app ensures memberships[k] in certs {
        assert k in mine && k in keys;
        var n :| 0 <= n < |keys| && keys[n] == k;
        assert certs[n] == memberships[k];
      }
      status := ER_OK;
    }

    method GetIdentityCertificate(app: AppKey) returns (status: Status, cert: Option<CertId>)
      ensures status == ER_OK <==> cert.Some?
      ensures status == ER_OK ==> app in identityCerts && cert == Some(identityCerts[app].id)
      ensures status == ER_END_OF_DATA ==> app !in identityCerts
      ensures reliable ==> (status == ER_OK <==> app in identityCerts)
    {
      var done := Execute();
      if !done {
        return ER_FAIL, None;
      }
      if app in identityCerts {
        return ER_OK, Some(identityCerts[app].id);
      }
      return ER_END_OF_DATA, None;
    }

    method GetManifest(app: AppKey) returns (status: Status, manifest: Option<seq<Rule>>)
      ensures status == ER_OK ==> app in rows && manifest.Some? && manifest == rows[app].manifest
      ensures status == ER_END_OF_DATA ==> app in rows ==> rows[app].manifest.None?
      ensures reliable ==> (status == ER_OK <==> app in rows && rows[app].manifest.Some?)
    {
      var done := Execute();
      if !done {
        return ER_FAIL, None;
      }
      if app in rows && rows[app].manifest.Some? {
        return ER_OK, rows[app].manifest;
      }
      return ER_END_OF_DATA, None;
    }

    // The applications affected are queried before the group is deleted; `queried` tells whether that query
    // works. One that fails is not noticed, and has found some of them.
    method RemoveGroup(guid: Guid, authority: string, queried: bool) returns (status: Status, appsToSync: seq<AppKey>)
      requires Valid()
      modifies `groups, `memberships
      ensures Valid()
      ensures status == ER_OK ==> guid !in groups && memberships == map k | k in old(memberships) && k.1 != guid :: old(memberships)[k]
      ensures status != ER_OK ==> unchanged(this)
      ensures Distinct(appsToSync) && forall k :: k in appsToSync ==> (k, guid) in old(memberships)
      ensures status == ER_OK && queried ==> forall k :: (k, guid) in old(memberships) ==> k in appsToSync
      ensures reliable ==> (status == ER_OK <==> guid in old(groups) && old(groups)[guid] == authority)
    {
      appsToSync := [];
      status := GetInfo(groups, guid, authority);
      if status != ER_OK {
        return;
      }
      var affected := set k | k in memberships && k.1 == guid && k.0 in rows :: k.0;
      if queried {
        appsToSync := InSomeOrder(affected);
      } else {
        appsToSync := SomeOf(affected);
      }
      var done := Execute();
      if !done {
        status := ER_FAIL;
        return;
      }
      groups := map g | g in groups && g != guid :: groups[g];
      memberships := map k | k in memberships && k.1 != guid :: memberships[k];
    }

    method RemoveIdentity(guid: Guid, authority: string, queried: bool) returns (status: Status, appsToSync: seq<AppKey>)
      requires Valid()
      modifies `identities, `identityCerts
      ensures Valid()
      ensures status == ER_OK ==> guid !in identities
      ensures status == ER_OK ==> identityCerts == map k | k in old(identityCerts) && old(identityCerts)[k].guid != guid :: old(identityCerts)[k]
      ensures status != ER_OK ==> unchanged(this)
      ensures Distinct(appsToSync) && forall k :: k in appsToSync ==> k in old(identityCerts) && old(identityCerts)[k].guid == guid
      ensures status == ER_OK && queried ==>
                forall k :: k in old(identityCerts) && old(identityCerts)[k].guid == guid ==> k in appsToSync
      ensures reliable ==> (status == ER_OK <==> guid in old(identities) && old(identities)[guid] == authority)
    {
      appsToSync := [];
      status := GetInfo(identities, guid, authority);
      if status != ER_OK {
        return;
      }
      var affected := set k | k in identityCerts && identityCerts[k].guid == guid && k in rows;
      if queried {
        appsToSync := InSomeOrder(affected);
      } else {
        appsToSync := SomeOf(affected);
      }
      var done := Execute();
      if !done {
        status := ER_FAIL;
        return;
      }
      identities := map g | g in identities && g != guid :: identities[g];
      identityCerts := map k | k in identityCerts && identityCerts[k].guid != guid :: identityCerts[k];
    }
  }
}
