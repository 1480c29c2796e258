// Storing a policy after a removal: versions start again, possibly at one that the device already has with
// other contents. The updater then sends nothing.
module PolicyRestart {
  import opened Base
  import opened SyncProtocol
  import opened SyncSystem
  import opened PolicySync
  import opened Convergence

  // ---------------------------------------------------------------- the calls, run to completion

  // What ApplicationUpdated leaves behind, apart from the policy.
  function Told(a: App): App
    requires a.tables.row.Some?
  {
    a.(tables := a.tables.(row := Some(AnnouncedState(a.tables.row.value))), unannounced := false,
       calls := Settle(a.calls, a.tables.identity.Some?))
  }

  // The version that UpdatePolicy gives a policy when none is stored.
  function Accepted(policy: Policy): Policy {
    if policy.version == 0 then policy.(version := 1) else policy
  }

  function WithPolicy(a: App, policy: Policy): App
    requires a.tables.row.Some?
  {
    Told(Publish(a, policy))
  }

  function WithoutPolicy(a: App): App
    requires a.tables.row.Some?
  {
    Told(a.(tables := a.tables.(policy := None)))
  }

  predicate Resting(a: App) { a.tables.row in {Some(SyncOk), Some(SyncPending)} && a.updater == IDLE }

  // Announcing a policy write of the only call that was started since `a`.
  lemma Announces(counter: nat, a: App, call: nat, policy: Option<Policy>, published: map<nat, Policy>)
    requires Resting(a) && call !in a.calls
    ensures var stored := a.(tables := a.tables.(policy := policy), published := published);
            var written := stored.(calls := a.calls[call := NeedsUpdate(false)], unannounced := true);
            && Enabled(written, ByCall(Announce(call, Stored)))
            && After(counter, written, ByCall(Announce(call, Stored))) == (counter + 1, Told(stored))
  {
    assert Without(a.calls[call := NeedsUpdate(false)], call) == a.calls;
  }

  lemma StoresPolicy(counter: nat, a: App, call: nat, policy: Policy) returns (es: seq<Event>)
    requires Resting(a) && a.tables.policy.None? && call !in a.calls
    ensures Leads((counter, a), es, (counter + 1, WithPolicy(a, Accepted(policy))))
  {
    var p := Accepted(policy);
    var check, store := ByCall(CheckPolicy(call, policy)), ByCall(StorePolicy(call));
    assert Versioned(a.tables.policy, policy) == Some(p);
    var checked := (counter, a.(calls := a.calls[call := PolicyChecked(p)]));
    assert After(counter, a, check) == checked;
    es := ThenOne((counter, a), [], (counter, a), check);
    var written := (counter, Publish(a, p).(calls := a.calls[call := NeedsUpdate(false)], unannounced := true));
    assert a.calls[call := PolicyChecked(p)][call := NeedsUpdate(false)] == a.calls[call := NeedsUpdate(false)];
    assert After(counter, checked.1, store) == written;
    es := ThenOne((counter, a), es, checked, store);
    Announces(counter, a, call, Some(p), Publish(a, p).published);
    es := ThenOne((counter, a), es, written, ByCall(Announce(call, Stored)));
  }

  lemma RemovesPolicyOf(counter: nat, a: App, call: nat) returns (es: seq<Event>)
    requires Resting(a) && call !in a.calls
    ensures Leads((counter, a), es, (counter + 1, WithoutPolicy(a)))
  {
    var written := After(counter, a, ByCall(DropPolicy(call)));
    es := ThenOne((counter, a), [], (counter, a), ByCall(DropPolicy(call)));
    Announces(counter, a, call, None, a.published);
    es := ThenOne((counter, a), es, written, ByCall(Announce(call, Stored)));
  }

  // ---------------------------------------------------------------- removing, storing and syncing

  // The outcome of RemovePolicy, UpdatePolicy and one transaction of the updater.
  function Replaced(a: App, policy: Policy): App
    requires Ready(a)
  {
    InSync(WithPolicy(WithoutPolicy(a), Accepted(policy)))
  }

  lemma Replaces(counter: nat, a: App, call: nat, policy: Policy) returns (es: seq<Event>)
    requires Ready(a) && Resting(a) && call !in a.calls
    ensures Leads((counter, a), es, (counter + 2, Replaced(a, policy)))
  {
    var removed := (counter + 1, WithoutPolicy(a));
    var stored := (counter + 2, WithPolicy(removed.1, Accepted(policy)));
    var es1 := RemovesPolicyOf(counter, a, call);
    var es2 := StoresPolicy(counter + 1, removed.1, call, policy);
    LeadsOn((counter, a), es1, removed, es2, stored);
    var es3 := SomeScheduleConverges(counter + 2, stored.1);
    LeadsOn((counter, a), es1 + es2, stored, es3, (counter + 2, Replaced(a, policy)));
    es := es1 + es2 + es3;
  }

  // After a removal that no sync followed, storing a policy agrees with the device whatever the policy says
  // exactly if its version is not the one that the device still has.
  lemma ReplacedAgreesExactly(a: App, version: nat)
    requires Ready(a)
    ensures (forall acls :: PolicyAgrees(Replaced(a, Policy(version, acls)).tables, Replaced(a, Policy(version, acls)).device))
        <==> Accepted(Policy(version, [])).version != a.device.policy.version
  {
    if Accepted(Policy(version, [])).version == a.device.policy.version {
      var acls := if a.device.policy.acls == [] then [Acl([], [])] else [];
      assert !PolicyAgrees(Replaced(a, Policy(version, acls)).tables, Replaced(a, Policy(version, acls)).device);
    }
  }

  // ---------------------------------------------------------------- a run from scratch

  lemma ClaimsFirst(a: App, cert: CertId) returns (es: seq<Event>)
    requires Fresh(a) && a.device.Unclaimed?
    ensures Leads((0, a), es, (0, FirstClaimed(a, cert)))
  {
    var s1 := After(0, a, ByClaim(ClaimDevice(cert)));
    es := ThenOne((0, a), [], (0, a), ByClaim(ClaimDevice(cert)));
    es := ThenOne((0, a), es, s1, ByClaim(ClaimInsert(true)));
    var s2 := After(0, s1.1, ByClaim(ClaimInsert(true)));
    es := ThenOne((0, a), es, s2, ByClaim(ClaimCert));
    var s3 := After(0, s2.1, ByClaim(ClaimCert));
    es := ThenOne((0, a), es, s3, ByClaim(ClaimManifest([])));
  }

  function FirstClaimed(a: App, cert: CertId): App {
    a.(tables := Tables(Some(SyncOk), Some(cert), Some([]), map[], None), device := Claimed({}, [cert], DEFAULT_POLICY))
  }

  // Claim, store a policy and sync.
  lemma SyncsFirst(a: App, cert: CertId, acls: seq<Acl>) returns (es: seq<Event>, synced: App)
    requires Fresh(a) && a.device.Unclaimed?
    ensures Leads((0, a), es, (1, synced)) && Ready(synced) && Resting(synced) && synced.calls == map[] && !synced.leftover
    ensures synced.device.Claimed? && synced.device.policy == Policy(1, acls)
  {
    var claimed := FirstClaimed(a, cert);
    var stored := WithPolicy(claimed, Policy(1, acls));
    synced := InSync(stored);
    var es1 := ClaimsFirst(a, cert);
    var es2 := StoresPolicy(0, claimed, 0, Policy(0, acls));
    LeadsOn((0, a), es1, (0, claimed), es2, (1, stored));
    var es3 := SomeScheduleConverges(1, stored);
    LeadsOn((0, a), es1 + es2, (1, stored), es3, (1, synced));
    es := es1 + es2 + es3;
  }

  // Claim, store a policy, sync, remove it, store another one, sync. Storage then says SyncOk with nothing
  // pending, and the device still has the first policy.
  lemma RemovedPolicyBreaksAgreement(a: App, first: seq<Acl>, second: seq<Acl>) returns (es: seq<Event>, end: (nat, App))
    requires Fresh(a) && a.device.Unclaimed? && first != second
    ensures Leads((0, a), es, end)
    ensures end.1.tables.row == Some(SyncOk) && !end.1.unannounced && !end.1.leftover
    ensures end.1.tables.policy == Some(Policy(1, second)) && end.1.device.Claimed? && end.1.device.policy == Policy(1, first)
    ensures !PolicyAgrees(end.1.tables, end.1.device)
  {
    var es1, synced := SyncsFirst(a, CertId("1", "ca"), first);
    var es2 := Replaces(1, synced, 0, Policy(0, second));
    end := (3, Replaced(synced, Policy(0, second)));
    LeadsOn((0, a), es1, (1, synced), es2, end);
    es := es1 + es2;
  }
}
