// Which membership certificates the updater installs on a device and which it removes, and in what order.
module MembershipPlan {
  import opened Base

  // What the updater asks a device to change.
  datatype Request = Install(id: CertId) | Remove(id: CertId) | SendIdentity | SendPolicy | ResetPolicy | Reset

  function Elements(ids: seq<CertId>): set<CertId> { set id | id in ids }

  // The elements of a list that another one does not have, in order.
  function NotIn(ids: seq<CertId>, others: seq<CertId>): (rest: seq<CertId>)
    ensures forall id :: id in rest <==> id in ids && id !in others
  {
    if ids == [] then []
    else
      var n := |ids| - 1;
      var rest := NotIn(ids[..n], others);
      if ids[n] in others then rest else rest + [ids[n]]
  }

  function Installs(ids: seq<CertId>): seq<Request> { seq(|ids|, i requires 0 <= i < |ids| => Install(ids[i])) }

  function Removes(ids: seq<CertId>): seq<Request> { seq(|ids|, i requires 0 <= i < |ids| => Remove(ids[i])) }

  // Everything missing is installed before anything redundant is removed.
  function Plan(local: seq<CertId>, remote: seq<CertId>): seq<Request> {
    Installs(NotIn(local, remote)) + Removes(NotIn(remote, local))
  }

  // The memberships of a device after it carried out a request.
  function Applied(r: Request, memberships: seq<CertId>): seq<CertId> {
    match r
    case Install(id) => if id in memberships then memberships else memberships + [id]
    case Remove(id) => NotIn(memberships, [id])
    case _ => memberships
  }

  function Run(rs: seq<Request>, memberships: seq<CertId>): seq<CertId> {
    if rs == [] then memberships else Applied(rs[|rs| - 1], Run(rs[..|rs| - 1], memberships))
  }

  lemma ElementsApplied(id: CertId, memberships: seq<CertId>)
    ensures Elements(Applied(Install(id), memberships)) == Elements(memberships) + {id}
    ensures Elements(Applied(Remove(id), memberships)) == Elements(memberships) - {id}
  {
  }

  lemma {:induction false} RunInstalls(ids: seq<CertId>, memberships: seq<CertId>)
    ensures Elements(Run(Installs(ids), memberships)) == Elements(memberships) + Elements(ids)
    decreases |ids|
  {
    if ids != [] {
      var n := |ids| - 1;
      RunInstalls(ids[..n], memberships);
      assert Installs(ids)[..n] == Installs(ids[..n]);
      ElementsApplied(ids[n], Run(Installs(ids[..n]), memberships));
      assert Elements(ids) == Elements(ids[..n]) + {ids[n]};
    }
  }

  lemma {:induction false} RunRemoves(ids: seq<CertId>, memberships: seq<CertId>)
    ensures Elements(Run(Removes(ids), memberships)) == Elements(memberships) - Elements(ids)
    decreases |ids|
  {
    if ids != [] {
      var n := |ids| - 1;
      RunRemoves(ids[..n], memberships);
      assert Removes(ids)[..n] == Removes(ids[..n]);
      ElementsApplied(ids[n], Run(Removes(ids[..n]), memberships));
      assert Elements(ids) == Elements(ids[..n]) + {ids[n]};
    }
  }

  lemma {:induction false} RunSplit(a: seq<Request>, b: seq<Request>, memberships: seq<CertId>)
    ensures Run(a + b, memberships) == Run(b, Run(a, memberships))
    decreases |b|
  {
    if b == [] {
      assert a + b == a;
    } else {
      var n := |b| - 1;
      RunSplit(a, b[..n], memberships);
      assert (a + b)[..|a + b| - 1] == a + b[..n];
    }
  }

  // ---------------------------------------------------------------- what the plan achieves

  lemma PlanReaches(local: seq<CertId>, remote: seq<CertId>)
    ensures Elements(Run(Plan(local, remote), remote)) == Elements(local)
  {
    var missing, redundant := NotIn(local, remote), NotIn(remote, local);
    RunSplit(Installs(missing), Removes(redundant), remote);
    RunInstalls(missing, remote);
    RunRemoves(redundant, Run(Installs(missing), remote));
  }

  // What was there and stays is there, nothing is there that neither side knows, and something was lost
  // only after everything missing was installed.
  predicate Between(local: set<CertId>, before: set<CertId>, now: set<CertId>) {
    local * before <= now <= local + before && (before <= now || local <= now)
  }

  // Wherever the plan is cut short.
  lemma PartOfPlanIsSafe(local: seq<CertId>, remote: seq<CertId>, n: nat)
    requires n <= |Plan(local, remote)|
    ensures Between(Elements(local), Elements(remote), Elements(Run(Plan(local, remote)[..n], remote)))
  {
    var missing, redundant := NotIn(local, remote), NotIn(remote, local);
    if n <= |missing| {
      assert Plan(local, remote)[..n] == Installs(missing[..n]);
      RunInstalls(missing[..n], remote);
    } else {
      var k := n - |missing|;
      assert Plan(local, remote)[..n] == Installs(missing) + Removes(redundant[..k]);
      RunSplit(Installs(missing), Removes(redundant[..k]), remote);
      RunInstalls(missing, remote);
      RunRemoves(redundant[..k], Run(Installs(missing), remote));
    }
  }

  lemma NotInIsEmptyExactly(ids: seq<CertId>, others: seq<CertId>)
    ensures NotIn(ids, others) == [] <==> Elements(ids) <= Elements(others)
  {
    var rest := NotIn(ids, others);
    if rest != [] {
      assert rest[0] in rest;
      assert rest[0] in Elements(ids) && rest[0] !in Elements(others);
    }
  }

  lemma PlanEmptyExactly(local: seq<CertId>, remote: seq<CertId>)
    ensures Plan(local, remote) == [] <==> Elements(local) == Elements(remote)
  {
    NotInIsEmptyExactly(local, remote);
    NotInIsEmptyExactly(remote, local);
    assert |Plan(local, remote)| == |NotIn(local, remote)| + |NotIn(remote, local)|;
  }

  // A second reconciliation finds nothing to do.
  lemma PlanIsIdempotent(local: seq<CertId>, remote: seq<CertId>)
    ensures Plan(local, Run(Plan(local, remote), remote)) == []
  {
    PlanReaches(local, remote);
    PlanEmptyExactly(local, Run(Plan(local, remote), remote));
  }

  // ---------------------------------------------------------------- and at what cost

  function Differences(a: set<CertId>, b: set<CertId>): nat { |a - b| + |b - a| }

  lemma {:induction false} DistinctSize(ids: seq<CertId>)
    requires Distinct(ids)
    ensures |Elements(ids)| == |ids|
    decreases |ids|
  {
    if ids != [] {
      var n := |ids| - 1;
      DistinctSize(ids[..n]);
      assert Elements(ids) == Elements(ids[..n]) + {ids[n]};
    }
  }

  lemma AddingOne(a: set<CertId>, goal: set<CertId>, id: CertId)
    ensures Differences(a, goal) <= Differences(a + {id}, goal) + 1
  {
    if id in goal {
      assert (a + {id}) - goal == a - goal;
      assert goal - a <= (goal - (a + {id})) + {id};
      Larger(goal - a, (goal - (a + {id})) + {id});
    } else {
      assert goal - (a + {id}) == goal - a;
      Larger(a - goal, (a + {id}) - goal);
    }
  }

  lemma {:induction false} Larger(a: set<CertId>, b: set<CertId>)
    requires a <= b
    ensures |a| <= |b|
  {
    assert b == a + (b - a);
  }

  lemma OneRequestOneDifference(r: Request, memberships: seq<CertId>, goal: set<CertId>)
    ensures Differences(Elements(memberships), goal) <= Differences(Elements(Applied(r, memberships)), goal) + 1
  {
    var before := Elements(memberships);
    match r
    case Install(id) =>
      ElementsApplied(id, memberships);
      AddingOne(before, goal, id);
    case Remove(id) =>
      ElementsApplied(id, memberships);
      RemovingOne(before, goal, id);
    case _ =>
  }

  lemma RemovingOne(a: set<CertId>, goal: set<CertId>, id: CertId)
    ensures Differences(a, goal) <= Differences(a - {id}, goal) + 1
  {
    if id in goal {
      assert (a - {id}) - goal == a - goal;
      Larger(goal - a, goal - (a - {id}));
    } else {
      assert goal - (a - {id}) == goal - a;
      Larger(a - goal, ((a - {id}) - goal) + {id});
    }
  }

  lemma {:induction false} RequestsCoverDifferences(rs: seq<Request>, remote: seq<CertId>, goal: set<CertId>)
    ensures Differences(Elements(remote), goal) <= Differences(Elements(Run(rs, remote)), goal) + |rs|
    decreases |rs|
  {
    if rs != [] {
      var n := |rs| - 1;
      RequestsCoverDifferences(rs[..n], remote, goal);
      OneRequestOneDifference(rs[n], Run(rs[..n], remote), goal);
    }
  }

  lemma {:induction false} NotInIsDistinct(ids: seq<CertId>, others: seq<CertId>)
    requires Distinct(ids)
    ensures Distinct(NotIn(ids, others))
    decreases |ids|
  {
    if ids != [] {
      NotInIsDistinct(ids[..|ids| - 1], others);
    }
  }

  lemma NotInSize(ids: seq<CertId>, others: seq<CertId>)
    requires Distinct(ids)
    ensures |NotIn(ids, others)| == |Elements(ids) - Elements(others)|
  {
    NotInIsDistinct(ids, others);
    DistinctSize(NotIn(ids, others));
    assert Elements(NotIn(ids, others)) == Elements(ids) - Elements(others);
  }

  // No sequence of requests that leads to the stored certificates is shorter than the plan.
  lemma PlanIsShortest(local: seq<CertId>, remote: seq<CertId>, rs: seq<Request>)
    requires Distinct(local) && Distinct(remote)
    requires Elements(Run(rs, remote)) == Elements(local)
    ensures |Plan(local, remote)| <= |rs|
  {
    RequestsCoverDifferences(rs, remote, Elements(local));
    NotInSize(local, remote);
    NotInSize(remote, local);
    assert Elements(local) - Elements(local) == {};
  }
}
