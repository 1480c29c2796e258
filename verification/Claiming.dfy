// Claiming an application: the device and the storage learn about it in two steps. Any number of claims,
// of the same or of different applications, may be in progress at the same time.
module Claiming {
  import opened Base

  // The identity certificate and the manifest that a claim is about.
  datatype Data = Data(cert: CertId, manifest: seq<Rule>)

  // ---------------------------------------------------------------- shared objects

  function Erased(list: seq<AppKey>, app: AppKey): seq<AppKey> {
    if list == [] then [] else if list[0] == app then list[1..] else [list[0]] + Erased(list[1..], app)
  }

  lemma FirstErased(list: seq<AppKey>, it: nat, app: AppKey)
    requires it < |list|
    ensures list[it] == app ==> Erased(list[it..], app) == list[it + 1..]
    ensures list[it] != app ==> list[..it] + Erased(list[it..], app) == list[..it + 1] + Erased(list[it + 1..], app)
  {
    assert list[it..][1..] == list[it + 1..];
  }

  // The list behind PendingClaim: one entry per application that is being claimed.
  class PendingClaims {
    var list: seq<AppKey>

    constructor ()
      ensures list == []
    {
      list := [];
    }

    // PendingClaim.Init; `remove` tells the destructor whether there is an entry to erase.
    method Init(app: AppKey) returns (status: Status, remove: bool)
      modifies this
      ensures status == (if app in old(list) then ER_BAD_ARG_1 else ER_OK) && remove == (status == ER_OK)
      ensures list == if app in old(list) then old(list) else old(list) + [app]
    {
      for i := 0 to |list|
        invariant app !in list[..i]
        invariant unchanged(this)
      {
        if app == list[i] {
          return ER_BAD_ARG_1, false;
        }
      }
      list := list + [app];
      return ER_OK, true;
    }

    // The destructor of PendingClaim.
    method Release(app: AppKey, remove: bool)
      modifies this
      ensures list == if remove then Erased(old(list), app) else old(list)
    {
      if remove {
        var it := 0;
        while it < |list|
          invariant 0 <= it <= |list| && unchanged(this)
          invariant Erased(list, app) == list[..it] + Erased(list[it..], app)
        {
          FirstErased(list, it, app);
          if app == list[it] {
            list := list[..it] + list[it + 1..];
            return;
          }
          it := it + 1;
        }
      }
    }
  }

  // The certificates and manifests of claims whose outcome storage does not know yet.
  class ClaimCache {
    var claimPendingApps: map<AppKey, Data>

    constructor ()
      ensures claimPendingApps == map[]
    {
      claimPendingApps := map[];
    }

    // The end of StartApplicationClaiming.
    method Start(app: AppKey, data: Data)
      modifies this
      ensures claimPendingApps == old(claimPendingApps)[app := data]
    {
      claimPendingApps := claimPendingApps[app := data];
    }

    // The beginning of FinishApplicationClaiming.
    method Finish(app: AppKey) returns (status: Status, data: Option<Data>)
      modifies this
      ensures app in old(claimPendingApps) ==> status == ER_OK && data == Some(old(claimPendingApps)[app])
      ensures app !in old(claimPendingApps) ==> status == ER_END_OF_DATA && data.None?
      ensures claimPendingApps == Without(old(claimPendingApps), app)
    {
      if app in claimPendingApps {
        data := Some(claimPendingApps[app]);
        claimPendingApps := Without(claimPendingApps, app);
        status := ER_OK;
      } else {
        status, data := ER_END_OF_DATA, None;
        assert Without(claimPendingApps, app) == claimPendingApps;
      }
    }
  }

  // ---------------------------------------------------------------- state

  datatype Device = Unclaimed | Claimed(data: Data)

  datatype Row = Row(state: SyncState, cert: Option<CertId>, manifest: Option<seq<Rule>>)

  // What exists for one application: its cache entry, the device and its row in the database.
  datatype Shared = Shared(cache: Option<Data>, device: Device, row: Option<Row>)

  // Where a call of Claim is. `data` is what the device is sent, `cached` what storage took out of the
  // cache and writes to the database.
  datatype Phase =
    | Listed
    | Approved(manifest: seq<Rule>)
    | Started(data: Data)
    | Answered(data: Data, ok: bool)
    | Inserting(data: Data, cached: Data)
    | StoringCert(data: Data, cached: Data)
    | StoringManifest(data: Data, cached: Data)
    | MustReset
    | Succeeded(data: Data)
    | Failed

  predicate Returned(p: Phase) { p.Succeeded? || p.Failed? }

  datatype Claim = Claim(app: AppKey, phase: Phase)

  datatype World = World(pending: seq<AppKey>, apps: map<AppKey, Shared>, claims: map<nat, Claim>)

  // ---------------------------------------------------------------- steps of one claim

  // `works` tells whether the database write or remote call of the step succeeds, `removed` whether
  // undoing the insertion does. GiveUp stands for rejections and failures before the device was asked.
  datatype Move =
    | Approve(manifest: seq<Rule>)
    | Start(cert: CertId)
    | AskDevice(works: bool)
    | Finish
    | InsertRow(works: bool)
    | StoreCert(works: bool, removed: bool)
    | StoreManifest(works: bool, removed: bool)
    | ResetDevice(works: bool)
    | GiveUp

  predicate CanMove(a: Shared, p: Phase, m: Move) {
    match m
    case Approve(_) => p.Listed?
    case Start(_) => p.Approved?
    case AskDevice(works) => p.Started? && (works ==> a.device.Unclaimed?)
    case Finish => p.Answered?
    case InsertRow(works) => p.Inserting? && (works ==> a.row.None?)
    case StoreCert(_, _) => p.StoringCert? && a.row.Some?
    case StoreManifest(_, _) => p.StoringManifest? && a.row.Some?
    case ResetDevice(_) => p.MustReset?
    case GiveUp => p.Listed? || p.Approved? || p.Started?
  }

  // ApplicationClaimed undoes the insertion; a failure of that is ignored.
  function Rollback(a: Shared, removed: bool): Shared { if removed then a.(row := None) else a }

  function AfterMove(a: Shared, p: Phase, m: Move): (Shared, Phase)
    requires CanMove(a, p, m)
  {
    match m
    case Approve(manifest) => (a, Approved(manifest))
    case Start(cert) => (a.(cache := Some(Data(cert, p.manifest))), Started(Data(cert, p.manifest)))
    case AskDevice(works) => (if works then a.(device := Claimed(p.data)) else a, Answered(p.data, works))
    case Finish =>
      if a.cache.None? then (a, if p.ok then MustReset else Failed)
      else (a.(cache := None), if p.ok then Inserting(p.data, a.cache.value) else Failed)
    case InsertRow(works) =>
      if works then (a.(row := Some(Row(SyncOk, None, None))), StoringCert(p.data, p.cached)) else (a, MustReset)
    case StoreCert(works, removed) =>
      if works then (a.(row := Some(a.row.value.(cert := Some(p.cached.cert)))), StoringManifest(p.data, p.cached))
      else (Rollback(a, removed), MustReset)
    case StoreManifest(works, removed) =>
      if works then (a.(row := Some(a.row.value.(manifest := Some(p.cached.manifest)))), Succeeded(p.data))
      else (Rollback(a, removed), MustReset)
    case ResetDevice(works) => (if works then a.(device := Unclaimed) else a, Failed)
    case GiveUp => (a, Failed)
  }

  // ---------------------------------------------------------------- steps of all claims

  datatype Step = Begin(call: nat, app: AppKey) | Go(call: nat, move: Move)

  predicate Can(w: World, s: Step) {
    match s
    case Begin(call, app) => call !in w.claims && app in w.apps
    case Go(call, move) =>
      call in w.claims && w.claims[call].app in w.apps && CanMove(w.apps[w.claims[call].app], w.claims[call].phase, move)
  }

  function After(w: World, s: Step): World
    requires Can(w, s)
  {
    match s
    case Begin(call, app) =>
      if app in w.pending then w.(claims := w.claims[call := Claim(app, Failed)])
      else w.(pending := w.pending + [app], claims := w.claims[call := Claim(app, Listed)])
    case Go(call, move) =>
      var app := w.claims[call].app;
      var (a, p) := AfterMove(w.apps[app], w.claims[call].phase, move);
      World(if Returned(p) then Erased(w.pending, app) else w.pending, w.apps[app := a], w.claims[call := Claim(app, p)])
  }

  // ---------------------------------------------------------------- what every step keeps

  predicate Active(w: World, call: nat) { call in w.claims && !Returned(w.claims[call].phase) }

  ghost predicate IsClaimed(w: World, app: AppKey) { exists i :: Active(w, i) && w.claims[i].app == app }

  // The pending list holds the applications with an active claim, and each has one.
  ghost predicate Exclusive(w: World) {
    && Distinct(w.pending)
    && (forall app :: app in w.pending ==> IsClaimed(w, app))
    && (forall i :: Active(w, i) ==> w.claims[i].app in w.pending && w.claims[i].app in w.apps)
    && (forall i, j :: Active(w, i) && Active(w, j) && w.claims[i].app == w.claims[j].app ==> i == j)
  }

  // What a claim knows about the shared state as long as no other claim interferes.
  predicate Progress(a: Shared, p: Phase) {
    match p
    case Started(data) => a.cache == Some(data)
    case Answered(data, ok) => a.cache == Some(data) && (ok ==> a.device == Claimed(data))
    case Inserting(data, cached) => cached == data && a.device == Claimed(data)
    case StoringCert(data, cached) => cached == data && a.device == Claimed(data) && a.row == Some(Row(SyncOk, None, None))
    case StoringManifest(data, cached) =>
      cached == data && a.device == Claimed(data) && a.row == Some(Row(SyncOk, Some(data.cert), None))
    case MustReset => a.device.Claimed?
    case _ => true
  }

  ghost predicate Inv(w: World) {
    Exclusive(w) && forall i :: Active(w, i) ==> Progress(w.apps[w.claims[i].app], w.claims[i].phase)
  }

  lemma MoveKeepsProgress(a: Shared, p: Phase, m: Move)
    requires Progress(a, p) && CanMove(a, p, m)
    ensures Progress(AfterMove(a, p, m).0, AfterMove(a, p, m).1)
  {
  }

  lemma {:induction false} ErasedExactly(list: seq<AppKey>, app: AppKey)
    requires Distinct(list)
    ensures forall k :: k in Erased(list, app) <==> k in list && k != app
    ensures Distinct(Erased(list, app))
  {
    if list != [] {
      assert forall i :: 0 <= i < |list[1..]| ==> list[1..][i] == list[i + 1];
      ErasedExactly(list[1..], app);
      assert list == [list[0]] + list[1..];
      if list[0] != app {
        var rest := Erased(list[1..], app);
        forall i, j | 0 <= i < j < |[list[0]] + rest| ensures ([list[0]] + rest)[i] != ([list[0]] + rest)[j] {
          assert ([list[0]] + rest)[j] == rest[j - 1] && rest[j - 1] in list[1..];
          if i > 0 {
            assert ([list[0]] + rest)[i] == rest[i - 1];
          }
        }
      }
    }
  }

  lemma StepKeepsExclusive(w: World, s: Step)
    requires Exclusive(w) && Can(w, s)
    ensures Exclusive(After(w, s))
  {
    var w' := After(w, s);
    if s.Go? {
      ErasedExactly(w.pending, w.claims[s.call].app);
      forall i | Active(w', i) ensures Active(w, i) && w'.claims[i].app == w.claims[i].app {
        assert i == s.call ==> !Returned(w.claims[s.call].phase);
      }
      forall i | Active(w', i) ensures w'.claims[i].app in w'.pending && w'.claims[i].app in w'.apps {
        if !Active(w', s.call) && i != s.call {
          assert Active(w, s.call);
        }
      }
      forall app | app in w'.pending ensures IsClaimed(w', app) {
        var i :| Active(w, i) && w.claims[i].app == app;
        assert Active(w', i);
      }
    } else {
      forall app | app in w'.pending ensures IsClaimed(w', app) {
        if app in w.pending {
          var i :| Active(w, i) && w.claims[i].app == app;
          assert Active(w', i);
        } else {
          assert Active(w', s.call);
        }
      }
    }
  }

  lemma StepKeepsInv(w: World, s: Step)
    requires Inv(w) && Can(w, s)
    ensures Inv(After(w, s))
  {
    var w' := After(w, s);
    StepKeepsExclusive(w, s);
    forall i | Active(w', i) ensures Progress(w'.apps[w'.claims[i].app], w'.claims[i].phase) {
      if s.Go? {
        var app := w.claims[s.call].app;
        assert Active(w, s.call);
        if i == s.call {
          MoveKeepsProgress(w.apps[app], w.claims[i].phase, s.move);
        } else {
          assert Active(w, i) && w.claims[i].app != app;
        }
      } else if i != s.call {
        assert Active(w, i);
      }
    }
  }

  // ---------------------------------------------------------------- runs

  ghost predicate IsRun(states: seq<World>, steps: seq<Step>) {
    && |states| == |steps| + 1
    && states[0].pending == [] && states[0].claims == map[]
    && forall i :: 0 <= i < |steps| ==> Can(states[i], steps[i]) && states[i + 1] == After(states[i], steps[i])
  }

  lemma {:induction false} RunKeepsInv(states: seq<World>, steps: seq<Step>, i: nat)
    requires IsRun(states, steps) && i < |states|
    ensures Inv(states[i])
  {
    if i > 0 {
      RunKeepsInv(states, steps, i - 1);
      StepKeepsInv(states[i - 1], steps[i - 1]);
    }
  }

  // The call has made the move before step i.
  predicate Made(steps: seq<Step>, call: nat, move: Move, i: nat) {
    exists j :: 0 <= j < i && j < |steps| && steps[j] == Go(call, move)
  }

  // What a claim carries along was approved and issued in it.
  predicate Carries(steps: seq<Step>, call: nat, i: nat, p: Phase) {
    match p
    case Approved(manifest) => Made(steps, call, Approve(manifest), i)
    case Listed => true
    case MustReset => true
    case Failed => true
    case _ => Made(steps, call, Approve(p.data.manifest), i) && Made(steps, call, Start(p.data.cert), i)
  }

  lemma MadeGrows(steps: seq<Step>, call: nat, move: Move, i: nat)
    requires i < |steps|
    ensures Made(steps, call, move, i + 1) <==> Made(steps, call, move, i) || steps[i] == Go(call, move)
  {
  }

  lemma CarriesStill(steps: seq<Step>, call: nat, i: nat, p: Phase)
    requires i < |steps| && Carries(steps, call, i, p)
    ensures Carries(steps, call, i + 1, p)
  {
    if p.Approved? {
      MadeGrows(steps, call, Approve(p.manifest), i);
    } else if !p.Listed? && !p.MustReset? && !p.Failed? {
      MadeGrows(steps, call, Approve(p.data.manifest), i);
      MadeGrows(steps, call, Start(p.data.cert), i);
    }
  }

  lemma MoveCarries(steps: seq<Step>, call: nat, i: nat, a: Shared, p: Phase, m: Move)
    requires i < |steps| && steps[i] == Go(call, m) && CanMove(a, p, m) && Carries(steps, call, i, p)
    ensures Carries(steps, call, i + 1, AfterMove(a, p, m).1)
  {
    CarriesStill(steps, call, i, p);
    MadeGrows(steps, call, m, i);
  }

  lemma {:induction false} ClaimCarries(states: seq<World>, steps: seq<Step>, call: nat, i: nat)
    requires IsRun(states, steps) && i < |states| && call in states[i].claims
    ensures Carries(steps, call, i, states[i].claims[call].phase)
  {
    if i > 0 && call in states[i - 1].claims {
      var w, s := states[i - 1], steps[i - 1];
      ClaimCarries(states, steps, call, i - 1);
      if s.Go? && s.call == call {
        MoveCarries(steps, call, i - 1, w.apps[w.claims[call].app], w.claims[call].phase, s.move);
      } else {
        CarriesStill(steps, call, i - 1, w.claims[call].phase);
      }
    }
  }

  // A claim that returns ER_OK has committed exactly what the device received: the manifest that was approved
  // and the certificate that was issued in it, whatever other claims did in between.
  lemma SuccessCommitsWhatWasSent(states: seq<World>, steps: seq<Step>, i: nat, call: nat)
    requires IsRun(states, steps) && i < |steps|
    requires Active(states[i], call) && call in states[i + 1].claims && states[i + 1].claims[call].phase.Succeeded?
    ensures var w := states[i + 1];
            var app, data := w.claims[call].app, w.claims[call].phase.data;
            && app in w.apps
            && w.apps[app].row == Some(Row(SyncOk, Some(data.cert), Some(data.manifest)))
            && w.apps[app].device == Claimed(data)
            && Made(steps, call, Approve(data.manifest), i) && Made(steps, call, Start(data.cert), i)
  {
    ClaimCarries(states, steps, call, i);
    RunKeepsInv(states, steps, i);
    assert steps[i] == Go(call, steps[i].move);
  }

  // At any time an application has at most one claim that has not returned.
  lemma OneClaimPerApplication(states: seq<World>, steps: seq<Step>, k: nat, i: nat, j: nat)
    requires IsRun(states, steps) && k < |states|
    requires Active(states[k], i) && Active(states[k], j) && i != j
    ensures states[k].claims[i].app != states[k].claims[j].app
  {
    RunKeepsInv(states, steps, k);
  }

  // A commit that fails takes its row away again exactly if undoing the insertion works; either way the
  // device is to be reset.
  lemma FailedCommitIsUndoneExactly(a: Shared, p: Phase, m: Move)
    requires Progress(a, p) && CanMove(a, p, m) && (m.StoreCert? || m.StoreManifest?) && !m.works
    ensures AfterMove(a, p, m).1 == MustReset
    ensures AfterMove(a, p, m).0.row.None? <==> m.removed
  {
  }

  // A claim is admitted exactly if the application has no other active claim.
  lemma AdmittedExactly(states: seq<World>, steps: seq<Step>, i: nat)
    requires IsRun(states, steps) && i < |steps| && steps[i].Begin?
    ensures var call := steps[i].call;
            && call in states[i + 1].claims
            && states[i + 1].claims[call] == Claim(steps[i].app, if IsClaimed(states[i], steps[i].app) then Failed else Listed)
  {
    RunKeepsInv(states, steps, i);
    assert steps[i].app !in states[i].pending ==> !IsClaimed(states[i], steps[i].app);
  }

  // ---------------------------------------------------------------- claims on which everything works

  predicate Works(m: Move) {
    match m
    case AskDevice(works) => works
    case InsertRow(works) => works
    case StoreCert(works, _) => works
    case StoreManifest(works, _) => works
    case ResetDevice(_) => false
    case GiveUp => false
    case _ => true
  }

  // How many moves a claim is away from success.
  function Left(p: Phase): nat {
    match p
    case Listed => 7
    case Approved(_) => 6
    case Started(_) => 5
    case Answered(_, _) => 4
    case Inserting(_, _) => 3
    case StoringCert(_, _) => 2
    case StoringManifest(_, _) => 1
    case _ => 0
  }

  // The claim can still succeed: the device and the database accept what it has not done yet.
  predicate OnCourse(a: Shared, p: Phase) {
    match p
    case Listed => a.device.Unclaimed? && a.row.None?
    case Approved(_) => a.device.Unclaimed? && a.row.None?
    case Started(_) => a.device.Unclaimed? && a.row.None?
    case Answered(_, ok) => ok && a.row.None?
    case Inserting(_, _) => a.row.None?
    case MustReset => false
    case Failed => false
    case _ => true
  }

  lemma WorkingMoveStaysOnCourse(a: Shared, p: Phase, m: Move)
    requires Progress(a, p) && OnCourse(a, p) && CanMove(a, p, m) && Works(m)
    ensures var (a', p') := AfterMove(a, p, m);
            OnCourse(a', p') && Left(p') + 1 == Left(p)
  {
  }

  // Some move that works is possible until the claim has succeeded.
  lemma WorkingMoveIsPossible(a: Shared, p: Phase) returns (m: Move)
    requires Progress(a, p) && OnCourse(a, p)
    ensures !p.Succeeded? ==> CanMove(a, p, m) && Works(m)
  {
    m := match p
      case Listed => Approve([])
      case Approved(_) => Start(CertId("", ""))
      case Started(_) => AskDevice(true)
      case Answered(_, _) => Finish
      case Inserting(_, _) => InsertRow(true)
      case StoringCert(_, _) => StoreCert(true, true)
      case _ => StoreManifest(true, true);
  }

  lemma NothingLeft(a: Shared, p: Phase)
    requires p.Succeeded? || OnCourse(a, p)
    ensures Left(p) == 0 <==> p.Succeeded?
  {
  }

  predicate IsMoveOf(s: Step, call: nat) { s.Go? && s.call == call }

  // How many of the steps from..k are moves of a claim.
  function MovesOf(steps: seq<Step>, call: nat, from: nat, k: nat): nat
    requires from <= k <= |steps|
    decreases k
  {
    if k == from then 0
    else if IsMoveOf(steps[k - 1], call) then MovesOf(steps, call, from, k - 1) + 1
    else MovesOf(steps, call, from, k - 1)
  }

  // A claim is admitted for an unclaimed application without a row, and all its moves work.
  ghost predicate Undisturbed(states: seq<World>, steps: seq<Step>, i: nat, call: nat, app: AppKey) {
    && IsRun(states, steps) && i < |steps| && steps[i] == Begin(call, app)
    && !IsClaimed(states[i], app) && states[i].apps[app].device.Unclaimed? && states[i].apps[app].row.None?
    && forall k :: i < k < |steps| && IsMoveOf(steps[k], call) ==> Works(steps[k].move)
  }

  ghost predicate Advances(w: World, call: nat, app: AppKey) {
    && call in w.claims && w.claims[call].app == app && app in w.apps
    && (w.claims[call].phase.Succeeded? || OnCourse(w.apps[app], w.claims[call].phase))
  }

  lemma StepKeepsAdvancing(w: World, s: Step, call: nat, app: AppKey)
    requires Inv(w) && Can(w, s) && Advances(w, call, app)
    requires IsMoveOf(s, call) ==> Works(s.move)
    ensures Advances(After(w, s), call, app)
    ensures Left(After(w, s).claims[call].phase) + (if IsMoveOf(s, call) then 1 else 0) == Left(w.claims[call].phase)
  {
    if s.Go? {
      assert Active(w, s.call);
      if s.call == call {
        WorkingMoveStaysOnCourse(w.apps[app], w.claims[call].phase, s.move);
      } else if !w.claims[call].phase.Succeeded? {
        assert Active(w, call);
      }
    }
  }

  lemma UndisturbedStarts(states: seq<World>, steps: seq<Step>, i: nat, call: nat, app: AppKey)
    requires Undisturbed(states, steps, i, call, app)
    ensures Advances(states[i + 1], call, app) && Left(states[i + 1].claims[call].phase) == 7
  {
    AdmittedExactly(states, steps, i);
  }

  lemma UndisturbedAdvances(states: seq<World>, steps: seq<Step>, i: nat, call: nat, app: AppKey, k: nat)
    requires Undisturbed(states, steps, i, call, app) && i < k < |steps| && Advances(states[k], call, app)
    ensures Advances(states[k + 1], call, app)
    ensures Left(states[k + 1].claims[call].phase) + (if IsMoveOf(steps[k], call) then 1 else 0) == Left(states[k].claims[call].phase)
  {
    RunKeepsInv(states, steps, k);
    StepKeepsAdvancing(states[k], steps[k], call, app);
  }

  // Whatever other claims do in between, each move brings such a claim nearer to success.
  lemma {:induction false} WorkingClaimAdvances(states: seq<World>, steps: seq<Step>, i: nat, call: nat, app: AppKey, k: nat)
    requires Undisturbed(states, steps, i, call, app) && i < k <= |steps|
    ensures Advances(states[k], call, app)
    ensures MovesOf(steps, call, i + 1, k) + Left(states[k].claims[call].phase) == 7
  {
    if k == i + 1 {
      UndisturbedStarts(states, steps, i, call, app);
    } else {
      var before := k - 1;
      WorkingClaimAdvances(states, steps, i, call, app, before);
      UndisturbedAdvances(states, steps, i, call, app, before);
      if IsMoveOf(steps[before], call) {
        assert MovesOf(steps, call, i + 1, k) == MovesOf(steps, call, i + 1, before) + 1;
      }
    }
  }

  // A claim on which everything works succeeds with its seventh move and not before.
  lemma WorkingClaimSucceeds(states: seq<World>, steps: seq<Step>, i: nat, call: nat, app: AppKey, k: nat)
    requires Undisturbed(states, steps, i, call, app) && i < k <= |steps|
    ensures call in states[k].claims
    ensures states[k].claims[call].phase.Succeeded? <==> MovesOf(steps, call, i + 1, k) == 7
    ensures states[k].claims[call].phase.Succeeded? || Active(states[k], call)
  {
    WorkingClaimAdvances(states, steps, i, call, app, k);
    NothingLeft(states[k].apps[app], states[k].claims[call].phase);
  }

  // Until then it can always make a further move on which everything works.
  lemma WorkingClaimCanMove(states: seq<World>, steps: seq<Step>, i: nat, call: nat, app: AppKey, k: nat) returns (m: Move)
    requires Undisturbed(states, steps, i, call, app) && i < k <= |steps|
    ensures call in states[k].claims
    ensures states[k].claims[call].phase.Succeeded? || (Can(states[k], Go(call, m)) && Works(m))
  {
    WorkingClaimAdvances(states, steps, i, call, app, k);
    RunKeepsInv(states, steps, k);
    m := GiveUp;
    if !states[k].claims[call].phase.Succeeded? {
      assert Active(states[k], call);
      m := WorkingMoveIsPossible(states[k].apps[app], states[k].claims[call].phase);
    }
  }

  // ---------------------------------------------------------------- claims that fail

  predicate AfterAnswer(p: Phase) {
    match p
    case Answered(_, ok) => ok
    case _ => p.Inserting? || p.StoringCert? || p.StoringManifest? || p.MustReset?
  }

  lemma {:induction false} ActiveAfterAnswer(states: seq<World>, steps: seq<Step>, call: nat, i: nat)
    requires IsRun(states, steps) && i < |states|
    ensures call !in states[i].claims ==> !Made(steps, call, AskDevice(true), i)
    ensures Active(states[i], call) ==> (AfterAnswer(states[i].claims[call].phase) <==> Made(steps, call, AskDevice(true), i))
  {
    if i > 0 {
      ActiveAfterAnswer(states, steps, call, i - 1);
      MadeGrows(steps, call, AskDevice(true), i - 1);
    }
  }

  // A claim that fails leaves a device that it has claimed unclaimed exactly if its reset works, and does
  // not touch the device otherwise.
  lemma FailedClaimIsResetExactly(states: seq<World>, steps: seq<Step>, i: nat, call: nat)
    requires IsRun(states, steps) && i < |steps|
    requires Active(states[i], call) && states[i + 1].claims[call].phase.Failed?
    ensures var app := states[i].claims[call].app;
            && app in states[i].apps && app in states[i + 1].apps
            && (Made(steps, call, AskDevice(true), i) ==>
                  (states[i + 1].apps[app].device.Unclaimed? <==> steps[i] == Go(call, ResetDevice(true))))
            && (!Made(steps, call, AskDevice(true), i) ==> states[i + 1].apps[app].device == states[i].apps[app].device)
  {
    RunKeepsInv(states, steps, i);
    ActiveAfterAnswer(states, steps, call, i);
    assert steps[i] == Go(call, steps[i].move);
  }
}
