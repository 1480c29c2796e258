// Left alone, with storage and remote calls succeeding, one transaction of the updater is enough: it
// removes an application that waits for its reset, and brings any other one in sync.
module Convergence {
  import opened Base
  import opened SyncProtocol

  ghost predicate Leads(from: (nat, App), events: seq<Event>, to: (nat, App))
    decreases |events|
  {
    if events == [] then from == to
    else Enabled(from.1, events[0]) && Leads(After(from.0, from.1, events[0]), events[1..], to)
  }

  lemma {:induction false} LeadsOn(a: (nat, App), es: seq<Event>, b: (nat, App), fs: seq<Event>, c: (nat, App))
    requires Leads(a, es, b) && Leads(b, fs, c)
    ensures Leads(a, es + fs, c)
    decreases |es|
  {
    if es == [] {
      assert es + fs == fs;
    } else {
      assert (es + fs)[1..] == es[1..] + fs;
      LeadsOn(After(a.0, a.1, es[0]), es[1..], b, fs, c);
    }
  }

  lemma ThenOne(a: (nat, App), es: seq<Event>, b: (nat, App), e: Event) returns (es': seq<Event>)
    requires Leads(a, es, b) && Enabled(b.1, e)
    ensures es' == es + [e] && Leads(a, es', After(b.0, b.1, e))
  {
    assert Leads(After(b.0, b.1, e), [], After(b.0, b.1, e));
    assert Leads(b, [e], After(b.0, b.1, e));
    LeadsOn(a, es, b, [e], After(b.0, b.1, e));
    es' := es + [e];
  }

  // ---------------------------------------------------------------- one transaction

  // Everything UpdateApplication needs to push the configuration is there.
  predicate Ready(a: App) {
    && a.updater.pc.Idle? && a.tables.row in {Some(SyncOk), Some(SyncPending)}
    && a.tables.identity.Some? && a.tables.manifest.Some? && a.device.Claimed?
  }

  // In sync with what is stored.
  function InSync(a: App): App
    requires Ready(a)
  {
    a.(updater := IDLE,
       tables := a.tables.(row := Some(SyncOk)),
       device := Claimed(Ids(a.tables), [a.tables.identity.value], PushedPolicy(a.tables.policy, a.device.policy)))
  }

  // The steps of an updater for which every statement and every remote call works.
  predicate Works(e: UpdaterEvent) {
    !e.PushFails? && !e.GiveUp? && !e.ResetFails? && !e.AlreadyReset? && (e.Complete? ==> e.stored)
  }

  predicate Reading(pc: Pc) { pc.Looping? || pc.GotMemberships? || pc.GotIdentity? || pc.GotManifest? || pc.GotPolicy? }

  // The local variables of the updater at each position, apart from what is left to push.
  function At(counter: nat, t: Tables, pc: Pc): Updater
    requires t.row.Some?
  {
    var u := IDLE.(pc := pc, tid := counter, st := if pc.Finishing? then SyncOk else t.row.value,
                   clean := true, first := counter, rounds := 1);
    if pc.Looping? then u
    else if pc.GotMemberships? then u.(memberships := Ids(t))
    else if pc.GotIdentity? || pc.GotManifest? then u.(memberships := Ids(t), identity := t.identity)
    else u.(memberships := Ids(t), identity := t.identity, policy := t.policy)
  }

  // `a` is what the application looks like in the middle of a transaction that began with `from`.
  predicate OnTheWay(counter: nat, from: App, a: App)
    requires Ready(from)
  {
    var u, d, pc, goal := a.updater, a.device, a.updater.pc, Ids(from.tables);
    && a == from.(updater := u, device := d) && d.Claimed? && !pc.Idle?
    && u == At(counter, from.tables, pc).(install := u.install, remove := u.remove)
    && (Reading(pc) ==> d == from.device && u.install == {} && u.remove == {})
    && (pc.Installing? ==> d == from.device.(memberships := d.memberships) && u.install == goal - d.memberships
                           && u.remove == d.memberships - goal)
    && (pc.Removing? ==> d == from.device.(memberships := d.memberships) && u.install == {}
                         && u.remove == d.memberships - goal && goal <= d.memberships)
    && (pc.PushingIdentity? ==> d == from.device.(memberships := goal) && u.install == {} && u.remove == {})
    && (pc.PushingPolicy? ==> d == from.device.(memberships := goal, identity := [from.tables.identity.value])
                              && u.install == {} && u.remove == {})
    && (pc.Finishing? ==> d == InSync(from).device && u.install == {} && u.remove == {})
  }

  function StepsLeft(from: App, a: App): nat
    requires from.device.Claimed?
  {
    var u, goal := a.updater, Ids(from.tables);
    var toPush := 6 + |goal - from.device.memberships| + |from.device.memberships - goal|;
    match u.pc
    case Looping => toPush + 4
    case GotMemberships => toPush + 3
    case GotIdentity => toPush + 2
    case GotManifest => toPush + 1
    case GotPolicy => toPush
    case Installing => 5 + |u.install| + |u.remove|
    case Removing => 4 + |u.remove|
    case PushingIdentity => 3
    case PushingPolicy => 2
    case Finishing => 1
    case Idle => 0
  }

  lemma Begins(counter: nat, from: App)
    requires Ready(from)
    ensures var a := AfterUpdater(counter, from, Start);
            OnTheWay(counter, from, a)
            && StepsLeft(from, a) == 10 + |Ids(from.tables) - from.device.memberships| + |from.device.memberships - Ids(from.tables)|
  {
  }

  lemma OneLess(s: set<CertId>, id: CertId)
    requires id in s
    ensures |s - {id}| == |s| - 1
  {
  }

  // A step that stays on the way with one step less to go, or arrives.
  predicate StepsOn(counter: nat, from: App, a: App, e: UpdaterEvent)
    requires Ready(from) && UpdaterEnabled(a, e)
  {
    var a' := AfterUpdater(counter, a, e);
    if e.Complete? then a' == InSync(from) && StepsLeft(from, a) == 1
    else OnTheWay(counter, from, a') && StepsLeft(from, a') == StepsLeft(from, a) - 1
  }

  lemma FirstReadsStepOn(counter: nat, from: App, a: App, e: UpdaterEvent)
    requires Ready(from) && OnTheWay(counter, from, a) && UpdaterEnabled(a, e) && Works(e)
    requires a.updater.pc.Looping? || a.updater.pc.GotMemberships?
    ensures StepsOn(counter, from, a, e)
  {
  }

  lemma LastReadsStepOn(counter: nat, from: App, a: App, e: UpdaterEvent)
    requires Ready(from) && OnTheWay(counter, from, a) && UpdaterEnabled(a, e) && Works(e)
    requires a.updater.pc.GotIdentity? || a.updater.pc.GotManifest?
    ensures StepsOn(counter, from, a, e)
  {
  }

  lemma SummarizeStepsOn(counter: nat, from: App, a: App)
    requires Ready(from) && OnTheWay(counter, from, a) && UpdaterEnabled(a, Summarize)
    ensures StepsOn(counter, from, a, Summarize)
  {
  }

  lemma InstallStepsOn(counter: nat, from: App, a: App, id: CertId)
    requires Ready(from) && OnTheWay(counter, from, a) && UpdaterEnabled(a, Install(id))
    ensures StepsOn(counter, from, a, Install(id))
  {
    var u, d, goal := a.updater, a.device, Ids(from.tables);
    OneLess(u.install, id);
    assert u.install - {id} == goal - (d.memberships + {id});
    assert (d.memberships + {id}) - goal == d.memberships - goal;
  }

  lemma RemoveStepsOn(counter: nat, from: App, a: App, id: CertId)
    requires Ready(from) && OnTheWay(counter, from, a) && UpdaterEnabled(a, Remove(id))
    ensures StepsOn(counter, from, a, Remove(id))
  {
    OneLess(a.updater.remove, id);
    assert a.updater.remove - {id} == (a.device.memberships - {id}) - Ids(from.tables);
  }

  lemma AllInstalled(counter: nat, from: App, a: App)
    requires Ready(from) && OnTheWay(counter, from, a) && a.updater.pc.Installing? && a.updater.install == {}
    ensures StepsOn(counter, from, a, NextPush)
  {
    var goal := Ids(from.tables);
    assert forall id :: id in goal ==> id in a.device.memberships || id in a.updater.install;
    assert goal <= a.device.memberships;
    assert 5 + |a.updater.install| + |a.updater.remove| == 1 + 4 + |a.updater.remove|;
  }

  lemma AllRemoved(counter: nat, from: App, a: App)
    requires Ready(from) && OnTheWay(counter, from, a) && a.updater.pc.Removing? && a.updater.remove == {}
    ensures StepsOn(counter, from, a, NextPush)
  {
    assert forall id :: id in a.device.memberships ==> id in Ids(from.tables) || id in a.updater.remove;
    assert a.device.memberships == Ids(from.tables);
  }

  lemma LastStepsOn(counter: nat, from: App, a: App, e: UpdaterEvent)
    requires Ready(from) && OnTheWay(counter, from, a) && UpdaterEnabled(a, e) && Works(e)
    requires a.updater.pc.PushingIdentity? || a.updater.pc.PushingPolicy? || a.updater.pc.Finishing?
    ensures StepsOn(counter, from, a, e)
  {
  }

  // Whichever step comes next.
  lemma EveryStepStepsOn(counter: nat, from: App, a: App, e: UpdaterEvent)
    requires Ready(from) && OnTheWay(counter, from, a) && UpdaterEnabled(a, e) && Works(e)
    ensures StepsOn(counter, from, a, e)
  {
    match e
    case Summarize => SummarizeStepsOn(counter, from, a);
    case Install(id) => InstallStepsOn(counter, from, a, id);
    case Remove(id) => RemoveStepsOn(counter, from, a, id);
    case NextPush =>
      if a.updater.pc.Installing? {
        AllInstalled(counter, from, a);
      } else {
        AllRemoved(counter, from, a);
      }
    case _ =>
      if a.updater.pc.Looping? || a.updater.pc.GotMemberships? {
        FirstReadsStepOn(counter, from, a, e);
      } else if a.updater.pc.GotIdentity? || a.updater.pc.GotManifest? {
        LastReadsStepOn(counter, from, a, e);
      } else {
        LastStepsOn(counter, from, a, e);
      }
  }

  // There is always such a step.
  lemma StepExists(counter: nat, from: App, a: App) returns (e: UpdaterEvent)
    requires Ready(from) && OnTheWay(counter, from, a)
    ensures UpdaterEnabled(a, e) && Works(e)
  {
    match a.updater.pc
    case Looping => e := ReadMemberships;
    case GotMemberships => e := ReadIdentity;
    case GotIdentity => e := ReadManifest;
    case GotManifest => e := ReadPolicy;
    case GotPolicy => e := Summarize;
    case Installing =>
      if a.updater.install == {} {
        e := NextPush;
      } else {
        var id :| id in a.updater.install;
        e := Install(id);
      }
    case Removing =>
      if a.updater.remove == {} {
        e := NextPush;
      } else {
        var id :| id in a.updater.remove;
        e := Remove(id);
      }
    case PushingIdentity => e := PushIdentity;
    case PushingPolicy => e := PushPolicy;
    case Finishing => e := Complete(true);
  }

  // ---------------------------------------------------------------- all schedules

  // A schedule of working updater steps that goes no further than the end of the transaction.
  ghost predicate IsSchedule(counter: nat, a: App, es: seq<UpdaterEvent>, b: App)
    decreases |es|
  {
    if es == [] then a == b
    else
      && UpdaterEnabled(a, es[0]) && Works(es[0]) && (es[0].Complete? ==> |es| == 1)
      && IsSchedule(counter, AfterUpdater(counter, a, es[0]), es[1..], b)
  }

  lemma {:induction false} SchedulesStepOn(counter: nat, from: App, a: App, es: seq<UpdaterEvent>, b: App)
    requires Ready(from) && OnTheWay(counter, from, a) && IsSchedule(counter, a, es, b)
    ensures |es| <= StepsLeft(from, a)
    ensures |es| < StepsLeft(from, a) ==> OnTheWay(counter, from, b)
    ensures |es| == StepsLeft(from, a) ==> b == InSync(from)
    decreases |es|
  {
    if es != [] {
      var a' := AfterUpdater(counter, a, es[0]);
      EveryStepStepsOn(counter, from, a, es[0]);
      if es[0].Complete? {
        assert es[1..] == [];
      } else {
        SchedulesStepOn(counter, from, a', es[1..], b);
      }
    } else {
      assert StepsLeft(from, a) > 0;
    }
  }

  // However an undisturbed transaction is scheduled, it takes the same number of steps, one remote call per
  // membership that is missing on the device or redundant there among them; before it has taken them all
  // some step can be taken, and afterwards the device is in sync and SyncOk is stored.
  lemma Converges(counter: nat, from: App, es: seq<UpdaterEvent>, b: App)
    requires Ready(from) && es != [] && es[0] == Start && IsSchedule(counter, from, es, b)
    ensures var n := 11 + |Ids(from.tables) - from.device.memberships| + |from.device.memberships - Ids(from.tables)|;
            && |es| <= n
            && (|es| < n ==> exists e :: UpdaterEnabled(b, e) && Works(e))
            && (|es| == n ==> b == InSync(from))
  {
    var a := AfterUpdater(counter, from, Start);
    Begins(counter, from);
    SchedulesStepOn(counter, from, a, es[1..], b);
    if |es[1..]| < StepsLeft(from, a) {
      var e := StepExists(counter, from, b);
    }
  }

  // And there is such a schedule.
  lemma {:induction false} Arrives(counter: nat, from: App, a: App) returns (es: seq<Event>)
    requires Ready(from) && OnTheWay(counter, from, a)
    ensures Leads((counter, a), es, (counter, InSync(from)))
    decreases StepsLeft(from, a)
  {
    var e := StepExists(counter, from, a);
    EveryStepStepsOn(counter, from, a, e);
    var a' := AfterUpdater(counter, a, e);
    if e.Complete? {
      assert Leads((counter, a'), [], (counter, InSync(from)));
      es := [ByUpdater(e)];
    } else {
      var rest := Arrives(counter, from, a');
      es := [ByUpdater(e)] + rest;
      assert es[1..] == rest;
    }
  }

  lemma SomeScheduleConverges(counter: nat, from: App) returns (es: seq<Event>)
    requires Ready(from)
    ensures Leads((counter, from), es, (counter, InSync(from)))
  {
    var a := AfterUpdater(counter, from, Start);
    Begins(counter, from);
    var rest := Arrives(counter, from, a);
    es := [ByUpdater(Start)] + rest;
    assert es[1..] == rest;
  }

  // A device that waits for its reset is reset, and then forgotten.
  lemma ResetConverges(counter: nat, a: App)
    requires a.updater.pc.Idle? && a.tables.row == Some(SyncWillReset) && a.device.Claimed?
    ensures Leads((counter, a), [ByUpdater(Start), ByUpdater(ResetDevice), ByUpdater(Complete(true))],
              (counter, Removed(a).(updater := IDLE, device := Unclaimed)))
  {
    var s1 := After(counter, a, ByUpdater(Start));
    var s2 := After(counter, s1.1, ByUpdater(ResetDevice));
    var s3 := After(counter, s2.1, ByUpdater(Complete(true)));
    assert Leads(s3, [], s3);
    assert Leads(s2, [ByUpdater(Complete(true))], s3);
    assert [ByUpdater(ResetDevice), ByUpdater(Complete(true))][1..] == [ByUpdater(Complete(true))];
    assert Leads(s1, [ByUpdater(ResetDevice), ByUpdater(Complete(true))], s3);
    assert [ByUpdater(Start), ByUpdater(ResetDevice), ByUpdater(Complete(true))][1..]
        == [ByUpdater(ResetDevice), ByUpdater(Complete(true))];
  }
}
