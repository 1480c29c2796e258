// A decision to reset an application is final, even when several updaters work on it at once: what
// remains of the protocol when tables are left out.
module ResetProtocol {
  import opened Base

  // An updater between StartUpdates and UpdatesCompleted.
  datatype Ticket = Ticket(tid: nat, st: SyncState)

  datatype Store = Store(counter: nat, row: Option<SyncState>, deviceClaimed: bool, tickets: map<nat, Ticket>)

  // An updater that finds SyncWillReset resets the device, or does nothing because the application was
  // reported as not claimed; the report may be out of date. DropRow stands for RemoveApplication, called by
  // the UI or to take back the insertion of a claim that failed.
  datatype Step =
    | Begin(updater: nat)
    | Pushed(updater: nat)
    | DeviceReset(updater: nat)
    | ReportedUnclaimed(updater: nat)
    | Complete(updater: nat, writes: bool)
    | Leave(updater: nat)
    | Announce(writes: bool)
    | MarkReset(writes: bool)
    | Claimed
    | DropRow

  predicate Can(s: Store, e: Step) {
    match e
    case Begin(u) => u !in s.tickets && s.row.Some?
    case Pushed(u) => u in s.tickets && !s.tickets[u].st.SyncWillReset? && !s.tickets[u].st.SyncReset?
    case DeviceReset(u) => u in s.tickets && s.tickets[u].st.SyncWillReset?
    case ReportedUnclaimed(u) => u in s.tickets && s.tickets[u].st.SyncWillReset?
    case Complete(u, _) => u in s.tickets
    case Leave(u) => u in s.tickets
    case Announce(_) => s.row.Some?
    case MarkReset(writes) => writes ==> s.row.Some?
    case Claimed => s.row.None?
    case DropRow => true
  }

  function Do(s: Store, e: Step): Store
    requires Can(s, e)
  {
    match e
    case Begin(u) => s.(tickets := s.tickets[u := Ticket(s.counter, s.row.value)])
    case Pushed(u) => s.(tickets := s.tickets[u := s.tickets[u].(st := SyncOk)])
    case DeviceReset(u) => s.(deviceClaimed := false, tickets := s.tickets[u := s.tickets[u].(st := SyncReset)])
    case ReportedUnclaimed(u) => s.(tickets := s.tickets[u := s.tickets[u].(st := SyncReset)])
    case Complete(u, writes) =>
      var t := s.tickets[u];
      var done := s.(tickets := Without(s.tickets, u));
      (match Completed(s.row, s.counter, t.st, t.tid, writes)
       case RowRemoved => done.(row := None)
       case Restarted => s.(tickets := s.tickets[u := Ticket(s.counter, s.row.value)])
       case Persisted => done.(row := Some(SyncOk))
       case NothingDone => done)
    case Leave(u) => s.(tickets := Without(s.tickets, u))
    case Announce(writes) =>
      s.(counter := s.counter + 1, row := if writes then Some(AnnouncedState(s.row.value)) else s.row)
    case MarkReset(writes) => s.(counter := s.counter + 1, row := if writes then Some(SyncWillReset) else s.row)
    case Claimed => s.(row := Some(SyncOk), deviceClaimed := true)
    case DropRow => s.(row := None)
  }

  // A ticket as recent as the counter has seen the decision; older ones will have to restart.
  ghost predicate Inv(s: Store) {
    && s.row != Some(SyncReset)
    && forall u :: u in s.tickets ==>
         var t := s.tickets[u];
         && t.tid <= s.counter
         && (s.row == Some(SyncWillReset) && t.tid == s.counter ==> t.st.SyncWillReset? || t.st.SyncReset?)
  }

  lemma StepKeepsInv(s: Store, e: Step)
    requires Inv(s) && Can(s, e)
    ensures Inv(Do(s, e))
  {
  }

  // The only ways out of SyncWillReset: an updater with SyncReset removes the row, or the row is dropped.
  lemma OnlyResetRemoves(s: Store, e: Step)
    requires Inv(s) && Can(s, e) && s.row == Some(SyncWillReset)
    ensures Do(s, e).row == Some(SyncWillReset)
         || (Do(s, e).row == None && (e.DropRow? || (e.Complete? && s.tickets[e.updater].st.SyncReset?)))
  {
  }

  ghost predicate IsRun(states: seq<Store>, steps: seq<Step>) {
    && |states| == |steps| + 1
    && states[0].counter == 0 && states[0].row.None? && states[0].tickets == map[]
    && forall i :: 0 <= i < |steps| ==> Can(states[i], steps[i]) && states[i + 1] == Do(states[i], steps[i])
  }

  lemma {:induction false} RunKeepsInv(states: seq<Store>, steps: seq<Step>, i: nat)
    requires IsRun(states, steps) && i < |states|
    ensures Inv(states[i])
  {
    if i > 0 {
      RunKeepsInv(states, steps, i - 1);
      StepKeepsInv(states[i - 1], steps[i - 1]);
    }
  }

  // ---------------------------------------------------------------- evidence

  predicate IsStepOf(e: Step, u: nat) {
    (e.Begin? || e.Pushed? || e.DeviceReset? || e.ReportedUnclaimed? || e.Complete? || e.Leave?) && e.updater == u
  }

  // A ticket with SyncReset got it in the last step of its updater.
  lemma {:induction false} ResetHasEvidence(states: seq<Store>, steps: seq<Step>, u: nat, i: nat) returns (j: nat)
    requires IsRun(states, steps) && i < |states| && u in states[i].tickets && states[i].tickets[u].st.SyncReset?
    ensures j < i && steps[j] in {DeviceReset(u), ReportedUnclaimed(u)}
    ensures steps[j] == DeviceReset(u) ==> !states[j + 1].deviceClaimed
    ensures forall m :: j < m < i ==> !IsStepOf(steps[m], u)
  {
    RunKeepsInv(states, steps, i - 1);
    var s, e := states[i - 1], steps[i - 1];
    assert Can(s, e) && states[i] == Do(s, e);
    if IsStepOf(e, u) {
      j := i - 1;
    } else {
      j := ResetHasEvidence(states, steps, u, i - 1);
    }
  }

  // A completed transaction removes a row only if its updater reset the device, or took it for reset, after
  // it had found SyncWillReset.
  lemma RemovalHasEvidence(states: seq<Store>, steps: seq<Step>, i: nat) returns (j: nat)
    requires IsRun(states, steps) && i < |steps| && steps[i].Complete? && states[i].row.Some? && states[i + 1].row.None?
    ensures var u := steps[i].updater;
            && j < i && steps[j] in {DeviceReset(u), ReportedUnclaimed(u)}
            && u in states[j].tickets && states[j].tickets[u].st.SyncWillReset?
            && (steps[j] == DeviceReset(u) ==> !states[j + 1].deviceClaimed)
            && forall m :: j < m < i ==> !IsStepOf(steps[m], u)
  {
    assert Can(states[i], steps[i]) && states[i + 1] == Do(states[i], steps[i]);
    j := ResetHasEvidence(states, steps, steps[i].updater, i);
    assert Can(states[j], steps[j]);
  }

  // Once SyncWillReset is stored it stays, in every run and for any number of updaters, until the row is
  // dropped or an updater removes it after it reset the device or took it for reset.
  lemma {:induction false} WillResetIsAbsorbing(states: seq<Store>, steps: seq<Step>, i: nat, j: nat)
    requires IsRun(states, steps) && i <= j < |states| && states[i].row == Some(SyncWillReset)
    ensures states[j].row == Some(SyncWillReset)
         || exists m :: i <= m < j && states[m].row == Some(SyncWillReset) && states[m + 1].row.None?
                        && (steps[m].DropRow? || (steps[m].Complete? && states[m].tickets[steps[m].updater].st.SyncReset?))
  {
    if i < j {
      WillResetIsAbsorbing(states, steps, i, j - 1);
      RunKeepsInv(states, steps, j - 1);
      if states[j - 1].row == Some(SyncWillReset) {
        assert Can(states[j - 1], steps[j - 1]) && states[j] == Do(states[j - 1], steps[j - 1]);
        OnlyResetRemoves(states[j - 1], steps[j - 1]);
      }
    }
  }

  // With several updaters a reset may be old: two of them reset the device, one removes the row, the
  // application is claimed again, and the other one removes the row of the new claim.
  lemma SecondUpdaterRemovesNewClaim() returns (states: seq<Store>, steps: seq<Step>)
    ensures IsRun(states, steps) && |steps| == 9
    ensures states[7].row.None? && states[8].row == Some(SyncOk) && states[8].deviceClaimed
    ensures steps[8].Complete? && states[9].row.None? && states[9].deviceClaimed
  {
    var found, done := Ticket(1, SyncWillReset), Ticket(1, SyncReset);
    steps := [Claimed, MarkReset(true), Begin(0), Begin(1), DeviceReset(0), DeviceReset(1), Complete(0, true), Claimed, Complete(1, true)];
    states := [
      Store(0, None, false, map[]),
      Store(0, Some(SyncOk), true, map[]),
      Store(1, Some(SyncWillReset), true, map[]),
      Store(1, Some(SyncWillReset), true, map[0 := found]),
      Store(1, Some(SyncWillReset), true, map[0 := found, 1 := found]),
      Store(1, Some(SyncWillReset), false, map[0 := done, 1 := found]),
      Store(1, Some(SyncWillReset), false, map[0 := done, 1 := done]),
      Store(1, None, false, map[1 := done]),
      Store(1, Some(SyncOk), true, map[1 := done]),
      Store(1, None, true, map[])];
    assert Do(states[6], steps[6]).tickets == map[1 := done];
    assert Do(states[8], steps[8]).tickets == map[];
  }
}
