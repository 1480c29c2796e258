// The task queue: a monitor with a worker thread that is started when needed, and a stop flag. The class
// has one method for each stretch of code that runs with the mutex held; the steps interleave them.
module TaskQueues {
  import opened Base

  type Task = int

  // A worker thread: started, running the handler, back from the handler, past its last unlock, gone.
  datatype Worker = Starting | Handling(task: Task) | Handled(task: Task) | Leaving | Exited

  // Queue variables, the threads around them and, for the record, what happened to the tasks. Callers of
  // Stop wait on the condition variable, are woken by its broadcast, and return.
  datatype Queue = Queue(
    running: bool, stopped: bool, list: seq<Task>, thread: Option<nat>,
    workers: seq<Worker>, waiting: set<nat>, woken: set<nat>, returned: set<nat>,
    accepted: seq<Task>, handled: seq<Task>, deleted: seq<Task>)

  const EMPTY := Queue(false, false, [], None, [], {}, {}, {}, [], [], [])

  // ---------------------------------------------------------------- steps

  datatype Step =
    | Add(task: Task)
    | Continue(worker: nat)
    | HandlerReturns(worker: nat)
    | Exit(worker: nat)
    | EnterStop(caller: nat)
    | ResumeStop(caller: nat)

  // Thread.Join only returns once the thread is gone.
  predicate Joinable(q: Queue) {
    q.thread.Some? ==> q.thread.value < |q.workers| && q.workers[q.thread.value].Exited?
  }

  predicate WantsMutex(q: Queue, w: nat) {
    w < |q.workers| && (q.workers[w].Starting? || q.workers[w].Handled?)
  }

  predicate Can(q: Queue, s: Step) {
    match s
    case Add(_) => q.stopped || q.running || Joinable(q)
    case Continue(w) => WantsMutex(q, w)
    case HandlerReturns(w) => w < |q.workers| && q.workers[w].Handling?
    case Exit(w) => w < |q.workers| && q.workers[w].Leaving?
    case EnterStop(c) => c !in q.waiting + q.woken + q.returned && (q.running || Joinable(q))
    case ResumeStop(c) => c in q.woken && (q.running || Joinable(q))
  }

  function AfterAdd(q: Queue, task: Task): Queue {
    if q.stopped then q
    else
      var q' := q.(list := q.list + [task], accepted := q.accepted + [task]);
      if q.running then q' else q'.(running := true, thread := Some(|q.workers|), workers := q.workers + [Starting])
  }

  // What the worker does between taking the mutex and giving it up again.
  function AfterContinue(q: Queue, w: nat): Queue
    requires WantsMutex(q, w)
  {
    var done := if q.workers[w].Handled? then q.deleted + [q.workers[w].task] else q.deleted;
    if !q.stopped && q.list != [] then
      q.(deleted := done, list := q.list[1..], handled := q.handled + [q.list[0]], workers := q.workers[w := Handling(q.list[0])])
    else
      q.(deleted := done + q.list, list := [], running := false, workers := q.workers[w := Leaving],
         woken := q.woken + q.waiting, waiting := {})
  }

  // One round of Stop with the mutex held.
  function AfterStopRound(q: Queue, c: nat): Queue {
    if q.running then q.(waiting := q.waiting + {c}, woken := q.woken - {c})
    else q.(thread := None, woken := q.woken - {c}, returned := q.returned + {c})
  }

  function After(q: Queue, s: Step): Queue
    requires Can(q, s)
  {
    match s
    case Add(task) => AfterAdd(q, task)
    case Continue(w) => AfterContinue(q, w)
    case HandlerReturns(w) => q.(workers := q.workers[w := Handled(q.workers[w].task)])
    case Exit(w) => q.(workers := q.workers[w := Exited])
    case EnterStop(c) => AfterStopRound(q.(stopped := true), c)
    case ResumeStop(c) => AfterStopRound(q, c)
  }

  // ---------------------------------------------------------------- the class

  class TaskQueue {
    var running: bool
    var stopped: bool
    var list: seq<Task>
    var thread: Option<nat>
    var workers: seq<Worker>
    var waiting: set<nat>
    var woken: set<nat>
    ghost var returned: set<nat>
    ghost var accepted: seq<Task>
    ghost var handled: seq<Task>
    ghost var deleted: seq<Task>

    ghost function View(): Queue
      reads this
    {
      Queue(running, stopped, list, thread, workers, waiting, woken, returned, accepted, handled, deleted)
    }

    constructor ()
      ensures View() == EMPTY
    {
      running, stopped, list, thread := false, false, [], None;
      workers, waiting, woken := [], {}, {};
      returned, accepted, handled, deleted := {}, [], [], [];
    }

    method AddTask(task: Task)
      requires Can(View(), Add(task))
      modifies this
      ensures View() == AfterAdd(old(View()), task)
      ensures !old(stopped) ==> list == old(list) + [task] && running
      ensures old(stopped) ==> unchanged(this)
    {
      if !stopped {
        list := list + [task];
        accepted := accepted + [task];
        if !running {
          if thread.Some? {
            thread := None;
          }
          thread := Some(|workers|);
          workers := workers + [Starting];
          running := true;
        }
      }
    }

    // HandleTasks from a Lock to the next Unlock.
    method HandleTasks(w: nat)
      requires WantsMutex(View(), w)
      modifies this
      ensures View() == AfterContinue(old(View()), w)
    {
      if workers[w].Handled? {
        deleted := deleted + [workers[w].task];
      }
      ghost var done, tasks := deleted, list;
      while |list| > 0
        invariant stopped || (list == tasks && deleted == done)
        invariant deleted + list == done + tasks
        invariant unchanged(`running, `stopped, `thread, `workers, `waiting, `woken, `returned, `accepted, `handled)
        decreases |list|
      {
        var task := list[0];
        list := list[1..];
        if !stopped {
          handled := handled + [task];
          workers := workers[w := Handling(task)];
          return;
        }
        deleted := deleted + [task];
      }
      running := false;
      woken, waiting := woken + waiting, {};
      workers := workers[w := Leaving];
    }

    // Stop up to its first wait, or to its end if no worker is running.
    method Stop(caller: nat)
      requires Can(View(), EnterStop(caller))
      modifies this
      ensures View() == After(old(View()), EnterStop(caller))
    {
      stopped := true;
      AwaitWorker(caller);
    }

    // The loop of Stop, from holding the mutex to the next wait or to the end.
    method AwaitWorker(caller: nat)
      requires running || Joinable(View())
      modifies this
      ensures View() == AfterStopRound(old(View()), caller)
    {
      woken := woken - {caller};
      if running {
        waiting := waiting + {caller};
      } else {
        if thread.Some? {
          thread := None;
        }
        returned := returned + {caller};
      }
    }
  }

  // ---------------------------------------------------------------- what every step keeps

  predicate Alive(w: Worker) { w.Starting? || w.Handling? || w.Handled? }

  // The task that is out of the list and not deleted yet.
  function InHand(q: Queue): seq<Task> {
    if q.workers == [] then []
    else
      var w := q.workers[|q.workers| - 1];
      if w.Handling? || w.Handled? then [w.task] else []
  }

  predicate Threads(q: Queue) {
    && (forall i :: 0 <= i < |q.workers| - 1 ==> q.workers[i].Exited?)
    && (q.thread.Some? ==> q.thread.value == |q.workers| - 1)
    && (q.running ==> q.thread.Some? && Alive(q.workers[q.thread.value]))
    && (!q.running && q.workers != [] ==> q.workers[|q.workers| - 1].Leaving? || q.workers[|q.workers| - 1].Exited?)
    && (q.thread.None? && q.workers != [] ==> q.workers[|q.workers| - 1].Exited?)
  }

  predicate Accounts(q: Queue) {
    && q.accepted == q.deleted + InHand(q) + q.list
    && q.handled <= q.accepted
    && (!q.stopped || InHand(q) != [] ==> q.handled == q.deleted + InHand(q))
  }

  predicate Stopping(q: Queue) {
    && (q.waiting + q.woken + q.returned != {} ==> q.stopped)
    && (q.waiting != {} ==> q.running)
    && (q.returned != {} ==> !q.running && q.thread.None?)
  }

  predicate Inv(q: Queue) {
    Threads(q) && Accounts(q) && Stopping(q) && (q.list != [] ==> q.running)
  }

  lemma ContinueKeepsInv(q: Queue, w: nat)
    requires Inv(q) && WantsMutex(q, w)
    ensures Inv(AfterContinue(q, w))
  {
    var q' := AfterContinue(q, w);
    assert w == |q.workers| - 1;
    var done := if q.workers[w].Handled? then q.deleted + [q.workers[w].task] else q.deleted;
    assert done == q.deleted + InHand(q);
    if q.list != [] {
      assert q.list == [q.list[0]] + q.list[1..];
    }
  }

  lemma AddKeepsInv(q: Queue, task: Task)
    requires Inv(q) && Can(q, Add(task))
    ensures Inv(AfterAdd(q, task))
  {
    var q' := AfterAdd(q, task);
    if !q.stopped {
      assert InHand(q') == InHand(q);
      assert q'.accepted == q'.deleted + InHand(q') + q'.list;
    }
  }

  lemma StopKeepsInv(q: Queue, c: nat)
    requires Inv(q) && q.stopped && (q.running || Joinable(q))
    ensures Inv(AfterStopRound(q, c))
  {
  }

  lemma ThreadKeepsInv(q: Queue, w: nat)
    requires Inv(q)
    ensures Can(q, HandlerReturns(w)) ==> Inv(After(q, HandlerReturns(w)))
    ensures Can(q, Exit(w)) ==> Inv(After(q, Exit(w)))
  {
  }

  lemma StepKeepsInv(q: Queue, s: Step)
    requires Inv(q) && Can(q, s)
    ensures Inv(After(q, s))
  {
    match s
    case Add(task) => AddKeepsInv(q, task);
    case Continue(w) => ContinueKeepsInv(q, w);
    case HandlerReturns(w) => ThreadKeepsInv(q, w);
    case Exit(w) => ThreadKeepsInv(q, w);
    case EnterStop(c) => StopKeepsInv(q.(stopped := true), c);
    case ResumeStop(c) => StopKeepsInv(q, c);
  }

  // ---------------------------------------------------------------- runs

  ghost predicate IsRun(states: seq<Queue>, steps: seq<Step>) {
    && |states| == |steps| + 1
    && states[0] == EMPTY
    && forall i :: 0 <= i < |steps| ==> Can(states[i], steps[i]) && states[i + 1] == After(states[i], steps[i])
  }

  lemma {:induction false} RunKeepsInv(states: seq<Queue>, steps: seq<Step>, i: nat)
    requires IsRun(states, steps) && i < |states|
    ensures Inv(states[i])
  {
    if i > 0 {
      RunKeepsInv(states, steps, i - 1);
      StepKeepsInv(states[i - 1], steps[i - 1]);
    }
  }

  // ---------------------------------------------------------------- what the records stand for

  // The tasks that were added, in order, before the stop flag was set.
  function TasksAdded(states: seq<Queue>, steps: seq<Step>, i: nat): seq<Task>
    requires i <= |steps| && |steps| < |states|
  {
    if i == 0 then []
    else
      var before := TasksAdded(states, steps, i - 1);
      if steps[i - 1].Add? && !states[i - 1].stopped then before + [steps[i - 1].task] else before
  }

  // The tasks with which a worker entered the handler, in order.
  function HandlersEntered(states: seq<Queue>, steps: seq<Step>, i: nat): seq<Task>
    requires i <= |steps| && |steps| < |states|
  {
    if i == 0 then []
    else
      var before, e := HandlersEntered(states, steps, i - 1), steps[i - 1];
      if e.Continue? && e.worker < |states[i].workers| && states[i].workers[e.worker].Handling?
      then before + [states[i].workers[e.worker].task] else before
  }

  // No task that is added before Stop is lost, and none appears from elsewhere.
  lemma {:induction false} AcceptedExactly(states: seq<Queue>, steps: seq<Step>, i: nat)
    requires IsRun(states, steps) && i < |states|
    ensures states[i].accepted == TasksAdded(states, steps, i)
  {
    if i > 0 {
      AcceptedExactly(states, steps, i - 1);
      assert Can(states[i - 1], steps[i - 1]) && states[i] == After(states[i - 1], steps[i - 1]);
    }
  }

  // Handled tasks are those for which the handler was called.
  lemma {:induction false} HandledExactly(states: seq<Queue>, steps: seq<Step>, i: nat)
    requires IsRun(states, steps) && i < |states|
    ensures states[i].handled == HandlersEntered(states, steps, i)
  {
    if i > 0 {
      HandledExactly(states, steps, i - 1);
      assert Can(states[i - 1], steps[i - 1]) && states[i] == After(states[i - 1], steps[i - 1]);
    }
  }

  // Handler calls never overlap, tasks that wait have a running worker, and tasks are handled in the
  // order in which they were accepted, without gaps.
  lemma Safety(states: seq<Queue>, steps: seq<Step>, i: nat)
    requires IsRun(states, steps) && i < |states|
    ensures forall v, w :: 0 <= v < w < |states[i].workers| ==> !(states[i].workers[v].Handling? && states[i].workers[w].Handling?)
    ensures states[i].list != [] ==> exists w :: 0 <= w < |states[i].workers| && Alive(states[i].workers[w])
    ensures states[i].handled <= states[i].accepted
  {
    RunKeepsInv(states, steps, i);
    if states[i].list != [] {
      assert Alive(states[i].workers[|states[i].workers| - 1]);
    }
  }

  // Until the stop flag is set, every task that left the queue was handled.
  lemma NothingSkippedBeforeStop(states: seq<Queue>, steps: seq<Step>, i: nat)
    requires IsRun(states, steps) && i < |states| && !states[i].stopped
    ensures states[i].accepted == states[i].handled + states[i].list
  {
    RunKeepsInv(states, steps, i);
  }

  // What holds from the moment some call of Stop returns.
  predicate ShutDown(q: Queue) {
    && q.stopped && !q.running && q.list == [] && q.thread.None?
    && (forall w :: 0 <= w < |q.workers| ==> q.workers[w].Exited?)
    && q.deleted == q.accepted
    && q.handled <= q.accepted
  }

  lemma StoppedMeansShutDown(states: seq<Queue>, steps: seq<Step>, i: nat)
    requires IsRun(states, steps) && i < |states| && states[i].returned != {}
    ensures ShutDown(states[i])
  {
    RunKeepsInv(states, steps, i);
  }

  lemma ShutDownIsFinal(q: Queue, s: Step)
    requires ShutDown(q) && Can(q, s)
    ensures ShutDown(After(q, s))
    ensures After(q, s).workers == q.workers && After(q, s).accepted == q.accepted && After(q, s).handled == q.handled
  {
  }

  // No handler starts, no thread is created and no task is accepted once a call of Stop has returned.
  lemma {:induction false} NothingHappensAfterStop(states: seq<Queue>, steps: seq<Step>, i: nat, j: nat)
    requires IsRun(states, steps) && i <= j < |states| && states[i].returned != {}
    ensures ShutDown(states[j])
    ensures states[j].workers == states[i].workers && states[j].handled == states[i].handled && states[j].accepted == states[i].accepted
  {
    if i == j {
      StoppedMeansShutDown(states, steps, i);
    } else {
      NothingHappensAfterStop(states, steps, i, j - 1);
      ShutDownIsFinal(states[j - 1], steps[j - 1]);
    }
  }

  // ---------------------------------------------------------------- shutting down takes finitely many steps

  function StepsOf(w: Worker): nat {
    match w
    case Handling(_) => 3
    case Starting => 2
    case Handled(_) => 2
    case Leaving => 1
    case Exited => 0
  }

  // The steps that worker threads still take once the queue is stopped: only the last one has any.
  function WorkLeft(q: Queue): nat {
    if q.workers == [] then 0 else StepsOf(q.workers[|q.workers| - 1])
  }

  predicate IsWorkerStep(s: Step) { s.Continue? || s.HandlerReturns? || s.Exit? }

  // Waiting tasks count for the steps of their handling.
  function Work(q: Queue): nat { 3 * |q.list| + WorkLeft(q) }

  // Every worker step brings the queue closer to having handled everything.
  lemma WorkShrinks(q: Queue, s: Step)
    requires Inv(q) && Can(q, s) && IsWorkerStep(s)
    ensures Work(After(q, s)) < Work(q)
  {
  }

  lemma WorkerCanMove(q: Queue)
    requires Inv(q) && WorkLeft(q) > 0
    ensures exists s :: IsWorkerStep(s) && Can(q, s)
  {
    var w := |q.workers| - 1;
    assert Can(q, Continue(w)) || Can(q, HandlerReturns(w)) || Can(q, Exit(w));
  }

  lemma NothingLeft(q: Queue)
    requires Inv(q) && WorkLeft(q) == 0
    ensures q.list == [] && (!q.stopped ==> q.handled == q.accepted) && forall task :: Can(q, Add(task))
  {
  }

  // As long as tasks wait some worker can take a step, and when none can and Stop was not called, every
  // task that was added has been handled. A caller of AddTask waits at most for a worker that can exit.
  lemma TasksGetHandled(states: seq<Queue>, steps: seq<Step>, i: nat)
    requires IsRun(states, steps) && i < |states|
    ensures states[i].list != [] ==> exists s :: IsWorkerStep(s) && Can(states[i], s)
    ensures !states[i].stopped && (forall s :: IsWorkerStep(s) ==> !Can(states[i], s)) ==>
              states[i].handled == TasksAdded(states, steps, i)
    ensures forall task :: !Can(states[i], Add(task)) ==> exists s :: IsWorkerStep(s) && Can(states[i], s)
  {
    RunKeepsInv(states, steps, i);
    AcceptedExactly(states, steps, i);
    if WorkLeft(states[i]) > 0 {
      WorkerCanMove(states[i]);
    } else {
      NothingLeft(states[i]);
    }
  }

  lemma StoppedWorkShrinks(q: Queue, s: Step)
    requires Inv(q) && q.stopped && Can(q, s)
    ensures WorkLeft(q) <= 3
    ensures IsWorkerStep(s) ==> WorkLeft(After(q, s)) < WorkLeft(q)
    ensures !IsWorkerStep(s) ==> WorkLeft(After(q, s)) == WorkLeft(q)
  {
  }

  // A caller of Stop waits, has been woken or has returned, and the stop flag stays set.
  lemma {:induction false} CallersAreKept(states: seq<Queue>, steps: seq<Step>, j: nat, i: nat, c: nat)
    requires IsRun(states, steps) && j < i < |states| && steps[j] == EnterStop(c)
    ensures states[i].stopped && c in states[i].waiting + states[i].woken + states[i].returned
  {
    assert Can(states[i - 1], steps[i - 1]) && states[i] == After(states[i - 1], steps[i - 1]);
    if j < i - 1 {
      CallersAreKept(states, steps, j, i - 1, c);
    }
  }

  // A call of Stop is never stranded: as long as workers have steps left one of them can be taken, and
  // when none is left every caller that has not returned has been woken and can return.
  lemma StopIsNotStranded(states: seq<Queue>, steps: seq<Step>, i: nat)
    requires IsRun(states, steps) && i < |states| && states[i].stopped
    ensures WorkLeft(states[i]) > 0 ==> exists s :: IsWorkerStep(s) && Can(states[i], s)
    ensures WorkLeft(states[i]) == 0 ==> states[i].waiting == {} && forall c :: c in states[i].woken ==>
              Can(states[i], ResumeStop(c)) && c in After(states[i], ResumeStop(c)).returned
  {
    var q := states[i];
    RunKeepsInv(states, steps, i);
    if WorkLeft(q) > 0 {
      WorkerCanMove(q);
    }
  }
}
