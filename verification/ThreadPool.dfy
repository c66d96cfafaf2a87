/** The thread pool and its shutdown, as atomic steps under the queue mutex. */
module ThreadPool {

  // Tasks are numbered in the order in which submit accepts them.
  type Task = nat

  datatype Worker = Waiting | Running(task: Task) | Exited

  // The shutdown call that won the flag: not yet, won, stop_ stored, or the number of workers joined so far.
  datatype Shutdown = NotCalled | Won | Joining(joined: nat)

  // accepted counts the tasks taken by submit; queue holds those not yet popped; ran lists completed tasks in
  // completion order.
  // admitting: a submit call holds the mutex and has read stop_ as false. shutdown stores stop_ without the mutex, so
  // it may do so at that moment too.
  datatype State = State(queue: seq<Task>, stop: bool, admitting: bool, workers: seq<Worker>, shutdown: Shutdown,
                         accepted: nat, ran: seq<Task>)

  datatype Step = Check | Enqueue | Pop(w: nat) | Complete(w: nat) | Exit(w: nat) | CallShutdown | StoreStop | Join

  function Init(threads: nat): State {
    State([], false, false, seq(threads, _ => Waiting), NotCalled, 0, [])
  }

  predicate Enabled(s: State, step: Step) {
    match step
    case Check => !s.admitting
    case Enqueue => s.admitting
    case Pop(w) => !s.admitting && w < |s.workers| && s.workers[w] == Waiting && s.queue != []
    case Complete(w) => w < |s.workers| && s.workers[w].Running?
    case Exit(w) => !s.admitting && w < |s.workers| && s.workers[w] == Waiting && s.stop && s.queue == []
    case CallShutdown => true
    case StoreStop => s.shutdown == Won
    case Join => s.shutdown.Joining? && s.shutdown.joined < |s.workers| && s.workers[s.shutdown.joined] == Exited
  }

  function Next(s: State, step: Step): State
    requires Enabled(s, step)
  {
    match step
    case Check => if s.stop then s else s.(admitting := true)
    case Enqueue => s.(queue := s.queue + [s.accepted], accepted := s.accepted + 1, admitting := false)
    case Pop(w) => s.(queue := s.queue[1..], workers := s.workers[w := Running(s.queue[0])])
    case Complete(w) => s.(ran := s.ran + [s.workers[w].task], workers := s.workers[w := Waiting])
    case Exit(w) => s.(workers := s.workers[w := Exited])
    case CallShutdown => if s.shutdown == NotCalled then s.(shutdown := Won) else s
    case StoreStop => s.(stop := true, shutdown := Joining(0))
    case Join => s.(shutdown := Joining(s.shutdown.joined + 1))
  }

  predicate Run(threads: nat, steps: seq<Step>, states: seq<State>) {
    && |states| == |steps| + 1
    && states[0] == Init(threads)
    && forall i :: 0 <= i < |steps| ==> Enabled(states[i], steps[i]) && states[i + 1] == Next(states[i], steps[i])
  }

  // The winning shutdown call has joined every worker.
  predicate Finished(s: State) { s.shutdown == Joining(|s.workers|) }

  // ---- What every step keeps ----

  // Tasks popped so far.
  function Popped(s: State): nat
    requires |s.queue| <= s.accepted
  {
    s.accepted - |s.queue|
  }

  // The queue holds the youngest accepted tasks, oldest first.
  predicate QueueOk(s: State) {
    |s.queue| <= s.accepted && forall i :: 0 <= i < |s.queue| ==> s.queue[i] == Popped(s) + i
  }

  predicate Held(s: State, t: Task) { exists w :: 0 <= w < |s.workers| && s.workers[w] == Running(t) }

  // Every popped task is with exactly one worker or has been run exactly once.
  predicate TasksOk(s: State)
    requires QueueOk(s)
  {
    && (forall i :: 0 <= i < |s.ran| ==> s.ran[i] < Popped(s))
    && (forall i, j :: 0 <= i < j < |s.ran| ==> s.ran[i] != s.ran[j])
    && (forall w :: 0 <= w < |s.workers| && s.workers[w].Running? ==>
        s.workers[w].task < Popped(s) && s.workers[w].task !in s.ran)
    && (forall v, w :: 0 <= v < w < |s.workers| && s.workers[v].Running? && s.workers[w].Running? ==>
        s.workers[v].task != s.workers[w].task)
    && (forall t :: 0 <= t < Popped(s) ==> t in s.ran || Held(s, t))
  }

  // A worker exits only when the pool is stopped and drained, and the pool then stays so.
  predicate ExitOk(s: State) {
    && (forall w :: 0 <= w < |s.workers| && s.workers[w] == Exited ==> s.stop && s.queue == [] && !s.admitting)
    && (s.shutdown.Joining? <==> s.stop)
    && (s.shutdown.Joining? ==>
        s.shutdown.joined <= |s.workers| && forall w :: 0 <= w < s.shutdown.joined ==> s.workers[w] == Exited)
  }

  predicate Inv(s: State) { QueueOk(s) && TasksOk(s) && ExitOk(s) }

  lemma PopKeeps(s: State, w: nat)
    requires Inv(s) && Enabled(s, Pop(w))
    ensures Inv(Next(s, Pop(w)))
  {
    var r := Next(s, Pop(w));
    forall t | 0 <= t < Popped(r) ensures t in r.ran || Held(r, t) {
      if t == Popped(s) {
        assert r.workers[w] == Running(t);
      } else if t !in s.ran {
        var v :| 0 <= v < |s.workers| && s.workers[v] == Running(t);
        assert r.workers[v] == Running(t);
      }
    }
  }

  lemma CompleteKeeps(s: State, w: nat)
    requires Inv(s) && Enabled(s, Complete(w))
    ensures Inv(Next(s, Complete(w)))
  {
    var r := Next(s, Complete(w));
    var done := s.workers[w].task;
    assert r.ran[|s.ran|] == done;
    forall t | 0 <= t < Popped(r) ensures t in r.ran || Held(r, t) {
      if t in s.ran {
        var i :| 0 <= i < |s.ran| && s.ran[i] == t;
        assert r.ran[i] == t;
      } else if t != done {
        var v :| 0 <= v < |s.workers| && s.workers[v] == Running(t);
        assert r.workers[v] == Running(t);
      }
    }
  }

  // Steps that leave the tasks where they are.
  lemma OtherKeeps(s: State, step: Step)
    requires Inv(s) && Enabled(s, step) && !step.Pop? && !step.Complete?
    ensures Inv(Next(s, step))
  {
    var r := Next(s, step);
    forall t | 0 <= t < Popped(r) ensures t in r.ran || Held(r, t) {
      if t !in s.ran {
        var v :| 0 <= v < |s.workers| && s.workers[v] == Running(t);
        assert r.workers[v] == Running(t);
      }
    }
  }

  lemma StepKeeps(s: State, step: Step)
    requires Inv(s) && Enabled(s, step)
    ensures Inv(Next(s, step)) && |Next(s, step).workers| == |s.workers|
  {
    match step
    case Pop(w) => PopKeeps(s, w);
    case Complete(w) => CompleteKeeps(s, w);
    case _ => OtherKeeps(s, step);
  }

  lemma {:induction false} RunKeeps(threads: nat, steps: seq<Step>, states: seq<State>, i: nat)
    requires Run(threads, steps, states) && i <= |steps|
    ensures Inv(states[i]) && |states[i].workers| == threads
  {
    hide Next, Enabled;
    if i > 0 {
      RunKeeps(threads, steps, states, i - 1);
      StepKeeps(states[i - 1], steps[i - 1]);
    }
  }

  // Shutdown is a drain: in every interleaving with at least one worker, once the winning shutdown call has joined all
  // workers, the tasks that have run are exactly the accepted ones, each exactly once.
  lemma ShutdownDrains(threads: nat, steps: seq<Step>, states: seq<State>, i: nat)
    requires Run(threads, steps, states) && i <= |steps| && threads >= 1
    requires Finished(states[i])
    ensures states[i].queue == []
    ensures forall t :: t in states[i].ran <==> 0 <= t < states[i].accepted
    ensures forall a, b :: 0 <= a < b < |states[i].ran| ==> states[i].ran[a] != states[i].ran[b]
  {
    hide Next, Enabled;
    RunKeeps(threads, steps, states, i);
    var s := states[i];
    assert s.workers[0] == Exited;
    forall t | 0 <= t < s.accepted ensures t in s.ran { assert !Held(s, t); }
  }

  lemma ExitSticks(s: State, step: Step, w: nat)
    requires ExitOk(s) && Enabled(s, step) && w < |s.workers| && s.workers[w] == Exited
    ensures var r := Next(s, step); r.accepted == s.accepted && w < |r.workers| && r.workers[w] == Exited
  {
  }

  // No task is accepted once a worker has exited.
  lemma {:induction false} NothingAcceptedAfterExit(threads: nat, steps: seq<Step>, states: seq<State>, i: nat, j: nat,
                                                    w: nat)
    requires Run(threads, steps, states) && i <= j <= |steps|
    requires w < |states[i].workers| && states[i].workers[w] == Exited
    ensures states[j].accepted == states[i].accepted && w < |states[j].workers| && states[j].workers[w] == Exited
    decreases j - i
  {
    hide Next, Enabled, QueueOk, TasksOk, ExitOk;
    if i < j {
      NothingAcceptedAfterExit(threads, steps, states, i, j - 1, w);
      RunKeeps(threads, steps, states, j - 1);
      ExitSticks(states[j - 1], steps[j - 1], w);
    }
  }

  // Without workers the joins finish at once and an accepted task is left unrun.
  lemma NoWorkersNoDrain()
    ensures var steps := [Check, Enqueue, CallShutdown, StoreStop];
            exists states: seq<State> ::
              Run(0, steps, states) && Finished(states[4]) && states[4].accepted == 1 && states[4].ran == []
  {
    var s0 := Init(0);
    var s1 := State([], false, true, [], NotCalled, 0, []);
    var s2 := State([0], false, false, [], NotCalled, 1, []);
    var s3 := State([0], false, false, [], Won, 1, []);
    var s4 := State([0], true, false, [], Joining(0), 1, []);
    assert s0.workers == [] && [] + [0] == [0];
    assert Run(0, [Check, Enqueue, CallShutdown, StoreStop], [s0, s1, s2, s3, s4]);
  }
}
