/** The worker pool: a slot channel of fixed capacity and counters, used by any number of tasks
    in any interleaving. */
module Semaphores {

  /** Where a submitted task is, from Go to the end of its goroutine. */
  datatype Task =
    | Unsubmitted
    | Submitted      // waiting for a slot
    | Holding        // has a slot, before the throttle
    | Running        // inside the body
    | Leaving        // still has the slot
    | Released       // gave the slot back
    | Counted        // counted as completed
    | Finished       // signalled the wait group

  datatype State = State(limit: nat, sem: nat, submitted: nat, active: int, completed: nat, waiting: int, tasks: seq<Task>)

  /** A task moves; throttleOk says whether the throttle lets it through. */
  datatype Move = Move(task: nat, throttleOk: bool)

  predicate Enabled(s: State, i: nat) {
    i < |s.tasks| && !s.tasks[i].Finished? && (s.tasks[i].Submitted? ==> s.sem < s.limit)
      && (s.tasks[i].Leaving? ==> s.sem > 0)
  }

  function Step(s: State, m: Move): State
    requires Enabled(s, m.task)
  {
    var i := m.task;
    match s.tasks[i]
    case Unsubmitted => s.(tasks := s.tasks[i := Submitted], submitted := s.submitted + 1, waiting := s.waiting + 1)
    case Submitted => s.(tasks := s.tasks[i := Holding], sem := s.sem + 1)
    case Holding =>
      if m.throttleOk then s.(tasks := s.tasks[i := Running], active := s.active + 1)
      else s.(tasks := s.tasks[i := Leaving])
    case Running => s.(tasks := s.tasks[i := Leaving], active := s.active - 1)
    case Leaving => s.(tasks := s.tasks[i := Released], sem := s.sem - 1)
    case Released => s.(tasks := s.tasks[i := Counted], completed := s.completed + 1)
    case Counted => s.(tasks := s.tasks[i := Finished], waiting := s.waiting - 1)
  }

  predicate Start(s: State) {
    && s.sem == 0 && s.submitted == 0 && s.active == 0 && s.completed == 0 && s.waiting == 0
    && forall t | t in s.tasks :: t.Unsubmitted?
  }

  // ----- the counters count -----

  /** How far a task has come. */
  function Stage(t: Task): nat {
    match t
    case Unsubmitted => 0
    case Submitted => 1
    case Holding => 2
    case Running => 3
    case Leaving => 4
    case Released => 5
    case Counted => 6
    case Finished => 7
  }

  /** The number of tasks between two stages. */
  function Between(tasks: seq<Task>, lo: nat, hi: nat): (n: nat)
    ensures n <= |tasks|
  {
    if tasks == [] then 0
    else Between(tasks[1..], lo, hi) + if lo <= Stage(tasks[0]) <= hi then 1 else 0
  }

  lemma {:induction false} BetweenUpdate(tasks: seq<Task>, i: nat, t: Task, lo: nat, hi: nat)
    requires i < |tasks|
    ensures Between(tasks[i := t], lo, hi) + (if lo <= Stage(tasks[i]) <= hi then 1 else 0)
            == Between(tasks, lo, hi) + if lo <= Stage(t) <= hi then 1 else 0
  {
    if i == 0 {
      assert tasks[0 := t][1..] == tasks[1..];
    } else {
      assert tasks[i := t][1..] == tasks[1..][i - 1 := t];
      BetweenUpdate(tasks[1..], i - 1, t, lo, hi);
    }
  }

  lemma {:induction false} BetweenZero(tasks: seq<Task>, lo: nat, hi: nat)
    ensures Between(tasks, lo, hi) == 0 <==> forall i | 0 <= i < |tasks| :: !(lo <= Stage(tasks[i]) <= hi)
  {
    if tasks != [] {
      BetweenZero(tasks[1..], lo, hi);
      assert forall i | 0 < i < |tasks| :: tasks[i] == tasks[1..][i - 1];
    }
  }

  lemma {:induction false} BetweenSplit(tasks: seq<Task>, lo: nat, mid: nat, hi: nat)
    requires lo <= mid < hi
    ensures Between(tasks, lo, hi) == Between(tasks, lo, mid) + Between(tasks, mid + 1, hi)
  {
    if tasks != [] { BetweenSplit(tasks[1..], lo, mid, hi); }
  }

  predicate Inv(s: State) {
    && s.sem <= s.limit
    && s.submitted == Between(s.tasks, 1, 7)
    && s.sem == Between(s.tasks, 2, 4)
    && s.active == Between(s.tasks, 3, 3)
    && s.completed == Between(s.tasks, 6, 7)
    && s.waiting == Between(s.tasks, 1, 6)
  }

  lemma StepKeepsInv(s: State, m: Move)
    requires Inv(s) && Enabled(s, m.task)
    ensures Inv(Step(s, m))
  {
    var i, t := m.task, Step(s, m).tasks[m.task];
    BetweenUpdate(s.tasks, i, t, 1, 7);
    BetweenUpdate(s.tasks, i, t, 2, 4);
    BetweenUpdate(s.tasks, i, t, 3, 3);
    BetweenUpdate(s.tasks, i, t, 6, 7);
    BetweenUpdate(s.tasks, i, t, 1, 6);
    assert Step(s, m).tasks == s.tasks[i := t];
  }

  function Run(s: State, moves: seq<Move>): (r: State) {
    if moves == [] then s
    else
      var s' := Run(s, moves[..|moves| - 1]);
      if Enabled(s', moves[|moves| - 1].task) then Step(s', moves[|moves| - 1]) else s'
  }

  lemma {:induction false} RunKeepsInv(s: State, moves: seq<Move>)
    requires Start(s)
    ensures Inv(Run(s, moves)) && Run(s, moves).limit == s.limit && |Run(s, moves).tasks| == |s.tasks|
  {
    if moves == [] {
      forall i | 0 <= i < |s.tasks| ensures Stage(s.tasks[i]) == 0 { assert s.tasks[i] in s.tasks; }
      BetweenZero(s.tasks, 1, 7);
      BetweenZero(s.tasks, 2, 4);
      BetweenZero(s.tasks, 3, 3);
      BetweenZero(s.tasks, 6, 7);
      BetweenZero(s.tasks, 1, 6);
    } else {
      RunKeepsInv(s, moves[..|moves| - 1]);
      var s' := Run(s, moves[..|moves| - 1]);
      if Enabled(s', moves[|moves| - 1].task) { StepKeepsInv(s', moves[|moves| - 1]); }
    }
  }

  /** In every interleaving no more than limit bodies run at once, and the utilization counters
      are consistent. */
  lemma BoundedConcurrency(s0: State, moves: seq<Move>)
    requires Start(s0)
    ensures var s := Run(s0, moves);
            && 0 <= s.active == Between(s.tasks, 3, 3) <= s.sem <= s0.limit
            && s.sem + s.completed <= s.submitted <= |s0.tasks|
  {
    RunKeepsInv(s0, moves);
    RunningHoldSlots(Run(s0, moves).tasks);
    SlotsAndCompleted(Run(s0, moves).tasks);
  }

  lemma RunningHoldSlots(tasks: seq<Task>)
    ensures Between(tasks, 3, 3) <= Between(tasks, 2, 4)
  {
    BetweenSplit(tasks, 2, 2, 4);
    BetweenSplit(tasks, 3, 3, 4);
  }

  lemma SlotsAndCompleted(tasks: seq<Task>)
    ensures Between(tasks, 2, 4) + Between(tasks, 6, 7) <= Between(tasks, 1, 7)
  {
    BetweenSplit(tasks, 1, 1, 7);
    BetweenSplit(tasks, 2, 4, 7);
    BetweenSplit(tasks, 5, 5, 7);
  }

  /** The wait group lets its waiter through exactly when every task that was submitted has
      finished; all slots are free then, and all tasks counted. */
  lemma WaitMeansFinished(s0: State, moves: seq<Move>)
    requires Start(s0)
    ensures var s := Run(s0, moves);
            && (s.waiting == 0 <==> forall i | 0 <= i < |s.tasks| :: s.tasks[i].Unsubmitted? || s.tasks[i].Finished?)
            && (s.waiting == 0 ==> s.sem == 0 && s.active == 0 && s.completed == s.submitted)
  {
    RunKeepsInv(s0, moves);
    var s := Run(s0, moves);
    BetweenZero(s.tasks, 1, 6);
    if s.waiting == 0 {
      BetweenZero(s.tasks, 2, 4);
      BetweenZero(s.tasks, 3, 3);
      BetweenZero(s.tasks, 1, 5);
      BetweenSplit(s.tasks, 1, 5, 7);
    }
  }

  /** Some task can move as long as one is unfinished, exactly when there is a slot at all or
      nobody waits for one. */
  lemma NoDeadlock(s0: State, moves: seq<Move>)
    requires Start(s0)
    requires exists i :: 0 <= i < |Run(s0, moves).tasks| && !Run(s0, moves).tasks[i].Finished?
    ensures var s := Run(s0, moves);
            (exists i: nat :: Enabled(s, i)) <==>
            s0.limit > 0 || exists i :: 0 <= i < |s.tasks| && s.tasks[i].Unsubmitted?
  {
    RunKeepsInv(s0, moves);
    var s := Run(s0, moves);
    BetweenZero(s.tasks, 2, 4);
    forall i: nat | i < |s.tasks| && !s.tasks[i].Finished? && !s.tasks[i].Submitted? ensures s0.limit > 0 ==> Enabled(s, i) {}
    if s0.limit == 0 {
      NothingStarts(s0, moves);
    } else if s.sem == 0 {
      var i :| 0 <= i < |s.tasks| && !s.tasks[i].Finished?;
      assert Enabled(s, i);
    } else {
      var i :| 0 <= i < |s.tasks| && 2 <= Stage(s.tasks[i]) <= 4;
      assert Enabled(s, i);
    }
    if i :| 0 <= i < |s.tasks| && s.tasks[i].Unsubmitted? { assert Enabled(s, i); }
  }

  /** Without slots no task gets past its submission. */
  lemma {:induction false} NothingStarts(s0: State, moves: seq<Move>)
    requires Start(s0) && s0.limit == 0
    ensures forall i | 0 <= i < |Run(s0, moves).tasks| :: Stage(Run(s0, moves).tasks[i]) <= 1
  {
    if moves == [] {
      forall i | 0 <= i < |s0.tasks| ensures Stage(s0.tasks[i]) == 0 { assert s0.tasks[i] in s0.tasks; }
    } else {
      NothingStarts(s0, moves[..|moves| - 1]);
      RunKeepsInv(s0, moves[..|moves| - 1]);
    }
  }
}
