/** The byte-budgeted scheduler: admission, completion, delivery, leases, staged work, retirement, cancellation. */
module Scheduler {
  import opened Sums
  import opened Options

  // ----- The budget -----

  function Min(a: nat, b: nat): nat { if a < b then a else b }

  function SaturatingSub(a: nat, b: nat): nat { if a < b then 0 else a - b }

  datatype Next = Admitted(index: nat) | Pending | Done

  class Budget {
    const limit: nat
    const maxActive: nat
    var next: nat
    var reserved: nat
    var active: nat
    var cancelled: bool

    constructor (limit: nat, maxActive: nat)
      ensures this.limit == limit && this.maxActive == maxActive && View() == Counters(0, 0, 0, false)
    {
      this.limit, this.maxActive := limit, maxActive;
      next, reserved, active, cancelled := 0, 0, 0, false;
    }

    function View(): Counters
      reads this
    {
      Counters(next, reserved, active, cancelled)
    }

    /** One look at the queue under the lock; a blocking caller looks again after every wake-up. */
    method TryNext(reservations: seq<nat>) returns (r: Next)
      modifies this
      ensures r.Admitted? <==> old(View()).Admits(reservations, limit, maxActive)
      ensures r.Admitted? ==> r.index == old(next) && View() == old(View()).Admit(reservations[r.index])
      ensures !r.Admitted? ==> View() == old(View())
      ensures old(reserved) <= limit && old(active) <= maxActive ==> reserved <= limit && active <= maxActive
      ensures r.Done? ==> cancelled || next >= |reservations|
    {
      if cancelled || next >= |reservations| {
        return Done;
      }
      var reservation := reservations[next];
      if active >= maxActive || reservation > SaturatingSub(limit, reserved) {
        return Pending;
      }
      r := Admitted(next);
      next, reserved, active := next + 1, reserved + reservation, active + 1;
    }

    method Complete(reservation: nat, retained: nat)
      modifies this`reserved
      ensures View() == old(View()).Complete(reservation, retained)
      ensures retained <= reservation <= old(reserved) ==> old(reserved) - reserved == reservation - retained
    {
      reserved := SaturatingSub(reserved, reservation) + Min(retained, reservation);
    }

    method Retire(retained: nat)
      modifies this`reserved, this`active
      ensures View() == old(View()).Retire(retained)
      ensures retained <= old(reserved) && old(active) > 0 ==> old(reserved) - reserved == retained && old(active) - active == 1
    {
      reserved := SaturatingSub(reserved, retained);
      active := SaturatingSub(active, 1);
    }

    method Cancel()
      modifies this`cancelled
      ensures View() == old(View()).(cancelled := true)
    {
      cancelled := true;
    }
  }

  /** The counters under the lock. */
  datatype Counters = Counters(next: nat, reserved: nat, active: nat, cancelled: bool)
  {
    predicate Admits(reservations: seq<nat>, limit: nat, maxActive: nat)
    {
      !cancelled && next < |reservations| && active < maxActive && reservations[next] <= SaturatingSub(limit, reserved)
    }

    function Admit(reservation: nat): Counters
    {
      this.(next := next + 1, reserved := reserved + reservation, active := active + 1)
    }

    function Complete(reservation: nat, retained: nat): Counters
    {
      this.(reserved := SaturatingSub(reserved, reservation) + Min(retained, reservation))
    }

    function Retire(retained: nat): Counters
    {
      this.(reserved := SaturatingSub(reserved, retained), active := SaturatingSub(active, 1))
    }
  }

  // ----- Jobs -----

  /** Where a job is; from completion on it holds the bytes its result retains. */
  datatype Phase = Queued | Running | Sent(retained: nat) | Ready(retained: nat) | Leased(retained: nat) | Staged(retained: nat) | Retired

  function Charge(phase: Phase, reservation: nat): nat
  {
    match phase
    case Queued => 0
    case Running => reservation
    case Retired => 0
    case _ => phase.retained
  }

  function Live(phase: Phase): nat
  {
    if phase.Queued? || phase.Retired? then 0 else 1
  }

  function Rank(phase: Phase): nat
  {
    match phase
    case Queued => 0
    case Running => 1
    case Sent(_) => 2
    case Ready(_) => 3
    case Leased(_) => 4
    case Staged(_) => 5
    case Retired => 6
  }

  /**
   * One atomic step of a worker (admit, complete, run staged work, discard a result that no one receives any more),
   * a channel (receive) or the consumer.
   */
  datatype Step =
    | Admit
    | Complete(index: nat, size: nat)
    | Receive(index: nat)
    | Take(index: nat)
    | Lease(index: nat)
    | Return(index: nat)
    | Submit(index: nat)
    | RunStage(index: nat)
    | Discard(index: nat)
    | Cancel

  datatype Pool = Pool(reservations: seq<nat>, limit: nat, maxActive: nat)

  datatype State = State(counters: Counters, phases: seq<Phase>)

  function Initial(pool: Pool): State
  {
    State(Counters(0, 0, 0, false), seq(|pool.reservations|, _ => Queued))
  }

  function Moved(s: State, i: nat, phase: Phase): State
    requires i < |s.phases|
  {
    s.(phases := s.phases[i := phase])
  }

  /** What a step does, if it is enabled. Taking, returning a lease and running staged work retire the job. */
  function After(pool: Pool, s: State, step: Step): Option<State>
  {
    match step
    case Admit =>
      if s.counters.Admits(pool.reservations, pool.limit, pool.maxActive) && s.counters.next < |s.phases| then
        var i := s.counters.next;
        Some(State(s.counters.Admit(pool.reservations[i]), s.phases[i := Running]))
      else None
    case Complete(i, size) =>
      if i < |s.phases| && i < |pool.reservations| && s.phases[i].Running? then
        var reservation := pool.reservations[i];
        var retained := Min(size, reservation);
        Some(State(s.counters.Complete(reservation, retained), s.phases[i := Sent(retained)]))
      else None
    case Receive(i) => if i < |s.phases| && s.phases[i].Sent? then Some(Moved(s, i, Ready(s.phases[i].retained))) else None
    case Take(i) => if MayRelease(s, step) then Some(Released(s, i)) else None
    case Lease(i) => if i < |s.phases| && s.phases[i].Ready? then Some(Moved(s, i, Leased(s.phases[i].retained))) else None
    case Return(i) => if MayRelease(s, step) then Some(Released(s, i)) else None
    case Submit(i) => if i < |s.phases| && s.phases[i].Leased? then Some(Moved(s, i, Staged(s.phases[i].retained))) else None
    case RunStage(i) => if MayRelease(s, step) then Some(Released(s, i)) else None
    case Discard(i) => if MayRelease(s, step) then Some(Released(s, i)) else None
    case Cancel => Some(s.(counters := s.counters.(cancelled := true)))
  }

  /** The job's result is where the releasing step looks for it. */
  predicate MayRelease(s: State, step: Step)
  {
    match step
    case Take(i) => i < |s.phases| && s.phases[i].Ready?
    case Return(i) => i < |s.phases| && s.phases[i].Leased?
    case RunStage(i) => i < |s.phases| && s.phases[i].Staged?
    case Discard(i) => i < |s.phases| && s.phases[i].Sent?
    case _ => false
  }

  function Released(s: State, i: nat): State
    requires i < |s.phases| && (s.phases[i].Sent? || s.phases[i].Ready? || s.phases[i].Leased? || s.phases[i].Staged?)
  {
    State(s.counters.Retire(s.phases[i].retained), s.phases[i := Retired])
  }

  // ----- What every step keeps -----

  function Charges(pool: Pool, phases: seq<Phase>): (cs: seq<nat>)
    requires |phases| == |pool.reservations|
    ensures |cs| == |phases| && forall i :: 0 <= i < |cs| ==> cs[i] == Charge(phases[i], pool.reservations[i])
  {
    seq(|phases|, i requires 0 <= i < |phases| => Charge(phases[i], pool.reservations[i]))
  }

  function Lives(phases: seq<Phase>): (ls: seq<nat>)
    ensures |ls| == |phases| && forall i :: 0 <= i < |ls| ==> ls[i] == Live(phases[i])
  {
    seq(|phases|, i requires 0 <= i < |phases| => Live(phases[i]))
  }

  function Ranks(phases: seq<Phase>): (rs: seq<nat>)
    ensures |rs| == |phases| && forall i :: 0 <= i < |rs| ==> rs[i] == Rank(phases[i])
  {
    seq(|phases|, i requires 0 <= i < |phases| => Rank(phases[i]))
  }

  /**
   * The reserved bytes are exactly the charges of admitted, unretired jobs and within the limit; the active count is
   * exactly their number and within its bound; jobs are admitted in order; a result never retains more than its job reserved.
   */
  ghost predicate Valid(pool: Pool, s: State)
  {
    && |s.phases| == |pool.reservations| && s.counters.next <= |s.phases|
    && s.counters.reserved == Sum(Charges(pool, s.phases)) <= pool.limit
    && s.counters.active == Sum(Lives(s.phases)) <= pool.maxActive
    && forall i :: 0 <= i < |s.phases| ==> (s.phases[i].Queued? <==> i >= s.counters.next) && Charge(s.phases[i], pool.reservations[i]) <= pool.reservations[i]
  }

  lemma SumUpdate(xs: seq<nat>, i: nat, v: nat)
    requires i < |xs|
    ensures Sum(xs[i := v]) + xs[i] == Sum(xs) + v && xs[i] <= Sum(xs)
  {
    var n := |xs| - 1;
    assert xs[i := v][..n] == if i < n then xs[..n][i := v] else xs[..n];
    if i < n {
      SumUpdate(xs[..n], i, v);
    }
  }

  /** Moving one job to another phase changes the sums by that job's part. */
  lemma PhaseChange(pool: Pool, phases: seq<Phase>, i: nat, phase: Phase)
    requires |phases| == |pool.reservations| && i < |phases|
    ensures Sum(Charges(pool, phases[i := phase])) + Charge(phases[i], pool.reservations[i]) == Sum(Charges(pool, phases)) + Charge(phase, pool.reservations[i])
    ensures Sum(Lives(phases[i := phase])) + Live(phases[i]) == Sum(Lives(phases)) + Live(phase)
    ensures Charge(phases[i], pool.reservations[i]) <= Sum(Charges(pool, phases)) && Live(phases[i]) <= Sum(Lives(phases))
  {
    hide Sum, Charge, Live;
    SumUpdate(Charges(pool, phases), i, Charge(phase, pool.reservations[i]));
    SumUpdate(Lives(phases), i, Live(phase));
    assert Charges(pool, phases[i := phase]) == Charges(pool, phases)[i := Charge(phase, pool.reservations[i])];
    assert Lives(phases[i := phase]) == Lives(phases)[i := Live(phase)];
  }

  lemma InitialValid(pool: Pool)
    ensures Valid(pool, Initial(pool))
  {
    hide Sum;
    SumConstant(Charges(pool, Initial(pool).phases), 0);
    SumConstant(Lives(Initial(pool).phases), 0);
  }

  /** The job a step moves. */
  function Subject(s: State, step: Step): nat
  {
    match step
    case Admit => s.counters.next
    case Cancel => 0
    case _ => step.index
  }

  /** Every enabled step keeps the budget exact and within its bounds; no subtraction saturates. */
  lemma StepKeeps(pool: Pool, s: State, step: Step)
    requires Valid(pool, s) && After(pool, s, step).Some?
    ensures Valid(pool, After(pool, s, step).value)
  {
    hide Sum, Charges, Lives;
    if !step.Cancel? {
      var t := After(pool, s, step).value;
      var i := Subject(s, step);
      PhaseChange(pool, s.phases, i, t.phases[i]);
    }
  }

  // ----- Runs -----

  function RunOf(pool: Pool, steps: seq<Step>): Option<State>
  {
    if steps == [] then Some(Initial(pool)) else
      var before := RunOf(pool, steps[..|steps| - 1]);
      if before.None? then None else After(pool, before.value, steps[|steps| - 1])
  }

  /** In every reachable state the budget is exact. */
  lemma {:induction false} RunKeeps(pool: Pool, steps: seq<Step>)
    requires RunOf(pool, steps).Some?
    ensures Valid(pool, RunOf(pool, steps).value)
  {
    hide Valid, After, Initial;
    if steps == [] {
      InitialValid(pool);
    } else {
      RunKeeps(pool, steps[..|steps| - 1]);
      StepKeeps(pool, RunOf(pool, steps[..|steps| - 1]).value, steps[|steps| - 1]);
    }
  }

  predicate Releases(step: Step, i: nat)
  {
    (step.Take? || step.Return? || step.RunStage? || step.Discard?) && step.index == i
  }

  function ReleaseCount(steps: seq<Step>, i: nat): nat
  {
    if steps == [] then 0 else ReleaseCount(steps[..|steps| - 1], i) + if Releases(steps[|steps| - 1], i) then 1 else 0
  }

  /** Along every run each job's charge is released at most once: exactly once if the job is retired, else never. */
  lemma {:induction false} ReleasedOnce(pool: Pool, steps: seq<Step>, i: nat)
    requires RunOf(pool, steps).Some? && i < |pool.reservations|
    ensures |RunOf(pool, steps).value.phases| == |pool.reservations|
    ensures ReleaseCount(steps, i) == if RunOf(pool, steps).value.phases[i].Retired? then 1 else 0
  {
    hide Valid, After, Releases;
    if steps != [] {
      var before := RunOf(pool, steps[..|steps| - 1]).value;
      ReleasedOnce(pool, steps[..|steps| - 1], i);
      RunKeeps(pool, steps[..|steps| - 1]);
      ReleaseStep(pool, before, steps[|steps| - 1], i);
    }
  }

  lemma ReleaseStep(pool: Pool, s: State, step: Step, i: nat)
    requires Valid(pool, s) && After(pool, s, step).Some? && i < |s.phases|
    ensures var t := After(pool, s, step).value;
      |t.phases| == |s.phases| && (t.phases[i].Retired? <==> s.phases[i].Retired? || Releases(step, i)) && !(s.phases[i].Retired? && Releases(step, i))
  {
    hide Sum, Charges, Lives;
  }

  // ----- Progress -----

  /** A step that the pool or the channel can take without the consumer. */
  ghost predicate Enabled(pool: Pool, s: State)
  {
    exists step: Step :: WithoutConsumer(step) && After(pool, s, step).Some?
  }

  predicate WithoutConsumer(step: Step)
  {
    step.Admit? || step.Complete? || step.Receive? || step.RunStage?
  }

  lemma {:induction false} AllZero(xs: seq<nat>)
    requires forall i :: 0 <= i < |xs| ==> xs[i] == 0
    ensures Sum(xs) == 0
  {
    SumConstant(xs, 0);
  }

  /**
   * A consumer that takes keys in job order never waits in vain: unless its key is ready, some worker or channel step is
   * enabled, provided every earlier job is retired or staged and not held as a lease.
   */
  lemma NeverStuck(pool: Pool, s: State, key: nat)
    requires Valid(pool, s) && key < |pool.reservations| && !s.counters.cancelled && pool.maxActive >= 1
    requires forall i :: 0 <= i < |pool.reservations| ==> pool.reservations[i] <= pool.limit
    requires forall i :: 0 <= i < key ==> s.phases[i].Retired? || s.phases[i].Staged?
    requires !s.phases[key].Ready? && !s.phases[key].Leased? && !s.phases[key].Staged? && !s.phases[key].Retired?
    ensures Enabled(pool, s)
  {
    hide Sum, Charges, Lives;
    if i :| 0 <= i < key && s.phases[i].Staged? {
      assert After(pool, s, RunStage(i)).Some?;
    } else {
      match s.phases[key]
      case Running => assert After(pool, s, Complete(key, 0)).Some?;
      case Sent(_) => assert After(pool, s, Receive(key)).Some?;
      case Queued =>
        Idle(pool, s, key);
        assert After(pool, s, Admit).Some?;
    }
  }

  lemma Idle(pool: Pool, s: State, key: nat)
    requires Valid(pool, s) && key < |s.phases| && s.phases[key].Queued? && forall i :: 0 <= i < key ==> s.phases[i].Retired?
    ensures s.counters.next == key && s.counters.reserved == 0 && s.counters.active == 0
  {
    hide Sum;
    assert s.counters.next <= key && s.phases[s.counters.next].Queued?;
    AllZero(Charges(pool, s.phases));
    AllZero(Lives(s.phases));
  }

  function Progress(s: State): nat
  {
    Sum(Ranks(s.phases))
  }

  /** Every step but cancelling moves a job forward, and no job moves more than six times, so every run ends. */
  lemma StepAdvances(pool: Pool, s: State, step: Step)
    requires |s.phases| == |pool.reservations| && After(pool, s, step).Some? && !step.Cancel?
    requires step.Admit? ==> s.phases[s.counters.next].Queued?
    ensures Progress(s) < Progress(After(pool, s, step).value) <= 6 * |pool.reservations|
  {
    hide Sum;
    var t := After(pool, s, step).value;
    var i := Subject(s, step);
    SumUpdate(Ranks(s.phases), i, Rank(t.phases[i]));
    assert Ranks(t.phases) == Ranks(s.phases)[i := Rank(t.phases[i])];
    var top: seq<nat> := seq(|t.phases|, _ => 6);
    SumLeq(Ranks(t.phases), top);
    SumConstant(top, 6);
  }

  /** The steps of a run that move a job. */
  function Moves(steps: seq<Step>): nat
  {
    if steps == [] then 0 else Moves(steps[..|steps| - 1]) + if steps[|steps| - 1].Cancel? then 0 else 1
  }

  /** No run has more than six steps for each job, besides cancelling: no schedule goes on for ever. */
  lemma {:induction false} RunEnds(pool: Pool, steps: seq<Step>)
    requires RunOf(pool, steps).Some?
    ensures |RunOf(pool, steps).value.phases| == |pool.reservations|
    ensures Moves(steps) <= Progress(RunOf(pool, steps).value) <= 6 * |pool.reservations|
  {
    hide Progress, After;
    RunKeeps(pool, steps);
    ProgressBound(RunOf(pool, steps).value);
    if steps != [] {
      var before := steps[..|steps| - 1];
      RunEnds(pool, before);
      RunKeeps(pool, before);
      OneMove(pool, RunOf(pool, before).value, steps[|steps| - 1]);
    }
  }

  lemma ProgressBound(s: State)
    ensures Progress(s) <= 6 * |s.phases|
  {
    hide Sum;
    var top: seq<nat> := seq(|s.phases|, _ => 6);
    SumLeq(Ranks(s.phases), top);
    SumConstant(top, 6);
  }

  lemma OneMove(pool: Pool, s: State, step: Step)
    requires Valid(pool, s) && After(pool, s, step).Some?
    ensures Progress(After(pool, s, step).value) >= Progress(s) + if step.Cancel? then 0 else 1
  {
    hide Sum, Charges, Lives;
    if !step.Cancel? {
      StepAdvances(pool, s, step);
    }
  }

  // ----- The budget in a run -----

  /** The part of a step that happens under the budget's lock. */
  method Perform(budget: Budget, pool: Pool, s: State, step: Step) returns (r: Option<State>)
    requires budget.View() == s.counters && budget.limit == pool.limit && budget.maxActive == pool.maxActive && Valid(pool, s)
    modifies budget
    ensures r == After(pool, s, step)
    ensures budget.View() == if r.Some? then r.value.counters else s.counters
  {
    hide Valid, Sum;
    PhasesSize(pool, s);
    match step
    case Admit =>
      var next := budget.TryNext(pool.reservations);
      if !next.Admitted? {
        return None;
      }
      return Some(State(budget.View(), s.phases[next.index := Running]));
    case Complete(i, size) =>
      if i >= |s.phases| || !s.phases[i].Running? {
        return None;
      }
      var retained := Min(size, pool.reservations[i]);
      budget.Complete(pool.reservations[i], retained);
      return Some(State(budget.View(), s.phases[i := Sent(retained)]));
    case Receive(i) => return if i < |s.phases| && s.phases[i].Sent? then Some(Moved(s, i, Ready(s.phases[i].retained))) else None;
    case Lease(i) => return if i < |s.phases| && s.phases[i].Ready? then Some(Moved(s, i, Leased(s.phases[i].retained))) else None;
    case Submit(i) => return if i < |s.phases| && s.phases[i].Leased? then Some(Moved(s, i, Staged(s.phases[i].retained))) else None;
    case Cancel =>
      budget.Cancel();
      return Some(s.(counters := budget.View()));
    case _ =>
      var i := step.index;
      if !MayRelease(s, step) {
        return None;
      }
      budget.Retire(s.phases[i].retained);
      return Some(State(budget.View(), s.phases[i := Retired]));
  }

  lemma PhasesSize(pool: Pool, s: State)
    requires Valid(pool, s)
    ensures |s.phases| == |pool.reservations|
  {
  }

  /** Every run drives the budget through exactly the counters of its states: no subtraction ever saturates in it. */
  method Execute(pool: Pool, steps: seq<Step>) returns (r: Option<State>, budget: Budget)
    ensures r == RunOf(pool, steps)
    ensures r.Some? ==> budget.View() == r.value.counters && budget.reserved <= pool.limit && budget.active <= pool.maxActive
  {
    hide Valid, After, Initial;
    budget := new Budget(pool.limit, pool.maxActive);
    var s := Initial(pool);
    InitialValid(pool);
    StartCounters(pool);
    assert steps[..0] == [];
    for k := 0 to |steps|
      invariant fresh(budget) && budget.limit == pool.limit && budget.maxActive == pool.maxActive
      invariant RunOf(pool, steps[..k]) == Some(s) && budget.View() == s.counters && Valid(pool, s)
    {
      assert steps[..k + 1][..k] == steps[..k];
      var next := Perform(budget, pool, s, steps[k]);
      if next.None? {
        RunStops(pool, steps, k + 1);
        return None, budget;
      }
      StepKeeps(pool, s, steps[k]);
      s := next.value;
    }
    assert steps[..|steps|] == steps;
    ValidBounds(pool, s);
    r := Some(s);
  }

  lemma StartCounters(pool: Pool)
    ensures Initial(pool).counters == Counters(0, 0, 0, false)
  {
  }

  lemma ValidBounds(pool: Pool, s: State)
    requires Valid(pool, s)
    ensures s.counters.reserved <= pool.limit && s.counters.active <= pool.maxActive
  {
  }

  lemma {:induction false} RunStops(pool: Pool, steps: seq<Step>, k: nat)
    requires k <= |steps| && RunOf(pool, steps[..k]).None?
    ensures RunOf(pool, steps).None?
    decreases |steps|
  {
    hide After;
    if k < |steps| {
      assert steps[..|steps| - 1][..k] == steps[..k];
      RunStops(pool, steps[..|steps| - 1], k);
    } else {
      assert steps[..k] == steps;
    }
  }
}
