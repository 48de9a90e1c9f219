/** The streaming worker pool: bounded submission, completion in any order, delivery in submission order. */
module Streaming {
  import opened BitReading
  import opened Sums

  datatype Refusal = TooLarge | Full | NothingPending

  datatype Answer<T> = Taken(value: T) | Refused(why: Refusal)

  /** A submitted job: its charge and the value its worker will produce. */
  datatype Job<T> = Job(charge: nat, value: T)

  function Charges<T>(jobs: seq<Job<T>>): (cs: seq<nat>)
    ensures |cs| == |jobs| && forall i :: 0 <= i < |jobs| ==> cs[i] == jobs[i].charge
  {
    seq(|jobs|, i requires 0 <= i < |jobs| => jobs[i].charge)
  }

  /** Every untaken job is either running or ready, with its own charge and value. */
  ghost predicate Tracks<T(!new)>(jobs: seq<Job<T>>, nextTake: nat, running: map<nat, Job<T>>, ready: map<nat, Job<T>>)
  {
    && running.Keys !! ready.Keys
    && (forall k: nat :: nextTake <= k < |jobs| ==> k in running || k in ready)
    && (forall k :: k in running ==> nextTake <= k < |jobs| && running[k] == jobs[k])
    && (forall k :: k in ready ==> nextTake <= k < |jobs| && ready[k] == jobs[k])
  }

  function Without<T>(m: map<nat, T>, key: nat): (w: map<nat, T>)
    ensures w.Keys == m.Keys - {key} && forall k :: k in w ==> w[k] == m[k]
  {
    map k | k in m && k != key :: m[k]
  }

  lemma TracksSubmit<T(!new)>(jobs: seq<Job<T>>, nextTake: nat, running: map<nat, Job<T>>, ready: map<nat, Job<T>>, job: Job<T>)
    requires Tracks(jobs, nextTake, running, ready) && nextTake <= |jobs|
    ensures Tracks(jobs + [job], nextTake, running[|jobs| := job], ready)
  {
  }

  lemma TracksReceive<T(!new)>(jobs: seq<Job<T>>, nextTake: nat, running: map<nat, Job<T>>, ready: map<nat, Job<T>>, key: nat)
    requires Tracks(jobs, nextTake, running, ready) && key in running
    ensures Tracks(jobs, nextTake, Without(running, key), ready[key := running[key]])
    ensures |Without(running, key)| < |running|
  {
    assert running.Keys == Without(running, key).Keys + {key};
  }

  lemma TracksTake<T(!new)>(jobs: seq<Job<T>>, nextTake: nat, running: map<nat, Job<T>>, ready: map<nat, Job<T>>)
    requires Tracks(jobs, nextTake, running, ready) && nextTake in ready
    ensures Tracks(jobs, nextTake + 1, running, Without(ready, nextTake))
  {
  }

  class StreamingOrdered<T(!new)> {
    const maxActive: nat
    const memoryLimit: nat
    /** Jobs whose message has not been received; workers may finish them in any order. */
    var running: map<nat, Job<T>>
    /** Results received ahead of their turn. */
    var ready: map<nat, Job<T>>
    var nextSubmit: nat
    var nextTake: nat
    var reserved: nat
    var active: nat
    /** Every job ever submitted. */
    ghost var jobs: seq<Job<T>>

    ghost predicate Valid()
      reads this
    {
      && nextTake <= nextSubmit == |jobs|
      && active == nextSubmit - nextTake <= maxActive
      && reserved == Sum(Charges(jobs[nextTake..])) <= memoryLimit
      && Tracks(jobs, nextTake, running, ready)
    }

    /** The jobs submitted and not yet taken, in order. */
    ghost function Pending(): seq<Job<T>>
      reads this
      requires Valid()
    {
      jobs[nextTake..]
    }

    constructor (threads: nat, memoryLimit: nat)
      ensures Valid() && Pending() == [] && this.memoryLimit == memoryLimit && maxActive == (if threads < 1 then 1 else threads)
    {
      maxActive := if threads < 1 then 1 else threads;
      this.memoryLimit := memoryLimit;
      running, ready, nextSubmit, nextTake, reserved, active, jobs := map[], map[], 0, 0, 0, 0, [];
    }

    predicate CanSubmit(reservation: nat)
      reads this
    {
      active < maxActive && reservation <= memoryLimit - reserved
    }

    /** With nothing pending any job within the limit is admitted. */
    lemma IdleAdmits(reservation: nat)
      requires Valid() && Pending() == [] && reservation <= memoryLimit && maxActive > 0
      ensures CanSubmit(reservation)
    {
    }

    method Submit(reservation: nat, value: T) returns (refused: bool)
      requires Valid()
      modifies this
      ensures Valid()
      ensures refused == !old(CanSubmit(reservation))
      ensures Pending() == if refused then old(Pending()) else old(Pending()) + [Job(reservation, value)]
    {
      hide Tracks, Sum, Charges;
      if reservation > memoryLimit || !CanSubmit(reservation) {
        return true;
      }
      ghost var was := Pending();
      TracksSubmit(jobs, nextTake, running, ready, Job(reservation, value));
      running := running[nextSubmit := Job(reservation, value)];
      nextSubmit := nextSubmit + 1;
      active := active + 1;
      reserved := reserved + reservation;
      jobs := jobs + [Job(reservation, value)];
      assert jobs[nextTake..] == was + [Job(reservation, value)];
      LastCharge(was, Job(reservation, value));
      refused := false;
    }

    /** Receive messages until the next result in order is there; whichever worker finishes first is received first. */
    method Receive()
      requires Valid() && nextTake < nextSubmit
      modifies this`running, this`ready
      ensures Valid() && nextTake in ready
    {
      hide Tracks, Sum;
      while nextTake !in ready
        invariant Valid()
        decreases |running|
      {
        StillRunning(jobs, nextTake, running, ready);
        var key: nat :| key in running;
        TracksReceive(jobs, nextTake, running, ready, key);
        ready := ready[key := running[key]];
        running := Without(running, key);
      }
    }

    method TakeNext() returns (r: Answer<T>)
      requires Valid()
      modifies this
      ensures Valid()
      ensures old(Pending()) == [] ==> r == Refused(NothingPending) && Pending() == []
      ensures old(Pending()) != [] ==> r == Taken(old(Pending())[0].value) && Pending() == old(Pending())[1..]
    {
      hide Tracks, Sum, Charges;
      if nextTake >= nextSubmit {
        return Refused(NothingPending);
      }
      ghost var pending := Pending();
      Receive();
      var job := ready[nextTake];
      ReadyIsJob(jobs, nextTake, running, ready);
      FirstCharge(pending);
      TracksTake(jobs, nextTake, running, ready);
      assert jobs[nextTake + 1..] == pending[1..];
      ready := Without(ready, nextTake);
      nextTake := nextTake + 1;
      active := active - 1;
      reserved := reserved - job.charge;
      r := Taken(job.value);
    }

    predicate HasPending()
      reads this
    {
      nextTake < nextSubmit
    }
  }

  lemma StillRunning<T(!new)>(jobs: seq<Job<T>>, nextTake: nat, running: map<nat, Job<T>>, ready: map<nat, Job<T>>)
    requires Tracks(jobs, nextTake, running, ready) && nextTake < |jobs| && nextTake !in ready
    ensures nextTake in running
  {
  }

  lemma ReadyIsJob<T(!new)>(jobs: seq<Job<T>>, nextTake: nat, running: map<nat, Job<T>>, ready: map<nat, Job<T>>)
    requires Tracks(jobs, nextTake, running, ready) && nextTake in ready
    ensures nextTake < |jobs| && ready[nextTake] == jobs[nextTake]
  {
  }

  lemma LastCharge<T>(jobs: seq<Job<T>>, job: Job<T>)
    ensures Sum(Charges(jobs + [job])) == Sum(Charges(jobs)) + job.charge
  {
    assert Charges(jobs + [job])[..|jobs|] == Charges(jobs);
  }

  lemma FirstCharge<T>(jobs: seq<Job<T>>)
    requires jobs != []
    ensures Sum(Charges(jobs)) == jobs[0].charge + Sum(Charges(jobs[1..]))
  {
    assert Charges(jobs) == [jobs[0].charge] + Charges(jobs[1..]);
    SumAppend([jobs[0].charge], Charges(jobs[1..]));
    assert [jobs[0].charge][..0] == [];
  }
}
