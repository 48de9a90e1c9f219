/** Results of jobs that workers finish in any order, handed over by key. */
module OrderedDelivery {
  import opened Options
  import Streaming

  /** Results keyed by job and received in whatever order workers finish. */
  class OrderedResults<T(!new)> {
    var running: map<nat, T>
    var ready: map<nat, T>

    ghost predicate Valid()
      reads this
    {
      running.Keys !! ready.Keys
    }

    /** Every result not yet taken. */
    ghost function Values(): map<nat, T>
      reads this
    {
      running + ready
    }

    constructor (values: map<nat, T>)
      ensures Valid() && Values() == values
    {
      running, ready := values, map[];
    }

    method Spawn(key: nat, value: T)
      requires Valid() && key !in Values()
      modifies this
      ensures Valid() && Values() == old(Values())[key := value]
    {
      running := running[key := value];
    }

    /** Receive results until the wanted one is there; a key nobody works on yields nothing. */
    method Take(key: nat) returns (r: Option<T>)
      requires Valid()
      modifies this
      ensures Valid()
      ensures key in old(Values()) ==> r == Some(old(Values())[key])
      ensures key !in old(Values()) ==> r == None
      ensures Values() == Streaming.Without(old(Values()), key)
    {
      hide Streaming.Without;
      ghost var all := Values();
      while key !in ready && running != map[]
        invariant Valid() && Values() == all
        decreases |running|
      {
        var received: nat :| received in running;
        Moved(running, ready, received);
        ready := ready[received := running[received]];
        running := Streaming.Without(running, received);
      }
      if key !in ready {
        assert running == map[] && Streaming.Without(all, key) == all;
        return None;
      }
      r := Some(ready[key]);
      Removed(running, ready, key);
      ready := Streaming.Without(ready, key);
    }

    /** Drop results that can no longer be wanted. */
    method DiscardBefore(key: nat)
      requires Valid()
      modifies this
      ensures Valid() && Values().Keys <= old(Values()).Keys
      ensures forall k :: k in old(Values()) && k >= key ==> k in Values() && Values()[k] == old(Values())[k]
    {
      ready := map k | k in ready && k >= key :: ready[k];
    }
  }

  lemma Moved<T>(running: map<nat, T>, ready: map<nat, T>, key: nat)
    requires running.Keys !! ready.Keys && key in running
    ensures var running1, ready1 := Streaming.Without(running, key), ready[key := running[key]];
            running1.Keys !! ready1.Keys && running1 + ready1 == running + ready && |running1| < |running|
  {
    SmallerMap(running, key);
    MovedApart(running, ready, key);
    MovedSame(running, ready, key);
  }

  lemma MovedApart<T>(running: map<nat, T>, ready: map<nat, T>, key: nat)
    requires running.Keys !! ready.Keys && key in running
    ensures Streaming.Without(running, key).Keys !! ready[key := running[key]].Keys
  {
    assert ready[key := running[key]].Keys == ready.Keys + {key};
  }

  lemma MovedSame<T>(running: map<nat, T>, ready: map<nat, T>, key: nat)
    requires running.Keys !! ready.Keys && key in running
    ensures Streaming.Without(running, key) + ready[key := running[key]] == running + ready
  {
    var now, was := Streaming.Without(running, key) + ready[key := running[key]], running + ready;
    assert forall k :: k in now <==> k in was;
    assert forall k :: k in was ==> now[k] == was[k];
  }

  lemma SmallerMap<T>(m: map<nat, T>, key: nat)
    requires key in m
    ensures |Streaming.Without(m, key)| < |m|
  {
    assert m.Keys == Streaming.Without(m, key).Keys + {key};
  }

  lemma Removed<T>(running: map<nat, T>, ready: map<nat, T>, key: nat)
    requires running.Keys !! ready.Keys && key in ready
    ensures running + Streaming.Without(ready, key) == Streaming.Without(running + ready, key)
    ensures (running + ready)[key] == ready[key]
  {
  }
}
