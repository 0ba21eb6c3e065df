/** The hash of thread objects that the trap handlers consult. */
module Threads {
  const THREAD_MAP_SIZE: nat := 64

  class Thread {
    const tid: nat

    constructor (tid: nat)
      ensures this.tid == tid
    {
      this.tid := tid;
    }
  }

  class ThreadMap {
    const buckets: array<seq<Thread>>
    ghost var view: map<nat, Thread>

    ghost predicate Valid()
      reads this, buckets
    {
      && buckets.Length == THREAD_MAP_SIZE
      && (forall b, i :: 0 <= b < THREAD_MAP_SIZE && 0 <= i < |buckets[b]| ==> InPlace(b, buckets[b][i]))
      && forall tid :: tid in view ==> view[tid].tid == tid && view[tid] in buckets[tid % THREAD_MAP_SIZE]
    }

    /** `t` belongs to bucket `b` and is the only thread with its id. */
    ghost predicate InPlace(b: nat, t: Thread)
      reads this
    {
      t.tid % THREAD_MAP_SIZE == b && t.tid in view && view[t.tid] == t
    }

    /** thread_map_init */
    constructor ()
      ensures Valid() && view == map[] && fresh(buckets)
    {
      buckets := new seq<Thread>[THREAD_MAP_SIZE](_ => []);
      view := map[];
    }

    /** thread_map_find */
    method Find(tid: nat) returns (t: Thread?)
      requires Valid()
      ensures t == if tid in view then view[tid] else null
    {
      var b := tid % THREAD_MAP_SIZE;
      var chain := buckets[b];
      var i := 0;
      while i < |chain|
        invariant 0 <= i <= |chain| && forall k :: 0 <= k < i ==> chain[k].tid != tid
      {
        assert InPlace(b, buckets[b][i]);
        if chain[i].tid == tid {
          return chain[i];
        }
        i := i + 1;
      }
      t := null;
    }

    /** thread_map_add */
    method Add(thread: Thread) returns (code: int)
      requires Valid()
      modifies this, buckets
      ensures Valid()
      ensures thread.tid in old(view) ==> code == -1 && view == old(view) && buckets[..] == old(buckets[..])
      ensures thread.tid !in old(view) ==> code == 0 && view == old(view)[thread.tid := thread]
    {
      var known := Find(thread.tid);
      if known != null {
        return -1;
      }
      var b := thread.tid % THREAD_MAP_SIZE;
      ghost var chain := buckets[b];
      buckets[b] := [thread] + buckets[b];
      view := view[thread.tid := thread];
      code := 0;
      forall c, i | 0 <= c < THREAD_MAP_SIZE && 0 <= i < |buckets[c]| ensures InPlace(c, buckets[c][i]) {
        if c == b && i > 0 {
          assert buckets[c][i] == chain[i - 1] && old(InPlace(b, buckets[b][i - 1]));
        } else if c != b {
          assert old(InPlace(c, buckets[c][i]));
        }
      }
      forall tid | tid in view ensures view[tid].tid == tid && view[tid] in buckets[tid % THREAD_MAP_SIZE] {
        if tid != thread.tid && tid % THREAD_MAP_SIZE == b {
          assert view[tid] in chain;
        }
      }
    }

    /** How both handlers get the object of the running thread. */
    method ForThread(tid: nat) returns (t: Thread)
      requires Valid()
      modifies this, buckets
      ensures Valid() && tid in view && t == view[tid] && t.tid == tid
      ensures view == if tid in old(view) then old(view) else old(view)[tid := t]
    {
      var known := Find(tid);
      if known != null {
        return known;
      }
      t := new Thread(tid);
      var _ := Add(t);
    }
  }
}
