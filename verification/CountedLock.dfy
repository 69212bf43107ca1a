/** The lock that callers of a mutex see: how many locks each thread has outstanding, and what one
    step may do to that.  Mutex is proved to refine it, and Condition to use it. */
module CountedLock {
  const INT_MAX := 0x7fff_ffff

  function Count(held: map<nat, nat>, t: nat): nat { if t in held then held[t] else 0 }

  /** One thread at a time, counted: a step of t changes nothing, takes a free lock, takes its own
      again, or gives one back. */
  ghost predicate LockStep(recursive: bool, before: map<nat, nat>, after: map<nat, nat>, t: nat) {
    && (forall u :: (u in before || u in after) && u != t ==> Count(after, u) == Count(before, u))
    && (|| Count(after, t) == Count(before, t)
        || (Count(after, t) == 1 && forall u :: u in before ==> before[u] == 0)
        || (recursive && 0 < Count(before, t) < INT_MAX && Count(after, t) == Count(before, t) + 1)
        || (0 < Count(before, t) && Count(after, t) == Count(before, t) - 1))
  }
}
