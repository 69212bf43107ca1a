/** The private futex lock that guards the allocator, the thread registry and the streams, as a
    transition system: one atomic operation or system call per step, any number of threads. */
module FutexLock {

  type Tid = nat

  datatype Pc =
    | Outside
    | Exchanging     // about to exchange the word with 1
    | Calling        // the exchange found 1; about to call futex wait
    | Asleep         // queued in the kernel
    | Holding
    | Waking         // exchanged the word with 0; about to call futex wake

  datatype State = State(word: int, pc: map<Tid, Pc>) {
    function At(t: Tid): Pc {
      if t in pc then pc[t] else Outside
    }

    function Move(t: Tid, p: Pc): State {
      this.(pc := pc[t := p])
    }
  }

  datatype Action =
    | Begin(t: Tid)
    | Exchange(t: Tid)
    | Wait(t: Tid)                  // the kernel compares the word and queues the thread, or refuses
    | Return(t: Tid)                // EINTR or any other return that no wake caused
    | Release(t: Tid)
    | Wake(t: Tid, woken: set<Tid>) // at most one sleeper

  function Asleep(s: State): set<Tid> {
    set t | t in s.pc && s.pc[t] == Pc.Asleep
  }

  predicate Enabled(s: State, a: Action) {
    match a
    case Begin(t) => s.At(t) == Outside
    case Exchange(t) => s.At(t) == Exchanging
    case Wait(t) => s.At(t) == Calling
    case Return(t) => s.At(t) == Calling || s.At(t) == Pc.Asleep
    case Release(t) => s.At(t) == Holding
    case Wake(t, woken) =>
      s.At(t) == Waking && woken <= Asleep(s) && |woken| == if Asleep(s) == {} then 0 else 1
  }

  function Apply(s: State, a: Action): State
    requires Enabled(s, a)
  {
    match a
    case Begin(t) => s.Move(t, Exchanging)
    case Exchange(t) => s.Move(t, if s.word != 0 then Calling else Holding).(word := 1)
    case Wait(t) => s.Move(t, if s.word == 1 then Pc.Asleep else Exchanging)
    case Return(t) => s.Move(t, Exchanging)
    case Release(t) => s.Move(t, if s.word != 0 then Waking else Outside).(word := 0)
    case Wake(t, woken) =>
      State(s.word, map u | u in s.pc :: if u == t then Outside else if u in woken then Exchanging else s.pc[u])
  }

  predicate Start(s: State) {
    s.word == 0 && forall t :: t in s.pc ==> s.pc[t] == Outside
  }

  ghost predicate IsRun(states: seq<State>, actions: seq<Action>) {
    && |states| == |actions| + 1 && Start(states[0])
    && forall i :: 0 <= i < |actions| ==> Enabled(states[i], actions[i]) && states[i + 1] == Apply(states[i], actions[i])
  }

  // ----- What holds in every reachable state

  /** The word is 1 exactly when one thread owns the lock. */
  ghost predicate Owned(s: State) {
    && (s.word == 0 || s.word == 1)
    && (s.word == 1 <==> exists t :: t in s.pc && s.pc[t] == Holding)
    && (forall t, u :: t in s.pc && u in s.pc && s.pc[t] == s.pc[u] == Holding ==> t == u)
  }

  /** This thread is about to wake a sleeper or to retry the exchange. */
  predicate Active(s: State, t: Tid) {
    s.At(t) == Waking || s.At(t) == Exchanging
  }

  /** A free lock with sleepers has someone on the way. */
  ghost predicate NoLostWake(s: State) {
    s.word == 0 && Asleep(s) != {} ==> exists t :: t in s.pc && Active(s, t)
  }

  lemma StepOwned(s: State, a: Action)
    requires Owned(s) && Enabled(s, a)
    ensures Owned(Apply(s, a))
  {
    var n := Apply(s, a);
    match a
    case Exchange(t) =>
      assert t in n.pc;
      if s.word == 0 {
        assert n.pc[t] == Holding;
      } else {
        var h :| h in s.pc && s.pc[h] == Holding;
        assert h in n.pc && n.pc[h] == Holding;
      }
    case Release(t) =>
      assert s.pc[t] == Holding;
    case _ =>
      assert forall u :: u in s.pc && s.pc[u] == Holding ==> u in n.pc && n.pc[u] == Holding;
      assert forall u :: u in n.pc && n.pc[u] == Holding ==> u in s.pc && s.pc[u] == Holding;
  }

  lemma StepNoLostWake(s: State, a: Action)
    requires Owned(s) && NoLostWake(s) && Enabled(s, a)
    ensures NoLostWake(Apply(s, a))
  {
    var n := Apply(s, a);
    if n.word == 0 && Asleep(n) != {} {
      var sleeper :| sleeper in Asleep(n);
      match a
      case Release(t) =>
        assert s.pc[t] == Holding && Active(n, t) && t in n.pc;
      case Wake(t, woken) =>
        assert sleeper in Asleep(s);
        var w :| w in woken;
        assert w in n.pc && Active(n, w);
      case Begin(t) =>
        assert t in n.pc && Active(n, t);
      case Wait(t) =>
        assert t in n.pc && Active(n, t);
      case Return(t) =>
        assert t in n.pc && Active(n, t);
      case Exchange(t) =>
    }
  }

  /** Over every run: mutual exclusion, the meaning of the word, and no lost wakeup. */
  lemma {:induction false} EveryRun(states: seq<State>, actions: seq<Action>, i: nat)
    requires IsRun(states, actions) && i < |states|
    ensures Owned(states[i]) && NoLostWake(states[i])
  {
    if i > 0 {
      EveryRun(states, actions, i - 1);
      assert states[i] == Apply(states[i - 1], actions[i - 1]);
      StepOwned(states[i - 1], actions[i - 1]);
      StepNoLostWake(states[i - 1], actions[i - 1]);
    }
  }
}
