/** Condition variables: `cnd_wait`, `cnd_timedwait`, `cnd_signal` and `cnd_broadcast` as a
    transition system.  The mutex is taken as the counted lock that Mutex.RefinesLock shows it to
    be (StepsOfTheLock); the sequence word is the number of wake calls modulo 2^32. */
module Condition {
  import opened CountedLock

  type Tid = nat

  const WORD := 0x1_0000_0000

  datatype Result = Success | Error | TimedOut

  /** `loaded` is the number of wake calls when the sequence was loaded, `depth` the locks the
      thread had outstanding when it called wait. */
  datatype Pc =
    | Idle(last: Result)
    | Load(timed: bool, depth: nat)
    | Unlock(timed: bool, loaded: nat, depth: nat)
    | Call(timed: bool, loaded: nat, depth: nat)      // about to call futex wait
    | Asleep(timed: bool, loaded: nat, depth: nat)
    | Relock(status: Result, depth: nat)
    | Add(all: bool)                                  // wake_waiters: about to increment
    | Wake(all: bool, count: nat, earlier: set<Tid>, locked: bool)

  datatype State = State(recursive: bool, count: nat, done: nat, pc: map<Tid, Pc>, held: map<Tid, nat>) {
    function At(t: Tid): Pc { if t in pc then pc[t] else Idle(Success) }
    function Held(t: Tid): nat { if t in held then held[t] else 0 }
    function Move(t: Tid, p: Pc): State { this.(pc := pc[t := p]) }
    function Lock(t: Tid, n: nat): State { this.(held := held[t := n]) }
  }

  datatype Action =
    | TakeLock(t: Tid)                  // the program locks or unlocks the mutex
    | DropLock(t: Tid)
    | StartWait(t: Tid, timed: bool)
    | StartWake(t: Tid, all: bool)
    | Run(t: Tid)
    | Sleep(t: Tid)                     // futex wait compares the word
    | Interrupt(t: Tid)                 // EINTR: the loop calls futex wait again
    | Spurious(t: Tid)
    | Expire(t: Tid)
    | Fail(t: Tid)
    | Regain(t: Tid)                    // mtx_lock after the wait
    | RegainFails(t: Tid)
    | WakeUp(t: Tid, woken: set<Tid>)

  /** Past the unlock and not yet woken. */
  predicate Waiting(p: Pc) { p.Call? || p.Asleep? }

  function Waiters(s: State): set<Tid> { set t | t in s.pc && Waiting(s.pc[t]) }

  function Sleepers(s: State): set<Tid> { set t | t in s.pc && s.pc[t].Asleep? }

  predicate Free(s: State) { forall t :: t in s.held ==> s.held[t] == 0 }

  predicate CanLock(s: State, t: Tid) {
    Free(s) || (s.recursive && 0 < s.Held(t) < INT_MAX)
  }

  predicate Enabled(s: State, a: Action) {
    var p := s.At(a.t);
    match a
    case TakeLock(t) => p.Idle? && CanLock(s, t)
    case DropLock(t) => p.Idle? && 0 < s.Held(t)
    case StartWait(_, _) => p.Idle?
    case StartWake(_, _) => p.Idle?
    case Run(_) => p.Load? || p.Unlock? || p.Add?
    case Sleep(_) => p.Call?
    case Interrupt(_) => Waiting(p)
    case Spurious(_) => p.Asleep?
    case Expire(_) => Waiting(p) && p.timed
    case Fail(_) => Waiting(p)
    case Regain(t) => p.Relock? && (Free(s) || 0 < s.Held(t))
    case RegainFails(_) => p.Relock?
    case WakeUp(_, woken) =>
      p.Wake? && woken <= Sleepers(s)
      && (if p.all then woken == Sleepers(s) else |woken| == if Sleepers(s) == {} then 0 else 1)
  }

  function RunStep(s: State, t: Tid): State
    requires Enabled(s, Run(t))
  {
    match s.At(t)
    case Load(timed, depth) => s.Move(t, Unlock(timed, s.count, depth))
    case Unlock(timed, loaded, depth) =>
      if s.Held(t) == 0 then s.Move(t, Idle(Error))
      else s.Lock(t, s.Held(t) - 1).Move(t, Call(timed, loaded, depth))
    case Add(all) =>
      s.Move(t, Wake(all, s.count + 1, Waiters(s), 0 < s.Held(t))).(count := s.count + 1)
  }

  function Max(a: nat, b: nat): nat { if a < b then b else a }

  function Apply(s: State, a: Action): State
    requires Enabled(s, a)
  {
    var p := s.At(a.t);
    match a
    case TakeLock(t) => s.Lock(t, s.Held(t) + 1)
    case DropLock(t) => s.Lock(t, s.Held(t) - 1)
    case StartWait(t, timed) => s.Move(t, Load(timed, s.Held(t)))
    case StartWake(t, all) => s.Move(t, Add(all))
    case Run(t) => RunStep(s, t)
    case Sleep(t) =>
      if s.count % WORD == p.loaded % WORD then s.Move(t, Asleep(p.timed, p.loaded, p.depth))
      else s.Move(t, Relock(Success, p.depth))
    case Interrupt(t) => s.Move(t, Call(p.timed, p.loaded, p.depth))
    case Spurious(t) => s.Move(t, Relock(Success, p.depth))
    case Expire(t) => s.Move(t, Relock(TimedOut, p.depth))
    case Fail(t) => s.Move(t, Relock(Error, p.depth))
    case Regain(t) =>
      if CanLock(s, t) then s.Lock(t, s.Held(t) + 1).Move(t, Idle(p.status)) else s.Move(t, Idle(Error))
    case RegainFails(t) => s.Move(t, Idle(Error))
    case WakeUp(t, woken) =>
      s.(pc := map u | u in s.pc ::
           if u == t then Idle(Success)
           else if u in woken && s.pc[u].Asleep? then Relock(Success, s.pc[u].depth) else s.pc[u],
         done := if p.all then Max(s.done, p.count) else s.done)
  }

  predicate Initial(s: State) {
    s.count == 0 && s.done == 0 && Free(s) && forall t :: t in s.pc ==> s.pc[t].Idle?
  }

  /** Fewer than 2^32 wake calls while a thread is between its load and the end of its wait. */
  predicate Window(s: State) {
    forall t :: t in s.pc && Waiting(s.pc[t]) ==> s.count < s.pc[t].loaded + WORD
  }

  ghost predicate IsRun(states: seq<State>, actions: seq<Action>) {
    && |states| == |actions| + 1 && Initial(states[0])
    && forall i :: 0 <= i < |actions| ==> Enabled(states[i], actions[i]) && states[i + 1] == Apply(states[i], actions[i])
  }

  // ----- Invariant

  ghost predicate OneHolder(s: State) {
    forall t, u :: 0 < s.Held(t) && 0 < s.Held(u) ==> t == u
  }

  /** What a thread's own program point says. */
  predicate Placed(s: State, t: Tid) {
    match s.At(t)
    case Load(_, depth) => depth == s.Held(t)
    case Unlock(_, loaded, depth) => loaded <= s.count && depth == s.Held(t)
    case Call(_, loaded, depth) => loaded <= s.count && depth == s.Held(t) + 1
    case Asleep(_, loaded, depth) => loaded <= s.count && depth == s.Held(t) + 1 && s.done <= loaded
    case Relock(_, depth) => depth == s.Held(t) + 1
    case Wake(_, count, _, locked) => count <= s.count && (locked ==> 0 < s.Held(t))
    case _ => true
  }

  /** While a signaller holds the mutex, the waiters are all from before its increment. */
  ghost predicate NoLatecomers(s: State) {
    forall t, u :: s.At(t).Wake? && s.At(t).locked && Waiting(s.At(u)) ==>
      u in s.At(t).earlier && s.At(u).loaded < s.At(t).count
  }

  ghost predicate Inv(s: State) {
    s.done <= s.count && OneHolder(s) && NoLatecomers(s) && forall t :: Placed(s, t)
  }

  lemma Others(s: State, a: Action, u: Tid)
    requires Enabled(s, a) && u != a.t && !a.WakeUp?
    ensures Apply(s, a).At(u) == s.At(u) && Apply(s, a).Held(u) == s.Held(u)
    ensures Apply(s, a).count >= s.count && Apply(s, a).done == s.done
  {
  }

  lemma FreeHeld(s: State, t: Tid)
    requires Free(s)
    ensures s.Held(t) == 0
  {
  }

  lemma OwnStep(s: State, a: Action)
    requires Inv(s) && Window(s) && Enabled(s, a) && !a.WakeUp?
    ensures Placed(Apply(s, a), a.t) && Apply(s, a).done == s.done <= Apply(s, a).count
    ensures 0 < Apply(s, a).Held(a.t) ==> 0 < s.Held(a.t) || Free(s)
  {
    assert Placed(s, a.t);
    if a.Sleep? {
      assert s.At(a.t).loaded <= s.count < s.At(a.t).loaded + WORD;
      SameWord(s.At(a.t).loaded, s.count);
    }
    if Free(s) { FreeHeld(s, a.t); }
  }

  /** Inside one window the 32-bit word decides exactly. */
  lemma SameWord(loaded: nat, count: nat)
    requires loaded <= count < loaded + WORD
    ensures count % WORD == loaded % WORD <==> count == loaded
  {
    if count % WORD == loaded % WORD {
      var a, b := count / WORD, loaded / WORD;
      assert count - loaded == WORD * (a - b);
    }
  }

  lemma StepInv(s: State, a: Action)
    requires Inv(s) && Window(s) && Enabled(s, a)
    ensures Inv(Apply(s, a))
  {
    if a.WakeUp? {
      WakeInv(s, a.t, a.woken);
    } else {
      var n := Apply(s, a);
      OwnStep(s, a);
      forall u: Tid | u != a.t
        ensures n.At(u) == s.At(u) && n.Held(u) == s.Held(u) && Placed(n, u)
      {
        Others(s, a, u);
        assert Placed(s, u);
      }
      StepOneHolder(s, a);
      StepNoLatecomers(s, a);
    }
  }

  lemma StepOneHolder(s: State, a: Action)
    requires Inv(s) && Enabled(s, a) && !a.WakeUp?
    requires 0 < Apply(s, a).Held(a.t) ==> 0 < s.Held(a.t) || Free(s)
    ensures OneHolder(Apply(s, a))
  {
    var n := Apply(s, a);
    forall t, u | 0 < n.Held(t) && 0 < n.Held(u) ensures t == u {
      if t != a.t { Others(s, a, t); }
      if u != a.t { Others(s, a, u); }
      if Free(s) { FreeHeld(s, t); FreeHeld(s, u); }
    }
  }

  lemma StepNoLatecomers(s: State, a: Action)
    requires Inv(s) && Enabled(s, a) && !a.WakeUp?
    ensures NoLatecomers(Apply(s, a))
  {
    var n := Apply(s, a);
    forall t, u | n.At(t).Wake? && n.At(t).locked && Waiting(n.At(u))
      ensures u in n.At(t).earlier && n.At(u).loaded < n.At(t).count
    {
      if t != a.t { Others(s, a, t); }
      if u != a.t { Others(s, a, u); }
      assert Placed(s, t) && Placed(s, u);
    }
  }

  lemma WakeInv(s: State, t: Tid, woken: set<Tid>)
    requires Inv(s) && Enabled(s, WakeUp(t, woken))
    ensures Inv(Apply(s, WakeUp(t, woken)))
  {
    var n := Apply(s, WakeUp(t, woken));
    assert Placed(s, t);
    assert forall u: Tid :: n.Held(u) == s.Held(u);
    forall u: Tid ensures Placed(n, u) && (n.At(u) == s.At(u) || !(Waiting(n.At(u)) || n.At(u).Wake?)) {
      assert Placed(s, u);
      if s.At(u).Asleep? && u !in woken {
        assert u in Sleepers(s);
      }
    }
  }

  lemma {:induction false} EveryRun(states: seq<State>, actions: seq<Action>, i: nat)
    requires IsRun(states, actions) && i < |states| && forall k :: 0 <= k < i ==> Window(states[k])
    ensures Inv(states[i])
  {
    if i == 0 {
      assert forall t: Tid :: states[0].At(t).Idle? && states[0].Held(t) == 0;
    } else {
      EveryRun(states, actions, i - 1);
      assert Window(states[i - 1]);
      StepInv(states[i - 1], actions[i - 1]);
    }
  }

  /** What threads do with the mutex here are steps of the lock that the mutex refines. */
  lemma StepsOfTheLock(states: seq<State>, actions: seq<Action>, i: nat)
    requires IsRun(states, actions) && i < |actions|
    ensures LockStep(states[i].recursive, states[i].held, states[i + 1].held, actions[i].t)
  {
    var s, a := states[i], actions[i];
    if !a.WakeUp? {
      forall u: nat | u != a.t ensures Count(Apply(s, a).held, u) == Count(s.held, u) {
        Others(s, a, u);
      }
    }
  }

  // ----- No lost wakeup

  lemma {:induction false} DoneGrows(states: seq<State>, actions: seq<Action>, i: nat, j: nat)
    requires IsRun(states, actions) && i <= j < |states|
    ensures states[i].done <= states[j].done
    decreases j - i
  {
    if i < j {
      DoneGrows(states, actions, i, j - 1);
      var s, a := states[j - 1], actions[j - 1];
      if !a.WakeUp? { Others(s, a, a.t + 1); }
    }
  }

  /** A waiter that loaded the sequence before a broadcast's increment is not asleep at any time
      after that broadcast's wake. */
  lemma BroadcastReleasesAll(states: seq<State>, actions: seq<Action>, b: nat, i: nat, w: Tid)
    requires IsRun(states, actions) && b < |actions| && b < i < |states|
    requires forall k :: 0 <= k < i ==> Window(states[k])
    requires actions[b].WakeUp? && states[b].At(actions[b].t).all
    requires states[i].At(w).Asleep?
    ensures states[b].At(actions[b].t).count <= states[i].At(w).loaded
  {
    EveryRun(states, actions, i);
    DoneGrows(states, actions, b + 1, i);
    assert Placed(states[i], w);
  }

  /** Not asleep, and if about to sleep then with an old sequence. */
  predicate Freed(s: State, w: Tid) {
    !s.At(w).Asleep? && (s.At(w).Call? ==> s.At(w).loaded < s.count)
  }

  /** A signal made with the mutex held frees at least one earlier waiter if there is any. */
  lemma SignalFreesOne(states: seq<State>, actions: seq<Action>, i: nat) returns (w: Tid)
    requires IsRun(states, actions) && i < |actions| && forall k :: 0 <= k < i ==> Window(states[k])
    requires actions[i].WakeUp? && states[i].At(actions[i].t).locked && states[i].At(actions[i].t).earlier != {}
    ensures w in states[i].At(actions[i].t).earlier && Freed(states[i + 1], w)
  {
    EveryRun(states, actions, i);
    w := WakeFreesOne(states[i], actions[i].t, actions[i].woken);
  }

  lemma WakeFreesOne(s: State, t: Tid, woken: set<Tid>) returns (w: Tid)
    requires Inv(s) && Enabled(s, WakeUp(t, woken)) && s.At(t).locked && s.At(t).earlier != {}
    ensures w in s.At(t).earlier && Freed(Apply(s, WakeUp(t, woken)), w)
  {
    assert Placed(s, t);
    if Sleepers(s) == {} || (s.At(t).all && woken == {}) {
      w :| w in s.At(t).earlier;
      assert w !in Sleepers(s);
      assert s.At(w).Call? ==> Waiting(s.At(w));
    } else {
      w :| w in woken;
      assert Waiting(s.At(w));
    }
  }

  /** A freed thread at the futex call is refused: it goes on to take the mutex. */
  lemma FreedCannotSleep(states: seq<State>, actions: seq<Action>, i: nat)
    requires IsRun(states, actions) && i < |actions| && forall k :: 0 <= k <= i ==> Window(states[k])
    requires actions[i].Sleep? && Freed(states[i], actions[i].t)
    ensures states[i + 1].At(actions[i].t) == Relock(Success, states[i].At(actions[i].t).depth)
  {
    var s, w := states[i], actions[i].t;
    EveryRun(states, actions, i);
    assert Placed(s, w) && w in s.pc;
    SameWord(s.At(w).loaded, s.count);
  }

  /** Success or timeout is returned only with the mutex held as often as on entry. */
  lemma WaitReturnsLocked(states: seq<State>, actions: seq<Action>, i: nat)
    requires IsRun(states, actions) && i < |actions| && forall k :: 0 <= k < i ==> Window(states[k])
    requires var s, n, t := states[i], states[i + 1], actions[i].t; s.At(t).Relock? && n.At(t).Idle? && n.At(t).last != Error
    ensures var s, n, t := states[i], states[i + 1], actions[i].t;
      n.Held(t) == s.At(t).depth && 0 < s.At(t).depth && forall u :: u != t ==> n.Held(u) == 0
  {
    EveryRun(states, actions, i);
    RegainLocks(states[i], actions[i]);
  }

  lemma RegainLocks(s: State, a: Action)
    requires Inv(s) && Enabled(s, a) && s.At(a.t).Relock? && Apply(s, a).At(a.t).Idle?
    requires Apply(s, a).At(a.t).last != Error
    ensures Apply(s, a).Held(a.t) == s.At(a.t).depth && 0 < s.At(a.t).depth
    ensures forall u :: u != a.t ==> Apply(s, a).Held(u) == 0
  {
    assert Placed(s, a.t);
    forall u | u != a.t ensures Apply(s, a).Held(u) == 0 {
      Others(s, a, u);
      if Free(s) { FreeHeld(s, u); FreeHeld(s, a.t); }
    }
  }

  // ----- What a call returns

  /** A call of t from the action i to the first state j in which t is between calls again. */
  ghost predicate IsCall(states: seq<State>, actions: seq<Action>, i: nat, j: nat, t: Tid) {
    && IsRun(states, actions) && i < j < |states| && actions[i].t == t
    && states[j].At(t).Idle? && forall k :: i < k < j ==> !states[k].At(t).Idle?
  }

  /** In step l of the call that began at i, t loads the sequence. */
  predicate Loads(states: seq<State>, actions: seq<Action>, i: nat, l: nat, t: Tid)
    requires |states| == |actions| + 1
  {
    i < l < |actions| && actions[l] == Run(t) && states[l].At(t).Load?
  }

  /** Step m takes t out of the wait by a wake, by a return without one, or by a refusal of the
      futex call because the word is not the one loaded in step l. */
  predicate Wakes(states: seq<State>, actions: seq<Action>, l: nat, m: nat, t: Tid)
    requires |states| == |actions| + 1 && l < |states| && m < |actions|
  {
    || (actions[m].WakeUp? && t in actions[m].woken) || actions[m] == Spurious(t)
    || (actions[m] == Sleep(t) && states[l].count % WORD != states[m].count % WORD)
  }

  /** In step m the wait of t ends, and `status` says how. */
  predicate WaitEnds(states: seq<State>, actions: seq<Action>, l: nat, m: nat, t: Tid, status: Result)
    requires |states| == |actions| + 1 && l < |states| && m < |actions|
  {
    && Waiting(states[m].At(t)) && (status == TimedOut <==> actions[m] == Expire(t))
    && (status == Error <==> actions[m] == Fail(t)) && (status == Success <==> Wakes(states, actions, l, m, t))
  }

  /** How far a wait of t that began at i has come at k: l is its load, m the end of its waiting. */
  ghost predicate WaitAt(states: seq<State>, actions: seq<Action>, i: nat, k: nat, t: Tid, timed: bool, l: nat, m: nat)
    requires |states| == |actions| + 1 && i < k < |states|
  {
    var s, depth := states[k], states[i].Held(t);
    match s.At(t)
    case Load(p, d) => p == timed && d == depth == s.Held(t)
    case Unlock(p, loaded, d) => p == timed && d == depth == s.Held(t) && l < k && Loads(states, actions, i, l, t) && loaded == states[l].count
    case Call(p, loaded, d) => p == timed && d == depth == s.Held(t) + 1 && l < k && Loads(states, actions, i, l, t) && loaded == states[l].count
    case Asleep(p, loaded, d) => p == timed && d == depth == s.Held(t) + 1 && l < k && Loads(states, actions, i, l, t) && loaded == states[l].count
    case Relock(status, d) =>
      && d == depth == s.Held(t) + 1 && l < m < k && Loads(states, actions, i, l, t) && (status == TimedOut ==> timed)
      && WaitEnds(states, actions, l, m, t, status) && forall u :: m < u <= k ==> states[u].At(t).Relock?
    case _ => false
  }

  lemma StepAt(states: seq<State>, actions: seq<Action>, k: nat)
    requires IsRun(states, actions) && k < |actions|
    ensures Enabled(states[k], actions[k]) && states[k + 1] == Apply(states[k], actions[k])
  {
    hide Enabled, Apply, Initial;
  }

  /** What a step of another thread may do to t. */
  lemma OthersAt(s: State, a: Action, t: Tid)
    requires Enabled(s, a) && a.t != t
    ensures var n := Apply(s, a);
      && n.Held(t) == s.Held(t)
      && n.At(t) == if a.WakeUp? && t in a.woken && s.At(t).Asleep? then Relock(Success, s.At(t).depth) else s.At(t)
  {
    if !a.WakeUp? { Others(s, a, t); }
  }

  lemma WaitStarts(s: State, t: Tid, timed: bool)
    requires Enabled(s, StartWait(t, timed))
    ensures Apply(s, StartWait(t, timed)).At(t) == Load(timed, s.Held(t)) && Apply(s, StartWait(t, timed)).Held(t) == s.Held(t)
  {
  }

  lemma {:induction false} WaitGoes(states: seq<State>, actions: seq<Action>, i: nat, k: nat, t: Tid, timed: bool) returns (l: nat, m: nat)
    requires IsRun(states, actions) && i < k < |states| && actions[i] == StartWait(t, timed)
    requires forall u :: i < u <= k ==> !states[u].At(t).Idle?
    ensures WaitAt(states, actions, i, k, t, timed, l, m)
  {
    hide Enabled, Apply, WaitAt, Initial;
    l, m := i, i;
    if i + 1 == k {
      WaitBegins(states, actions, i, t, timed, l, m);
    } else {
      l, m := WaitGoes(states, actions, i, k - 1, t, timed);
      if actions[k - 1].t == t {
        l, m := WaitGoesOn(states, actions, i, k, t, timed, l, m);
      } else {
        m := WaitGoesBy(states, actions, i, k, t, timed, l, m);
      }
    }
  }

  lemma WaitBegins(states: seq<State>, actions: seq<Action>, i: nat, t: Tid, timed: bool, l: nat, m: nat)
    requires IsRun(states, actions) && i < |actions| && actions[i] == StartWait(t, timed)
    ensures WaitAt(states, actions, i, i + 1, t, timed, l, m)
  {
    StepAt(states, actions, i);
    hide Enabled, Apply, IsRun, WaitEnds;
    WaitStarts(states[i], t, timed);
  }

  /** Meanwhile another thread moves; it may wake this one. */
  lemma WaitGoesBy(states: seq<State>, actions: seq<Action>, i: nat, k: nat, t: Tid, timed: bool, l: nat, m: nat) returns (m': nat)
    requires IsRun(states, actions) && i + 1 < k < |states| && WaitAt(states, actions, i, k - 1, t, timed, l, m)
    requires actions[k - 1].t != t
    ensures WaitAt(states, actions, i, k, t, timed, l, m')
  {
    StepAt(states, actions, k - 1);
    hide Enabled, Apply, IsRun, Loads;
    var s, a := states[k - 1], actions[k - 1];
    OthersAt(s, a, t);
    m' := if a.WakeUp? && t in a.woken && s.At(t).Asleep? then k - 1 else m;
  }

  lemma WaitGoesOn(states: seq<State>, actions: seq<Action>, i: nat, k: nat, t: Tid, timed: bool, l: nat, m: nat) returns (l': nat, m': nat)
    requires IsRun(states, actions) && i + 1 < k < |states| && WaitAt(states, actions, i, k - 1, t, timed, l, m)
    requires actions[k - 1].t == t && !states[k].At(t).Idle?
    ensures WaitAt(states, actions, i, k, t, timed, l', m')
  {
    l', m' := l, m;
    var s, a := states[k - 1], actions[k - 1];
    assert states[k] == Apply(s, a) && Enabled(s, a);
    if s.At(t).Load? {
      l' := k - 1;
    } else if Waiting(s.At(t)) && states[k].At(t).Relock? {
      m' := k - 1;
    }
  }

  /** What a wait of t from i to j returns: an error at once without the mutex; else the status
      that the end of its waiting in step m gives it, if it gets the mutex again. */
  ghost predicate WaitReturned(states: seq<State>, actions: seq<Action>, i: nat, j: nat, t: Tid, timed: bool, l: nat, m: nat)
    requires |states| == |actions| + 1 && i < j < |states| && states[j].At(t).Idle?
  {
    var r, locks := states[j].At(t).last, actions[j - 1] == Regain(t) && CanLock(states[j - 1], t);
    if states[i].Held(t) == 0 then r == Error && states[j].Held(t) == 0
    else
      && Loads(states, actions, i, l, t) && l < m < j - 1 && Waiting(states[m].At(t)) && (forall u :: m < u < j ==> states[u].At(t).Relock?)
      && (r == TimedOut <==> locks && actions[m] == Expire(t)) && (r == TimedOut ==> timed)
      && (r == Success <==> locks && Wakes(states, actions, l, m, t))
      && (r == Error <==> !locks || actions[m] == Fail(t))
      && states[j].Held(t) == if locks then states[i].Held(t) else states[i].Held(t) - 1
  }

  /** Every wait of every run, timed or not: it ends in step m, and the status is what that step
      was, unless the mutex cannot be had again.  An error has one of the three causes. */
  lemma WaitReturns(states: seq<State>, actions: seq<Action>, i: nat, j: nat, t: Tid, timed: bool) returns (l: nat, m: nat)
    requires IsCall(states, actions, i, j, t) && actions[i] == StartWait(t, timed)
    ensures WaitReturned(states, actions, i, j, t, timed, l, m)
  {
    hide Enabled, Apply, WaitAt, Initial, Wakes, Loads;
    if j == i + 1 {
      WaitBegins(states, actions, i, t, timed, i, i);
      NotIdleAt(states, actions, i, j, t, timed, i, i);
    } else {
      l, m := WaitGoes(states, actions, i, j - 1, t, timed);
      if actions[j - 1].t == t {
        WaitLeaves(states, actions, i, j, t, timed, l, m);
      } else {
        var m' := WaitGoesBy(states, actions, i, j, t, timed, l, m);
        NotIdleAt(states, actions, i, j, t, timed, l, m');
      }
    }
  }

  lemma NotIdleAt(states: seq<State>, actions: seq<Action>, i: nat, k: nat, t: Tid, timed: bool, l: nat, m: nat)
    requires |states| == |actions| + 1 && i < k < |states|
    ensures WaitAt(states, actions, i, k, t, timed, l, m) ==> !states[k].At(t).Idle?
  {
  }

  /** The last step of a wait. */
  lemma LastStep(s: State, a: Action)
    requires Enabled(s, a) && (s.At(a.t).Load? || s.At(a.t).Unlock? || Waiting(s.At(a.t)) || s.At(a.t).Relock?) && Apply(s, a).At(a.t).Idle?
    ensures var p, n, r := s.At(a.t), Apply(s, a), Apply(s, a).At(a.t).last;
      || (p.Unlock? && s.Held(a.t) == 0 == n.Held(a.t) && r == Error)
      || (p.Relock? && a == Regain(a.t) && CanLock(s, a.t) && r == p.status && n.Held(a.t) == s.Held(a.t) + 1)
      || (p.Relock? && !(a == Regain(a.t) && CanLock(s, a.t)) && r == Error && n.Held(a.t) == s.Held(a.t))
  {
    hide CanLock;
  }

  lemma WaitLeaves(states: seq<State>, actions: seq<Action>, i: nat, j: nat, t: Tid, timed: bool, l: nat, m: nat)
    requires IsRun(states, actions) && i + 1 < j < |states| && WaitAt(states, actions, i, j - 1, t, timed, l, m)
    requires actions[j - 1].t == t && states[j].At(t).Idle?
    ensures WaitReturned(states, actions, i, j, t, timed, l, m)
  {
    StepAt(states, actions, j - 1);
    hide Enabled, Apply, IsRun, CanLock, Wakes, Loads;
    LastStep(states[j - 1], actions[j - 1]);
  }

  /** How far a wake call of t that began at i has come at k. */
  predicate WakeAt(states: seq<State>, actions: seq<Action>, i: nat, k: nat, t: Tid, all: bool, m: nat)
    requires |states| == |actions| + 1 && i < k < |states|
  {
    match states[k].At(t)
    case Add(a) => a == all
    case Wake(a, count, _, _) => a == all && i < m < k && actions[m] == Run(t) && states[m + 1].count == states[m].count + 1 == count
    case _ => false
  }

  lemma WakeStarts(s: State, t: Tid, all: bool)
    requires Enabled(s, StartWake(t, all))
    ensures Apply(s, StartWake(t, all)).At(t) == Add(all)
  {
  }

  lemma Increment(s: State, a: Action)
    requires Enabled(s, a) && (s.At(a.t).Add? || s.At(a.t).Wake?) && !Apply(s, a).At(a.t).Idle?
    ensures var n := Apply(s, a);
      && a == Run(a.t) && n.count == s.count + 1 && s.At(a.t).Add?
      && n.At(a.t).Wake? && n.At(a.t).all == s.At(a.t).all && n.At(a.t).count == n.count
  {
  }

  lemma {:induction false} WakeGoes(states: seq<State>, actions: seq<Action>, i: nat, k: nat, t: Tid, all: bool) returns (m: nat)
    requires IsRun(states, actions) && i < k < |states| && actions[i] == StartWake(t, all)
    requires forall u :: i < u <= k ==> !states[u].At(t).Idle?
    ensures WakeAt(states, actions, i, k, t, all, m)
  {
    hide Apply, Enabled, WakeAt, Initial;
    m := i;
    if i + 1 == k {
      WakeBegins(states, actions, i, t, all, m);
    } else {
      m := WakeGoes(states, actions, i, k - 1, t, all);
      m := WakeGoesOn(states, actions, i, k, t, all, m);
    }
  }

  lemma WakeBegins(states: seq<State>, actions: seq<Action>, i: nat, t: Tid, all: bool, m: nat)
    requires IsRun(states, actions) && i < |actions| && actions[i] == StartWake(t, all)
    ensures WakeAt(states, actions, i, i + 1, t, all, m)
  {
    StepAt(states, actions, i);
    hide Apply, Enabled, IsRun;
    WakeStarts(states[i], t, all);
  }

  lemma WakeGoesOn(states: seq<State>, actions: seq<Action>, i: nat, k: nat, t: Tid, all: bool, m: nat) returns (m': nat)
    requires IsRun(states, actions) && i + 1 < k < |states| && WakeAt(states, actions, i, k - 1, t, all, m)
    requires !states[k].At(t).Idle?
    ensures WakeAt(states, actions, i, k, t, all, m')
  {
    StepAt(states, actions, k - 1);
    hide Apply, Enabled, IsRun;
    m' := m;
    if actions[k - 1].t == t {
      m' := k - 1;
      Increment(states[k - 1], actions[k - 1]);
    } else {
      OthersAt(states[k - 1], actions[k - 1], t);
    }
  }

  /** Every signal and every broadcast: the count goes up by one in step m, and the last step takes
      one sleeper, or all of them, out of their waits. */
  lemma WakeReturns(states: seq<State>, actions: seq<Action>, i: nat, j: nat, t: Tid, all: bool) returns (m: nat)
    requires IsCall(states, actions, i, j, t) && actions[i] == StartWake(t, all)
    ensures i < m < j - 1 && actions[m] == Run(t) && states[m + 1].count == states[m].count + 1
    ensures states[j].At(t) == Idle(Success)
    ensures var s, n := states[j - 1], states[j];
      && actions[j - 1].WakeUp? && actions[j - 1].t == t && actions[j - 1].woken <= Sleepers(s)
      && Sleepers(n) == Sleepers(s) - actions[j - 1].woken
      && (if all then Sleepers(n) == {} else |actions[j - 1].woken| == if Sleepers(s) == {} then 0 else 1)
      && forall u :: u in actions[j - 1].woken ==> n.At(u).Relock? && n.At(u).status == Success
  {
    m := WakeGoes(states, actions, i, j - 1, t, all);
    var s, a := states[j - 1], actions[j - 1];
    assert states[j] == Apply(s, a) && Enabled(s, a);
    if a.t != t && !a.WakeUp? { Others(s, a, t); }
  }

  // ----- Where the guarantees end

  ghost predicate Windowed(states: seq<State>) {
    forall k :: 0 <= k < |states| ==> Window(states[k])
  }

  /** `more` and `done` go on where `states` and `actions` end, and stay inside the windows. */
  ghost predicate Continues(states: seq<State>, actions: seq<Action>, more: seq<State>, done: seq<Action>) {
    IsRun(states, actions) && IsRun(more, done) && states <= more && actions <= done && Windowed(more)
  }

  /** One step more. */
  lemma Extend(states: seq<State>, actions: seq<Action>, a: Action) returns (more: seq<State>, done: seq<Action>)
    requires IsRun(states, actions) && Windowed(states) && Enabled(states[|actions|], a) && Window(Apply(states[|actions|], a))
    ensures Continues(states, actions, more, done) && |done| == |actions| + 1
    ensures more[|done|] == Apply(states[|actions|], a) && done[|actions|] == a
    ensures more[|actions|] == states[|actions|]
  {
    hide Window, Enabled, Apply, Initial;
    more, done := states + [Apply(states[|actions|], a)], actions + [a];
  }

  lemma ContinuesOn(a: seq<State>, b: seq<Action>, c: seq<State>, d: seq<Action>, e: seq<State>, f: seq<Action>)
    requires Continues(a, b, c, d) && Continues(c, d, e, f)
    ensures Continues(a, b, e, f)
  {
    hide IsRun, Windowed;
  }

  /** The run goes on with actions of one thread. */
  ghost predicate Path(states: seq<State>, actions: seq<Action>, more: seq<State>, done: seq<Action>, t: Tid) {
    Continues(states, actions, more, done) && forall k :: |actions| <= k < |done| ==> done[k].t == t
  }

  lemma Last(states: seq<State>, actions: seq<Action>, more: seq<State>, done: seq<Action>, t: Tid)
    requires Path(states, actions, more, done, t)
    ensures |more| == |done| + 1
  {
  }

  /** One action more, which starts no wait from before. */
  lemma Moves(states: seq<State>, actions: seq<Action>, a: Action, more: seq<State>, done: seq<Action>)
      returns (more': seq<State>, done': seq<Action>)
    requires Path(states, actions, more, done, a.t) && Enabled(more[|done|], a) && Window(Apply(more[|done|], a))
    ensures Path(states, actions, more', done', a.t) && |more'| == |done'| + 1 && more'[|done'|] == Apply(more[|done|], a)
    ensures Window(more'[|done'|])
  {
    hide Window, Enabled, Apply;
    more', done' := Extend(more, done, a);
    hide IsRun, Windowed;
    ContinuesOn(states, actions, more, done, more', done');
    assert forall k :: 0 <= k < |done| ==> done'[k] == done[k];
  }

  /** A move of one thread stays inside the windows if its own wait does. */
  lemma MoveWindow(s: State, t: Tid, p: Pc)
    requires Window(s) && (Waiting(p) ==> s.count < p.loaded + WORD)
    ensures Window(s.Move(t, p))
  {
  }

  lemma LockWindow(s: State, t: Tid, n: nat)
    requires Window(s)
    ensures Window(s.Lock(t, n))
  {
  }

  /** A thread between calls that has the mutex waits and falls asleep. */
  lemma FallsAsleep(states: seq<State>, actions: seq<Action>, t: Tid, more: seq<State>, done: seq<Action>)
      returns (more': seq<State>, done': seq<Action>)
    requires Path(states, actions, more, done, t) && Window(more[|done|])
    requires more[|done|].At(t).Idle? && 0 < more[|done|].Held(t)
    ensures Path(states, actions, more', done', t) && |more'| == |done'| + 1
    ensures var s := more[|done|];
      more'[|done'|] == s.Lock(t, s.Held(t) - 1).Move(t, Asleep(false, s.count, s.Held(t)))
  {
    hide Path, Window, Enabled, Apply;
    Last(states, actions, more, done, t);
    var s := more[|done|];
    WaitSteps(s, t);
    more', done' := Moves(states, actions, StartWait(t, false), more, done);
    more', done' := Moves(states, actions, Run(t), more', done');
    more', done' := Moves(states, actions, Run(t), more', done');
    more', done' := Moves(states, actions, Sleep(t), more', done');
  }

  lemma WaitSteps(s: State, t: Tid)
    requires Window(s) && s.At(t).Idle? && 0 < s.Held(t)
    ensures var d := s.Held(t);
      && Makes(s, StartWait(t, false), s.Move(t, Load(false, d)))
      && Makes(s.Move(t, Load(false, d)), Run(t), s.Move(t, Unlock(false, s.count, d)))
      && Makes(s.Move(t, Unlock(false, s.count, d)), Run(t), s.Lock(t, d - 1).Move(t, Call(false, s.count, d)))
      && Makes(s.Lock(t, d - 1).Move(t, Call(false, s.count, d)), Sleep(t), s.Lock(t, d - 1).Move(t, Asleep(false, s.count, d)))
  {
    hide Window;
    var d := s.Held(t);
    LockWindow(s, t, d - 1);
    MoveWindow(s, t, Load(false, d));
    MoveWindow(s, t, Unlock(false, s.count, d));
    MoveWindow(s.Lock(t, d - 1), t, Call(false, s.count, d));
    MoveWindow(s.Lock(t, d - 1), t, Asleep(false, s.count, d));
    Again(s.pc, t, Load(false, d), Unlock(false, s.count, d));
    Again(s.pc, t, Unlock(false, s.count, d), Call(false, s.count, d));
    Again(s.pc, t, Call(false, s.count, d), Asleep(false, s.count, d));
  }

  lemma Again<K, V>(m: map<K, V>, k: K, v: V, w: V)
    ensures m[k := v][k := w] == m[k := w]
  {
  }

  predicate Makes(s: State, a: Action, n: State) { Enabled(s, a) && n == Apply(s, a) && Window(n) }

  /** A thread that locks the mutex and waits goes to sleep, if nobody has the mutex. */
  lemma GoesToSleep(states: seq<State>, actions: seq<Action>, t: Tid, more: seq<State>, done: seq<Action>)
      returns (more': seq<State>, done': seq<Action>)
    requires Path(states, actions, more, done, t) && Window(more[|done|])
    requires Free(more[|done|]) && more[|done|].At(t).Idle?
    ensures Path(states, actions, more', done', t) && |more'| == |done'| + 1 && Free(more'[|done'|])
    ensures var s := more[|done|];
      more'[|done'|] == s.Lock(t, 0).Move(t, Asleep(false, s.count, 1))
  {
    hide Window, Path;
    Last(states, actions, more, done, t);
    var s := more[|done|];
    FreeHeld(s, t);
    LockWindow(s, t, 1);
    more', done' := Moves(states, actions, TakeLock(t), more, done);
    more', done' := FallsAsleep(states, actions, t, more', done');
    Again(s.held, t, 1, 0);
  }

  /** From t's step on, the threads other than t stay where they are and nobody calls wake. */
  ghost predicate Apart(s: State, n: State, t: Tid) {
    n.count == s.count && forall u :: u != t ==> n.At(u) == s.At(u)
  }

  lemma Unlocks(s: State, t: Tid)
    requires OneHolder(s) && 0 < s.Held(t)
    ensures Free(s.Lock(t, s.Held(t) - 1)) || 0 < s.Lock(t, s.Held(t) - 1).Held(t)
  {
    if s.Held(t) == 1 {
      forall u | u in s.Lock(t, 0).held ensures s.Lock(t, 0).held[u] == 0 {
        assert u != t ==> s.Held(u) == 0;
      }
    }
  }

  /** A thread that may still go to sleep with the mutex in hand: between calls, on the way into a
      wait whose window lasts, or on the way out of one. */
  predicate MayWait(s: State, t: Tid) {
    match s.At(t)
    case Idle(_) => true
    case Load(_, _) => true
    case Unlock(_, loaded, _) => s.count < loaded + WORD
    case Relock(_, _) => true
    case _ => false
  }

  /** Unlocks, fails at the futex call, and fails to lock again. */
  lemma GiveUpSteps(s: State, t: Tid)
    requires Window(s) && s.At(t).Unlock? && MayWait(s, t) && 0 < s.Held(t)
    ensures var p, m := s.At(t), s.Lock(t, s.Held(t) - 1);
      && Makes(s, Run(t), m.Move(t, Call(p.timed, p.loaded, p.depth)))
      && Makes(m.Move(t, Call(p.timed, p.loaded, p.depth)), Fail(t), m.Move(t, Relock(Error, p.depth)))
      && Makes(m.Move(t, Relock(Error, p.depth)), RegainFails(t), m.Move(t, Idle(Error)))
  {
    hide Window;
    var p, m := s.At(t), s.Lock(t, s.Held(t) - 1);
    LockWindow(s, t, s.Held(t) - 1);
    MoveWindow(m, t, Call(p.timed, p.loaded, p.depth));
    MoveWindow(m, t, Relock(Error, p.depth));
    MoveWindow(m, t, Idle(Error));
    Again(s.pc, t, Call(p.timed, p.loaded, p.depth), Relock(Error, p.depth));
    Again(s.pc, t, Relock(Error, p.depth), Idle(Error));
  }

  lemma GivesUp(states: seq<State>, actions: seq<Action>, t: Tid, more: seq<State>, done: seq<Action>)
      returns (more': seq<State>, done': seq<Action>)
    requires Path(states, actions, more, done, t) && Window(more[|done|])
    requires more[|done|].At(t).Unlock? && MayWait(more[|done|], t) && 0 < more[|done|].Held(t)
    ensures Path(states, actions, more', done', t) && |more'| == |done'| + 1 && Window(more'[|done'|])
    ensures more'[|done'|] == more[|done|].Lock(t, more[|done|].Held(t) - 1).Move(t, Idle(Error))
  {
    hide Path, Window, Enabled, Apply;
    Last(states, actions, more, done, t);
    GiveUpSteps(more[|done|], t);
    more', done' := Moves(states, actions, Run(t), more, done);
    more', done' := Moves(states, actions, Fail(t), more', done');
    more', done' := Moves(states, actions, RegainFails(t), more', done');
  }

  lemma LoadStep(s: State, t: Tid)
    requires Window(s) && s.At(t).Load?
    ensures Makes(s, Run(t), s.Move(t, Unlock(s.At(t).timed, s.count, s.At(t).depth)))
  {
    MoveWindow(s, t, Unlock(s.At(t).timed, s.count, s.At(t).depth));
    hide Window;
  }

  lemma RegainFailsStep(s: State, t: Tid)
    requires Window(s) && s.At(t).Relock?
    ensures Makes(s, RegainFails(t), s.Move(t, Idle(Error)))
  {
    MoveWindow(s, t, Idle(Error));
    hide Window;
  }

  /** The holder comes to the end of its call, if it may still wait. */
  lemma HolderIdles(states: seq<State>, actions: seq<Action>, t: Tid) returns (more: seq<State>, done: seq<Action>)
    requires Path(states, actions, states, actions, t) && Window(states[|actions|])
    requires var s := states[|actions|]; OneHolder(s) && 0 < s.Held(t) && MayWait(s, t)
    ensures Path(states, actions, more, done, t) && |more| == |done| + 1 && Window(more[|done|])
    ensures var n := more[|done|]; Apart(states[|actions|], n, t) && n.At(t).Idle? && (Free(n) || 0 < n.Held(t))
  {
    hide Path, Window, Enabled, Apply;
    Last(states, actions, states, actions, t);
    var s := states[|actions|];
    more, done := states, actions;
    if s.At(t).Relock? {
      RegainFailsStep(s, t);
      more, done := Moves(states, actions, RegainFails(t), more, done);
    } else if !s.At(t).Idle? {
      if s.At(t).Load? {
        LoadStep(s, t);
        more, done := Moves(states, actions, Run(t), more, done);
      }
      Unlocks(s, t);
      more, done := GivesUp(states, actions, t, more, done);
    }
  }

  lemma HolderSleeps(states: seq<State>, actions: seq<Action>, t: Tid) returns (more: seq<State>, done: seq<Action>)
    requires Path(states, actions, states, actions, t) && Window(states[|actions|])
    requires var s := states[|actions|]; OneHolder(s) && 0 < s.Held(t) && MayWait(s, t)
    ensures Path(states, actions, more, done, t) && |more| == |done| + 1
    ensures Apart(states[|actions|], more[|done|], t) && more[|done|].At(t).Asleep?
  {
    hide Path, Window, Free;
    more, done := HolderIdles(states, actions, t);
    if 0 < more[|done|].Held(t) {
      more, done := FallsAsleep(states, actions, t, more, done);
    } else {
      more, done := GoesToSleep(states, actions, t, more, done);
    }
  }

  // ----- What a signal is sure to do

  /** What follows a signaller that is about to increment: it increments, others act, it wakes. */
  ghost predicate Signalled(states: seq<State>, actions: seq<Action>, more: seq<State>, done: seq<Action>, t: Tid) {
    && Continues(states, actions, more, done) && |more| == |done| + 1
    && |actions| + 2 <= |done| && done[|actions|] == Run(t)
    && done[|done| - 1].WakeUp? && done[|done| - 1].t == t
    && forall k :: |actions| < k < |done| - 1 ==> done[k].t != t
  }

  /** No wait that began before wake call number `count` is asleep, nor will one be (StaysReleased). */
  predicate Released(s: State, w: Tid, count: nat) { s.At(w).Asleep? ==> count <= s.At(w).loaded }

  /** Whatever others do in between, the signal ends the wait of a thread that was waiting at the increment. */
  ghost predicate AlwaysFrees(states: seq<State>, actions: seq<Action>, t: Tid)
    requires |states| == |actions| + 1
  {
    var s := states[|actions|];
    forall more, done :: Signalled(states, actions, more, done, t) ==>
      exists w :: w in Waiters(s) && Released(more[|done|], w, s.count + 1)
  }

  /** A signaller about to increment while threads wait. */
  ghost predicate AboutToSignal(states: seq<State>, actions: seq<Action>, t: Tid) {
    && IsRun(states, actions) && Windowed(states) && |states| == |actions| + 1
    && var s := states[|actions|];
      s.At(t) == Add(false) && Waiters(s) != {} && Window(Apply(s, Run(t)))
  }

  lemma {:induction false} Unused(ts: set<Tid>) returns (t: Tid)
    ensures t !in ts && forall u :: u in ts ==> u < t
  {
    if ts == {} {
      t := 0;
    } else {
      var u :| u in ts;
      var v := Unused(ts - {u});
      t := if u < v then v else u + 1;
      forall x | x in ts ensures x < t {
        assert x == u || x in ts - {u};
      }
    }
  }

  lemma WakeWindow(s: State, t: Tid, woken: set<Tid>)
    requires Window(s) && Enabled(s, WakeUp(t, woken))
    ensures Window(Apply(s, WakeUp(t, woken)))
  {
  }

  /** The increment. */
  lemma Increments(states: seq<State>, actions: seq<Action>, t: Tid) returns (inc: seq<State>, did: seq<Action>)
    requires AboutToSignal(states, actions, t)
    ensures Continues(states, actions, inc, did) && |did| == |actions| + 1 && |inc| == |did| + 1 && did[|actions|] == Run(t)
    ensures Incremented(states[|actions|], inc[|did|], t) && Window(inc[|did|])
  {
    inc, did := Extend(states, actions, Run(t));
    hide Window;
  }

  /** The state after the increment. */
  ghost predicate Incremented(s: State, n: State, t: Tid) {
    && n.count == s.count + 1 && n.held == s.held && n.recursive == s.recursive && n.done == s.done
    && n.At(t) == Wake(false, s.count + 1, Waiters(s), 0 < s.Held(t)) && forall u :: u != t ==> n.At(u) == s.At(u)
  }

  /** The wake goes to one sleeper, and the others sleep on. */
  lemma WakesOne(b: State, t: Tid, late: Tid)
    requires b.At(t).Wake? && !b.At(t).all && b.At(late).Asleep?
    ensures Enabled(b, WakeUp(t, {late})) && Apply(b, WakeUp(t, {late})).At(late) == Relock(Success, b.At(late).depth)
    ensures forall w :: w != late && w != t ==> Apply(b, WakeUp(t, {late})).At(w) == b.At(w)
  {
    assert late in Sleepers(b);
  }

  /** A thread that falls asleep after the increment can take the wake. */
  lemma LateTakes(states: seq<State>, actions: seq<Action>, t: Tid, late: Tid,
                  inc: seq<State>, did: seq<Action>, slept: seq<State>, acted: seq<Action>) returns (more: seq<State>, done: seq<Action>)
    requires Continues(states, actions, inc, did) && |did| == |actions| + 1 && did[|actions|] == Run(t)
    requires |slept| == |acted| + 1 && Path(inc, did, slept, acted, late) && late != t
    requires slept[|acted|].At(t).Wake? && !slept[|acted|].At(t).all && slept[|acted|].At(late).Asleep?
    ensures Signalled(states, actions, more, done, t) && done[|done| - 1] == WakeUp(t, {late})
    ensures more[|done| - 1] == slept[|acted|] && more[|done|] == Apply(slept[|acted|], WakeUp(t, {late}))
  {
    hide Enabled, Apply, Window;
    var b := slept[|acted|];
    WakesOne(b, t, late);
    WakeWindow(b, t, {late});
    ContinuesOn(states, actions, inc, did, slept, acted);
    more, done := Extend(slept, acted, WakeUp(t, {late}));
    hide IsRun, Windowed;
    ContinuesOn(states, actions, slept, acted, more, done);
    assert done[|actions|] == acted[|actions|] == did[|actions|];
  }

  /** Without the mutex, any idle thread that starts to wait after the increment can take the wake,
      and all those that slept before it sleep on. */
  lemma SignalCanMiss(states: seq<State>, actions: seq<Action>, t: Tid, late: Tid) returns (more: seq<State>, done: seq<Action>)
    requires AboutToSignal(states, actions, t) && Free(states[|actions|]) && late != t && states[|actions|].At(late).Idle?
    ensures Signalled(states, actions, more, done, t) && done[|done| - 1] == WakeUp(t, {late})
    ensures var s, b, n := states[|actions|], more[|done| - 1], more[|done|];
      && b.At(t) == Wake(false, s.count + 1, Waiters(s), false) && n.At(late) == Relock(Success, 1)
      && forall w :: w in Sleepers(s) ==> n.At(w) == s.At(w)
  {
    hide Enabled, Apply, Window, IsRun, Windowed;
    var s := states[|actions|];
    FreeHeld(s, t);
    var inc, did := Increments(states, actions, t);
    assert Path(inc, did, inc, did, late);
    var slept, acted := GoesToSleep(inc, did, late, inc, did);
    more, done := LateTakes(states, actions, t, late, inc, did, slept, acted);
    WakesOne(slept[|acted|], t, late);
  }

  /** Nor is the mutex in another thread's hands enough, if that thread may still wait. */
  lemma HolderCanMiss(states: seq<State>, actions: seq<Action>, t: Tid, u: Tid) returns (more: seq<State>, done: seq<Action>)
    requires AboutToSignal(states, actions, t) && u != t && 0 < states[|actions|].Held(u)
    requires MayWait(states[|actions|].(count := states[|actions|].count + 1), u)
    ensures Signalled(states, actions, more, done, t)
    ensures forall w :: w in Sleepers(states[|actions|]) ==> more[|done|].At(w) == states[|actions|].At(w)
  {
    hide Enabled, Apply, Window, IsRun, Windowed;
    var inc, did := Increments(states, actions, t);
    IncrementHolds(states, actions, t, inc, did);
    assert Path(inc, did, inc, did, u);
    var slept, acted := HolderSleeps(inc, did, u);
    more, done := LateTakes(states, actions, t, u, inc, did, slept, acted);
    WakesOne(slept[|acted|], t, u);
  }

  lemma IncrementHolds(states: seq<State>, actions: seq<Action>, t: Tid, inc: seq<State>, did: seq<Action>)
    requires IsRun(states, actions) && Windowed(states) && |did| == |actions| + 1 && |inc| == |did| + 1
    requires Incremented(states[|actions|], inc[|did|], t)
    ensures OneHolder(inc[|did|])
  {
    EveryRun(states, actions, |actions|);
    hide Placed, NoLatecomers, Window, IsRun;
    assert forall u: Tid :: inc[|did|].Held(u) == states[|actions|].Held(u);
  }

  // ----- The guarantee

  /** A released wait does not fall asleep again. */
  lemma ReleasedStays(s: State, a: Action, w: Tid, count: nat)
    requires Inv(s) && Window(s) && Enabled(s, a) && Released(s, w, count) && count <= s.count
    ensures Released(Apply(s, a), w, count) && count <= Apply(s, a).count
  {
    hide NoLatecomers, OneHolder;
    assert Placed(s, w);
    if !a.WakeUp? {
      if w != a.t {
        Others(s, a, w);
      } else if a.Sleep? {
        SameWord(s.At(w).loaded, s.count);
      }
    }
  }

  lemma {:induction false} StaysReleased(states: seq<State>, actions: seq<Action>, i: nat, j: nat, w: Tid, count: nat)
    requires IsRun(states, actions) && Windowed(states) && i <= j < |states|
    requires Released(states[i], w, count) && count <= states[i].count
    ensures Released(states[j], w, count) && count <= states[j].count
    decreases j - i
  {
    if i < j {
      StaysReleased(states, actions, i, j - 1, w, count);
      EveryRun(states, actions, j - 1);
      hide Inv, Window, Enabled, Apply, Released;
      ReleasedStays(states[j - 1], actions[j - 1], w, count);
    }
  }

  /** A thread that has the mutex in the middle of a wake or of a wait. */
  predicate Engaged(s: State, u: Tid) { 0 < s.Held(u) && (s.At(u).Add? || s.At(u).Wake? || Waiting(s.At(u))) }

  /** Such a thread keeps all others from starting to wait: those who wait are the earlier ones. */
  ghost predicate Guarded(s: State, u: Tid, earlier: set<Tid>, count: nat) {
    Engaged(s, u) && forall x :: Waiting(s.At(x)) ==> x in earlier && s.At(x).loaded < count
  }

  /** A wake among earlier waiters releases one of them. */
  lemma WakeReleases(s: State, a: Action, u: Tid, earlier: set<Tid>, count: nat) returns (w: Tid)
    requires Guarded(s, u, earlier, count) && earlier != {} && Enabled(s, a) && a.WakeUp?
    ensures w in earlier && Released(Apply(s, a), w, count)
  {
    if Sleepers(s) == {} {
      w :| w in earlier;
      assert w !in Sleepers(s);
    } else {
      assert a.woken != {};
      w :| w in a.woken;
      assert w in Sleepers(s) && Waiting(s.At(w));
    }
  }

  /** Who does not have the mutex cannot start to wait. */
  lemma NoNewWaiter(s: State, a: Action)
    requires Enabled(s, a) && !a.WakeUp? && s.Held(a.t) == 0 && Waiting(Apply(s, a).At(a.t))
    ensures Waiting(s.At(a.t)) && Apply(s, a).At(a.t).loaded == s.At(a.t).loaded
  {
  }

  /** What the engaged thread does next. */
  lemma EngagedMoves(s: State, a: Action, count: nat)
    requires Inv(s) && Window(s) && Enabled(s, a) && !a.WakeUp? && Engaged(s, a.t) && count <= s.count
    requires Waiting(s.At(a.t)) ==> s.At(a.t).loaded < count
    ensures if Waiting(s.At(a.t)) then Released(Apply(s, a), a.t, count) else Engaged(Apply(s, a), a.t) && !Waiting(Apply(s, a).At(a.t))
  {
    hide NoLatecomers, OneHolder;
    assert Placed(s, a.t);
    if a.Sleep? {
      SameWord(s.At(a.t).loaded, s.count);
    }
  }

  /** One step: still guarded, or an earlier wait is over. */
  lemma GuardedStep(s: State, a: Action, u: Tid, earlier: set<Tid>, count: nat) returns (w: Tid)
    requires Inv(s) && Window(s) && Enabled(s, a) && Guarded(s, u, earlier, count) && earlier != {} && count <= s.count
    ensures Guarded(Apply(s, a), u, earlier, count) || (w in earlier && Released(Apply(s, a), w, count))
    ensures count <= Apply(s, a).count
  {
    if a.WakeUp? {
      w := WakeReleases(s, a, u, earlier, count);
    } else {
      var n := Apply(s, a);
      w := a.t;
      assert a.t != u ==> s.Held(a.t) == 0;
      hide Enabled, Apply, Inv, Released, Window;
      if a.t == u {
        EngagedMoves(s, a, count);
      } else if Waiting(n.At(a.t)) {
        NoNewWaiter(s, a);
      }
      forall x: Tid | x != a.t ensures n.At(x) == s.At(x) && n.Held(x) == s.Held(x) {
        Others(s, a, x);
      }
      Others(s, a, a.t + 1);
    }
  }

  lemma {:induction false} StaysGuarded(states: seq<State>, actions: seq<Action>, i: nat, j: nat, u: Tid, earlier: set<Tid>, count: nat)
      returns (w: Tid)
    requires IsRun(states, actions) && Windowed(states) && i <= j < |states|
    requires Guarded(states[i], u, earlier, count) && earlier != {} && count <= states[i].count
    ensures Guarded(states[j], u, earlier, count) || (w in earlier && Released(states[j], w, count))
    ensures count <= states[j].count
    decreases j - i
  {
    w := u;
    if i < j {
      w := StaysGuarded(states, actions, i, j - 1, u, earlier, count);
      EveryRun(states, actions, j - 1);
      hide Inv, Window, Enabled, Apply, Released, Guarded, Initial;
      if Guarded(states[j - 1], u, earlier, count) {
        w := GuardedStep(states[j - 1], actions[j - 1], u, earlier, count);
      } else {
        ReleasedStays(states[j - 1], actions[j - 1], w, count);
      }
    }
  }

  lemma GuardedAtIncrement(s: State, n: State, t: Tid, u: Tid)
    requires Inv(s) && s.At(t) == Add(false) && Incremented(s, n, t) && Engaged(s, u)
    ensures Guarded(n, u, Waiters(s), s.count + 1)
  {
    forall x | Waiting(n.At(x)) ensures x in Waiters(s) && n.At(x).loaded < s.count + 1 {
      assert Placed(s, x);
    }
  }

  lemma IncrementIs(states: seq<State>, actions: seq<Action>, more: seq<State>, done: seq<Action>, t: Tid)
    requires AboutToSignal(states, actions, t) && Signalled(states, actions, more, done, t)
    ensures Incremented(states[|actions|], more[|actions| + 1], t)
  {
    hide Window, Windowed, Initial;
    assert more[|actions|] == states[|actions|] && more[|actions| + 1] == Apply(more[|actions|], done[|actions|]);
  }

  /** An engaged holder makes the signal sure to free an earlier waiter. */
  lemma EngagedFrees(states: seq<State>, actions: seq<Action>, t: Tid, u: Tid, more: seq<State>, done: seq<Action>) returns (w: Tid)
    requires AboutToSignal(states, actions, t) && Engaged(states[|actions|], u) && Signalled(states, actions, more, done, t)
    ensures w in Waiters(states[|actions|]) && Released(more[|done|], w, states[|actions|].count + 1)
  {
    hide Window, Initial, Released, Guarded, Enabled, Apply, Inv;
    var s, i := states[|actions|], |done| - 1;
    EveryRun(states, actions, |actions|);
    IncrementIs(states, actions, more, done, t);
    GuardedAtIncrement(s, more[|actions| + 1], t, u);
    w := StaysGuarded(more, done, |actions| + 1, i, u, Waiters(s), s.count + 1);
    EveryRun(more, done, i);
    if Guarded(more[i], u, Waiters(s), s.count + 1) {
      w := WakeReleases(more[i], done[i], u, Waiters(s), s.count + 1);
    } else {
      ReleasedStays(more[i], done[i], w, s.count + 1);
    }
  }

  /** A waiter not yet asleep is freed by the increment. */
  lemma AwakeFrees(states: seq<State>, actions: seq<Action>, t: Tid, w: Tid, more: seq<State>, done: seq<Action>)
    requires AboutToSignal(states, actions, t) && w in Waiters(states[|actions|]) && !states[|actions|].At(w).Asleep?
    requires Signalled(states, actions, more, done, t)
    ensures Released(more[|done|], w, states[|actions|].count + 1)
  {
    hide Window, Initial, Enabled, Apply;
    IncrementIs(states, actions, more, done, t);
    StaysReleased(more, done, |actions| + 1, |done|, w, states[|actions|].count + 1);
  }

  /** A signal is sure to end the wait of one of those waiting if and only if one of them is not yet
      asleep, or the mutex is with a thread in the middle of a wake (the signaller itself, above all)
      or of a wait.  A holder on its way into a wait must not have loaded 2^32 wake calls ago. */
  lemma SignalFreesExactly(states: seq<State>, actions: seq<Action>, t: Tid)
    requires AboutToSignal(states, actions, t)
    requires var s := states[|actions|]; forall u :: 0 < s.Held(u) && s.At(u).Unlock? ==> s.count + 1 < s.At(u).loaded + WORD
    ensures var s := states[|actions|];
      AlwaysFrees(states, actions, t) <==> Waiters(s) != Sleepers(s) || exists u :: Engaged(s, u)
  {
    hide IsRun, Windowed, Window, Engaged, Continues;
    var s := states[|actions|];
    if u :| Engaged(s, u) {
      forall more, done | Signalled(states, actions, more, done, t)
        ensures exists w :: w in Waiters(s) && Released(more[|done|], w, s.count + 1)
      {
        var w := EngagedFrees(states, actions, t, u, more, done);
      }
    } else if Waiters(s) != Sleepers(s) {
      var w := NotYetAsleep(s);
      forall more, done | Signalled(states, actions, more, done, t)
        ensures exists w :: w in Waiters(s) && Released(more[|done|], w, s.count + 1)
      {
        AwakeFrees(states, actions, t, w, more, done);
      }
    } else {
      var more, done := CanMiss(states, actions, t);
      EarlierSleepOn(states, actions, more[|done|]);
    }
  }

  lemma NotYetAsleep(s: State) returns (w: Tid)
    requires Waiters(s) != Sleepers(s)
    ensures w in Waiters(s) && !s.At(w).Asleep?
  {
    assert Sleepers(s) <= Waiters(s);
    assert !(Waiters(s) <= Sleepers(s));
    w :| w in Waiters(s) && w !in Sleepers(s);
  }

  lemma CanMiss(states: seq<State>, actions: seq<Action>, t: Tid) returns (more: seq<State>, done: seq<Action>)
    requires AboutToSignal(states, actions, t)
    requires var s := states[|actions|]; forall u :: 0 < s.Held(u) && s.At(u).Unlock? ==> s.count + 1 < s.At(u).loaded + WORD
    requires forall u :: !Engaged(states[|actions|], u)
    ensures Signalled(states, actions, more, done, t)
    ensures forall w :: w in Sleepers(states[|actions|]) ==> more[|done|].At(w) == states[|actions|].At(w)
  {
    hide IsRun, Windowed, Window, Apply, Signalled;
    var s := states[|actions|];
    if Free(s) {
      var late := Unused(s.pc.Keys + {t});
      more, done := SignalCanMiss(states, actions, t, late);
    } else {
      var u :| u in s.held && s.held[u] != 0;
      assert !Engaged(s, u) && !Engaged(s, t);
      more, done := HolderCanMiss(states, actions, t, u);
    }
  }

  lemma EarlierSleepOn(states: seq<State>, actions: seq<Action>, n: State)
    requires IsRun(states, actions) && Windowed(states)
    requires forall w :: w in Sleepers(states[|actions|]) ==> n.At(w) == states[|actions|].At(w)
    ensures forall w :: w in Sleepers(states[|actions|]) ==> !Released(n, w, states[|actions|].count + 1)
  {
    EveryRun(states, actions, |actions|);
    hide IsRun, Windowed, Window, OneHolder, NoLatecomers;
    forall w | w in Sleepers(states[|actions|]) ensures !Released(n, w, states[|actions|].count + 1) {
      assert Placed(states[|actions|], w);
    }
  }

  /** Thread 1 sleeps, thread 3 increments without the mutex, thread 2 comes late and is the one woken. */
  lemma SignalWithoutMutexMisses() returns (states: seq<State>, actions: seq<Action>)
    ensures IsRun(states, actions) && 0 < |actions| && actions[|actions| - 1] == WakeUp(3, {2})
    ensures var s := states[|actions| - 1]; var n := states[|actions|];
      && s.At(3).Wake? && !s.At(3).locked && s.At(3).earlier == {1}
      && n.At(1).Asleep? && n.At(2).Relock? && !Freed(n, 1)
  {
    hide Windowed, Window, Enabled, Apply;
    var before, did := OneAsleep();
    states, actions := SignalCanMiss(before, did, 3, 2);
  }

  /** Thread 1 asleep, thread 3 about to signal. */
  lemma OneAsleep() returns (states: seq<State>, actions: seq<Action>)
    ensures AboutToSignal(states, actions, 3) && Free(states[|actions|]) && states[|actions|].At(2).Idle?
    ensures Waiters(states[|actions|]) == Sleepers(states[|actions|]) == {1}
  {
    var s0 := State(false, 0, 0, map[1 := Idle(Success), 2 := Idle(Success), 3 := Idle(Success)], map[]);
    states, actions := GoesToSleep([s0], [], 1, [s0], []);
    var s := states[|actions|];
    hide IsRun, Windowed, Path;
    assert s.count == 0 && s.pc == map[1 := Asleep(false, 0, 1), 2 := Idle(Success), 3 := Idle(Success)];
    BeginsToSignal(s);
    states, actions := Extend(states, actions, StartWake(3, false));
  }

  lemma BeginsToSignal(s: State)
    requires Window(s) && s.count == 0 && s.pc == map[1 := Asleep(false, 0, 1), 2 := Idle(Success), 3 := Idle(Success)]
    ensures Makes(s, StartWake(3, false), s.Move(3, Add(false)))
    ensures var n := s.Move(3, Add(false)); Waiters(n) == Sleepers(n) == {1} && Window(Apply(n, Run(3)))
  {
    assert s.Move(3, Add(false)).pc == map[1 := Asleep(false, 0, 1), 2 := Idle(Success), 3 := Add(false)];
  }

  /** Outside the window the compare is fooled: after exactly 2^32 wake calls a waiter that loaded
      before all of them is still put to sleep. */
  lemma WrapIsMissed(s: State, w: Tid)
    requires Enabled(s, Sleep(w)) && s.At(w).loaded <= s.count
    ensures Apply(s, Sleep(w)).At(w).Asleep? <==> (s.count - s.At(w).loaded) % WORD == 0
  {
    var a, b := s.count, s.At(w).loaded;
    assert a == WORD * (a / WORD) + a % WORD && b == WORD * (b / WORD) + b % WORD;
    var d := a % WORD - b % WORD;
    assert a - b == WORD * (a / WORD - b / WORD) + d;
    if d == 0 {
      Multiples(a / WORD - b / WORD);
    }
  }

  lemma Multiples(k: int)
    ensures (WORD * k) % WORD == 0
  {
  }
}
