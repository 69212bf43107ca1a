/** `mtx_lock`, `mtx_timedlock`, `mtx_trylock` and `mtx_unlock` as a transition system over any
    number of threads, one atomic operation or system call per step. */
module Mutex {
  import opened CountedLock

  type Tid = t: nat | 0 < t witness 1   // the address of a thread's control record, never null

  datatype Option<T> = None | Some(value: T)

  datatype Result = Success | Error | Busy | TimedOut

  datatype Call = Lock | TimedLock | TryLock

  /** Where a thread stands in the code. */
  datatype Pc =
    | Idle(last: Result)
    // lock_common, mtx_trylock
    | CheckState(call: Call)         // owned_by: load the state word
    | CheckOwner(call: Call)         // owned_by: load the owner
    | RecurseLoad                    // recurse_owned: load the depth
    | RecurseAdd
    | Exchange(call: Call)           // acquire_unlocked
    | StoreOwner
    | StoreDepth
    | Calling(call: Call)            // the exchange found the word taken
    | Asleep(call: Call)
    // mtx_unlock
    | UnlockState
    | UnlockOwner
    | UnlockDepth                    // load the depth and branch
    | UnlockAdd                      // depth > 1: subtract one
    | UnlockStoreDepth
    | UnlockStoreOwner
    | UnlockExchange
    | Waking

  /** `held` is history: how many successful locks of a thread are outstanding. */
  datatype State = State(recursive: bool, word: int, owner: nat, depth: int, pc: map<Tid, Pc>, held: map<Tid, nat>) {
    function At(t: Tid): Pc { if t in pc then pc[t] else Idle(Success) }

    function Held(t: Tid): nat { if t in held then held[t] else 0 }

    function Move(t: Tid, p: Pc): State { this.(pc := pc[t := p]) }

    function Count(t: Tid, n: nat): State { this.(held := held[t := n]) }
  }

  datatype Action =
    | Start(t: Tid, call: Call)
    | StartUnlock(t: Tid)
    | Run(t: Tid)                       // the next atomic operation
    | Wait(t: Tid)                      // futex wait: compare and queue
    | Expire(t: Tid)                    // the deadline has passed, in or before the wait
    | Return(t: Tid)                    // EINTR or a return no wake caused
    | Fail(t: Tid)                      // any other kernel error
    | Wake(t: Tid, woken: set<Tid>)     // futex wake of at most one sleeper

  function Sleepers(s: State): set<Tid> {
    set t | t in s.pc && s.pc[t].Asleep?
  }

  predicate Enabled(s: State, a: Action) {
    match a
    case Start(t, _) => s.At(t).Idle?
    case StartUnlock(t) => s.At(t).Idle?
    case Run(t) => var p := s.At(t); !p.Idle? && !p.Calling? && !p.Asleep? && !p.Waking?
    case Wait(t) => s.At(t).Calling?
    case Expire(t) => (s.At(t).Calling? || s.At(t).Asleep?) && s.At(t).call == TimedLock
    case Return(t) => s.At(t).Calling? || s.At(t).Asleep?
    case Fail(t) => s.At(t).Calling? || s.At(t).Asleep?
    case Wake(t, woken) =>
      s.At(t).Waking? && woken <= Sleepers(s) && |woken| == if Sleepers(s) == {} then 0 else 1
  }

  /** The answer of `owned_by` is known: continue the lock call. */
  function Answer(s: State, t: Tid, call: Call, owned: bool): State {
    if !owned then s.Move(t, Exchange(call))
    else if s.recursive then s.Move(t, RecurseLoad)
    else s.Move(t, Idle(if call == TryLock then Busy else Error))
  }

  function RunStep(s: State, t: Tid): State
    requires Enabled(s, Run(t))
  {
    match s.At(t)
    case CheckState(call) => if s.word == 0 then Answer(s, t, call, false) else s.Move(t, CheckOwner(call))
    case CheckOwner(call) => Answer(s, t, call, s.owner == t)
    case RecurseLoad =>
      if s.depth <= 0 || s.depth == INT_MAX then s.Move(t, Idle(Error)) else s.Move(t, RecurseAdd)
    case RecurseAdd => s.Move(t, Idle(Success)).(depth := s.depth + 1).Count(t, s.Held(t) + 1)
    case Exchange(call) =>
      if s.word != 0 then s.Move(t, if call == TryLock then Idle(Busy) else Calling(call)).(word := 1)
      else s.Move(t, StoreOwner).(word := 1).Count(t, 1)
    case StoreOwner => s.Move(t, StoreDepth).(owner := t)
    case StoreDepth => s.Move(t, Idle(Success)).(depth := 1)
    case UnlockState => s.Move(t, if s.word == 0 then Idle(Error) else UnlockOwner)
    case UnlockOwner => s.Move(t, if s.owner == t then UnlockDepth else Idle(Error))
    case UnlockDepth =>
      if s.depth <= 0 then s.Move(t, Idle(Error))
      else if s.recursive && s.depth > 1 then s.Move(t, UnlockAdd)
      else if s.depth != 1 then s.Move(t, Idle(Error))
      else s.Move(t, UnlockStoreDepth)
    case UnlockAdd =>
      s.Move(t, Idle(Success)).(depth := s.depth - 1).Count(t, if s.Held(t) > 0 then s.Held(t) - 1 else 0)
    case UnlockStoreDepth => s.Move(t, UnlockStoreOwner).(depth := 0)
    case UnlockStoreOwner => s.Move(t, UnlockExchange).(owner := 0)
    case UnlockExchange => s.Move(t, if s.word == 0 then Idle(Error) else Waking).(word := 0).Count(t, 0)
  }

  function Apply(s: State, a: Action): State
    requires Enabled(s, a)
  {
    match a
    case Start(t, call) => s.Move(t, CheckState(call))
    case StartUnlock(t) => s.Move(t, UnlockState)
    case Run(t) => RunStep(s, t)
    case Wait(t) => s.Move(t, if s.word == 1 then Asleep(s.At(t).call) else Exchange(s.At(t).call))
    case Expire(t) => s.Move(t, Idle(TimedOut))
    case Return(t) => s.Move(t, Exchange(s.At(t).call))
    case Fail(t) => s.Move(t, Idle(Error))
    case Wake(t, woken) =>
      s.(pc := map u | u in s.pc ::
        if u == t then Idle(Success) else if u in woken && s.pc[u].Asleep? then Exchange(s.pc[u].call) else s.pc[u])
  }

  predicate Initial(s: State) {
    s.word == 0 && s.owner == 0 && s.depth == 0 && s.held == map[] && forall t :: t in s.pc ==> s.pc[t].Idle?
  }

  ghost predicate IsRun(states: seq<State>, actions: seq<Action>) {
    && |states| == |actions| + 1 && Initial(states[0])
    && forall i :: 0 <= i < |actions| ==> Enabled(states[i], actions[i]) && states[i + 1] == Apply(states[i], actions[i])
  }

  // ----- What holds in every reachable state

  predicate Holds(s: State, t: Tid) { 0 < s.Held(t) }

  /** The program points that only the holder reaches. */
  predicate HolderOnly(p: Pc) {
    p.RecurseLoad? || p.RecurseAdd? || p.StoreOwner? || p.StoreDepth? || p.UnlockDepth? || p.UnlockAdd?
    || p.UnlockStoreDepth? || p.UnlockStoreOwner? || p.UnlockExchange?
  }

  /** What the holder's program point says about the two fields. */
  predicate FieldsOf(s: State, t: Tid) {
    var p := s.At(t);
    && s.word == 1
    && s.owner == (if p.StoreOwner? || p.UnlockExchange? then 0 else t)
    && s.depth == (if p.StoreOwner? || p.StoreDepth? || p.UnlockStoreOwner? || p.UnlockExchange? then 0 else s.Held(t))
    && s.Held(t) <= INT_MAX && (!s.recursive ==> s.Held(t) == 1)
    && !p.Exchange? && !p.Calling? && !p.Asleep? && !p.Waking?
    && (p.RecurseLoad? || p.RecurseAdd? ==> s.recursive) && (p.RecurseAdd? ==> s.Held(t) < INT_MAX)
    && (p.UnlockAdd? ==> s.recursive && s.Held(t) > 1)
    && (p.StoreOwner? || p.StoreDepth? || p.UnlockStoreDepth? || p.UnlockStoreOwner? || p.UnlockExchange? ==> s.Held(t) == 1)
  }

  /** `h` is the one holder, or there is none. */
  ghost predicate HeldBy(s: State, h: Option<Tid>) {
    && (forall t: Tid :: Holds(s, t) || HolderOnly(s.At(t)) ==> h == Some(t))
    && match h
       case None => s.word == 0 && s.owner == 0 && s.depth == 0
       case Some(t) => Holds(s, t) && FieldsOf(s, t)
  }

  ghost predicate Exclusive(s: State) {
    exists h :: HeldBy(s, h)
  }

  predicate Active(s: State, t: Tid) {
    s.At(t).Waking? || s.At(t).Exchange?
  }

  /** A free mutex with sleepers has a thread about to wake one or about to retry the exchange. */
  ghost predicate NoLostWake(s: State) {
    s.word == 0 && Sleepers(s) != {} ==> exists t :: Active(s, t)
  }

  /** Only the thread that moves changes its own count and program point, a wake apart. */
  lemma OthersStay(s: State, a: Action, u: Tid)
    requires Enabled(s, a) && u != a.t && !a.Wake?
    ensures Apply(s, a).At(u) == s.At(u) && Apply(s, a).Held(u) == s.Held(u)
  {
    hide RunStep;
    if a.Run? {
      OthersStayInRun(s, a.t, u);
    }
  }

  lemma OthersStayInRun(s: State, t: Tid, u: Tid)
    requires Enabled(s, Run(t)) && u != t
    ensures RunStep(s, t).At(u) == s.At(u) && RunStep(s, t).Held(u) == s.Held(u)
  {
    hide HolderOnly;
    if HolderOnly(s.At(t)) {
      OthersStayByHolder(s, t, u);
    } else {
      OthersStayAtEntry(s, t, u);
    }
  }

  lemma OthersStayByHolder(s: State, t: Tid, u: Tid)
    requires Enabled(s, Run(t)) && u != t && HolderOnly(s.At(t))
    ensures RunStep(s, t).At(u) == s.At(u) && RunStep(s, t).Held(u) == s.Held(u)
  {
  }

  lemma OthersStayAtEntry(s: State, t: Tid, u: Tid)
    requires Enabled(s, Run(t)) && u != t && !HolderOnly(s.At(t))
    ensures RunStep(s, t).At(u) == s.At(u) && RunStep(s, t).Held(u) == s.Held(u)
  {
  }

  function NextHolder(s: State, t: Tid, h: Option<Tid>): Option<Tid> {
    if s.At(t).Exchange? && s.word == 0 then Some(t) else if s.At(t).UnlockExchange? then None else h
  }

  /** What one operation of thread t does to its own standing and to the fields. */
  ghost predicate OwnEffect(s: State, n: State, t: Tid, h: Option<Tid>, h': Option<Tid>) {
    && (Holds(n, t) || HolderOnly(n.At(t)) ==> h' == Some(t))
    && (h' == Some(t) ==> Holds(n, t) && FieldsOf(n, t))
    && (h' == None ==> n.word == 0 && n.owner == 0 && n.depth == 0)
    && (h'.Some? && h'.value != t ==> h' == h && n.word == s.word && n.owner == s.owner && n.depth == s.depth)
    && (h.Some? && h.value != t ==> h' == h)
  }

  lemma RunOwn(s: State, t: Tid, h: Option<Tid>)
    requires HeldBy(s, h) && Enabled(s, Run(t))
    ensures OwnEffect(s, RunStep(s, t), t, h, NextHolder(s, t, h))
  {
    hide OwnEffect, RunStep, NextHolder, HolderOnly, HeldBy, FieldsOf;
    if HolderOnly(s.At(t)) {
      HolderOwn(s, t, h);
    } else {
      EntryOwn(s, t, h);
    }
  }

  /** The program points that any thread reaches. */
  lemma EntryOwn(s: State, t: Tid, h: Option<Tid>)
    requires HeldBy(s, h) && Enabled(s, Run(t)) && !HolderOnly(s.At(t))
    ensures OwnEffect(s, RunStep(s, t), t, h, NextHolder(s, t, h))
  {
    assert Holds(s, t) ==> h == Some(t);
    if h.Some? {
      assert FieldsOf(s, h.value);
    }
  }

  lemma HolderOwn(s: State, t: Tid, h: Option<Tid>)
    requires HeldBy(s, h) && Enabled(s, Run(t)) && HolderOnly(s.At(t))
    ensures OwnEffect(s, RunStep(s, t), t, h, NextHolder(s, t, h))
  {
    assert h == Some(t);
    assert FieldsOf(s, t);
  }

  lemma RunExclusive(s: State, t: Tid, h: Option<Tid>)
    requires HeldBy(s, h) && Enabled(s, Run(t))
    ensures HeldBy(RunStep(s, t), NextHolder(s, t, h))
  {
    var n, h' := RunStep(s, t), NextHolder(s, t, h);
    RunOwn(s, t, h);
    forall u: Tid | u != t ensures n.At(u) == s.At(u) && n.Held(u) == s.Held(u) {
      OthersStay(s, Run(t), u);
    }
    assert n.recursive == s.recursive;
    hide RunStep, NextHolder, HolderOnly;
    forall u: Tid | Holds(n, u) || HolderOnly(n.At(u)) ensures h' == Some(u) {
      if u != t {
        assert h == Some(u);
      }
    }
  }

  lemma StepExclusive(s: State, a: Action)
    requires Exclusive(s) && Enabled(s, a)
    ensures Exclusive(Apply(s, a))
  {
    var h :| HeldBy(s, h);
    if a.Run? {
      RunExclusive(s, a.t, h);
    } else {
      var n := Apply(s, a);
      forall u: Tid ensures n.Held(u) == s.Held(u) && (n.At(u) == s.At(u) || (!Holds(s, u) && !HolderOnly(n.At(u)))
                         || (s.At(u).Idle? && (n.At(u).CheckState? || n.At(u).UnlockState?))) {
        if Holds(s, u) { assert FieldsOf(s, u); }
      }
      QuietStep(s, n, h);
    }
  }

  /** A step that leaves fields and counts alone, and moves only threads that do not hold, or that begin a call. */
  lemma QuietStep(s: State, n: State, h: Option<Tid>)
    requires HeldBy(s, h) && n.word == s.word && n.owner == s.owner && n.depth == s.depth && n.recursive == s.recursive
    requires forall u: Tid :: n.Held(u) == s.Held(u)
    requires forall u: Tid :: n.At(u) == s.At(u) || (!Holds(s, u) && !HolderOnly(n.At(u)))
               || (s.At(u).Idle? && (n.At(u).CheckState? || n.At(u).UnlockState?))
    ensures HeldBy(n, h)
  {
    match h
    case None =>
    case Some(t) =>
      assert FieldsOf(s, t);
      assert n.At(t) == s.At(t) || n.At(t).CheckState? || n.At(t).UnlockState?;
  }

  lemma StepNoLostWake(s: State, a: Action)
    requires Exclusive(s) && NoLostWake(s) && Enabled(s, a)
    ensures NoLostWake(Apply(s, a))
  {
    var n := Apply(s, a);
    if n.word == 0 && Sleepers(n) != {} {
      var sleeper :| sleeper in Sleepers(n);
      var h :| HeldBy(s, h);
      if a.Wake? {
        assert sleeper in Sleepers(s);
        var w :| w in a.woken;
        assert Active(n, w);
      } else if a.Run? && s.At(a.t).UnlockExchange? {
        assert Holds(s, a.t) && FieldsOf(s, a.t);
        assert Active(n, a.t);
      } else {
        forall u: Tid | u != a.t ensures n.At(u) == s.At(u) {
          OthersStay(s, a, u);
        }
        if sleeper != a.t {
          assert sleeper in Sleepers(s);
          var w :| Active(s, w);
          assert w == a.t || Active(n, w);
        }
      }
    }
  }

  /** Over every run, in every state. */
  lemma {:induction false} EveryRun(states: seq<State>, actions: seq<Action>, i: nat)
    requires IsRun(states, actions) && i < |states|
    ensures Exclusive(states[i]) && NoLostWake(states[i])
  {
    if i == 0 {
      assert HeldBy(states[0], None);
    } else {
      EveryRun(states, actions, i - 1);
      StepExclusive(states[i - 1], actions[i - 1]);
      StepNoLostWake(states[i - 1], actions[i - 1]);
    }
  }

  // ----- What callers rely on

  /** At most one thread holds the mutex. */
  lemma MutualExclusion(states: seq<State>, actions: seq<Action>, i: nat, t: Tid, u: Tid)
    requires IsRun(states, actions) && i < |states| && Holds(states[i], t) && Holds(states[i], u)
    ensures t == u
  {
    EveryRun(states, actions, i);
    var h :| HeldBy(states[i], h);
  }

  /** Between calls the owner field names the holder, and the depth is its number of outstanding locks. */
  lemma FieldsBetweenCalls(states: seq<State>, actions: seq<Action>, i: nat, t: Tid)
    requires IsRun(states, actions) && i < |states| && states[i].At(t).Idle?
    ensures Holds(states[i], t) <==> states[i].owner == t
    ensures Holds(states[i], t) ==> states[i].word == 1 && states[i].depth == states[i].Held(t)
  {
    EveryRun(states, actions, i);
    var h :| HeldBy(states[i], h);
  }

  /** `owned_by` reads two words at two moments; its answer is still true exactly for the holder. */
  lemma OwnedByIsExact(states: seq<State>, actions: seq<Action>, i: nat, t: Tid)
    requires IsRun(states, actions) && i < |states|
    ensures var s := states[i];
      && (s.At(t).CheckState? || s.At(t).UnlockState? ==> (s.word == 0 ==> !Holds(s, t)))
      && (s.At(t).CheckOwner? || s.At(t).UnlockOwner? ==> (s.owner == t <==> Holds(s, t)))
  {
    EveryRun(states, actions, i);
    var h :| HeldBy(states[i], h);
  }

  /** Every step of the code is a step of the abstract lock, or changes nothing there. */
  lemma RefinesLock(states: seq<State>, actions: seq<Action>, i: nat)
    requires IsRun(states, actions) && i < |actions|
    ensures LockStep(states[i].recursive, states[i].held, states[i + 1].held, actions[i].t)
  {
    EveryRun(states, actions, i);
    StepRefines(states[i], actions[i]);
  }

  lemma StepRefines(s: State, a: Action)
    requires Exclusive(s) && Enabled(s, a)
    ensures LockStep(s.recursive, s.held, Apply(s, a).held, a.t)
  {
    var h :| HeldBy(s, h);
    var n := Apply(s, a);
    forall u: Tid | u != a.t ensures n.Held(u) == s.Held(u) {
      if !a.Wake? {
        OthersStay(s, a, u);
      }
    }
    if h == None {
      forall u: nat | u in s.held ensures s.held[u] == 0 {
        var t: Tid := u;
        assert !Holds(s, t);
      }
    }
  }

  /** How a call may end: success takes or gives back one lock of the holder; busy means that some
      thread holds it; a refused unlock is by a thread that does not hold it; no other end changes a count. */
  ghost predicate Honest(s: State, n: State, t: Tid)
    requires n.At(t).Idle?
  {
    var r := n.At(t).last;
    && (r != Success ==> n.Held(t) == s.Held(t)) && (r == Busy ==> exists u: Tid :: Holds(s, u))
    && (s.At(t).StoreDepth? || s.At(t).RecurseAdd? ==> r == Success && Holds(n, t))
    && (s.At(t).UnlockState? || s.At(t).UnlockOwner? ==> !Holds(s, t) && r == Error)
    && !s.At(t).UnlockDepth? && !s.At(t).UnlockExchange?
  }

  /** Every atomic operation that ends a call ends it honestly. */
  lemma ResultsAreHonest(states: seq<State>, actions: seq<Action>, i: nat)
    requires IsRun(states, actions) && i < |actions| && actions[i].Run? && states[i + 1].At(actions[i].t).Idle?
    ensures Honest(states[i], states[i + 1], actions[i].t)
  {
    EveryRun(states, actions, i);
    StepHonest(states[i], actions[i].t);
  }

  lemma StepHonest(s: State, t: Tid)
    requires Exclusive(s) && Enabled(s, Run(t)) && RunStep(s, t).At(t).Idle?
    ensures Honest(s, RunStep(s, t), t)
  {
    var h :| HeldBy(s, h);
  }

  // ----- Whole calls

  /** Thread t is inside a lock call that began with `before` locks outstanding. */
  predicate InLock(s: State, t: Tid, call: Call, before: nat) {
    match s.At(t)
    case CheckState(c) => c == call && s.Held(t) == before
    case CheckOwner(c) => c == call && s.Held(t) == before
    case RecurseLoad => s.Held(t) == before
    case RecurseAdd => s.Held(t) == before
    case Exchange(c) => c == call && s.Held(t) == before
    case StoreOwner => s.Held(t) == before + 1
    case StoreDepth => s.Held(t) == before + 1
    case Calling(c) => c == call != TryLock && s.Held(t) == before
    case Asleep(c) => c == call != TryLock && s.Held(t) == before
    case _ => false
  }

  /** How the step that ends a lock call may end it: success is one lock more, and every other result
      leaves the count as it was and has its cause. */
  ghost predicate LockEnds(s: State, a: Action, n: State, t: Tid, call: Call, before: nat)
    requires n.At(t).Idle?
  {
    var r := n.At(t).last;
    && n.Held(t) == (if r == Success then before + 1 else before)
    && (r == TimedOut <==> a.Expire?) && (a.Expire? ==> call == TimedLock)
    && (r == Error <==> a.Fail? || (0 < before && if s.recursive then before == INT_MAX else call != TryLock))
    && (r == Busy ==> call == TryLock && exists u: Tid :: Holds(s, u))
  }

  /** The same for unlocking. */
  predicate InUnlock(s: State, t: Tid, before: nat) {
    match s.At(t)
    case UnlockState => s.Held(t) == before
    case UnlockOwner => s.Held(t) == before
    case UnlockDepth => s.Held(t) == before
    case UnlockAdd => s.Held(t) == before
    case UnlockStoreDepth => s.Held(t) == before
    case UnlockStoreOwner => s.Held(t) == before
    case UnlockExchange => s.Held(t) == before
    case Waking => s.Held(t) + 1 == before
    case _ => false
  }

  predicate UnlockEnds(n: State, t: Tid, before: nat)
    requires n.At(t).Idle?
  {
    && (n.At(t).last == Success <==> 0 < before) && (n.At(t).last == Error <==> before == 0)
    && n.Held(t) == (if 0 < before then before - 1 else before)
  }

  lemma LockGoesOn(s: State, a: Action, t: Tid, call: Call, before: nat)
    requires Exclusive(s) && Enabled(s, a) && InLock(s, t, call, before)
    ensures var n := Apply(s, a);
      InLock(n, t, call, before) || (a.t == t && n.At(t).Idle? && LockEnds(s, a, n, t, call, before))
  {
    var h :| HeldBy(s, h);
    if a.t != t {
      if !a.Wake? { OthersStay(s, a, t); }
    } else if a.Run? {
      LockRuns(s, t, call, before, h);
    }
  }

  lemma LockRuns(s: State, t: Tid, call: Call, before: nat, h: Option<Tid>)
    requires HeldBy(s, h) && Enabled(s, Run(t)) && InLock(s, t, call, before)
    ensures var n := RunStep(s, t);
      InLock(n, t, call, before) || (n.At(t).Idle? && LockEnds(s, Run(t), n, t, call, before))
  {
    if HolderOnly(s.At(t)) {
      HolderLocks(s, t, call, before, h);
    } else {
      EntryLocks(s, t, call, before, h);
    }
  }

  lemma HolderLocks(s: State, t: Tid, call: Call, before: nat, h: Option<Tid>)
    requires HeldBy(s, h) && Enabled(s, Run(t)) && InLock(s, t, call, before) && HolderOnly(s.At(t))
    ensures var n := RunStep(s, t);
      InLock(n, t, call, before) || (n.At(t).Idle? && LockEnds(s, Run(t), n, t, call, before))
  {
    assert h == Some(t);
    assert FieldsOf(s, t);
  }

  lemma EntryLocks(s: State, t: Tid, call: Call, before: nat, h: Option<Tid>)
    requires HeldBy(s, h) && Enabled(s, Run(t)) && InLock(s, t, call, before) && !HolderOnly(s.At(t))
    ensures var n := RunStep(s, t);
      InLock(n, t, call, before) || (n.At(t).Idle? && LockEnds(s, Run(t), n, t, call, before))
  {
    assert Holds(s, t) ==> h == Some(t);
    if h.Some? { assert FieldsOf(s, h.value) && Holds(s, h.value); }
  }

  lemma UnlockGoesOn(s: State, a: Action, t: Tid, before: nat)
    requires Exclusive(s) && Enabled(s, a) && InUnlock(s, t, before)
    ensures InUnlock(Apply(s, a), t, before) || (a.t == t && Apply(s, a).At(t).Idle? && UnlockEnds(Apply(s, a), t, before))
  {
    var h :| HeldBy(s, h);
    if a.t != t {
      if !a.Wake? { OthersStay(s, a, t); }
    } else if a.Run? {
      UnlockRuns(s, t, before, h);
    }
  }

  lemma UnlockRuns(s: State, t: Tid, before: nat, h: Option<Tid>)
    requires HeldBy(s, h) && Enabled(s, Run(t)) && InUnlock(s, t, before)
    ensures var n := RunStep(s, t);
      InUnlock(n, t, before) || (n.At(t).Idle? && UnlockEnds(n, t, before))
  {
    if h.Some? { assert Holds(s, h.value); }
  }

  /** A call of t from the action i to the first state j in which t is between calls again. */
  ghost predicate IsCall(states: seq<State>, actions: seq<Action>, i: nat, j: nat, t: Tid) {
    && IsRun(states, actions) && i < j < |states| && actions[i].t == t
    && states[j].At(t).Idle? && forall k :: i < k < j ==> !states[k].At(t).Idle?
  }

  lemma {:induction false} StaysInLock(states: seq<State>, actions: seq<Action>, i: nat, k: nat, t: Tid, call: Call)
    requires IsRun(states, actions) && i < k < |states| && actions[i] == Start(t, call)
    requires forall m :: i < m <= k ==> !states[m].At(t).Idle?
    ensures InLock(states[k], t, call, states[i].Held(t))
  {
    hide InLock, Exclusive, Enabled, Apply;
    if i + 1 == k {
      LockStarts(states, actions, i, t, call);
    } else {
      StaysInLock(states, actions, i, k - 1, t, call);
      StepIs(states, actions, k - 1);
      LockGoesOn(states[k - 1], actions[k - 1], t, call, states[i].Held(t));
    }
  }

  lemma StepIs(states: seq<State>, actions: seq<Action>, k: nat)
    requires IsRun(states, actions) && k < |actions|
    ensures Exclusive(states[k]) && Enabled(states[k], actions[k]) && states[k + 1] == Apply(states[k], actions[k])
  {
    EveryRun(states, actions, k);
  }

  /** Every lock call of every run, whatever ends it, returns success exactly if it took a lock. */
  lemma LockReturns(states: seq<State>, actions: seq<Action>, i: nat, j: nat, t: Tid, call: Call)
    requires IsCall(states, actions, i, j, t) && actions[i] == Start(t, call)
    ensures LockEnds(states[j - 1], actions[j - 1], states[j], t, call, states[i].Held(t))
    ensures call == TryLock ==> forall k :: i < k < j ==> !states[k].At(t).Calling? && !states[k].At(t).Asleep?
  {
    hide LockEnds, Exclusive, Enabled, Apply, InLock;
    LockStarts(states, actions, i, t, call);
    forall k | i < k < j ensures InLock(states[k], t, call, states[i].Held(t)) {
      StaysInLock(states, actions, i, k, t, call);
    }
    if j == i + 1 {
      NotIdle(states[j], t, call, states[i].Held(t));
    } else {
      StepIs(states, actions, j - 1);
      LockGoesOn(states[j - 1], actions[j - 1], t, call, states[i].Held(t));
      NotIdle(states[j], t, call, states[i].Held(t));
    }
    forall k | i < k < j ensures call == TryLock ==> !states[k].At(t).Calling? && !states[k].At(t).Asleep? {
      TryNeverWaits(states[k], t, call, states[i].Held(t));
    }
  }

  lemma NotIdle(s: State, t: Tid, call: Call, before: nat)
    ensures InLock(s, t, call, before) ==> !s.At(t).Idle?
  {
  }

  lemma TryNeverWaits(s: State, t: Tid, call: Call, before: nat)
    requires InLock(s, t, call, before)
    ensures call == TryLock ==> !s.At(t).Calling? && !s.At(t).Asleep?
  {
  }

  lemma LockStarts(states: seq<State>, actions: seq<Action>, i: nat, t: Tid, call: Call)
    requires IsRun(states, actions) && i < |actions| && actions[i] == Start(t, call)
    ensures InLock(states[i + 1], t, call, states[i].Held(t))
  {
    assert Enabled(states[i], actions[i]) && states[i + 1] == Apply(states[i], actions[i]);
  }

  lemma {:induction false} StaysInUnlock(states: seq<State>, actions: seq<Action>, i: nat, k: nat, t: Tid)
    requires IsRun(states, actions) && i < k < |states| && actions[i] == StartUnlock(t)
    requires forall m :: i < m <= k ==> !states[m].At(t).Idle?
    ensures InUnlock(states[k], t, states[i].Held(t))
  {
    hide InUnlock, Exclusive, Enabled, Apply;
    if i + 1 == k {
      UnlockStarts(states, actions, i, t);
    } else {
      StaysInUnlock(states, actions, i, k - 1, t);
      StepIs(states, actions, k - 1);
      UnlockGoesOn(states[k - 1], actions[k - 1], t, states[i].Held(t));
    }
  }

  /** Every unlock call of every run succeeds exactly if the caller had the mutex, and gives one lock back then. */
  lemma UnlockReturns(states: seq<State>, actions: seq<Action>, i: nat, j: nat, t: Tid)
    requires IsCall(states, actions, i, j, t) && actions[i] == StartUnlock(t)
    ensures UnlockEnds(states[j], t, states[i].Held(t))
  {
    hide UnlockEnds, Exclusive, Enabled, Apply, InUnlock;
    UnlockStarts(states, actions, i, t);
    if j > i + 1 {
      StaysInUnlock(states, actions, i, j - 1, t);
      StepIs(states, actions, j - 1);
      UnlockGoesOn(states[j - 1], actions[j - 1], t, states[i].Held(t));
    }
    NotIdleInUnlock(states[j], t, states[i].Held(t));
  }

  lemma NotIdleInUnlock(s: State, t: Tid, before: nat)
    ensures InUnlock(s, t, before) ==> !s.At(t).Idle?
  {
  }

  lemma UnlockStarts(states: seq<State>, actions: seq<Action>, i: nat, t: Tid)
    requires IsRun(states, actions) && i < |actions| && actions[i] == StartUnlock(t)
    ensures InUnlock(states[i + 1], t, states[i].Held(t))
  {
    assert Enabled(states[i], actions[i]) && states[i + 1] == Apply(states[i], actions[i]);
  }
}
