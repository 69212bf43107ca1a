/** What thrd_create, thrd_join and thrd_detach return and leave behind, over whole calls of any
    run, and what becomes of a detached thread. */
module LifecycleCalls {
  import opened Lifecycle
  import opened LifecycleResult

  /** A call of t from the action i to the first state j in which t is between calls again. */
  ghost predicate IsCall(states: seq<State>, actions: seq<Action>, i: nat, j: nat, t: Tid) {
    && IsRun(states, actions) && i < j < |states| && actions[i].t == t
    && PcOf(states[j], t).User? && forall k :: i < k < j ==> !PcOf(states[k], t).User?
  }

  /** Step k of a run. */
  lemma StepAt(states: seq<State>, actions: seq<Action>, k: nat)
    requires IsRun(states, actions) && k < |actions|
    ensures Inv(states[k]) && Enabled(states[k], actions[k]) && states[k + 1] == Apply(states[k], actions[k])
  {
    hide Inv, Enabled, Apply, Initial;
    EveryRun(states, actions, k);
  }

  lemma OthersStay(s: State, a: Action, t: Tid)
    requires Inv(s) && Enabled(s, a) && a.t != t && t in s.threads
    ensures PcOf(Apply(s, a), t) == PcOf(s, t)
  {
    hide Inv, Enabled, Apply, PcOf, OwnOf, MoverMoved, ControlsMoved, ThreadsCome;
    StepMoves(s, a);
  }

  lemma LockTaken(s: State, a: Action)
    requires Enabled(s, a) && a.Acquire?
    ensures PcOf(Apply(s, a), a.t) == PcOf(s, a.t) && Apply(s, a).controls == s.controls
  {
  }

  /** Within a call a thread takes the lock or steps. */
  lemma WithinCall(s: State, a: Action)
    requires Enabled(s, a) && !PcOf(s, a.t).User?
    ensures a.Acquire? || a.Step?
  {
    hide AnswersFit;
  }

  lemma NotTheReaper(s: State, t: Tid)
    requires Inv(s) && t in s.threads && !ByReaper(PcOf(s, t))
    ensures t != REAPER
  {
    hide StageOk, FieldsOk, SlotsOk;
    assert ThreadOk(s, t);
  }

  // ----- thrd_join

  /** Step u of t is a futex wait or an unmap that failed. */
  predicate Stumbles(states: seq<State>, actions: seq<Action>, u: nat, t: Tid)
    requires |states| == |actions| + 1 && u < |actions|
  {
    actions[u].Step? && actions[u].t == t && !actions[u].ok && (PcOf(states[u], t).WaitClear? || PcOf(states[u], t).Unmap?)
  }

  ghost predicate Smooth(states: seq<State>, actions: seq<Action>, i: nat, k: nat, t: Tid)
    requires |states| == |actions| + 1 && k < |states|
  {
    forall u :: i < u < k ==> !Stumbles(states, actions, u, t)
  }

  /** In step f, the search of t for `thr` picks c, which is joinable. */
  predicate Finds(states: seq<State>, actions: seq<Action>, i: nat, f: nat, t: Tid, thr: int, c: Cid)
    requires |states| == |actions| + 1
  {
    && i < f < |actions| && actions[f].Step? && actions[f].t == t && PcOf(states[f], t) == Find(thr)
    && Found(states[f], thr, c) && states[f].controls[c].life == Joinable
  }

  /** How far a join that began at i has come at k. */
  ghost predicate JoinAt(states: seq<State>, actions: seq<Action>, i: nat, k: nat, t: Tid, thr: int, f: nat, m: nat)
    requires |states| == |actions| + 1 && i < k < |states|
  {
    t in states[k].threads
    && match PcOf(states[k], t)
       case Find(x) => x == thr && Smooth(states, actions, i, k, t)
       case Read(c) => f < k && Finds(states, actions, i, f, t, thr, c) && Smooth(states, actions, i, k, t)
       case WaitClear(c, _) => f < k && Finds(states, actions, i, f, t, thr, c) && Smooth(states, actions, i, k, t)
       case ReadResult(c) => f < k && Finds(states, actions, i, f, t, thr, c) && Smooth(states, actions, i, k, t)
       case Unmap(c, how) => how == Join && f < k && Finds(states, actions, i, f, t, thr, c) && Smooth(states, actions, i, k, t)
       case Remove(c, how) => how == Join && f < k && Finds(states, actions, i, f, t, thr, c) && Smooth(states, actions, i, k, t)
       case Free(c, how) => how == Join && f < k && Finds(states, actions, i, f, t, thr, c) && Smooth(states, actions, i, k, t)
       case Restore(c, how) => how == Join && f < m < k && Finds(states, actions, i, f, t, thr, c) && Stumbles(states, actions, m, t)
       case _ => false
  }

  /** Nothing of that name, or a thread that is not joinable. */
  ghost predicate Unjoinable(s: State, thr: int) {
    (forall c :: c in s.controls ==> !Found(s, thr, c)) || exists c :: Found(s, thr, c) && s.controls[c].life != Joinable
  }

  predicate Joins(p: Pc) {
    p.Find? || p.Read? || p.WaitClear? || p.ReadResult? || ((p.Unmap? || p.Remove? || p.Free? || p.Restore?) && p.how == Join)
  }

  /** One step of t inside a join. */
  lemma JoinMoves(s: State, a: Action)
    requires Inv(s) && Enabled(s, a) && a.Step?
    requires Joins(PcOf(s, a.t))
    ensures a.t in Apply(s, a).threads
    ensures var p, q, n := PcOf(s, a.t), PcOf(Apply(s, a), a.t), Apply(s, a);
      match p
      case Find(thr) =>
        if q.User? then q.last == Error && n.controls == s.controls && Unjoinable(s, thr)
        else q.Read? && Found(s, thr, q.c) && s.controls[q.c].life == Joinable
      case Read(c) => q == Unmap(c, Join) || (q.WaitClear? && q.c == c)
      case WaitClear(c, _) => q == if a.ok then Read(c) else Restore(c, Join)
      case Unmap(c, _) => q == if a.ok then ReadResult(c) else Restore(c, Join)
      case ReadResult(c) => q == Remove(c, Join)
      case Remove(c, _) => q == Free(c, Join)
      case Free(c, _) => q == User(Success) && c in n.controls && n.controls[c].freed
      case Restore(c, _) => q == User(Error) && c in n.controls && n.controls[c].life == Joinable && n.controls[c].claimant == None && !n.controls[c].freed
      case _ => true
  {
    var p := PcOf(s, a.t);
    if p.Find? {
      FindMoves(s, a);
    } else {
      hide Inv, Enabled, Apply, AnswersFit;
      ReclaimApplies(s, a);
      assert !ByReaper(p);
      NotTheReaper(s, a.t);
      SubjectsThere(s, a);
      if p.Restore? { assert !s.controls[p.c].freed by { RestoringLives(s, a.t); } }
    }
  }

  lemma RestoringLives(s: State, t: Tid)
    requires Inv(s) && PcOf(s, t).Restore?
    ensures PcOf(s, t).c in s.controls && !s.controls[PcOf(s, t).c].freed
  {
    hide SlotsOk, ByReaper, Critical;
    assert ThreadOk(s, t);
  }

  lemma FindMoves(s: State, a: Action)
    requires Enabled(s, a) && a.Step? && PcOf(s, a.t).Find?
    ensures a.t in Apply(s, a).threads
    ensures var q, n := PcOf(Apply(s, a), a.t), Apply(s, a);
      if q.User? then q.last == Error && n.controls == s.controls && Unjoinable(s, PcOf(s, a.t).thr)
      else q.Read? && Found(s, PcOf(s, a.t).thr, q.c) && s.controls[q.c].life == Joinable
  {
    hide Apply, Enabled, DecideStep;
    SearchApplies(s, a);
  }

  lemma JoinBegins(states: seq<State>, actions: seq<Action>, i: nat, t: Tid, self: bool, thr: int, f: nat, m: nat)
    requires IsRun(states, actions) && i < |actions| && actions[i] == StartJoin(t, self, thr)
    ensures if self then PcOf(states[i + 1], t) == User(Error) && states[i + 1].controls == states[i].controls
            else JoinAt(states, actions, i, i + 1, t, thr, f, m)
  {
    hide Inv, Enabled, Apply, Initial;
    StepAt(states, actions, i);
    hide IsRun;
    BeginApplies(states[i], actions[i]);
  }

  lemma SmoothOn(states: seq<State>, actions: seq<Action>, i: nat, k: nat, t: Tid)
    requires |states| == |actions| + 1 && i < k < |actions| && Smooth(states, actions, i, k, t) && !Stumbles(states, actions, k, t)
    ensures Smooth(states, actions, i, k + 1, t)
  {
    hide Stumbles;
  }

  /** From k to k + 1, while the call goes on. */
  lemma JoinGoesOn(states: seq<State>, actions: seq<Action>, i: nat, k: nat, t: Tid, thr: int, f: nat, m: nat) returns (f': nat, m': nat)
    requires IsRun(states, actions) && i < k < |actions| && JoinAt(states, actions, i, k, t, thr, f, m)
    ensures JoinAt(states, actions, i, k + 1, t, thr, f', m') || (PcOf(states[k + 1], t).User? && actions[k].t == t && actions[k].Step?)
  {
    hide Inv, Enabled, Apply, Initial, Found, PcOf;
    StepAt(states, actions, k);
    hide IsRun, Smooth;
    var s, a := states[k], actions[k];
    f', m' := f, m;
    if Smooth(states, actions, i, k, t) && !Stumbles(states, actions, k, t) { SmoothOn(states, actions, i, k, t); }
    if a.t != t {
      OthersStay(s, a, t);
      ThreadStays(s, a, t);
    } else {
      WithinCall(s, a);
      if a.Acquire? {
        LockTaken(s, a);
        ThreadStays(s, a, t);
      } else {
        JoinMoves(s, a);
        if PcOf(s, t).Find? { f' := k; }
        if Stumbles(states, actions, k, t) { m' := k; }
      }
    }
  }

  lemma ThreadStays(s: State, a: Action, t: Tid)
    requires Inv(s) && Enabled(s, a) && t in s.threads
    ensures t in Apply(s, a).threads
  {
    hide Inv, Enabled, Apply, MoverMoved, ControlsMoved, ThreadsCome;
    StepMoves(s, a);
  }

  lemma {:induction false} JoinGoes(states: seq<State>, actions: seq<Action>, i: nat, k: nat, t: Tid, thr: int) returns (f: nat, m: nat)
    requires IsRun(states, actions) && i < k < |states| && actions[i] == StartJoin(t, false, thr)
    requires forall u :: i < u <= k ==> !PcOf(states[u], t).User?
    ensures JoinAt(states, actions, i, k, t, thr, f, m)
  {
    hide JoinAt, PcOf, IsRun;
    f, m := i, i;
    Lengths(states, actions);
    if i + 1 == k {
      JoinBegins(states, actions, i, t, false, thr, f, m);
    } else {
      f, m := JoinGoes(states, actions, i, k - 1, t, thr);
      f, m := JoinGoesOn(states, actions, i, k - 1, t, thr, f, m);
    }
  }

  lemma Lengths(states: seq<State>, actions: seq<Action>)
    requires IsRun(states, actions)
    ensures |states| == |actions| + 1
  {
  }

  /** What a join of t from i to j returns: success if it found a joinable thread in step f, nothing
      failed on the way, and its control is freed; an error if it was asked for the caller itself,
      if there was nothing to join, or if a system call failed in step m, and then the thread is
      joinable again. */
  ghost predicate JoinReturned(states: seq<State>, actions: seq<Action>, i: nat, j: nat, t: Tid, self: bool, thr: int, f: nat, m: nat)
    requires |states| == |actions| + 1 && i < j < |states| && PcOf(states[j], t).User?
  {
    var s, n, r := states[j - 1], states[j], PcOf(states[j], t).last;
    if self then r == Error && n.controls == s.controls && j == i + 1
    else if r == Success then
      f < j && exists c :: Finds(states, actions, i, f, t, thr, c) && Smooth(states, actions, i, j, t) && c in n.controls && n.controls[c].freed
    else
      && r == Error
      && ((Unjoinable(s, thr) && n.controls == s.controls && Smooth(states, actions, i, j, t))
          || (i < m < j && Stumbles(states, actions, m, t)
              && exists c :: Finds(states, actions, i, f, t, thr, c) && c in n.controls && Unharmed(n.controls[c])))
  }

  /** Joinable, nobody's, and not reclaimed. */
  predicate Unharmed(k: Control) { k.life == Joinable && k.claimant == None && !k.freed }

  /** Every join of every run. */
  lemma JoinReturns(states: seq<State>, actions: seq<Action>, i: nat, j: nat, t: Tid, self: bool, thr: int) returns (f: nat, m: nat)
    requires IsCall(states, actions, i, j, t) && actions[i] == StartJoin(t, self, thr)
    ensures JoinReturned(states, actions, i, j, t, self, thr, f, m)
  {
    hide JoinAt, JoinReturned, IsRun;
    Lengths(states, actions);
    f, m := i, i;
    JoinBegins(states, actions, i, t, self, thr, f, m);
    if self {
      JoinOfSelf(states, actions, i, j, t, thr, f, m);
    } else {
      if j == i + 1 { InJoin(states, actions, i, j, t, thr, f, m); }
      f, m := JoinGoes(states, actions, i, j - 1, t, thr);
      JoinLeaves(states, actions, i, j - 1, t, thr, f, m);
    }
  }

  lemma InJoin(states: seq<State>, actions: seq<Action>, i: nat, k: nat, t: Tid, thr: int, f: nat, m: nat)
    requires |states| == |actions| + 1 && i < k < |states| && JoinAt(states, actions, i, k, t, thr, f, m)
    ensures Joins(PcOf(states[k], t))
  {
    hide Finds, Smooth, Stumbles;
  }

  lemma JoinOfSelf(states: seq<State>, actions: seq<Action>, i: nat, j: nat, t: Tid, thr: int, f: nat, m: nat)
    requires |states| == |actions| + 1 && i < j < |states| && PcOf(states[j], t).User?
    requires PcOf(states[i + 1], t) == User(Error) && states[i + 1].controls == states[i].controls
    requires forall k :: i < k < j ==> !PcOf(states[k], t).User?
    ensures JoinReturned(states, actions, i, j, t, true, thr, f, m)
  {
    hide PcOf;
  }

  /** The last step. */
  lemma JoinLeaves(states: seq<State>, actions: seq<Action>, i: nat, k: nat, t: Tid, thr: int, f: nat, m: nat)
    requires IsRun(states, actions) && i < k < |actions| && JoinAt(states, actions, i, k, t, thr, f, m) && PcOf(states[k + 1], t).User?
    ensures JoinReturned(states, actions, i, k + 1, t, false, thr, f, m)
  {
    hide Inv, Enabled, Apply, Initial, Found, Unjoinable, PcOf;
    StepAt(states, actions, k);
    InJoin(states, actions, i, k, t, thr, f, m);
    hide IsRun, Smooth;
    var s, a := states[k], actions[k];
    if a.t != t {
      OthersStay(s, a, t);
    } else {
      WithinCall(s, a);
      if a.Acquire? {
        LockTaken(s, a);
      } else {
        JoinMoves(s, a);
        if !Stumbles(states, actions, k, t) && Smooth(states, actions, i, k, t) { SmoothOn(states, actions, i, k, t); }
      }
    }
  }

  // ----- thrd_detach

  predicate Dead(k: Control) { k.clear == 0 && k.published }

  /** In step f, t decides on c: its own block, or one found under `thr`; it is joinable. */
  predicate Picks(states: seq<State>, actions: seq<Action>, i: nat, f: nat, t: Tid, self: bool, thr: int, c: Cid)
    requires |states| == |actions| + 1
  {
    && i < f < |actions| && actions[f].Step? && actions[f].t == t && PcOf(states[f], t) == Decide(self, thr)
    && (if self then OwnOf(states[f], t) == Some(c) else Found(states[f], thr, c))
    && c in states[f].controls && states[f].controls[c].life == Joinable
  }

  predicate Detaches(p: Pc) {
    p.Decide? || p.EnsureReaper? || ((p.Unmap? || p.Remove? || p.Free? || p.Restore?) && p.how == Reap(true))
  }

  /** How far a detach that began at i has come at k. */
  ghost predicate DetachAt(states: seq<State>, actions: seq<Action>, i: nat, k: nat, t: Tid, self: bool, thr: int, f: nat, m: nat)
    requires |states| == |actions| + 1 && i < k < |states|
  {
    t in states[k].threads
    && match PcOf(states[k], t)
       case Decide(x, y) => x == self && y == thr && Smooth(states, actions, i, k, t)
       case EnsureReaper(c) =>
         f < k && Picks(states, actions, i, f, t, self, thr, c) && !Dead(states[f].controls[c]) && Smooth(states, actions, i, k, t)
       case Unmap(c, how) =>
         how == Reap(true) && f < k && Picks(states, actions, i, f, t, self, thr, c) && Dead(states[f].controls[c]) && Smooth(states, actions, i, k, t)
       case Remove(c, how) =>
         how == Reap(true) && f < k && Picks(states, actions, i, f, t, self, thr, c) && Dead(states[f].controls[c]) && Smooth(states, actions, i, k, t)
       case Free(c, how) =>
         how == Reap(true) && f < k && Picks(states, actions, i, f, t, self, thr, c) && Dead(states[f].controls[c]) && Smooth(states, actions, i, k, t)
       case Restore(c, how) =>
         how == Reap(true) && f < m < k && Picks(states, actions, i, f, t, self, thr, c) && Stumbles(states, actions, m, t)
       case _ => false
  }

  /** The caller's own block, or what is found under the name, is not joinable, or nothing is. */
  ghost predicate Undetachable(s: State, t: Tid, self: bool, thr: int) {
    if self then OwnOf(s, t).Some? && OwnOf(s, t).value in s.controls && s.controls[OwnOf(s, t).value].life != Joinable
    else Unjoinable(s, thr)
  }

  /** The decision of a detach. */
  lemma DecideMoves(s: State, a: Action)
    requires Enabled(s, a) && a.Step? && PcOf(s, a.t).Decide?
    ensures a.t in Apply(s, a).threads
    ensures var p, q, n := PcOf(s, a.t), PcOf(Apply(s, a), a.t), Apply(s, a);
      if q.User? then q.last == Error && n.controls == s.controls && Undetachable(s, a.t, p.self, p.thr)
      else
        && (q.EnsureReaper? || q.Unmap?) && q.c in s.controls && s.controls[q.c].life == Joinable
        && (if p.self then OwnOf(s, a.t) == Some(q.c) else Found(s, p.thr, q.c))
        && (q.Unmap? <==> Dead(s.controls[q.c])) && (q.Unmap? ==> q.how == Reap(true))
  {
    hide Apply, Enabled;
    SearchApplies(s, a);
  }

  lemma EnsureMoves(s: State, a: Action)
    requires Inv(s) && Enabled(s, a) && a.Step? && PcOf(s, a.t).EnsureReaper?
    ensures a.t in Apply(s, a).threads
    ensures var c, q, n := PcOf(s, a.t).c, PcOf(Apply(s, a), a.t), Apply(s, a);
      && q.User? && (q.last == Success <==> a.ok || s.reaperStarted)
      && (q.last == Success ==> c in n.controls && n.controls[c].life == Detached && n.reaperStarted)
      && (q.last != Success ==> q.last == Error && n.controls == s.controls)
  {
    hide Inv, Apply, Enabled;
    EnsureApplies(s, a);
    NotTheReaper(s, a.t);
  }

  lemma ReapMoves(s: State, a: Action)
    requires Inv(s) && Enabled(s, a) && a.Step? && Detaches(PcOf(s, a.t)) && Reclaims(PcOf(s, a.t))
    ensures a.t in Apply(s, a).threads
    ensures var p, q, n := PcOf(s, a.t), PcOf(Apply(s, a), a.t), Apply(s, a);
      match p
      case Unmap(c, _) => q == if a.ok then Remove(c, Reap(true)) else Restore(c, Reap(true))
      case Remove(c, _) => q == Free(c, Reap(true))
      case Free(c, _) => q == User(Success) && c in n.controls && n.controls[c].freed
      case Restore(c, _) => q == User(Error) && c in n.controls && Unharmed(n.controls[c])
      case _ => true
  {
    hide Inv, Enabled, Apply, AnswersFit;
    ReclaimApplies(s, a);
    NotTheReaper(s, a.t);
    SubjectsThere(s, a);
    if PcOf(s, a.t).Restore? { RestoringLives(s, a.t); }
  }

  lemma DetachBegins(states: seq<State>, actions: seq<Action>, i: nat, t: Tid, self: bool, thr: int, f: nat, m: nat)
    requires IsRun(states, actions) && i < |actions| && actions[i] == StartDetach(t, self, thr)
    ensures DetachAt(states, actions, i, i + 1, t, self, thr, f, m)
  {
    hide Inv, Enabled, Apply, Initial;
    StepAt(states, actions, i);
    hide IsRun;
    BeginApplies(states[i], actions[i]);
  }

  lemma InDetach(states: seq<State>, actions: seq<Action>, i: nat, k: nat, t: Tid, self: bool, thr: int, f: nat, m: nat)
    requires |states| == |actions| + 1 && i < k < |states| && DetachAt(states, actions, i, k, t, self, thr, f, m)
    ensures Detaches(PcOf(states[k], t))
  {
    hide Picks, Smooth, Stumbles, Dead;
  }

  /** A step of t inside a detach. */
  lemma DetachSteps(states: seq<State>, actions: seq<Action>, i: nat, k: nat, t: Tid, self: bool, thr: int, f: nat, m: nat) returns (f': nat, m': nat)
    requires IsRun(states, actions) && i < k < |actions| && DetachAt(states, actions, i, k, t, self, thr, f, m)
    requires actions[k].t == t && actions[k].Step?
    ensures DetachAt(states, actions, i, k + 1, t, self, thr, f', m') || PcOf(states[k + 1], t).User?
  {
    hide Inv, Enabled, Apply, Initial, Found, PcOf, OwnOf;
    StepAt(states, actions, k);
    InDetach(states, actions, i, k, t, self, thr, f, m);
    hide IsRun, Smooth, Dead;
    var s, a := states[k], actions[k];
    f', m' := f, m;
    if Smooth(states, actions, i, k, t) && !Stumbles(states, actions, k, t) { SmoothOn(states, actions, i, k, t); }
    if PcOf(s, t).Decide? {
      DecideMoves(s, a);
      f' := k;
    } else if PcOf(s, t).EnsureReaper? {
      EnsureMoves(s, a);
    } else {
      ReapMoves(s, a);
      if Stumbles(states, actions, k, t) { m' := k; }
    }
  }

  /** Meanwhile others step, or t takes the lock. */
  lemma DetachWaits(states: seq<State>, actions: seq<Action>, i: nat, k: nat, t: Tid, self: bool, thr: int, f: nat, m: nat)
    requires IsRun(states, actions) && i < k < |actions| && DetachAt(states, actions, i, k, t, self, thr, f, m)
    requires actions[k].t != t || actions[k].Acquire?
    ensures DetachAt(states, actions, i, k + 1, t, self, thr, f, m)
  {
    hide Inv, Enabled, Apply, Initial, Found, PcOf, OwnOf;
    StepAt(states, actions, k);
    hide IsRun, Smooth, Dead;
    var s, a := states[k], actions[k];
    if Smooth(states, actions, i, k, t) { SmoothOn(states, actions, i, k, t); }
    ThreadStays(s, a, t);
    if a.t != t { OthersStay(s, a, t); } else { LockTaken(s, a); }
  }

  lemma Detaching(states: seq<State>, actions: seq<Action>, i: nat, k: nat, t: Tid, self: bool, thr: int, f: nat, m: nat)
    requires IsRun(states, actions) && i < k < |actions| && DetachAt(states, actions, i, k, t, self, thr, f, m)
    ensures actions[k].t == t ==> actions[k].Acquire? || actions[k].Step?
  {
    hide Inv, Enabled, Apply, Initial;
    StepAt(states, actions, k);
    InDetach(states, actions, i, k, t, self, thr, f, m);
    hide IsRun, DetachAt;
    if actions[k].t == t { WithinCall(states[k], actions[k]); }
  }

  lemma {:induction false} DetachGoes(states: seq<State>, actions: seq<Action>, i: nat, k: nat, t: Tid, self: bool, thr: int) returns (f: nat, m: nat)
    requires IsRun(states, actions) && i < k < |states| && actions[i] == StartDetach(t, self, thr)
    requires forall u :: i < u <= k ==> !PcOf(states[u], t).User?
    ensures DetachAt(states, actions, i, k, t, self, thr, f, m)
  {
    hide DetachAt, PcOf, IsRun;
    f, m := i, i;
    Lengths(states, actions);
    if i + 1 == k {
      DetachBegins(states, actions, i, t, self, thr, f, m);
    } else {
      f, m := DetachGoes(states, actions, i, k - 1, t, self, thr);
      Detaching(states, actions, i, k - 1, t, self, thr, f, m);
      if actions[k - 1].t == t && actions[k - 1].Step? {
        f, m := DetachSteps(states, actions, i, k - 1, t, self, thr, f, m);
      } else {
        DetachWaits(states, actions, i, k - 1, t, self, thr, f, m);
      }
    }
  }

  /** Step f picked c, nothing failed, and c is freed if it was dead then and detached if not. */
  ghost predicate Parts(states: seq<State>, actions: seq<Action>, i: nat, j: nat, f: nat, t: Tid, self: bool, thr: int, c: Cid)
    requires |states| == |actions| + 1 && j < |states|
  {
    && f < j && Picks(states, actions, i, f, t, self, thr, c) && Smooth(states, actions, i, j, t) && c in states[j].controls
    && if Dead(states[f].controls[c]) then states[j].controls[c].freed else states[j].controls[c].life == Detached && states[j].reaperStarted
  }

  /** What a detach of t from i to j returns.  Success: it decided in step f on a joinable thread,
      and that is freed if it was dead then, and else is detached, with a reaper to care for it.
      An error: there was none to detach, no reaper could be started and nothing has changed, or
      the unmap failed and the thread is joinable again. */
  ghost predicate DetachReturned(states: seq<State>, actions: seq<Action>, i: nat, j: nat, t: Tid, self: bool, thr: int, f: nat, m: nat)
    requires |states| == |actions| + 1 && i < j < |states| && PcOf(states[j], t).User?
  {
    var s, n, r := states[j - 1], states[j], PcOf(states[j], t).last;
    if r == Success then
      exists c :: Parts(states, actions, i, j, f, t, self, thr, c)
    else
      && r == Error
      && ((Undetachable(s, t, self, thr) && n.controls == s.controls && Smooth(states, actions, i, j, t))
          || (PcOf(s, t).EnsureReaper? && actions[j - 1].Step? && !actions[j - 1].ok && !s.reaperStarted && n.controls == s.controls)
          || (i < m < j && Stumbles(states, actions, m, t)
              && exists c :: Picks(states, actions, i, f, t, self, thr, c) && c in n.controls && Unharmed(n.controls[c])))
  }

  /** Every detach of every run. */
  lemma DetachReturns(states: seq<State>, actions: seq<Action>, i: nat, j: nat, t: Tid, self: bool, thr: int) returns (f: nat, m: nat)
    requires IsCall(states, actions, i, j, t) && actions[i] == StartDetach(t, self, thr)
    ensures DetachReturned(states, actions, i, j, t, self, thr, f, m)
  {
    hide DetachAt, DetachReturned, IsRun;
    Lengths(states, actions);
    if j == i + 1 {
      DetachBegins(states, actions, i, t, self, thr, i, i);
      InDetach(states, actions, i, j, t, self, thr, i, i);
    }
    f, m := DetachGoes(states, actions, i, j - 1, t, self, thr);
    Detaching(states, actions, i, j - 1, t, self, thr, f, m);
    if actions[j - 1].t == t && actions[j - 1].Step? {
      DetachLeaves(states, actions, i, j - 1, t, self, thr, f, m);
    } else {
      DetachWaits(states, actions, i, j - 1, t, self, thr, f, m);
      InDetach(states, actions, i, j, t, self, thr, f, m);
    }
  }

  lemma DetachLeaves(states: seq<State>, actions: seq<Action>, i: nat, k: nat, t: Tid, self: bool, thr: int, f: nat, m: nat)
    requires IsRun(states, actions) && i < k < |actions| && DetachAt(states, actions, i, k, t, self, thr, f, m)
    requires actions[k].t == t && actions[k].Step? && PcOf(states[k + 1], t).User?
    ensures DetachReturned(states, actions, i, k + 1, t, self, thr, f, m)
  {
    hide Inv, Enabled, Apply, Initial, Found, PcOf, OwnOf, Undetachable, Unharmed;
    StepAt(states, actions, k);
    InDetach(states, actions, i, k, t, self, thr, f, m);
    hide IsRun, Smooth, Dead;
    var s, a := states[k], actions[k];
    if !Stumbles(states, actions, k, t) && Smooth(states, actions, i, k, t) { SmoothOn(states, actions, i, k, t); }
    if PcOf(s, t).Decide? {
      DecideMoves(s, a);
    } else if PcOf(s, t).EnsureReaper? {
      EnsureMoves(s, a);
      assert PcOf(states[k + 1], t).last == Success ==> Parts(states, actions, i, k + 1, f, t, self, thr, PcOf(s, t).c);
    } else {
      ReapMoves(s, a);
      assert PcOf(s, t).Free? ==> Parts(states, actions, i, k + 1, f, t, self, thr, PcOf(s, t).c);
    }
  }

  // ----- thrd_create

  /** Step m of t starts the thread of c, or is the one that failed, and `why` says how. */
  predicate Clones(states: seq<State>, actions: seq<Action>, i: nat, m: nat, t: Tid, c: Cid)
    requires |states| == |actions| + 1
  {
    i < m < |actions| && actions[m].Step? && actions[m].t == t && actions[m].ok && PcOf(states[m], t) == Clone(c)
    && OwnOf(states[m + 1], actions[m].id) == Some(c)
  }

  predicate Fails(states: seq<State>, actions: seq<Action>, i: nat, m: nat, t: Tid, c: Cid, why: Result)
    requires |states| == |actions| + 1
  {
    && i < m < |actions| && actions[m].Step? && actions[m].t == t && !actions[m].ok
    && if PcOf(states[m], t) == Map(c) then why == NoMemory
       else PcOf(states[m], t) == Clone(c) && why == if actions[m].tid == ENOMEM_ANSWER then NoMemory else Error
  }

  predicate Creates(p: Pc) {
    p.Map? || p.Insert? || p.Clone? || p.Publish? || p.Drop? || p.DropUnmap? || p.DropFree?
  }

  /** How far a creation on block c that began at i has come at k. */
  predicate CreateAt(states: seq<State>, actions: seq<Action>, i: nat, k: nat, t: Tid, c: Cid, m: nat)
    requires |states| == |actions| + 1 && i < k < |states|
  {
    t in states[k].threads
    && match PcOf(states[k], t)
       case Map(x) => x == c
       case Insert(x) => x == c
       case Clone(x) => x == c
       case Publish(x, id) => x == c && m < k && Clones(states, actions, i, m, t, c) && id == actions[m].tid
       case Drop(x, why) => x == c && m < k && Fails(states, actions, i, m, t, c, why)
       case DropUnmap(x, why) => x == c && m < k && Fails(states, actions, i, m, t, c, why)
       case DropFree(x, why) => x == c && m < k && Fails(states, actions, i, m, t, c, why)
       case _ => false
  }

  lemma CreateMoves(s: State, a: Action)
    requires Inv(s) && Enabled(s, a) && a.Step? && Creates(PcOf(s, a.t))
    ensures a.t in Apply(s, a).threads
    ensures var p, q, n := PcOf(s, a.t), PcOf(Apply(s, a), a.t), Apply(s, a);
      match p
      case Map(c) => q == if a.ok then Insert(c) else DropFree(c, NoMemory)
      case Insert(c) => q == Clone(c)
      case Clone(c) =>
        if a.ok then q == Publish(c, a.tid) && OwnOf(n, a.id) == Some(c)
        else q == Drop(c, if a.tid == ENOMEM_ANSWER then NoMemory else Error)
      case Publish(c, id) => q == User(Success) && c in n.controls && n.controls[c].published && n.controls[c].tid == id
      case Drop(c, why) => q == DropUnmap(c, why)
      case DropUnmap(c, why) => q == DropFree(c, why)
      case DropFree(c, why) => q == User(why) && c in n.controls && n.controls[c].freed
      case _ => true
  {
    hide Apply, Enabled, Inv;
    CreateApplies(s, a);
    SubjectsThere(s, a);
  }

  lemma CreateBegins(states: seq<State>, actions: seq<Action>, i: nat, t: Tid, c: Cid, m: nat)
    requires IsRun(states, actions) && i < |actions| && actions[i] == StartCreate(t, c)
    ensures CreateAt(states, actions, i, i + 1, t, c, m)
  {
    hide Inv, Enabled, Apply, Initial;
    StepAt(states, actions, i);
    hide IsRun;
    CreateBegun(states[i], t, c);
  }

  lemma CreateSteps(states: seq<State>, actions: seq<Action>, i: nat, k: nat, t: Tid, c: Cid, m: nat) returns (m': nat)
    requires IsRun(states, actions) && i < k < |actions| && CreateAt(states, actions, i, k, t, c, m)
    requires actions[k].t == t && actions[k].Step?
    ensures CreateAt(states, actions, i, k + 1, t, c, m') || PcOf(states[k + 1], t).User?
  {
    hide Inv, Enabled, Apply, Initial, PcOf, OwnOf;
    StepAt(states, actions, k);
    hide IsRun;
    CreateMoves(states[k], actions[k]);
    m' := if PcOf(states[k], t).Clone? || (PcOf(states[k], t).Map? && !actions[k].ok) then k else m;
  }

  lemma CreateWaits(states: seq<State>, actions: seq<Action>, i: nat, k: nat, t: Tid, c: Cid, m: nat)
    requires IsRun(states, actions) && i < k < |actions| && CreateAt(states, actions, i, k, t, c, m)
    requires actions[k].t != t || actions[k].Acquire?
    ensures CreateAt(states, actions, i, k + 1, t, c, m)
  {
    hide Inv, Enabled, Apply, Initial, PcOf, OwnOf, Clones, Fails;
    StepAt(states, actions, k);
    hide IsRun;
    var s, a := states[k], actions[k];
    ThreadStays(s, a, t);
    if a.t != t { OthersStay(s, a, t); } else { LockTaken(s, a); }
  }

  lemma Creating(states: seq<State>, actions: seq<Action>, i: nat, k: nat, t: Tid, c: Cid, m: nat)
    requires IsRun(states, actions) && i < k < |actions| && CreateAt(states, actions, i, k, t, c, m)
    ensures Creates(PcOf(states[k], t)) && (actions[k].t == t ==> actions[k].Acquire? || actions[k].Step?)
  {
    hide Inv, Enabled, Apply, Initial, Clones, Fails;
    StepAt(states, actions, k);
    hide IsRun;
    if actions[k].t == t { WithinCall(states[k], actions[k]); }
  }

  lemma {:induction false} CreateGoes(states: seq<State>, actions: seq<Action>, i: nat, k: nat, t: Tid, c: Cid) returns (m: nat)
    requires IsRun(states, actions) && i < k < |states| && actions[i] == StartCreate(t, c)
    requires forall u :: i < u <= k ==> !PcOf(states[u], t).User?
    ensures CreateAt(states, actions, i, k, t, c, m)
  {
    hide CreateAt, PcOf, IsRun;
    m := i;
    Lengths(states, actions);
    if i + 1 == k {
      CreateBegins(states, actions, i, t, c, m);
    } else {
      m := CreateGoes(states, actions, i, k - 1, t, c);
      Creating(states, actions, i, k - 1, t, c, m);
      if actions[k - 1].t == t && actions[k - 1].Step? {
        m := CreateSteps(states, actions, i, k - 1, t, c, m);
      } else {
        CreateWaits(states, actions, i, k - 1, t, c, m);
      }
    }
  }

  /** What a creation by t on block c from i to j returns: success with a thread running on the
      block, published under the kernel's id for it, or the failure of step m with the block freed. */
  predicate CreateReturned(states: seq<State>, actions: seq<Action>, i: nat, j: nat, t: Tid, c: Cid, m: nat)
    requires |states| == |actions| + 1 && i < j < |states| && PcOf(states[j], t).User?
  {
    var n, r := states[j], PcOf(states[j], t).last;
    && m < j && c in n.controls
    && if r == Success then Clones(states, actions, i, m, t, c) && n.controls[c].published && n.controls[c].tid == actions[m].tid
       else Fails(states, actions, i, m, t, c, r) && n.controls[c].freed
  }

  /** Every creation of every run. */
  lemma CreateReturns(states: seq<State>, actions: seq<Action>, i: nat, j: nat, t: Tid, c: Cid) returns (m: nat)
    requires IsCall(states, actions, i, j, t) && actions[i] == StartCreate(t, c)
    ensures CreateReturned(states, actions, i, j, t, c, m)
  {
    hide CreateAt, CreateReturned, IsRun;
    Lengths(states, actions);
    if j == i + 1 {
      CreateBegins(states, actions, i, t, c, i);
      InCreate(states, actions, i, j, t, c, i);
    }
    m := CreateGoes(states, actions, i, j - 1, t, c);
    Creating(states, actions, i, j - 1, t, c, m);
    if actions[j - 1].t == t && actions[j - 1].Step? {
      CreateLeaves(states, actions, i, j - 1, t, c, m);
    } else {
      CreateWaits(states, actions, i, j - 1, t, c, m);
      InCreate(states, actions, i, j, t, c, m);
    }
  }

  lemma InCreate(states: seq<State>, actions: seq<Action>, i: nat, k: nat, t: Tid, c: Cid, m: nat)
    requires |states| == |actions| + 1 && i < k < |states| && CreateAt(states, actions, i, k, t, c, m)
    ensures !PcOf(states[k], t).User?
  {
    hide Clones, Fails;
  }

  lemma CreateLeaves(states: seq<State>, actions: seq<Action>, i: nat, k: nat, t: Tid, c: Cid, m: nat)
    requires IsRun(states, actions) && i < k < |actions| && CreateAt(states, actions, i, k, t, c, m)
    requires actions[k].t == t && actions[k].Step? && PcOf(states[k + 1], t).User?
    ensures CreateReturned(states, actions, i, k + 1, t, c, m)
  {
    hide Inv, Enabled, Apply, Initial, PcOf, OwnOf;
    StepAt(states, actions, k);
    hide IsRun;
    CreateMoves(states[k], actions[k]);
  }

  // ----- Detached for good

  /** Detached, or on the reaper's way to being freed. */
  predicate Parted(k: Control) { k.life == Detached || (k.life == Reaping && (k.freed || k.claimant == Some(REAPER))) }

  lemma PartedAtBegin(s: State, a: Action, c: Cid)
    requires Enabled(s, a) && !a.Step? && c in s.controls && Parted(s.controls[c])
    ensures c in Apply(s, a).controls && Parted(Apply(s, a).controls[c])
  {
    hide Parted;
  }

  lemma PartedAtEnsure(s: State, a: Action, c: Cid)
    requires Enabled(s, a) && a.Step? && PcOf(s, a.t).EnsureReaper? && c in s.controls && Parted(s.controls[c])
    ensures c in Apply(s, a).controls && Parted(Apply(s, a).controls[c])
  {
    hide Enabled, Apply;
    EnsureApplies(s, a);
  }

  lemma ScansAsReaper(s: State, t: Tid)
    requires Inv(s) && t in s.threads && PcOf(s, t).Scan?
    ensures t == REAPER
  {
    hide StageOk, FieldsOk, SlotsOk;
    assert ThreadOk(s, t);
  }

  lemma PartedAtSearch(s: State, a: Action, c: Cid)
    requires Inv(s) && Enabled(s, a) && a.Step? && Subject(PcOf(s, a.t)) == None && c in s.controls && Parted(s.controls[c])
    ensures c in Apply(s, a).controls && Parted(Apply(s, a).controls[c])
  {
    hide Inv, Enabled, Apply;
    SearchApplies(s, a);
    SubjectsThere(s, a);
    if PcOf(s, a.t).Scan? { ScansAsReaper(s, a.t); }
  }

  lemma PartedAtReclaim(s: State, a: Action, c: Cid)
    requires Inv(s) && Enabled(s, a) && a.Step? && Reclaims(PcOf(s, a.t)) && c in s.controls && Parted(s.controls[c])
    ensures c in Apply(s, a).controls && Parted(Apply(s, a).controls[c])
  {
    hide Inv, Enabled, Apply;
    ReclaimApplies(s, a);
    SubjectsThere(s, a);
    if PcOf(s, a.t).Restore? && PcOf(s, a.t).c == c { RestoresForReaper(s, a.t); }
  }

  lemma RestoresForReaper(s: State, t: Tid)
    requires Inv(s) && t in s.threads && PcOf(s, t).Restore? && PcOf(s, t).c in s.controls && Parted(s.controls[PcOf(s, t).c])
    ensures PcOf(s, t).how == Reap(false)
  {
    hide FieldsOk, SlotsOk;
    assert ThreadOk(s, t);
  }

  lemma PartedAtCreate(s: State, a: Action, c: Cid)
    requires Inv(s) && Enabled(s, a) && a.Step? && Creates(PcOf(s, a.t)) && c in s.controls && Parted(s.controls[c])
    ensures c in Apply(s, a).controls && Parted(Apply(s, a).controls[c])
  {
    hide Inv, Enabled, Apply;
    CreateApplies(s, a);
    SubjectsThere(s, a);
    if PcOf(s, a.t).Clone? && PcOf(s, a.t).c == c { ClonesJoinable(s, a.t); }
  }

  lemma ClonesJoinable(s: State, t: Tid)
    requires Inv(s) && PcOf(s, t).Clone?
    ensures PcOf(s, t).c in s.controls && s.controls[PcOf(s, t).c].life == Joinable
  {
    hide FieldsOk, SlotsOk, ByReaper;
    assert ThreadOk(s, t);
  }

  lemma PartedStep(s: State, a: Action, c: Cid)
    requires Inv(s) && Enabled(s, a) && c in s.controls && Parted(s.controls[c])
    ensures c in Apply(s, a).controls && Parted(Apply(s, a).controls[c])
  {
    hide Inv, Enabled, Apply, Parted;
    if !a.Step? {
      PartedAtBegin(s, a, c);
    } else if PcOf(s, a.t).EnsureReaper? {
      PartedAtEnsure(s, a, c);
    } else if Subject(PcOf(s, a.t)) == None {
      PartedAtSearch(s, a, c);
    } else if Reclaims(PcOf(s, a.t)) {
      PartedAtReclaim(s, a, c);
    } else {
      PartedAtCreate(s, a, c);
    }
  }

  lemma {:induction false} PartedStays(states: seq<State>, actions: seq<Action>, i: nat, j: nat, c: Cid)
    requires IsRun(states, actions) && i <= j < |states| && c in states[i].controls && Parted(states[i].controls[c])
    ensures c in states[j].controls && Parted(states[j].controls[c])
    decreases j - i
  {
    hide IsRun, Parted;
    if i < j {
      Lengths(states, actions);
      PartedStays(states, actions, i, j - 1, c);
      StepAt(states, actions, j - 1);
      hide Inv, Enabled, Apply;
      PartedStep(states[j - 1], actions[j - 1], c);
    }
  }

  /** After a detach of a thread that was not dead has returned success in j, and ever after: nobody
      joins it, and once it is published and gone it is the reaper's to take, until the reaper has it. */
  lemma DetachedForGood(states: seq<State>, actions: seq<Action>, i: nat, j: nat, t: Tid, self: bool, thr: int, k: nat) returns (f: nat, c: Cid)
    requires IsCall(states, actions, i, j, t) && actions[i] == StartDetach(t, self, thr) && PcOf(states[j], t).last == Success && j <= k < |states|
    ensures i < f < j && Picks(states, actions, i, f, t, self, thr, c) && c in states[j].controls
    ensures Dead(states[f].controls[c]) ==> states[j].controls[c].freed
    ensures !Dead(states[f].controls[c]) ==>
      && c in states[k].controls && Parted(states[k].controls[c])
      && (forall u: Tid :: var p := PcOf(states[k], u); !((p.Read? || p.WaitClear? || p.ReadResult?) && p.c == c))
      && (states[k].controls[c].published && states[k].controls[c].runner == None && states[k].controls[c].life == Detached ==>
          Reapable(states[k].controls[c], true))
  {
    hide IsRun, Parted, Dead, Smooth;
    Lengths(states, actions);
    var m;
    f, m := DetachReturns(states, actions, i, j, t, self, thr);
    c :| Parts(states, actions, i, j, f, t, self, thr, c);
    if !Dead(states[f].controls[c]) {
      DetachedParts(states[j].controls[c]);
      PartedStays(states, actions, j, k, c);
      EveryRun(states, actions, k);
      NobodyJoins(states[k], c);
    }
  }

  lemma DetachedParts(k: Control)
    requires k.life == Detached
    ensures Parted(k)
  {
  }

  lemma NobodyJoins(s: State, c: Cid)
    requires Inv(s) && c in s.controls && Parted(s.controls[c])
    ensures forall u: Tid :: var p := PcOf(s, u); !((p.Read? || p.WaitClear? || p.ReadResult?) && p.c == c)
    ensures s.controls[c].published && s.controls[c].runner == None && s.controls[c].life == Detached ==> Reapable(s.controls[c], true)
  {
    assert FieldsOk(s.controls[c]);
    hide FieldsOk, SlotsOk, ByReaper, Critical;
    forall u: Tid ensures var p := PcOf(s, u); !((p.Read? || p.WaitClear? || p.ReadResult?) && p.c == c) {
      assert ThreadOk(s, u);
    }
  }

  // ----- The reaper's sleep

  /** The reaper looks for a detached thread a second time in step r, and then sleeps on the event
      word until i, with no event in between. */
  ghost predicate SleepsOn(states: seq<State>, actions: seq<Action>, r: nat, i: nat) {
    && IsRun(states, actions) && r < i < |states| && actions[r].Step? && actions[r].t == REAPER && PcOf(states[r], REAPER).Rescan?
    && forall k :: r < k <= i ==> PcOf(states[k], REAPER) == Lifecycle.Sleep(states[i].event)
  }

  ghost predicate WorkLeft(s: State) { exists c :: c in s.controls && Reapable(s.controls[c], false) }

  predicate Lost(s: State, c: Cid) { c in s.controls && Reapable(s.controls[c], true) }

  lemma RescanMoves(s: State, a: Action)
    requires Enabled(s, a) && a.Step? && PcOf(s, a.t).Rescan? && PcOf(Apply(s, a), a.t).Sleep?
    ensures Apply(s, a).controls == s.controls && Apply(s, a).event == s.event && PcOf(Apply(s, a), a.t) == Lifecycle.Sleep(s.event)
    ensures if a.pick == None then !WorkLeft(s) else Lost(s, a.pick.value)
  {
    hide Apply, Enabled, DecideStep;
    SearchApplies(s, a);
  }

  lemma EventGrows(s: State, a: Action)
    requires Enabled(s, a)
    ensures s.event <= Apply(s, a).event
  {
    hide AnswersFit, Reapable;
  }

  lemma ReaperOnly(s: State, t: Tid)
    requires Inv(s) && t in s.threads && t != REAPER
    ensures !ByReaper(PcOf(s, t))
  {
    hide StageOk, FieldsOk, SlotsOk, ByReaper;
    assert ThreadOk(s, t);
  }

  // No work comes up without an event.

  lemma NoneAtBegin(s: State, a: Action, d: Cid)
    requires Enabled(s, a) && !a.Step? && !WorkLeft(s) && d in Apply(s, a).controls
    ensures !Reapable(Apply(s, a).controls[d], false)
  {
    assert d in s.controls ==> !Reapable(s.controls[d], false);
  }

  lemma NoneAtEnsure(s: State, a: Action, d: Cid)
    requires Enabled(s, a) && a.Step? && PcOf(s, a.t).EnsureReaper? && !WorkLeft(s) && d in Apply(s, a).controls
    requires Apply(s, a).event == s.event
    ensures !Reapable(Apply(s, a).controls[d], false)
  {
    hide Enabled, Apply;
    EnsureApplies(s, a);
    assert d in s.controls ==> !Reapable(s.controls[d], false);
  }

  lemma NoneAtSearch(s: State, a: Action, d: Cid)
    requires Inv(s) && Enabled(s, a) && a.Step? && Subject(PcOf(s, a.t)) == None && !WorkLeft(s) && d in Apply(s, a).controls
    ensures !Reapable(Apply(s, a).controls[d], false)
  {
    hide Inv, Enabled, Apply;
    SearchApplies(s, a);
    SubjectsThere(s, a);
    assert d in s.controls ==> !Reapable(s.controls[d], false);
  }

  lemma NoneAtReclaim(s: State, a: Action, d: Cid)
    requires Inv(s) && Enabled(s, a) && a.Step? && Reclaims(PcOf(s, a.t)) && !WorkLeft(s) && d in Apply(s, a).controls
    requires Apply(s, a).event == s.event
    ensures !Reapable(Apply(s, a).controls[d], false)
  {
    hide Inv, Enabled, Apply;
    ReclaimApplies(s, a);
    SubjectsThere(s, a);
    assert d in s.controls ==> !Reapable(s.controls[d], false);
  }

  lemma NoneAtCreate(s: State, a: Action, d: Cid)
    requires Inv(s) && Enabled(s, a) && a.Step? && Creates(PcOf(s, a.t)) && !WorkLeft(s) && d in Apply(s, a).controls
    requires Apply(s, a).event == s.event
    ensures !Reapable(Apply(s, a).controls[d], false)
  {
    hide Inv, Enabled, Apply;
    CreateApplies(s, a);
    SubjectsThere(s, a);
    assert d in s.controls ==> !Reapable(s.controls[d], false);
    if PcOf(s, a.t).Insert? { InsertsJoinable(s, a.t); }
  }

  lemma InsertsJoinable(s: State, t: Tid)
    requires Inv(s) && PcOf(s, t).Insert?
    ensures PcOf(s, t).c in s.controls && s.controls[PcOf(s, t).c].life == Joinable
  {
    hide FieldsOk, SlotsOk, ByReaper;
    assert ThreadOk(s, t);
  }

  /** A step after which there is work for the reaper, and before which there was none, raises the event. */
  lemma NoNewWork(s: State, a: Action)
    requires Inv(s) && Enabled(s, a) && !WorkLeft(s) && Apply(s, a).event == s.event
    ensures !WorkLeft(Apply(s, a))
  {
    forall d | d in Apply(s, a).controls ensures !Reapable(Apply(s, a).controls[d], false) {
      hide Inv, Enabled, Apply, Reapable, WorkLeft;
      if !a.Step? { NoneAtBegin(s, a, d); }
      else if PcOf(s, a.t).EnsureReaper? { NoneAtEnsure(s, a, d); }
      else if Subject(PcOf(s, a.t)) == None { NoneAtSearch(s, a, d); }
      else if Reclaims(PcOf(s, a.t)) { NoneAtReclaim(s, a, d); }
      else { NoneAtCreate(s, a, d); }
    }
  }

  // A dead detached thread stays for the reaper.

  lemma NotLost(s: State, t: Tid, c: Cid)
    requires Inv(s) && t in s.threads && t != REAPER && Subject(PcOf(s, t)) == Some(c) && c in s.controls && s.controls[c].life == Detached
    ensures !s.controls[c].published
  {
    hide SlotsOk;
    assert ThreadOk(s, t);
  }

  lemma LostAtBegin(s: State, a: Action, c: Cid)
    requires Enabled(s, a) && !a.Step? && Lost(s, c)
    ensures Lost(Apply(s, a), c)
  {
  }

  lemma LostAtEnsure(s: State, a: Action, c: Cid)
    requires Enabled(s, a) && a.Step? && PcOf(s, a.t).EnsureReaper? && Lost(s, c)
    ensures Lost(Apply(s, a), c)
  {
    hide Enabled, Apply;
    EnsureApplies(s, a);
  }

  lemma LostAtSearch(s: State, a: Action, c: Cid)
    requires Inv(s) && Enabled(s, a) && a.Step? && Subject(PcOf(s, a.t)) == None && a.t != REAPER && Lost(s, c)
    ensures Lost(Apply(s, a), c)
  {
    hide Inv, Enabled, Apply;
    SearchApplies(s, a);
    SubjectsThere(s, a);
    ReaperOnly(s, a.t);
    if PcOf(s, a.t).Child? && OwnOf(s, a.t) == Some(c) { OwnAlive(s, a.t, c); }
  }

  lemma OwnAlive(s: State, t: Tid, c: Cid)
    requires Inv(s) && PcOf(s, t) != Gone && OwnOf(s, t) == Some(c) && c in s.controls && s.controls[c].published
    ensures s.controls[c].clear != 0
  {
    hide SlotsOk, StageOk, ByReaper;
    assert ThreadOk(s, t) && FieldsOk(s.controls[c]);
  }

  lemma LostAtOther(s: State, a: Action, c: Cid)
    requires Inv(s) && Enabled(s, a) && a.Step? && Subject(PcOf(s, a.t)).Some? && !PcOf(s, a.t).EnsureReaper? && a.t != REAPER && Lost(s, c)
    ensures Lost(Apply(s, a), c)
  {
    hide Inv, Enabled, Apply;
    if Reclaims(PcOf(s, a.t)) { ReclaimApplies(s, a); } else { CreateApplies(s, a); }
    SubjectsThere(s, a);
    if Subject(PcOf(s, a.t)) == Some(c) { NotLost(s, a.t, c); }
  }

  lemma LostStays(s: State, a: Action, c: Cid)
    requires Inv(s) && Enabled(s, a) && a.t != REAPER && Lost(s, c)
    ensures Lost(Apply(s, a), c)
  {
    hide Inv, Enabled, Apply, Lost;
    if !a.Step? { LostAtBegin(s, a, c); }
    else if PcOf(s, a.t).EnsureReaper? { LostAtEnsure(s, a, c); }
    else if Subject(PcOf(s, a.t)) == None { LostAtSearch(s, a, c); }
    else { LostAtOther(s, a, c); }
  }

  /** While it sleeps the reaper takes no step; the steps of others are those of the lemmas above. */
  lemma SleeperStill(s: State, a: Action, e: int)
    requires Enabled(s, a) && PcOf(s, REAPER) == Lifecycle.Sleep(e) && PcOf(Apply(s, a), REAPER) == Lifecycle.Sleep(e)
    ensures a.t != REAPER || (a.Acquire? && Apply(s, a).controls == s.controls)
  {
    hide AnswersFit, EnsureStep, ReclaimStep, CreateStep, DecideStep;
  }

  lemma {:induction false} EventsGrow(states: seq<State>, actions: seq<Action>, i: nat, j: nat)
    requires IsRun(states, actions) && i <= j < |states|
    ensures states[i].event <= states[j].event
    decreases j - i
  {
    hide IsRun, Inv, Enabled, Apply;
    if i < j {
      Lengths(states, actions);
      EventsGrow(states, actions, i, j - 1);
      StepAt(states, actions, j - 1);
      EventGrows(states[j - 1], actions[j - 1]);
    }
  }

  lemma Sleeping(states: seq<State>, actions: seq<Action>, r: nat, i: nat, k: nat)
    requires SleepsOn(states, actions, r, i) && r <= k <= i
    ensures IsRun(states, actions) && |states| == |actions| + 1 && r < i < |states| && actions[r].Step? && actions[r].t == REAPER
    ensures PcOf(states[r], REAPER).Rescan? && (r < k ==> PcOf(states[k], REAPER) == Lifecycle.Sleep(states[i].event))
  {
    hide IsRun;
    Lengths(states, actions);
  }

  /** No event comes while it sleeps. */
  lemma NoEvent(states: seq<State>, actions: seq<Action>, r: nat, i: nat, k: nat)
    requires SleepsOn(states, actions, r, i) && r < k <= i
    ensures states[k].event == states[i].event
  {
    hide SleepsOn, IsRun;
    Sleeping(states, actions, r, i, r + 1);
    StepAt(states, actions, r);
    hide Inv, Enabled, Apply;
    RescanMoves(states[r], actions[r]);
    EventsGrow(states, actions, r + 1, k);
    EventsGrow(states, actions, k, i);
  }

  lemma {:induction false} SleepsUntil(states: seq<State>, actions: seq<Action>, r: nat, i: nat, k: nat)
    requires SleepsOn(states, actions, r, i) && r < k <= i < |states| && |states| == |actions| + 1 && actions[r].Step?
    ensures if actions[r].pick == None then !WorkLeft(states[k]) else Lost(states[k], actions[r].pick.value)
  {
    hide SleepsOn, IsRun, Inv, Enabled, Apply, WorkLeft, Lost, PcOf;
    Sleeping(states, actions, r, i, k);
    StepAt(states, actions, k - 1);
    if k == r + 1 {
      RescanMoves(states[r], actions[r]);
      SameWork(states[r], states[k]);
    } else {
      SleepsUntil(states, actions, r, i, k - 1);
      Sleeping(states, actions, r, i, k - 1);
      NoEvent(states, actions, r, i, k - 1);
      NoEvent(states, actions, r, i, k);
      var s, a := states[k - 1], actions[k - 1];
      SleeperStill(s, a, states[i].event);
      if a.t == REAPER {
        SameWork(s, states[k]);
      } else if actions[r].pick == None {
        NoNewWork(s, a);
      } else {
        LostStays(s, a, actions[r].pick.value);
      }
    }
  }

  lemma SameWork(s: State, n: State)
    requires n.controls == s.controls
    ensures WorkLeft(n) == WorkLeft(s) && forall c :: Lost(n, c) == Lost(s, c)
  {
  }

  /** The reaper may sleep while a detached thread waits for it, dead or not: exactly if its second
      search found one after all, which has died since the first; and that one is lost until the
      next event. */
  lemma ReaperMisses(states: seq<State>, actions: seq<Action>, r: nat, i: nat)
    requires SleepsOn(states, actions, r, i)
    ensures WorkLeft(states[i]) <==> actions[r].pick.Some?
    ensures actions[r].pick.Some? ==> Lost(states[i], actions[r].pick.value)
  {
    hide IsRun;
    Lengths(states, actions);
    SleepsUntil(states, actions, r, i, i);
    if actions[r].pick.Some? { LostIsWork(states[i], actions[r].pick.value); }
  }

  lemma LostIsWork(s: State, c: Cid)
    requires Lost(s, c)
    ensures WorkLeft(s)
  {
  }
}
