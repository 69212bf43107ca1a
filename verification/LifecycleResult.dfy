/** The `result` field on top of the life cycle: `thrd_join` gives the value that the thread gave `thrd_exit`. */
module LifecycleResult {
  import opened Lifecycle

  /** `passed` is what a thread gave thrd_exit, `result` the field of a control. */
  datatype Full = Full(s: State, passed: map<Tid, int>, result: map<Cid, int>)

  predicate Cloned(s: State, a: Action) { a.Step? && PcOf(s, a.t).Clone? && a.ok }

  predicate Stores(s: State, a: Action) { a.Step? && PcOf(s, a.t).StoreResult? && OwnOf(s, a.t).Some? }

  /** A step with the values: create clears the field, thrd_exit stores its argument. */
  function Next(f: Full, a: Action, value: int): Full
    requires Enabled(f.s, a)
  {
    var n := Apply(f.s, a);
    if a.StartCreate? then Full(n, f.passed, f.result[a.c := 0])
    else if a.StartExit? then Full(n, f.passed[a.t := value], f.result)
    else if Stores(f.s, a) && a.t in f.passed then Full(n, f.passed, f.result[OwnOf(f.s, a.t).value := f.passed[a.t]])
    else Full(n, f.passed, f.result)
  }

  ghost predicate IsFullRun(fulls: seq<Full>, actions: seq<Action>, values: seq<int>) {
    && |fulls| == |actions| + 1 == |values| + 1 && Initial(fulls[0].s) && fulls[0].result == map[]
    && forall i :: 0 <= i < |actions| ==> Enabled(fulls[i].s, actions[i]) && fulls[i + 1] == Next(fulls[i], actions[i], values[i])
  }

  // ----- What a step does to the threads' own controls

  predicate Leaving(p: Pc) { p.Exit? || p.Gone? }

  /** Threads keep their controls; new ones come with a control that starts now, or with none; a
      thread comes to its exit through the store. */
  ghost predicate ThreadsStay(s: State, a: Action, n: State) {
    && (forall u: Tid :: u in s.threads ==> u in n.threads && OwnOf(n, u) == OwnOf(s, u))
    && (forall u: Tid :: u in s.threads && u != a.t ==> PcOf(n, u) == PcOf(s, u))
  }

  ghost predicate ThreadsCome(s: State, a: Action, n: State) {
    && (forall u: Tid :: u in n.threads && u !in s.threads ==>
          (Cloned(s, a) && u == a.id && OwnOf(n, u) == Some(PcOf(s, a.t).c) && PcOf(n, u) == Child)
          || (OwnOf(n, u) == None && PcOf(n, u) == Scan))
    && (Cloned(s, a) ==> a.id !in s.threads && a.id in n.threads && OwnOf(n, a.id) == Some(PcOf(s, a.t).c))
  }

  ghost predicate ThreadsMoved(s: State, a: Action, n: State) { ThreadsStay(s, a, n) && ThreadsCome(s, a, n) }

  ghost predicate MoverMoved(s: State, a: Action, n: State) {
    && a.t in s.threads && (OwnOf(s, a.t).Some? && Leaving(PcOf(n, a.t)) ==> Stores(s, a) || PcOf(s, a.t).Exit?)
    && (PcOf(n, a.t).StoreResult? ==> a.StartExit?)
  }

  ghost predicate ControlsMoved(s: State, a: Action, n: State) {
    && (forall c :: c in s.controls ==> c in n.controls && (n.controls[c].started <==> s.controls[c].started || (Cloned(s, a) && PcOf(s, a.t).c == c)))
    && (forall c :: c in n.controls && c !in s.controls ==> !n.controls[c].started)
  }

  ghost predicate Moved(s: State, a: Action, n: State) {
    ThreadsMoved(s, a, n) && MoverMoved(s, a, n) && ControlsMoved(s, a, n)
  }

  /** One thread moves and keeps its control; no thread comes. */
  predicate OneMoves(s: State, n: State, t: Tid) {
    t in s.threads && t in n.threads && n.threads == s.threads[t := n.threads[t]] && n.threads[t].own == s.threads[t].own
  }

  lemma SearchOne(s: State, a: Action)
    requires Enabled(s, a) && a.Step? && Subject(PcOf(s, a.t)) == None && !PcOf(s, a.t).Decide?
    ensures OneMoves(s, Apply(s, a), a.t)
  {
    hide Apply, Enabled, DecideStep, AnswersFit;
    SearchApplies(s, a);
  }

  lemma DecideOne(s: State, a: Action)
    requires Enabled(s, a) && a.Step? && PcOf(s, a.t).Decide?
    ensures OneMoves(s, Apply(s, a), a.t)
  {
    hide Apply, Enabled;
    SearchApplies(s, a);
  }

  lemma ReclaimOne(s: State, a: Action)
    requires Enabled(s, a) && a.Step? && Reclaims(PcOf(s, a.t))
    ensures OneMoves(s, Apply(s, a), a.t)
  {
    hide Apply, Enabled;
    ReclaimApplies(s, a);
  }

  lemma CreateOne(s: State, a: Action)
    requires Enabled(s, a) && a.Step? && Subject(PcOf(s, a.t)).Some? && !Reclaims(PcOf(s, a.t)) && !PcOf(s, a.t).EnsureReaper?
    requires !Cloned(s, a)
    ensures OneMoves(s, Apply(s, a), a.t)
  {
    hide Apply, Enabled;
    CreateApplies(s, a);
  }

  lemma BeginOne(s: State, a: Action)
    requires Enabled(s, a) && !a.Step?
    ensures OneMoves(s, Apply(s, a), a.t)
  {
  }

  /** The step that brings a thread with a control. */
  lemma CloneTwo(s: State, a: Action)
    requires Enabled(s, a) && Cloned(s, a)
    ensures ThreadsMoved(s, a, Apply(s, a))
  {
    hide Apply, Enabled;
    CreateApplies(s, a);
  }

  lemma OneMovesAll(s: State, a: Action, n: State)
    requires OneMoves(s, n, a.t) && !Cloned(s, a)
    ensures ThreadsMoved(s, a, n)
  {
  }

  lemma BeginMovesMover(s: State, a: Action)
    requires Inv(s) && Enabled(s, a) && !a.Step?
    ensures MoverMoved(s, a, Apply(s, a))
  {
    hide SlotsOk, FieldsOk, StageOk, StageOf, ByReaper;
    assert ThreadOk(s, a.t);
  }

  lemma BeginMovesControls(s: State, a: Action)
    requires Inv(s) && Enabled(s, a) && !a.Step?
    ensures ControlsMoved(s, a, Apply(s, a))
  {
    hide SlotsOk, FieldsOk, StageOk, StageOf, ByReaper;
    assert ThreadOk(s, a.t);
  }

  lemma EnsureMoves(s: State, a: Action)
    requires Inv(s) && Enabled(s, a) && a.Step? && PcOf(s, a.t).EnsureReaper?
    ensures Moved(s, a, Apply(s, a))
  {
    hide Apply, Enabled, SlotsOk, FieldsOk, StageOk, StageOf, ByReaper;
    EnsureApplies(s, a);
  }

  lemma SearchMovesMover(s: State, a: Action)
    requires Inv(s) && Enabled(s, a) && a.Step? && Subject(PcOf(s, a.t)) == None
    ensures MoverMoved(s, a, Apply(s, a))
  {
    hide Apply, Enabled, SlotsOk, FieldsOk, StageOk, StageOf, ByReaper, ThreadOk;
    SearchApplies(s, a);
  }

  /** At most control c is put back, as started as it was. */
  predicate PutsBack(s: State, n: State, c: Cid) {
    n.controls == s.controls || (c in s.controls && c in n.controls && n.controls == s.controls[c := n.controls[c]] && n.controls[c].started == s.controls[c].started)
  }

  lemma DecidePuts(s: State, a: Action)
    requires Enabled(s, a) && a.Step? && PcOf(s, a.t).Decide?
    ensures PutsBack(s, Apply(s, a), if a.pick.Some? then a.pick.value else 0)
  {
    hide Apply, Enabled;
    SearchApplies(s, a);
    SubjectsThere(s, a);
  }

  lemma FindPuts(s: State, a: Action)
    requires Enabled(s, a) && a.Step? && PcOf(s, a.t).Find?
    ensures PutsBack(s, Apply(s, a), if a.pick.Some? then a.pick.value else 0)
  {
    hide Apply, Enabled, DecideStep;
    SearchApplies(s, a);
    SubjectsThere(s, a);
  }

  lemma ScanPuts(s: State, a: Action)
    requires Enabled(s, a) && a.Step? && PcOf(s, a.t).Scan?
    ensures PutsBack(s, Apply(s, a), if a.pick.Some? then a.pick.value else 0)
  {
    hide Apply, Enabled, DecideStep;
    SearchApplies(s, a);
    SubjectsThere(s, a);
  }

  lemma ChildPuts(s: State, a: Action)
    requires Enabled(s, a) && a.Step? && PcOf(s, a.t).Child?
    ensures PutsBack(s, Apply(s, a), if OwnOf(s, a.t).Some? then OwnOf(s, a.t).value else 0)
  {
    hide Apply, Enabled, DecideStep;
    SearchApplies(s, a);
    SubjectsThere(s, a);
  }

  lemma ExitPuts(s: State, a: Action)
    requires Enabled(s, a) && a.Step? && PcOf(s, a.t).Exit?
    ensures PutsBack(s, Apply(s, a), if OwnOf(s, a.t).Some? then OwnOf(s, a.t).value else 0)
  {
    hide Apply, Enabled, DecideStep;
    SearchApplies(s, a);
    SubjectsThere(s, a);
  }

  lemma OtherPuts(s: State, a: Action)
    requires Enabled(s, a) && a.Step? && Subject(PcOf(s, a.t)) == None
    requires var p := PcOf(s, a.t); !p.Decide? && !p.Find? && !p.Scan? && !p.Child? && !p.Exit?
    ensures Apply(s, a).controls == s.controls
  {
    hide Apply, Enabled, DecideStep;
    SearchApplies(s, a);
  }

  lemma PutsBackMoves(s: State, a: Action, n: State, c: Cid)
    requires PutsBack(s, n, c) && !Cloned(s, a)
    ensures ControlsMoved(s, a, n)
  {
  }

  lemma SearchMovesControls(s: State, a: Action)
    requires Enabled(s, a) && a.Step? && Subject(PcOf(s, a.t)) == None
    ensures ControlsMoved(s, a, Apply(s, a))
  {
    var p := PcOf(s, a.t);
    assert !Cloned(s, a);
    hide Apply, Enabled, PcOf, Subject, ControlsMoved;
    if p.Decide? { DecidePuts(s, a); }
    else if p.Find? { FindPuts(s, a); }
    else if p.Scan? { ScanPuts(s, a); }
    else if p.Child? { ChildPuts(s, a); }
    else if p.Exit? { ExitPuts(s, a); }
    else { OtherPuts(s, a); }
    PutsBackMoves(s, a, Apply(s, a), if p.Child? || p.Exit? then (if OwnOf(s, a.t).Some? then OwnOf(s, a.t).value else 0) else if a.pick.Some? then a.pick.value else 0);
  }

  lemma ReclaimMovesMover(s: State, a: Action)
    requires Inv(s) && Enabled(s, a) && a.Step? && Reclaims(PcOf(s, a.t))
    ensures MoverMoved(s, a, Apply(s, a))
  {
    hide Apply, Enabled, SlotsOk, FieldsOk, StageOk, StageOf, ByReaper, ThreadOk;
    ReclaimApplies(s, a);
  }

  lemma ReclaimPuts(s: State, a: Action)
    requires Enabled(s, a) && a.Step? && Reclaims(PcOf(s, a.t))
    ensures var n, c := Apply(s, a).controls, Subject(PcOf(s, a.t)).value;
      c in s.controls && c in n && n == s.controls[c := n[c]] && (n[c].started == s.controls[c].started)
  {
    hide Apply, Enabled, SlotsOk, FieldsOk, StageOk, StageOf, ByReaper, ThreadOk;
    ReclaimApplies(s, a);
    SubjectsThere(s, a);
  }

  lemma ReclaimMovesControls(s: State, a: Action)
    requires Inv(s) && Enabled(s, a) && a.Step? && Reclaims(PcOf(s, a.t))
    ensures ControlsMoved(s, a, Apply(s, a))
  {
    ReclaimPuts(s, a);
    hide Inv, Enabled, Apply, PcOf, Reclaims;
  }

  lemma CreateMovesMover(s: State, a: Action)
    requires Inv(s) && Enabled(s, a) && a.Step? && Subject(PcOf(s, a.t)).Some? && !Reclaims(PcOf(s, a.t)) && !PcOf(s, a.t).EnsureReaper?
    ensures MoverMoved(s, a, Apply(s, a))
  {
    hide Apply, Enabled, SlotsOk, FieldsOk, StageOk, StageOf, ByReaper, ThreadOk;
    CreateApplies(s, a);
  }

  lemma CreatePuts(s: State, a: Action)
    requires Enabled(s, a) && a.Step? && Subject(PcOf(s, a.t)).Some? && !Reclaims(PcOf(s, a.t)) && !PcOf(s, a.t).EnsureReaper?
    ensures var n, c := Apply(s, a).controls, Subject(PcOf(s, a.t)).value;
      c in s.controls && c in n && n == s.controls[c := n[c]] && (n[c].started == s.controls[c].started || Cloned(s, a))
  {
    hide Apply, Enabled, SlotsOk, FieldsOk, StageOk, StageOf, ByReaper, ThreadOk;
    CreateApplies(s, a);
    SubjectsThere(s, a);
  }

  lemma CreateMovesControls(s: State, a: Action)
    requires Inv(s) && Enabled(s, a) && a.Step? && Subject(PcOf(s, a.t)).Some? && !Reclaims(PcOf(s, a.t)) && !PcOf(s, a.t).EnsureReaper?
    ensures ControlsMoved(s, a, Apply(s, a))
  {
    CreatePuts(s, a);
    hide Inv, Enabled, Apply, PcOf, Reclaims;
  }

  lemma StepMoves(s: State, a: Action)
    requires Inv(s) && Enabled(s, a)
    ensures Moved(s, a, Apply(s, a))
  {
    hide Inv, Enabled, Apply, ThreadsStay, ThreadsCome, MoverMoved, ControlsMoved, OneMoves;
    if !a.Step? {
      BeginOne(s, a);
      BeginMovesMover(s, a);
      BeginMovesControls(s, a);
    } else if PcOf(s, a.t).EnsureReaper? {
      EnsureMoves(s, a);
    } else if Subject(PcOf(s, a.t)) == None {
      if PcOf(s, a.t).Decide? { DecideOne(s, a); } else { SearchOne(s, a); }
      SearchMovesMover(s, a);
      SearchMovesControls(s, a);
    } else if Reclaims(PcOf(s, a.t)) {
      ReclaimOne(s, a);
      ReclaimMovesMover(s, a);
      ReclaimMovesControls(s, a);
    } else {
      if Cloned(s, a) { CloneTwo(s, a); } else { CreateOne(s, a); }
      CreateMovesMover(s, a);
      CreateMovesControls(s, a);
    }
    if !Cloned(s, a) && !(a.Step? && PcOf(s, a.t).EnsureReaper?) { OneMovesAll(s, a, Apply(s, a)); }
  }

  // ----- The values

  ghost predicate OwnersStarted(s: State) {
    forall u, c :: u in s.threads && OwnOf(s, u) == Some(c) ==> c in s.controls && s.controls[c].started
  }

  ghost predicate OwnersApart(s: State) {
    forall u, v :: u in s.threads && v in s.threads && OwnOf(s, u).Some? && OwnOf(s, u) == OwnOf(s, v) ==> u == v
  }

  ghost predicate StartedOwned(s: State) {
    forall c :: c in s.controls && s.controls[c].started ==> exists u :: u in s.threads && OwnOf(s, u) == Some(c)
  }

  /** A started control has exactly one thread. */
  ghost predicate Owned(s: State) {
    OwnersStarted(s) && OwnersApart(s) && StartedOwned(s)
  }

  /** Once the thread of a control has stored, the field is what it passed. */
  ghost predicate KeptBy(f: Full, u: Tid) {
    && (PcOf(f.s, u).StoreResult? ==> u in f.passed)
    && (OwnOf(f.s, u).Some? && Leaving(PcOf(f.s, u)) ==>
          u in f.passed && OwnOf(f.s, u).value in f.result && f.result[OwnOf(f.s, u).value] == f.passed[u])
  }

  ghost predicate Kept(f: Full) { forall u: Tid :: u in f.s.threads ==> KeptBy(f, u) }

  /** A clone gives a thread to a control that has none. */
  predicate ClonesUnstarted(s: State, a: Action) {
    Cloned(s, a) ==> PcOf(s, a.t).c in s.controls && !s.controls[PcOf(s, a.t).c].started
  }

  lemma OwnersStayStarted(s: State, a: Action, n: State)
    requires OwnersStarted(s) && ThreadsMoved(s, a, n) && ControlsMoved(s, a, n) && ClonesUnstarted(s, a)
    ensures OwnersStarted(n)
  {
    hide OwnOf, PcOf;
    forall u, c | u in n.threads && OwnOf(n, u) == Some(c) ensures c in n.controls && n.controls[c].started {
      if u in s.threads { assert OwnOf(s, u) == Some(c); }
    }
  }

  lemma OneOwner(s: State, a: Action, n: State, u: Tid, v: Tid)
    requires OwnersStarted(s) && OwnersApart(s) && ThreadsMoved(s, a, n) && ClonesUnstarted(s, a)
    requires u in n.threads && v in n.threads && OwnOf(n, u).Some? && OwnOf(n, u) == OwnOf(n, v)
    ensures u == v
  {
    hide OwnOf, PcOf;
    if u in s.threads { assert OwnOf(s, u) == OwnOf(n, u) == Some(OwnOf(s, u).value); }
    if v in s.threads { assert OwnOf(s, v) == OwnOf(n, v) == Some(OwnOf(s, v).value); }
  }

  lemma OwnersStayApart(s: State, a: Action, n: State)
    requires OwnersStarted(s) && OwnersApart(s) && ThreadsMoved(s, a, n) && ClonesUnstarted(s, a)
    ensures OwnersApart(n)
  {
    hide OwnOf, OwnersStarted, ThreadsMoved, ClonesUnstarted;
    forall u, v | u in n.threads && v in n.threads && OwnOf(n, u).Some? && OwnOf(n, u) == OwnOf(n, v) ensures u == v {
      OneOwner(s, a, n, u, v);
    }
  }

  lemma StartedStayOwned(s: State, a: Action, n: State)
    requires StartedOwned(s) && ThreadsMoved(s, a, n) && ControlsMoved(s, a, n)
    ensures StartedOwned(n)
  {
    hide OwnOf, PcOf;
    forall c | c in n.controls && n.controls[c].started ensures exists u :: u in n.threads && OwnOf(n, u) == Some(c) {
      if c in s.controls && s.controls[c].started {
        var u :| u in s.threads && OwnOf(s, u) == Some(c);
        assert u in n.threads && OwnOf(n, u) == Some(c);
      } else {
        assert a.id in n.threads && OwnOf(n, a.id) == Some(c);
      }
    }
  }

  lemma StepOwned(s: State, a: Action)
    requires Inv(s) && Owned(s) && Enabled(s, a)
    ensures Owned(Apply(s, a))
  {
    hide Inv, Enabled, Apply, ThreadsMoved, MoverMoved, ControlsMoved, OwnersStarted, OwnersApart, StartedOwned;
    var n := Apply(s, a);
    StepMoves(s, a);
    if Cloned(s, a) { NotStarted(s, a); }
    OwnersStayStarted(s, a, n);
    OwnersStayApart(s, a, n);
    StartedStayOwned(s, a, n);
  }

  lemma NotStarted(s: State, a: Action)
    requires Inv(s) && Enabled(s, a) && Cloned(s, a)
    ensures PcOf(s, a.t).c in s.controls && !s.controls[PcOf(s, a.t).c].started
  {
    hide SlotsOk, FieldsOk, ByReaper, AnswersFit;
    assert ThreadOk(s, a.t);
  }

  /** The field of a control is written by its creation and by its own thread only. */
  lemma OthersKept(f: Full, a: Action, value: int, u: Tid)
    requires Enabled(f.s, a) && Owned(f.s) && ThreadsMoved(f.s, a, Apply(f.s, a)) && a.t in f.s.threads
    requires u in Apply(f.s, a).threads && u != a.t && (u in f.s.threads ==> KeptBy(f, u))
    requires a.StartCreate? ==> a.c !in f.s.controls
    ensures KeptBy(Next(f, a, value), u)
  {
    hide Enabled, Apply, PcOf, OwnOf;
    var n := Apply(f.s, a);
    if u in f.s.threads {
      assert OwnOf(n, u) == OwnOf(f.s, u) && PcOf(n, u) == PcOf(f.s, u);
      if OwnOf(f.s, u).Some? {
        assert OwnOf(f.s, u).value in f.s.controls && OwnOf(f.s, a.t) != OwnOf(f.s, u);
      }
    } else {
      NewThread(f.s, a, u);
    }
  }

  lemma NewThread(s: State, a: Action, u: Tid)
    requires Enabled(s, a) && ThreadsMoved(s, a, Apply(s, a)) && u in Apply(s, a).threads && u !in s.threads
    ensures PcOf(Apply(s, a), u) == Child || (OwnOf(Apply(s, a), u) == None && !PcOf(Apply(s, a), u).StoreResult?)
  {
    hide Apply, Enabled, ThreadsStay, PcOf, OwnOf;
  }

  lemma MoverKept(f: Full, a: Action, value: int)
    requires Enabled(f.s, a) && ThreadsMoved(f.s, a, Apply(f.s, a)) && MoverMoved(f.s, a, Apply(f.s, a)) && KeptBy(f, a.t)
    requires a.StartCreate? ==> a.c !in f.s.controls
    ensures KeptBy(Next(f, a, value), a.t)
  {
    hide Apply, OwnOf;
    var n := Apply(f.s, a);
    assert OwnOf(n, a.t) == OwnOf(f.s, a.t);
  }

  lemma MoverThere(s: State, a: Action, n: State)
    requires MoverMoved(s, a, n)
    ensures a.t in s.threads
  {
  }

  lemma StepKept(f: Full, a: Action, value: int)
    requires Inv(f.s) && Owned(f.s) && Kept(f) && Enabled(f.s, a)
    ensures Kept(Next(f, a, value))
  {
    hide Inv, Enabled, Apply, ThreadsMoved, MoverMoved, ControlsMoved, Owned, KeptBy, Stores, Cloned, OwnOf, PcOf;
    StepMoves(f.s, a);
    MoverThere(f.s, a, Apply(f.s, a));
    if a.StartCreate? { NewControlIsNew(f.s, a); }
    forall u: Tid | u in Next(f, a, value).s.threads ensures KeptBy(Next(f, a, value), u) {
      if u == a.t { MoverKept(f, a, value); } else { OthersKept(f, a, value, u); }
    }
  }

  lemma NewControlIsNew(s: State, a: Action)
    requires Enabled(s, a) && a.StartCreate?
    ensures a.c !in s.controls
  {
  }

  lemma {:induction false} EveryFullRun(fulls: seq<Full>, actions: seq<Action>, values: seq<int>, i: nat)
    requires IsFullRun(fulls, actions, values) && i < |fulls|
    ensures Inv(fulls[i].s) && Owned(fulls[i].s) && Kept(fulls[i])
  {
    if i == 0 {
      Starts(fulls[0]);
    } else {
      hide Inv, Enabled, Apply, Owned, Kept, Initial, Stores;
      EveryFullRun(fulls, actions, values, i - 1);
      var f, a := fulls[i - 1], actions[i - 1];
      assert Enabled(f.s, a) && fulls[i] == Next(f, a, values[i - 1]);
      StepInv(f.s, a);
      StepOwned(f.s, a);
      StepKept(f, a, values[i - 1]);
    }
  }

  lemma Starts(f: Full)
    requires Initial(f.s)
    ensures Inv(f.s) && Owned(f.s) && Kept(f)
  {
    EveryRun([f.s], [], 0);
    hide Inv;
  }

  /** Where thrd_join reads the result, it is the value that the joined thread, which is gone, gave thrd_exit. */
  lemma JoinGivesPassed(fulls: seq<Full>, actions: seq<Action>, values: seq<int>, i: nat, t: Tid) returns (u: Tid)
    requires IsFullRun(fulls, actions, values) && i < |fulls| && PcOf(fulls[i].s, t).ReadResult?
    ensures var f, c := fulls[i], PcOf(fulls[i].s, t).c;
      && OwnOf(f.s, u) == Some(c) && PcOf(f.s, u) == Gone && u in f.passed && c in f.result && f.result[c] == f.passed[u]
  {
    EveryFullRun(fulls, actions, values, i);
    u := Departed(fulls[i].s, t);
  }

  lemma Departed(s: State, t: Tid) returns (u: Tid)
    requires Inv(s) && Owned(s) && PcOf(s, t).ReadResult?
    ensures u in s.threads && OwnOf(s, u) == Some(PcOf(s, t).c) && PcOf(s, u) == Gone
  {
    hide SlotsOk, ByReaper;
    var c := PcOf(s, t).c;
    assert ThreadOk(s, t) && FieldsOk(s.controls[c]);
    u :| u in s.threads && OwnOf(s, u) == Some(c);
    assert ThreadOk(s, u);
  }
}
