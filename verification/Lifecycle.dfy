/** Thread control blocks from `thrd_create` to the last `free`: creation, publication, detach,
    join, exit and the reaper, for any number of threads and any system call failures.
    One step is one critical-section action, atomic operation or system call. */
module Lifecycle {

  type Tid = nat
  type Cid = nat      // a control block; every allocation gets a new name

  const REAPER: Tid := 0

  datatype Option<T> = None | Some(value: T)

  datatype Life = Joinable | Joining | Detached | Reaping

  /** The block's fields, and as history: whether a thread was started on it, how often its stack
      was unmapped and it was freed, who may reclaim it, who will publish it, who runs on it. */
  datatype Control = Control(
    tid: int, clear: int, life: Life, published: bool,
    registered: bool, mapped: bool, started: bool, freed: bool, unmaps: nat, frees: nat,
    claimant: Option<Tid>, publisher: Option<Tid>, runner: Option<Tid>)

  /** Who reclaims: thrd_join, or reap_claimed_control with its `restore_joinable` argument. */
  datatype How = Join | Reap(restoreJoinable: bool)

  datatype Result = Success | Error | NoMemory

  /** `last` is what the last call returned; a creation that fails carries what it will return. */
  datatype Pc =
    | User(last: Result) | Gone | Child
    // thrd_create
    | Map(c: Cid) | Insert(c: Cid) | Clone(c: Cid) | Publish(c: Cid, id: int)
    | Drop(c: Cid, why: Result) | DropUnmap(c: Cid, why: Result) | DropFree(c: Cid, why: Result)
    // thrd_detach
    | Decide(self: bool, thr: int) | EnsureReaper(c: Cid)
    // thrd_join
    | Find(thr: int) | Read(c: Cid) | WaitClear(c: Cid, observed: int) | ReadResult(c: Cid)
    // the common end of join and reap_claimed_control
    | Unmap(c: Cid, how: How) | Remove(c: Cid, how: How) | Free(c: Cid, how: How) | Restore(c: Cid, how: How)
    // reaper_worker
    | Scan | Rescan | Watch(c: Cid, observed: int) | Sleep(event: int)
    // thrd_exit
    | StoreResult | Exit

  /** `queued`: in registry_lock, before the critical section that `pc` names. */
  datatype Thread = Thread(pc: Pc, queued: bool, own: Option<Cid>)

  datatype State = State(threads: map<Tid, Thread>, controls: map<Cid, Control>,
                         lock: Option<Tid>, event: int, reaperStarted: bool)

  /** `ok` is a system call's answer, `pick` the control a search finds, `id` a new thread's name,
      `tid` the kernel's id for it, or its refusal. */
  datatype Action =
    | StartCreate(t: Tid, c: Cid)
    | StartDetach(t: Tid, self: bool, thr: int)
    | StartJoin(t: Tid, self: bool, thr: int)
    | StartExit(t: Tid)
    | Acquire(t: Tid)
    | Step(t: Tid, ok: bool, pick: Option<Cid>, id: Tid, tid: int)

  // ----- Steps

  function PcOf(s: State, t: Tid): Pc { if t in s.threads then s.threads[t].pc else Gone }

  predicate Queued(s: State, t: Tid) { t in s.threads && s.threads[t].queued }

  function OwnOf(s: State, t: Tid): Option<Cid> { if t in s.threads then s.threads[t].own else None }

  /** The control a program point works on. */
  function Subject(p: Pc): Option<Cid> {
    match p
    case Map(c) => Some(c) case Insert(c) => Some(c) case Clone(c) => Some(c) case Publish(c, _) => Some(c)
    case Drop(c, _) => Some(c) case DropUnmap(c, _) => Some(c) case DropFree(c, _) => Some(c) case EnsureReaper(c) => Some(c)
    case Read(c) => Some(c) case WaitClear(c, _) => Some(c) case ReadResult(c) => Some(c)
    case Unmap(c, _) => Some(c) case Remove(c, _) => Some(c) case Free(c, _) => Some(c) case Restore(c, _) => Some(c)
    case Watch(c, _) => Some(c)
    case _ => None
  }

  /** The program points inside the registry lock. */
  predicate Critical(p: Pc) {
    p.Insert? || p.Publish? || p.Drop? || p.Decide? || p.EnsureReaper? || p.Find? || p.Remove? || p.Restore?
    || p.Scan? || p.Rescan?
  }

  predicate Reclaims(p: Pc) {
    p.Read? || p.WaitClear? || p.Unmap? || p.ReadResult? || p.Remove? || p.Free? || p.Restore? || p.Watch?
  }

  /** find_control_locked can return c. */
  predicate Found(s: State, thr: int, c: Cid) {
    c in s.controls && s.controls[c].registered && s.controls[c].published && s.controls[c].tid == thr
  }

  predicate Searched(s: State, thr: int, pick: Option<Cid>) {
    match pick
    case Some(c) => Found(s, thr, c)
    case None => forall c :: c in s.controls ==> !Found(s, thr, c)
  }

  predicate Reapable(k: Control, cleared: bool) {
    k.registered && k.published && k.life == Detached && (cleared ==> k.clear == 0)
  }

  /** find_reapable_locked (cleared) and find_detached_locked. */
  predicate PickedDetached(s: State, pick: Option<Cid>, cleared: bool) {
    match pick
    case Some(c) => c in s.controls && Reapable(s.controls[c], cleared)
    case None => forall c :: c in s.controls ==> !Reapable(s.controls[c], cleared)
  }

  predicate Enabled(s: State, a: Action) {
    match a
    case StartCreate(t, c) => PcOf(s, t).User? && c !in s.controls
    case StartDetach(t, self, _) => PcOf(s, t).User? && (self ==> OwnOf(s, t).Some?)
    case StartJoin(t, _, _) => PcOf(s, t).User?
    case StartExit(t) => PcOf(s, t).User?
    case Acquire(t) => Queued(s, t) && s.lock == None
    case Step(t, _, _, _, _) =>
      !Queued(s, t) && !PcOf(s, t).User? && PcOf(s, t) != Gone && AnswersFit(s, a)
      && (Subject(PcOf(s, t)).Some? ==> Subject(PcOf(s, t)).value in s.controls)
      && (OwnOf(s, t).Some? ==> OwnOf(s, t).value in s.controls)
  }

  /** What the kernel and the searches may answer. */
  predicate AnswersFit(s: State, a: Action)
    requires a.Step?
  {
    match PcOf(s, a.t)
    case Child => OwnOf(s, a.t).Some? && a.tid != 0
    case Clone(_) => a.ok ==> a.id !in s.threads && a.id != REAPER && a.tid != 0
    case Decide(self, thr) => if self then a.pick == OwnOf(s, a.t) && a.pick.Some? && a.pick.value in s.controls else Searched(s, thr, a.pick)
    case Find(thr) => Searched(s, thr, a.pick)
    case Scan => PickedDetached(s, a.pick, true)
    case Rescan => PickedDetached(s, a.pick, false)
    case _ => true
  }

  /** Thread t goes on at p, through the lock if p is in a critical section it is not in yet. */
  function Go(s: State, t: Tid, p: Pc): State
  {
    s.(threads := s.threads[t := Thread(p, Critical(p) && s.lock != Some(t), OwnOf(s, t))])
  }

  function Put(s: State, c: Cid, k: Control): State { s.(controls := s.controls[c := k]) }

  /** Leaves the critical section and goes on at p. */
  function Leave(s: State, t: Tid, p: Pc): State { Go(s.(lock := None), t, p) }

  /** Where a finished reclaim returns to. */
  function Back(t: Tid, r: Result): Pc { if t == REAPER then Scan else User(r) }

  const ENOMEM_ANSWER := -12

  function NewControl(t: Tid): Control {
    Control(0, -1, Joinable, false, false, false, false, false, 0, 0, Some(t), None, None)
  }

  /** The stack is unmapped; the history counts it. */
  function Unmapped(k: Control): Control {
    k.(mapped := false, unmaps := k.unmaps + 1)
  }

  function Freed(k: Control): Control {
    k.(freed := true, frees := k.frees + 1, claimant := None)
  }

  /** Creation: the control belongs to its creator until the clone. */
  function CreateStep(s: State, a: Action): State
    requires a.Step? && Enabled(s, a) && Subject(PcOf(s, a.t)).Some?
  {
    var t, p, c := a.t, PcOf(s, a.t), Subject(PcOf(s, a.t)).value;
    var k := s.controls[c];
    match p
    case Map(_) => if a.ok then Go(Put(s, c, k.(mapped := true)), t, Insert(c)) else Go(s, t, DropFree(c, NoMemory))
    case Insert(_) => Leave(Put(s, c, k.(registered := true)), t, Clone(c))
    case Clone(_) =>
      if a.ok then
        var n := Go(Put(s, c, k.(started := true, claimant := None, publisher := Some(t), runner := Some(a.id))), t, Publish(c, a.tid));
        n.(threads := n.threads[a.id := Thread(Child, false, Some(c))])
      else Go(s, t, Drop(c, if a.tid == ENOMEM_ANSWER then NoMemory else Error))
    case Publish(_, id) =>
      Leave(Put(s, c, k.(tid := id, published := true, publisher := None)), t, User(Success))
        .(event := if k.life == Detached then s.event + 1 else s.event)
    case Drop(_, why) => Leave(Put(s, c, k.(registered := false)), t, DropUnmap(c, why))
    case DropUnmap(_, why) => Go(if a.ok then Put(s, c, Unmapped(k)) else s, t, DropFree(c, why))
    case DropFree(_, why) => Go(Put(s, c, Freed(k)), t, User(why))
    case _ => s
  }

  /** Reclaiming, by a joiner, a detaching thread or the reaper. */
  function ReclaimStep(s: State, a: Action): State
    requires a.Step? && Enabled(s, a) && Subject(PcOf(s, a.t)).Some?
  {
    var t, p, c := a.t, PcOf(s, a.t), Subject(PcOf(s, a.t)).value;
    var k := s.controls[c];
    match p
    case Read(_) => Go(s, t, if k.clear == 0 then Unmap(c, Join) else WaitClear(c, k.clear))
    case WaitClear(_, _) => Go(s, t, if a.ok then Read(c) else Restore(c, Join))
    case Unmap(_, how) =>
      if !a.ok then Go(s, t, Restore(c, how))
      else Go(Put(s, c, Unmapped(k)), t, if how == Join then ReadResult(c) else Remove(c, how))
    case ReadResult(_) => Go(s, t, Remove(c, Join))
    case Remove(_, how) => Leave(Put(s, c, k.(registered := false)), t, Free(c, how))
    case Free(_, _) => Go(Put(s, c, Freed(k)), t, Back(t, Success))
    case Restore(_, how) =>
      Leave(Put(s, c, k.(life := if how == Reap(false) then Detached else Joinable, claimant := None)), t, Back(t, Error))
        .(event := if how == Reap(false) then s.event + 1 else s.event)
    case Watch(_, _) => Go(s, t, Scan)
    case _ => s
  }

  /** thrd_detach has the registry lock and a control. */
  function DecideStep(s: State, t: Tid, pick: Option<Cid>): State
    requires pick.Some? ==> pick.value in s.controls
  {
    if pick == None || s.controls[pick.value].life != Joinable then Leave(s, t, User(Error))
    else
      var c, k := pick.value, s.controls[pick.value];
      if k.clear == 0 && k.published then Leave(Claimed(s, c, Reaping, t), t, Unmap(c, Reap(true)))
      else Go(s, t, EnsureReaper(c))
  }

  function Claimed(s: State, c: Cid, life: Life, t: Tid): State
    requires c in s.controls
  {
    Put(s, c, s.controls[c].(life := life, claimant := Some(t)))
  }

  function EnsureStep(s: State, t: Tid, c: Cid, ok: bool): State
    requires c in s.controls
  {
    if !ok && !s.reaperStarted then Leave(s, t, User(Error))
    else
      var k := s.controls[c];
      var n := Leave(Put(s, c, k.(life := Detached)), t, User(Success))
        .(event := if k.published then s.event + 1 else s.event, reaperStarted := true);
      if s.reaperStarted then n else n.(threads := n.threads[REAPER := Thread(Scan, true, None)])
  }

  /** The steps whose control, if any, is found by a search or is the thread's own. */
  function SearchStep(s: State, a: Action): State
    requires a.Step? && Enabled(s, a)
  {
    var t, p, pick := a.t, PcOf(s, a.t), a.pick;
    if p.Decide? then DecideStep(s, t, pick)
    else if p.Find? then
      if pick == None || s.controls[pick.value].life != Joinable then Leave(s, t, User(Error))
      else Leave(Claimed(s, pick.value, Joining, t), t, Read(pick.value))
    else if p.Scan? then
      if pick == None then Go(s, t, Rescan)
      else Leave(Claimed(s, pick.value, Reaping, t), t, Unmap(pick.value, Reap(false)))
    else if p.Rescan? then
      Leave(s, t, if pick.Some? && s.controls[pick.value].clear != 0
                  then Watch(pick.value, s.controls[pick.value].clear) else Sleep(s.event))
    else if p.Child? then
      var c := OwnOf(s, t).value;
      Go(Put(s, c, s.controls[c].(clear := a.tid)), t, User(Success))
    else if p.StoreResult? then Go(s, t, Exit)
    else if p.Exit? then
      if OwnOf(s, t) == None then Go(s, t, Gone)
      else
        var c := OwnOf(s, t).value;
        Go(Put(s, c, s.controls[c].(clear := 0, runner := None)), t, Gone)
    else Go(s, t, Scan)
  }

  function Apply(s: State, a: Action): State
    requires Enabled(s, a)
  {
    match a
    case StartCreate(t, c) => Go(Put(s, c, NewControl(t)), t, Map(c))
    case StartDetach(t, self, thr) => Go(s, t, Decide(self, thr))
    case StartJoin(t, self, thr) => Go(s, t, if self then User(Error) else Find(thr))
    case StartExit(t) => Go(s, t, if OwnOf(s, t).Some? then StoreResult else Exit)
    case Acquire(t) => s.(threads := s.threads[t := s.threads[t].(queued := false)], lock := Some(t))
    case Step(t, ok, _, _, _) =>
      var p := PcOf(s, t);
      if p.EnsureReaper? then EnsureStep(s, t, p.c, ok)
      else if Subject(p) == None then SearchStep(s, a)
      else if Reclaims(p) then ReclaimStep(s, a)
      else CreateStep(s, a)
  }

  predicate Initial(s: State) {
    s.controls == map[] && s.lock == None && !s.reaperStarted && REAPER !in s.threads
    && forall t :: t in s.threads ==> s.threads[t] == Thread(User(Success), false, None)
  }

  ghost predicate IsRun(states: seq<State>, actions: seq<Action>) {
    && |states| == |actions| + 1 && Initial(states[0])
    && forall i :: 0 <= i < |actions| ==> Enabled(states[i], actions[i]) && states[i + 1] == Apply(states[i], actions[i])
  }

  // ----- The invariant

  /** What a program point entitles its thread to, as regards its subject. */
  datatype Stage =
    | Nothing
    | Building(registered: bool, mapped: bool)
    | Ending                                       // a failed creation about to free
    | Publishing
    | Deciding
    | Claiming(life: Life, registered: bool, mapped: bool, quiet: bool)
    | Watching

  function LifeOf(how: How): Life { if how == Join then Joining else Reaping }

  function StageOf(p: Pc): Stage {
    match p
    case Map(_) => Building(false, false)
    case Insert(_) => Building(false, true)
    case Clone(_) => Building(true, true)
    case Drop(_, _) => Building(true, true)
    case DropUnmap(_, _) => Building(false, true)
    case DropFree(_, _) => Ending
    case Publish(_, _) => Publishing
    case EnsureReaper(_) => Deciding
    case Read(_) => Claiming(Joining, true, true, false)
    case WaitClear(_, _) => Claiming(Joining, true, true, false)
    case ReadResult(_) => Claiming(Joining, true, false, true)
    case Unmap(_, how) => Claiming(LifeOf(how), true, true, true)
    case Remove(_, how) => Claiming(LifeOf(how), true, false, true)
    case Free(_, how) => Claiming(LifeOf(how), false, false, true)
    case Restore(_, how) => Claiming(LifeOf(how), true, true, false)
    case Watch(_, _) => Watching
    case _ => Nothing
  }

  predicate StageOk(u: Tid, g: Stage, k: Control) {
    match g
    case Nothing => true
    case Building(registered, mapped) =>
      k.claimant == Some(u) && !k.started && !k.published && !k.freed && k.registered == registered && k.mapped == mapped
      && k.life == Joinable && k.unmaps == 0
    case Ending => k.claimant == Some(u) && !k.started && !k.published && !k.freed && !k.registered
    case Publishing => k.publisher == Some(u) && k.started && !k.published && !k.freed
    case Deciding => k.registered && k.life == Joinable && k.claimant == None && k.started
    case Claiming(life, registered, mapped, quiet) =>
      k.claimant == Some(u) && k.published && k.started && !k.freed && k.life == life
      && k.registered == registered && k.mapped == mapped && (quiet ==> k.clear == 0)
    case Watching => u == REAPER && k.registered && k.published && k.life == Detached && k.claimant == None
  }

  /** What is true of a control on its own. */
  predicate FieldsOk(k: Control) {
    && k.frees == (if k.freed then 1 else 0) && k.unmaps <= 1 && (k.mapped ==> k.unmaps == 0)
    && (k.freed ==> !k.registered && k.claimant == None && k.publisher == None && k.runner == None)
    && (k.started ==> (k.mapped <==> k.unmaps == 0)) && (k.freed && k.started ==> !k.mapped)
    && (k.published ==> k.started && k.publisher == None)
    && (k.started && !k.published ==> k.claimant == None && k.publisher.Some? && k.registered && k.mapped)
    && (!k.started ==> k.runner == None && k.publisher == None && k.clear == -1)
    && (k.started ==> (k.runner.Some? <==> k.clear != 0))
    && (k.runner.Some? ==> k.registered && k.mapped && !k.freed)
    && (k.life == Joining || k.life == Reaping ==> k.published && (k.freed || k.claimant.Some?))
    && (k.published && (k.life == Joinable || k.life == Detached) ==> k.claimant == None && k.registered && k.mapped)
  }

  predicate Claims(g: Stage) { g.Building? || g.Ending? || g.Claiming? }

  /** The history slots name threads that are where they should be. */
  predicate SlotsOk(s: State, c: Cid)
    requires c in s.controls
  {
    var k := s.controls[c];
    && (k.claimant.Some? ==> var u := k.claimant.value; Subject(PcOf(s, u)) == Some(c) && Claims(StageOf(PcOf(s, u))))
    && (k.publisher.Some? ==> var u := k.publisher.value; Subject(PcOf(s, u)) == Some(c) && StageOf(PcOf(s, u)).Publishing?)
    && (k.runner.Some? ==> var u := k.runner.value; OwnOf(s, u) == Some(c) && PcOf(s, u) != Gone)
  }

  predicate ByReaper(p: Pc) {
    || p.Scan? || p.Rescan? || p.Watch? || p.Sleep?
    || ((p.Unmap? || p.Remove? || p.Free? || p.Restore?) && p.how == Reap(false))
  }

  /** The program points that use the thread's own control. */
  predicate NeedsOwn(p: Pc) { p.Child? || p.StoreResult? || (p.Decide? && p.self) }

  predicate ThreadOk(s: State, t: Tid) {
    var p := PcOf(s, t);
    && (Queued(s, t) ==> Critical(p)) && (Critical(p) && !Queued(s, t) <==> s.lock == Some(t)) && (p.EnsureReaper? || p.Rescan? ==> !Queued(s, t))
    && (Subject(p).Some? ==> Subject(p).value in s.controls && StageOk(t, StageOf(p), s.controls[Subject(p).value]))
    && (OwnOf(s, t).Some? && p != Gone ==> OwnOf(s, t).value in s.controls && s.controls[OwnOf(s, t).value].runner == Some(t))
    && (NeedsOwn(p) ==> OwnOf(s, t).Some?)
    && (t == REAPER && t in s.threads <==> ByReaper(p))
    && (t == REAPER && t in s.threads ==> s.reaperStarted && OwnOf(s, t) == None)
  }

  ghost predicate Inv(s: State) {
    && (forall t :: ThreadOk(s, t))
    && (forall c :: c in s.controls ==> FieldsOk(s.controls[c]) && SlotsOk(s, c))
    && (s.reaperStarted <==> REAPER in s.threads)
  }

  // ----- Every step keeps the invariant

  /** What a step that changes control c and the threads in `moved` leaves as it was. */
  ghost predicate Frame(s: State, n: State, moved: set<Tid>, c: Cid) {
    && (forall u: Tid :: u !in moved ==> PcOf(n, u) == PcOf(s, u) && OwnOf(n, u) == OwnOf(s, u))
    && (forall u: Tid :: u !in moved ==> (s.lock == Some(u) <==> n.lock == Some(u)) && (u in s.threads <==> u in n.threads) && Queued(n, u) == Queued(s, u))
    && (forall d :: d in n.controls <==> d in s.controls || d == c)
    && (forall d :: d in s.controls && d != c ==> n.controls[d] == s.controls[d])
    && (s.reaperStarted ==> n.reaperStarted) && (n.reaperStarted <==> REAPER in n.threads)
  }

  /** What the change of c must respect for a thread that did not move. */
  ghost predicate Respects(s: State, u: Tid, c: Cid, k: Control) {
    && (Subject(PcOf(s, u)) == Some(c) ==> StageOk(u, StageOf(PcOf(s, u)), k))
    && (OwnOf(s, u) == Some(c) && PcOf(s, u) != Gone ==> k.runner == Some(u))
  }

  /** A moved thread had no stake in any control but c, and keeps running if it runs on another. */
  predicate Stakes(s: State, n: State, u: Tid, c: Cid) {
    && (Subject(PcOf(s, u)) == None || Subject(PcOf(s, u)) == Some(c) || StageOf(PcOf(s, u)) == Watching)
    && (PcOf(s, u) != Gone ==> OwnOf(n, u) == OwnOf(s, u) && (PcOf(n, u) == Gone ==> OwnOf(s, u) == None || OwnOf(s, u) == Some(c)))
  }

  lemma Update(s: State, n: State, moved: set<Tid>, c: Cid)
    requires Inv(s) && Frame(s, n, moved, c)
    requires forall u: Tid :: u !in moved ==> Respects(s, u, c, n.controls[c])
    requires forall u: Tid :: u in moved ==> Stakes(s, n, u, c) && ThreadOk(n, u)
    requires FieldsOk(n.controls[c]) && SlotsOk(n, c)
    ensures Inv(n)
  {
    hide FieldsOk, StageOk, StageOf, ByReaper, Subject, Critical;
    forall u: Tid ensures ThreadOk(n, u) {
      if u !in moved { assert ThreadOk(s, u) && Respects(s, u, c, n.controls[c]); }
    }
    forall d | d in n.controls ensures FieldsOk(n.controls[d]) && SlotsOk(n, d) {
      if d != c { KeepSlots(s, n, moved, c, d); }
    }
  }

  lemma KeepSlots(s: State, n: State, moved: set<Tid>, c: Cid, d: Cid)
    requires Inv(s) && Frame(s, n, moved, c) && d in s.controls && d != c
    requires forall u: Tid :: u in moved ==> Stakes(s, n, u, c)
    ensures SlotsOk(n, d)
  {
    hide FieldsOk, StageOk, ByReaper, Critical;
    assert SlotsOk(s, d);
    var k := s.controls[d];
    if k.claimant.Some? { assert k.claimant.value !in moved; }
    if k.publisher.Some? { assert k.publisher.value !in moved; }
    if k.runner.Some? && k.runner.value in moved { assert Stakes(s, n, k.runner.value, c); }
  }

  /** A step that changes no control. */
  lemma Quiet(s: State, n: State, t: Tid)
    requires Inv(s) && t in s.threads && Moves(s, n, t) && n.controls == s.controls
    requires ThreadOk(n, t) && (PcOf(n, t) == Gone ==> OwnOf(s, t) == None)
    requires KeepsStake(PcOf(s, t), PcOf(n, t))
    ensures Inv(n)
  {
    hide FieldsOk, StageOk, StageOf, ByReaper, Subject, Critical, NeedsOwn;
    assert ThreadOk(s, t);
    forall u: Tid ensures ThreadOk(n, u) {
      if u != t { assert ThreadOk(s, u); }
    }
    forall d | d in n.controls ensures SlotsOk(n, d) { assert SlotsOk(s, d); }
  }

  /** Thread t alone moves, and the lock is taken or released by it if at all. */
  predicate Moves(s: State, n: State, t: Tid) {
    && t in n.threads && n.threads == s.threads[t := n.threads[t]] && OwnOf(n, t) == OwnOf(s, t) && n.reaperStarted == s.reaperStarted
    && (n.lock == s.lock || (s.lock == None && n.lock == Some(t)) || (s.lock == Some(t) && n.lock == None))
  }

  predicate KeepsStake(p: Pc, q: Pc) {
    && (Claims(StageOf(p)) ==> Subject(q) == Subject(p) && Claims(StageOf(q)))
    && (StageOf(p).Publishing? ==> Subject(q) == Subject(p) && StageOf(q).Publishing?)
  }

  // Which of the steps an action is.

  lemma ReclaimApplies(s: State, a: Action)
    requires Enabled(s, a) && a.Step? && Reclaims(PcOf(s, a.t))
    ensures Apply(s, a) == ReclaimStep(s, a) && a.t in s.threads && !Queued(s, a.t)
  {
    hide AnswersFit, SearchStep, CreateStep, EnsureStep, ReclaimStep;
  }

  lemma CreateApplies(s: State, a: Action)
    requires Enabled(s, a) && a.Step? && Subject(PcOf(s, a.t)).Some? && !Reclaims(PcOf(s, a.t)) && !PcOf(s, a.t).EnsureReaper?
    ensures Apply(s, a) == CreateStep(s, a) && a.t in s.threads && !Queued(s, a.t) && AnswersFit(s, a)
  {
    hide AnswersFit, SearchStep, ReclaimStep, EnsureStep, CreateStep;
  }

  lemma SearchApplies(s: State, a: Action)
    requires Enabled(s, a) && a.Step? && Subject(PcOf(s, a.t)) == None
    ensures Apply(s, a) == SearchStep(s, a) && a.t in s.threads && !Queued(s, a.t) && AnswersFit(s, a)
  {
    hide AnswersFit, ReclaimStep, CreateStep, EnsureStep, SearchStep;
  }

  lemma SubjectsThere(s: State, a: Action)
    requires Enabled(s, a) && a.Step?
    ensures Subject(PcOf(s, a.t)).Some? ==> Subject(PcOf(s, a.t)).value in s.controls
    ensures OwnOf(s, a.t).Some? ==> OwnOf(s, a.t).value in s.controls
  {
    hide AnswersFit;
  }

  lemma EnsureApplies(s: State, a: Action)
    requires Enabled(s, a) && a.Step? && PcOf(s, a.t).EnsureReaper?
    ensures PcOf(s, a.t).c in s.controls && a.t in s.threads && !Queued(s, a.t)
    ensures Apply(s, a) == EnsureStep(s, a.t, PcOf(s, a.t).c, a.ok)
  {
    hide AnswersFit, ReclaimStep, CreateStep, SearchStep, EnsureStep;
  }

  /** Where a call begins. */
  function BeginPc(s: State, a: Action): Pc
    requires a.StartDetach? || a.StartJoin? || a.StartExit?
  {
    match a
    case StartDetach(_, self, thr) => Decide(self, thr)
    case StartJoin(_, self, thr) => if self then User(Error) else Find(thr)
    case StartExit(t) => if OwnOf(s, t).Some? then StoreResult else Exit
  }

  lemma BeginApplies(s: State, a: Action)
    requires Enabled(s, a) && (a.StartDetach? || a.StartJoin? || a.StartExit?)
    ensures Apply(s, a) == Go(s, a.t, BeginPc(s, a)) && a.t in s.threads && PcOf(s, a.t).User?
    ensures a.StartDetach? && a.self ==> OwnOf(s, a.t).Some?
  {
    hide Go;
  }

  lemma BeginStep(s: State, a: Action)
    requires Inv(s) && Enabled(s, a) && (a.StartDetach? || a.StartJoin? || a.StartExit?)
    ensures Inv(Apply(s, a))
  {
    hide Apply, Enabled, FieldsOk, SlotsOk, StageOk;
    BeginApplies(s, a);
    assert ThreadOk(s, a.t);
    Quiet(s, Apply(s, a), a.t);
  }

  lemma AcquireStep(s: State, t: Tid)
    requires Inv(s) && Enabled(s, Acquire(t))
    ensures Inv(Apply(s, Acquire(t)))
  {
    hide FieldsOk, SlotsOk, StageOk, StageOf, ByReaper, Subject, NeedsOwn;
    assert ThreadOk(s, t);
    Quiet(s, Apply(s, Acquire(t)), t);
  }

  // Steps on a control that leave it as it is: reads, waits, refused system calls.

  lemma ReadStep(s: State, a: Action)
    requires Inv(s) && Enabled(s, a) && a.Step? && PcOf(s, a.t).Read?
    ensures Inv(Apply(s, a))
  {
    hide Apply, Enabled, SlotsOk;
    ReclaimApplies(s, a);
    assert ThreadOk(s, a.t);
    assert FieldsOk(s.controls[PcOf(s, a.t).c]);
    Quiet(s, Apply(s, a), a.t);
  }

  lemma ReadResultStep(s: State, a: Action)
    requires Inv(s) && Enabled(s, a) && a.Step? && PcOf(s, a.t).ReadResult?
    ensures Inv(Apply(s, a))
  {
    hide Apply, Enabled, SlotsOk;
    ReclaimApplies(s, a);
    assert ThreadOk(s, a.t);
    assert FieldsOk(s.controls[PcOf(s, a.t).c]);
    Quiet(s, Apply(s, a), a.t);
  }

  lemma WaitOwn(s: State, a: Action)
    requires Inv(s) && Enabled(s, a) && a.Step? && PcOf(s, a.t).WaitClear?
    ensures var n := Apply(s, a); ThreadOk(n, a.t) && Moves(s, n, a.t) && n.controls == s.controls && a.t in s.threads
    ensures PcOf(Apply(s, a), a.t) == (if a.ok then Read(PcOf(s, a.t).c) else Restore(PcOf(s, a.t).c, Join))
  {
    hide Apply, Enabled, SlotsOk;
    ReclaimApplies(s, a);
    assert ThreadOk(s, a.t);
    assert FieldsOk(s.controls[PcOf(s, a.t).c]);
  }

  lemma WaitStep(s: State, a: Action)
    requires Inv(s) && Enabled(s, a) && a.Step? && PcOf(s, a.t).WaitClear?
    ensures Inv(Apply(s, a))
  {
    WaitOwn(s, a);
    hide Inv, Enabled, Apply, ThreadOk, Moves;
    Quiet(s, Apply(s, a), a.t);
  }

  lemma WatchStep(s: State, a: Action)
    requires Inv(s) && Enabled(s, a) && a.Step? && PcOf(s, a.t).Watch?
    ensures Inv(Apply(s, a))
  {
    hide Apply, Enabled, SlotsOk;
    ReclaimApplies(s, a);
    assert ThreadOk(s, a.t);
    assert FieldsOk(s.controls[PcOf(s, a.t).c]);
    Quiet(s, Apply(s, a), a.t);
  }

  lemma NoMapping(s: State, a: Action)
    requires Inv(s) && Enabled(s, a) && a.Step? && !a.ok && PcOf(s, a.t).Map?
    ensures Inv(Apply(s, a))
  {
    hide Apply, Enabled, SlotsOk;
    CreateApplies(s, a);
    assert ThreadOk(s, a.t);
    assert FieldsOk(s.controls[PcOf(s, a.t).c]);
    Quiet(s, Apply(s, a), a.t);
  }

  lemma NoClone(s: State, a: Action)
    requires Inv(s) && Enabled(s, a) && a.Step? && !a.ok && PcOf(s, a.t).Clone?
    ensures Inv(Apply(s, a))
  {
    hide Apply, Enabled, SlotsOk;
    CreateApplies(s, a);
    assert ThreadOk(s, a.t);
    assert FieldsOk(s.controls[PcOf(s, a.t).c]);
    Quiet(s, Apply(s, a), a.t);
  }

  lemma NoUnmap(s: State, a: Action)
    requires Inv(s) && Enabled(s, a) && a.Step? && !a.ok && PcOf(s, a.t).Unmap?
    ensures Inv(Apply(s, a))
  {
    hide Apply, Enabled, SlotsOk;
    ReclaimApplies(s, a);
    assert ThreadOk(s, a.t);
    assert FieldsOk(s.controls[PcOf(s, a.t).c]);
    Quiet(s, Apply(s, a), a.t);
  }

  lemma NoDropUnmap(s: State, a: Action)
    requires Inv(s) && Enabled(s, a) && a.Step? && !a.ok && PcOf(s, a.t).DropUnmap?
    ensures Inv(Apply(s, a))
  {
    hide Apply, Enabled, SlotsOk;
    CreateApplies(s, a);
    assert ThreadOk(s, a.t);
    assert FieldsOk(s.controls[PcOf(s, a.t).c]);
    Quiet(s, Apply(s, a), a.t);
  }

  // Searches that claim nothing, the reaper's naps, and the end of a thread without a control.

  lemma NapStep(s: State, a: Action)
    requires Inv(s) && Enabled(s, a) && a.Step? && PcOf(s, a.t).Sleep?
    ensures Inv(Apply(s, a))
  {
    hide Apply, Enabled, SlotsOk;
    SearchApplies(s, a);
    assert ThreadOk(s, a.t);
    Quiet(s, Apply(s, a), a.t);
  }

  lemma StoreStep(s: State, a: Action)
    requires Inv(s) && Enabled(s, a) && a.Step? && PcOf(s, a.t).StoreResult?
    ensures Inv(Apply(s, a))
  {
    hide Apply, Enabled, SlotsOk;
    SearchApplies(s, a);
    assert ThreadOk(s, a.t);
    Quiet(s, Apply(s, a), a.t);
  }

  lemma ExitWithout(s: State, a: Action)
    requires Inv(s) && Enabled(s, a) && a.Step? && PcOf(s, a.t).Exit? && OwnOf(s, a.t) == None
    ensures Inv(Apply(s, a))
  {
    hide Apply, Enabled, SlotsOk;
    SearchApplies(s, a);
    assert ThreadOk(s, a.t);
    Quiet(s, Apply(s, a), a.t);
  }

  lemma ScanEmpty(s: State, a: Action)
    requires Inv(s) && Enabled(s, a) && a.Step? && PcOf(s, a.t).Scan? && a.pick == None
    ensures Inv(Apply(s, a))
  {
    hide Apply, Enabled, SlotsOk;
    SearchApplies(s, a);
    assert ThreadOk(s, a.t);
    Quiet(s, Apply(s, a), a.t);
  }

  lemma RescanStep(s: State, a: Action)
    requires Inv(s) && Enabled(s, a) && a.Step? && PcOf(s, a.t).Rescan?
    ensures Inv(Apply(s, a))
  {
    hide Apply, Enabled, SlotsOk;
    SearchApplies(s, a);
    assert ThreadOk(s, a.t);
    if a.pick.Some? { assert FieldsOk(s.controls[a.pick.value]); }
    Quiet(s, Apply(s, a), a.t);
  }

  lemma RefuseStep(s: State, a: Action)
    requires Inv(s) && Enabled(s, a) && a.Step?
    requires ((PcOf(s, a.t).Find? || PcOf(s, a.t).Decide?) && (a.pick == None || s.controls[a.pick.value].life != Joinable))
      || (PcOf(s, a.t).EnsureReaper? && !a.ok && !s.reaperStarted)
    ensures Inv(Apply(s, a))
  {
    hide SlotsOk, FieldsOk;
    assert ThreadOk(s, a.t);
    Quiet(s, Apply(s, a), a.t);
  }

  lemma DecideLater(s: State, a: Action)
    requires Inv(s) && Enabled(s, a) && a.Step? && PcOf(s, a.t).Decide?
    requires a.pick.Some? && s.controls[a.pick.value].life == Joinable
    requires !(s.controls[a.pick.value].clear == 0 && s.controls[a.pick.value].published)
    ensures Inv(Apply(s, a))
  {
    hide Apply, Enabled, SlotsOk;
    SearchApplies(s, a);
    assert ThreadOk(s, a.t) && FieldsOk(s.controls[a.pick.value]);
    Quiet(s, Apply(s, a), a.t);
  }

  /** Whoever may reclaim or will publish a control is alone with it. */
  lemma Alone(s: State, t: Tid, c: Cid, u: Tid)
    requires Inv(s) && u != t && Subject(PcOf(s, t)) == Some(c)
    requires Claims(StageOf(PcOf(s, t))) || (StageOf(PcOf(s, t)).Publishing? && s.lock == Some(t))
    ensures Subject(PcOf(s, u)) != Some(c)
  {
    assert ThreadOk(s, t) && ThreadOk(s, u) && FieldsOk(s.controls[c]);
  }

  /** Steps on the control of the thread's program point: it suffices to look at the two. */
  lemma Close(s: State, n: State, t: Tid, c: Cid)
    requires Inv(s) && Subject(PcOf(s, t)) == Some(c)
    requires Claims(StageOf(PcOf(s, t))) || (StageOf(PcOf(s, t)).Publishing? && s.lock == Some(t))
    requires t in s.threads && Moves(s, n, t) && c in s.controls && c in n.controls && n.controls == s.controls[c := n.controls[c]]
    requires n.controls[c].runner == s.controls[c].runner && FieldsOk(n.controls[c])
    requires ThreadOk(n, t) && PcOf(n, t) != Gone && PlacedSlots(n, c, t)
    ensures Inv(n)
  {
    hide StageOk, FieldsOk, ByReaper, Critical, NeedsOwn, StageOf;
    assert ThreadOk(s, t);
    forall u: Tid | u != t ensures Respects(s, u, c, n.controls[c]) && u != t {
      assert ThreadOk(s, u);
      Alone(s, t, c, u);
    }
    assert SlotsOk(n, c) by { assert SlotsOk(s, c); }
    Update(s, n, {t}, c);
  }

  /** The slots of c other than the runner, when only t works on c. */
  predicate PlacedSlots(n: State, c: Cid, t: Tid)
    requires c in n.controls
  {
    var k, p := n.controls[c], PcOf(n, t);
    && (k.claimant.Some? ==> k.claimant.value == t && Subject(p) == Some(c) && Claims(StageOf(p)))
    && (k.publisher.Some? ==> k.publisher.value == t && Subject(p) == Some(c) && StageOf(p).Publishing?)
  }

  lemma MapStep(s: State, a: Action)
    requires Inv(s) && Enabled(s, a) && a.Step? && a.ok && PcOf(s, a.t).Map?
    ensures Inv(Apply(s, a))
  {
    hide Apply, Enabled, SlotsOk, Respects;
    CreateApplies(s, a);
    var c := PcOf(s, a.t).c;
    assert ThreadOk(s, a.t) && FieldsOk(s.controls[c]);
    Close(s, Apply(s, a), a.t, c);
  }

  lemma DropUnmapStep(s: State, a: Action)
    requires Inv(s) && Enabled(s, a) && a.Step? && a.ok && PcOf(s, a.t).DropUnmap?
    ensures Inv(Apply(s, a))
  {
    hide Apply, Enabled, SlotsOk, Respects;
    CreateApplies(s, a);
    var c := PcOf(s, a.t).c;
    assert ThreadOk(s, a.t) && FieldsOk(s.controls[c]);
    Close(s, Apply(s, a), a.t, c);
  }

  lemma UnmapStep(s: State, a: Action)
    requires Inv(s) && Enabled(s, a) && a.Step? && a.ok && PcOf(s, a.t).Unmap?
    ensures Inv(Apply(s, a))
  {
    hide Apply, Enabled, SlotsOk, Respects;
    ReclaimApplies(s, a);
    var c := PcOf(s, a.t).c;
    assert ThreadOk(s, a.t) && FieldsOk(s.controls[c]);
    Close(s, Apply(s, a), a.t, c);
  }

  lemma InsertStep(s: State, a: Action)
    requires Inv(s) && Enabled(s, a) && a.Step? && PcOf(s, a.t).Insert?
    ensures Inv(Apply(s, a))
  {
    hide Apply, Enabled, SlotsOk, Respects;
    CreateApplies(s, a);
    var c := PcOf(s, a.t).c;
    assert ThreadOk(s, a.t) && FieldsOk(s.controls[c]);
    Close(s, Apply(s, a), a.t, c);
  }

  lemma DropStep(s: State, a: Action)
    requires Inv(s) && Enabled(s, a) && a.Step? && PcOf(s, a.t).Drop?
    ensures Inv(Apply(s, a))
  {
    hide Apply, Enabled, SlotsOk, Respects;
    CreateApplies(s, a);
    var c := PcOf(s, a.t).c;
    assert ThreadOk(s, a.t) && FieldsOk(s.controls[c]);
    Close(s, Apply(s, a), a.t, c);
  }

  lemma RemoveStep(s: State, a: Action)
    requires Inv(s) && Enabled(s, a) && a.Step? && PcOf(s, a.t).Remove?
    ensures Inv(Apply(s, a))
  {
    hide Apply, Enabled, SlotsOk, Respects;
    ReclaimApplies(s, a);
    var c := PcOf(s, a.t).c;
    assert ThreadOk(s, a.t) && FieldsOk(s.controls[c]);
    Close(s, Apply(s, a), a.t, c);
  }

  lemma DropFreeStep(s: State, a: Action)
    requires Inv(s) && Enabled(s, a) && a.Step? && PcOf(s, a.t).DropFree?
    ensures Inv(Apply(s, a))
  {
    hide Apply, Enabled, SlotsOk, Respects;
    CreateApplies(s, a);
    var c := PcOf(s, a.t).c;
    assert ThreadOk(s, a.t) && FieldsOk(s.controls[c]);
    Close(s, Apply(s, a), a.t, c);
  }

  lemma FreeStep(s: State, a: Action)
    requires Inv(s) && Enabled(s, a) && a.Step? && PcOf(s, a.t).Free?
    ensures Inv(Apply(s, a))
  {
    hide Apply, Enabled, SlotsOk, Respects;
    ReclaimApplies(s, a);
    var c := PcOf(s, a.t).c;
    assert ThreadOk(s, a.t) && FieldsOk(s.controls[c]);
    Close(s, Apply(s, a), a.t, c);
  }

  lemma RestoreStep(s: State, a: Action)
    requires Inv(s) && Enabled(s, a) && a.Step? && PcOf(s, a.t).Restore?
    ensures Inv(Apply(s, a))
  {
    hide Apply, Enabled, SlotsOk, Respects;
    ReclaimApplies(s, a);
    var c := PcOf(s, a.t).c;
    assert ThreadOk(s, a.t) && FieldsOk(s.controls[c]);
    Close(s, Apply(s, a), a.t, c);
  }

  lemma PublishStep(s: State, a: Action)
    requires Inv(s) && Enabled(s, a) && a.Step? && PcOf(s, a.t).Publish?
    ensures Inv(Apply(s, a))
  {
    hide Apply, Enabled, SlotsOk, Respects;
    CreateApplies(s, a);
    var c := PcOf(s, a.t).c;
    assert ThreadOk(s, a.t) && FieldsOk(s.controls[c]);
    Close(s, Apply(s, a), a.t, c);
  }

  // ----- Steps that other threads may notice

  lemma CreateBegun(s: State, t: Tid, c: Cid)
    requires Enabled(s, StartCreate(t, c))
    ensures Apply(s, StartCreate(t, c)) == Go(Put(s, c, NewControl(t)), t, Map(c)) && t in s.threads && PcOf(s, t).User? && c !in s.controls
  {
    hide Go, Put;
  }

  lemma NewThreadOk(s: State, t: Tid, c: Cid, n: State)
    requires Inv(s) && t in s.threads && PcOf(s, t).User? && c !in s.controls && n == Go(Put(s, c, NewControl(t)), t, Map(c))
    ensures ThreadOk(n, t) && FieldsOk(n.controls[c]) && SlotsOk(n, c) && Frame(s, n, {t}, c) && Stakes(s, n, t, c)
  {
    assert ThreadOk(s, t);
  }

  lemma CreateBegins(s: State, t: Tid, c: Cid)
    requires Inv(s) && Enabled(s, StartCreate(t, c))
    ensures Inv(Apply(s, StartCreate(t, c)))
  {
    hide Apply, Enabled, FieldsOk, SlotsOk, Frame, StageOk, Stakes, ByReaper;
    var n := Apply(s, StartCreate(t, c));
    CreateBegun(s, t, c);
    NewThreadOk(s, t, c, n);
    forall u: Tid | u != t ensures Respects(s, u, c, n.controls[c]) && u != t { assert ThreadOk(s, u); }
    Update(s, n, {t}, c);
  }

  /** Update for a step that moves one thread. */
  lemma UpdateOne(s: State, n: State, t: Tid, c: Cid)
    requires Inv(s) && t in s.threads && Moves(s, n, t) && c in s.controls && c in n.controls
    requires n.controls == s.controls[c := n.controls[c]]
    requires forall u: Tid :: u != t ==> Respects(s, u, c, n.controls[c])
    requires Stakes(s, n, t, c) && ThreadOk(n, t) && FieldsOk(n.controls[c]) && SlotsOk(n, c)
    ensures Inv(n)
  {
    hide FieldsOk, SlotsOk, StageOk, StageOf, ByReaper, Subject, Critical, NeedsOwn, Respects, Stakes;
    assert ThreadOk(s, t);
    Update(s, n, {t}, c);
  }

  // The other threads at work on c do not mind.

  lemma ClearRespected(s: State, u: Tid, c: Cid, t: Tid, k: Control)
    requires Inv(s) && u != t && c in s.controls && s.controls[c].runner == Some(t)
    requires (k == s.controls[c].(clear := k.clear) && k.clear != 0) || k == s.controls[c].(clear := 0, runner := None)
    ensures Respects(s, u, c, k)
  {
    assert ThreadOk(s, u) && FieldsOk(s.controls[c]);
  }

  lemma ClaimRespected(s: State, u: Tid, c: Cid, t: Tid, life: Life)
    requires Inv(s) && u != t && c in s.controls && s.lock == Some(t) && s.controls[c].published
    requires s.controls[c].life == Joinable || (s.controls[c].life == Detached && t == REAPER)
    ensures Respects(s, u, c, s.controls[c].(life := life, claimant := Some(t)))
  {
    assert ThreadOk(s, u) && FieldsOk(s.controls[c]);
  }

  lemma DetachRespected(s: State, u: Tid, c: Cid, t: Tid)
    requires Inv(s) && u != t && s.lock == Some(t) && c in s.controls && s.controls[c].started
    requires s.controls[c].life == Joinable && s.controls[c].claimant == None
    ensures Respects(s, u, c, s.controls[c].(life := Detached))
  {
    assert ThreadOk(s, u) && FieldsOk(s.controls[c]);
  }

  lemma ChildStep(s: State, a: Action)
    requires Inv(s) && Enabled(s, a) && a.Step? && PcOf(s, a.t).Child?
    ensures Inv(Apply(s, a))
  {
    hide Apply, Enabled, Respects;
    SearchApplies(s, a);
    var n, t, c := Apply(s, a), a.t, OwnOf(s, a.t).value;
    assert ThreadOk(s, t) && FieldsOk(s.controls[c]) && SlotsOk(s, c);
    forall u: Tid | u != t ensures Respects(s, u, c, n.controls[c]) { ClearRespected(s, u, c, t, n.controls[c]); }
    UpdateOne(s, n, t, c);
  }

  lemma ExitStep(s: State, a: Action)
    requires Inv(s) && Enabled(s, a) && a.Step? && PcOf(s, a.t).Exit? && OwnOf(s, a.t).Some?
    ensures Inv(Apply(s, a))
  {
    hide Apply, Enabled, Respects;
    SearchApplies(s, a);
    var n, t, c := Apply(s, a), a.t, OwnOf(s, a.t).value;
    assert ThreadOk(s, t) && FieldsOk(s.controls[c]) && SlotsOk(s, c);
    forall u: Tid | u != t ensures Respects(s, u, c, n.controls[c]) { ClearRespected(s, u, c, t, n.controls[c]); }
    UpdateOne(s, n, t, c);
  }

  /** A control is claimed under the lock, published, and joinable or found by the reaper. */
  lemma Claim(s: State, t: Tid, c: Cid, life: Life, p: Pc)
    requires Inv(s) && t in s.threads && s.lock == Some(t) && c in s.controls && s.controls[c].published
    requires s.controls[c].life == Joinable || (s.controls[c].life == Detached && t == REAPER)
    requires life == Joining || (life == Reaping && s.controls[c].clear == 0)
    requires Subject(PcOf(s, t)) == None && PcOf(s, t) != Gone && !PcOf(s, t).User?
    requires p == (if life == Joining then Read(c) else Unmap(c, Reap(t != REAPER))) && (life == Joining ==> t != REAPER)
    ensures Inv(Leave(Claimed(s, c, life, t), t, p))
  {
    hide Respects;
    var n := Leave(Claimed(s, c, life, t), t, p);
    assert ThreadOk(s, t) && FieldsOk(s.controls[c]) && SlotsOk(s, c);
    forall u: Tid | u != t ensures Respects(s, u, c, n.controls[c]) { ClaimRespected(s, u, c, t, life); }
    UpdateOne(s, n, t, c);
  }

  lemma ClaimStep(s: State, a: Action)
    requires Inv(s) && Enabled(s, a) && a.Step? && a.pick.Some?
    requires var p := PcOf(s, a.t);
      || p.Scan? || (p.Find? && s.controls[a.pick.value].life == Joinable)
      || (p.Decide? && s.controls[a.pick.value].life == Joinable && s.controls[a.pick.value].clear == 0 && s.controls[a.pick.value].published)
    ensures Inv(Apply(s, a))
  {
    hide SlotsOk, StageOk, FieldsOk;
    assert ThreadOk(s, a.t);
    Claim(s, a.t, a.pick.value, if PcOf(s, a.t).Find? then Joining else Reaping, PcOf(Apply(s, a), a.t));
  }

  lemma CloneFrame(s: State, a: Action)
    requires Inv(s) && Enabled(s, a) && a.Step? && a.ok && PcOf(s, a.t).Clone?
    ensures Frame(s, Apply(s, a), {a.t, a.id}, PcOf(s, a.t).c)
  {
    hide Apply, Enabled, ThreadOk, FieldsOk, SlotsOk, StageOf;
    CreateApplies(s, a);
    SubjectsThere(s, a);
  }

  lemma CloneControl(s: State, a: Action)
    requires Inv(s) && Enabled(s, a) && a.Step? && a.ok && PcOf(s, a.t).Clone?
    ensures var n, c := Apply(s, a), PcOf(s, a.t).c; c in n.controls && SlotsOk(n, c) && FieldsOk(n.controls[c])
  {
    hide Apply, Enabled, ByReaper, NeedsOwn, Critical;
    CreateApplies(s, a);
    var c := PcOf(s, a.t).c;
    assert ThreadOk(s, a.t) && ThreadOk(s, a.id) && FieldsOk(s.controls[c]);
  }

  lemma CloneParent(s: State, a: Action)
    requires Inv(s) && Enabled(s, a) && a.Step? && a.ok && PcOf(s, a.t).Clone?
    ensures ThreadOk(Apply(s, a), a.t)
  {
    hide Apply, Enabled, SlotsOk;
    CreateApplies(s, a);
    assert ThreadOk(s, a.t) && ThreadOk(s, a.id) && FieldsOk(s.controls[PcOf(s, a.t).c]);
  }

  lemma CloneChild(s: State, a: Action)
    requires Inv(s) && Enabled(s, a) && a.Step? && a.ok && PcOf(s, a.t).Clone?
    ensures ThreadOk(Apply(s, a), a.id)
  {
    hide Apply, Enabled, SlotsOk, StageOk, FieldsOk;
    CreateApplies(s, a);
    assert ThreadOk(s, a.t) && ThreadOk(s, a.id);
  }

  lemma CloneRespected(s: State, a: Action, u: Tid)
    requires Inv(s) && Enabled(s, a) && a.Step? && a.ok && PcOf(s, a.t).Clone? && u != a.t
    ensures forall k :: Respects(s, u, PcOf(s, a.t).c, k)
  {
    hide Apply, Enabled, SlotsOk, ByReaper, NeedsOwn, Critical;
    var c := PcOf(s, a.t).c;
    assert ThreadOk(s, u) && ThreadOk(s, a.t) && FieldsOk(s.controls[c]);
    Alone(s, a.t, c, u);
  }

  lemma CloneStakes(s: State, a: Action)
    requires Inv(s) && Enabled(s, a) && a.Step? && a.ok && PcOf(s, a.t).Clone?
    ensures Stakes(s, Apply(s, a), a.t, PcOf(s, a.t).c) && Stakes(s, Apply(s, a), a.id, PcOf(s, a.t).c)
  {
    hide Apply, Enabled, FieldsOk, SlotsOk, StageOk, ByReaper;
    CreateApplies(s, a);
    assert ThreadOk(s, a.t);
  }

  lemma CloneStep(s: State, a: Action)
    requires Inv(s) && Enabled(s, a) && a.Step? && a.ok && PcOf(s, a.t).Clone?
    ensures Inv(Apply(s, a))
  {
    var n, t, c := Apply(s, a), a.t, PcOf(s, a.t).c;
    CloneFrame(s, a);
    CloneControl(s, a);
    CloneParent(s, a);
    CloneChild(s, a);
    CloneStakes(s, a);
    hide *;
    forall u: Tid | u !in {t, a.id} ensures Respects(s, u, c, n.controls[c]) { CloneRespected(s, a, u); }
    Update(s, n, {t, a.id}, c);
  }

  predicate Detaches(s: State, a: Action) {
    a.Step? && PcOf(s, a.t).EnsureReaper? && (a.ok || s.reaperStarted)
  }

  function Woken(s: State, t: Tid): set<Tid> { if s.reaperStarted then {t} else {t, REAPER} }

  lemma DetachLocked(s: State, a: Action)
    requires Inv(s) && Enabled(s, a) && Detaches(s, a)
    ensures s.lock == Some(a.t) && (s.reaperStarted <==> REAPER in s.threads)
  {
    hide Apply, Enabled, FieldsOk, SlotsOk, StageOk, StageOf, ByReaper;
    EnsureApplies(s, a);
    assert ThreadOk(s, a.t);
  }

  lemma DetachFrame(s: State, a: Action)
    requires Inv(s) && Enabled(s, a) && Detaches(s, a)
    ensures Frame(s, Apply(s, a), Woken(s, a.t), PcOf(s, a.t).c)
  {
    hide Apply, Enabled, Inv;
    EnsureApplies(s, a);
    DetachLocked(s, a);
  }

  lemma DetachFields(s: State, a: Action)
    requires Inv(s) && Enabled(s, a) && Detaches(s, a)
    ensures var n, c := Apply(s, a), PcOf(s, a.t).c; c in n.controls && FieldsOk(n.controls[c])
  {
    hide Apply, Enabled, SlotsOk, ByReaper;
    EnsureApplies(s, a);
    assert ThreadOk(s, a.t) && FieldsOk(s.controls[PcOf(s, a.t).c]);
  }

  lemma DetachSlots(s: State, a: Action)
    requires Inv(s) && Enabled(s, a) && Detaches(s, a)
    ensures var n, c := Apply(s, a), PcOf(s, a.t).c; c in n.controls && SlotsOk(n, c)
  {
    assert SlotsOk(s, PcOf(s, a.t).c) by { EnsureApplies(s, a); }
    hide Apply, Enabled, Inv;
    EnsureApplies(s, a);
    DetachLocked(s, a);
  }

  lemma DetachCaller(s: State, a: Action)
    requires Inv(s) && Enabled(s, a) && Detaches(s, a)
    ensures ThreadOk(Apply(s, a), a.t)
  {
    hide Apply, Enabled, SlotsOk, FieldsOk, StageOk;
    EnsureApplies(s, a);
    assert ThreadOk(s, a.t) && ThreadOk(s, REAPER);
  }

  lemma DetachReaper(s: State, a: Action)
    requires Inv(s) && Enabled(s, a) && Detaches(s, a) && !s.reaperStarted
    ensures ThreadOk(Apply(s, a), REAPER)
  {
    hide Apply, Enabled, SlotsOk, FieldsOk, StageOk;
    EnsureApplies(s, a);
    assert ThreadOk(s, a.t) && ThreadOk(s, REAPER);
  }

  lemma DetachThreads(s: State, a: Action)
    requires Inv(s) && Enabled(s, a) && Detaches(s, a)
    ensures forall u :: u in Woken(s, a.t) ==> ThreadOk(Apply(s, a), u)
  {
    hide Inv, Enabled, Apply, Detaches, ThreadOk;
    DetachCaller(s, a);
    if !s.reaperStarted { DetachReaper(s, a); }
  }

  lemma DetachStep(s: State, a: Action)
    requires Inv(s) && Enabled(s, a) && Detaches(s, a)
    ensures Inv(Apply(s, a))
  {
    var n, t, c := Apply(s, a), a.t, PcOf(s, a.t).c;
    DetachFrame(s, a);
    DetachFields(s, a);
    DetachSlots(s, a);
    DetachThreads(s, a);
    assert s.lock == Some(t) && s.controls[c].started && s.controls[c].life == Joinable && s.controls[c].claimant == None
      && (forall u :: u in Woken(s, t) ==> Stakes(s, n, u, c)) by { DetachFacts(s, a); }
    assert n.controls[c] == s.controls[c].(life := Detached);
    hide *;
    forall u: Tid | u !in Woken(s, t) ensures Respects(s, u, c, n.controls[c]) {
      assert u != t by { InWoken(s, t); }
      DetachRespected(s, u, c, t);
    }
    Update(s, n, Woken(s, t), c);
  }

  lemma InWoken(s: State, t: Tid)
    ensures t in Woken(s, t)
  {
  }

  lemma DetachFacts(s: State, a: Action)
    requires Inv(s) && Enabled(s, a) && Detaches(s, a)
    ensures var c := PcOf(s, a.t).c; s.lock == Some(a.t) && s.controls[c].started && s.controls[c].life == Joinable && s.controls[c].claimant == None
    ensures forall u :: u in Woken(s, a.t) ==> Stakes(s, Apply(s, a), u, PcOf(s, a.t).c)
  {
    hide Apply, Enabled, FieldsOk, SlotsOk, ByReaper, NeedsOwn;
    EnsureApplies(s, a);
    assert ThreadOk(s, a.t) && ThreadOk(s, REAPER);
  }

  // ----- Every step, every run

  lemma SearchInv(s: State, a: Action)
    requires Inv(s) && Enabled(s, a) && a.Step? && Subject(PcOf(s, a.t)) == None
    ensures Inv(Apply(s, a))
  {
    var p := PcOf(s, a.t);
    if p.Sleep? { NapStep(s, a); }
    else if p.StoreResult? { StoreStep(s, a); }
    else if p.Child? { ChildStep(s, a); }
    else if p.Exit? { if OwnOf(s, a.t) == None { ExitWithout(s, a); } else { ExitStep(s, a); } }
    else if p.Rescan? { RescanStep(s, a); }
    else if p.Scan? { if a.pick == None { ScanEmpty(s, a); } else { ClaimStep(s, a); } }
    else if a.pick == None || s.controls[a.pick.value].life != Joinable { RefuseStep(s, a); }
    else if p.Find? || (s.controls[a.pick.value].clear == 0 && s.controls[a.pick.value].published) { ClaimStep(s, a); }
    else { DecideLater(s, a); }
  }

  lemma CreateInv(s: State, a: Action)
    requires Inv(s) && Enabled(s, a) && a.Step?
    requires var p := PcOf(s, a.t); p.Map? || p.Insert? || p.Clone? || p.Publish? || p.Drop? || p.DropUnmap? || p.DropFree?
    ensures Inv(Apply(s, a))
  {
    match PcOf(s, a.t)
    case Map(_) => if a.ok { MapStep(s, a); } else { NoMapping(s, a); }
    case Insert(_) => InsertStep(s, a);
    case Clone(_) => if a.ok { CloneStep(s, a); } else { NoClone(s, a); }
    case Publish(_, _) => PublishStep(s, a);
    case Drop(_, _) => DropStep(s, a);
    case DropUnmap(_, _) => if a.ok { DropUnmapStep(s, a); } else { NoDropUnmap(s, a); }
    case DropFree(_, _) => DropFreeStep(s, a);
  }

  lemma ReclaimInv(s: State, a: Action)
    requires Inv(s) && Enabled(s, a) && a.Step? && Reclaims(PcOf(s, a.t))
    ensures Inv(Apply(s, a))
  {
    match PcOf(s, a.t)
    case Read(_) => ReadStep(s, a);
    case ReadResult(_) => ReadResultStep(s, a);
    case WaitClear(_, _) => WaitStep(s, a);
    case Watch(_, _) => WatchStep(s, a);
    case Unmap(_, _) => if a.ok { UnmapStep(s, a); } else { NoUnmap(s, a); }
    case Remove(_, _) => RemoveStep(s, a);
    case Free(_, _) => FreeStep(s, a);
    case Restore(_, _) => RestoreStep(s, a);
  }

  lemma StepInv(s: State, a: Action)
    requires Inv(s) && Enabled(s, a)
    ensures Inv(Apply(s, a))
  {
    hide Apply, Inv;
    match a
    case StartCreate(t, c) => CreateBegins(s, t, c);
    case Acquire(t) => AcquireStep(s, t);
    case Step(t, ok, _, _, _) =>
      if PcOf(s, t).EnsureReaper? {
        if Detaches(s, a) { DetachStep(s, a); } else { RefuseStep(s, a); }
      } else if Subject(PcOf(s, t)) == None {
        SearchInv(s, a);
      } else if Reclaims(PcOf(s, t)) {
        ReclaimInv(s, a);
      } else {
        CreateInv(s, a);
      }
    case _ => BeginStep(s, a);
  }

  lemma {:induction false} EveryRun(states: seq<State>, actions: seq<Action>, i: nat)
    requires IsRun(states, actions) && i < |states|
    ensures Inv(states[i])
  {
    if i == 0 {
      assert forall t: Tid :: PcOf(states[0], t).User? || PcOf(states[0], t) == Gone;
    } else {
      EveryRun(states, actions, i - 1);
      hide Inv, Apply, Enabled;
      StepInv(states[i - 1], actions[i - 1]);
    }
  }

  // ----- What it is for

  /** The control blocks a step reads or writes: its subject, the thread's own block (at exit the
      kernel clears `clear_tid` in it), and every registered block when the list is walked. */
  function Touched(s: State, a: Action): set<Cid> {
    var p := PcOf(s, a.t);
    if !a.Step? then {}
    else
      (if Subject(p).Some? then {Subject(p).value} else {})
      + (if OwnOf(s, a.t).Some? && (NeedsOwn(p) || p.Exit?) then {OwnOf(s, a.t).value} else {})
      + (if p.Find? || p.Decide? || p.Scan? || p.Rescan? || p.Drop? || p.Remove?
         then set c | c in s.controls && s.controls[c].registered else {})
  }

  /** No step of any run touches a freed block. */
  lemma NoUseAfterFree(states: seq<State>, actions: seq<Action>, i: nat, c: Cid)
    requires IsRun(states, actions) && i < |actions| && c in Touched(states[i], actions[i])
    ensures c in states[i].controls && !states[i].controls[c].freed
  {
    EveryRun(states, actions, i);
    hide Apply, Inv;
    TouchesLive(states[i], actions[i], c);
  }

  lemma TouchesLive(s: State, a: Action, c: Cid)
    requires Inv(s) && Enabled(s, a) && c in Touched(s, a)
    ensures c in s.controls && !s.controls[c].freed
  {
    hide SlotsOk, Enabled;
    var p := PcOf(s, a.t);
    assert ThreadOk(s, a.t);
    if Subject(p) == Some(c) {
      hide FieldsOk, ByReaper, Critical, NeedsOwn;
      assert StageOk(a.t, StageOf(p), s.controls[c]);
      if StageOf(p).Deciding? || StageOf(p).Watching? { assert !s.controls[c].freed by { Registered(s, c); } }
    } else {
      hide StageOk, StageOf, ByReaper, Critical;
      assert c in s.controls;
      assert FieldsOk(s.controls[c]);
    }
  }

  lemma Registered(s: State, c: Cid)
    requires Inv(s) && c in s.controls && s.controls[c].registered
    ensures !s.controls[c].freed
  {
    assert FieldsOk(s.controls[c]);
  }

  predicate MayReclaim(s: State, t: Tid, c: Cid) {
    Subject(PcOf(s, t)) == Some(c) && Claims(StageOf(PcOf(s, t)))
  }

  /** At any moment at most one thread builds, drops or reclaims a given block. */
  lemma OneClaimant(states: seq<State>, actions: seq<Action>, i: nat, c: Cid, t: Tid, u: Tid)
    requires IsRun(states, actions) && i < |states| && MayReclaim(states[i], t, c) && MayReclaim(states[i], u, c)
    ensures t == u
  {
    EveryRun(states, actions, i);
    hide Apply, SlotsOk, FieldsOk;
    assert ThreadOk(states[i], t) && ThreadOk(states[i], u);
  }

  /** A stack is unmapped at most once and a block freed at most once; the block of a started
      thread is freed only after its stack is gone. */
  lemma AtMostOnce(states: seq<State>, actions: seq<Action>, i: nat, c: Cid)
    requires IsRun(states, actions) && i < |states| && c in states[i].controls
    ensures var k := states[i].controls[c]; k.unmaps <= 1 && k.frees <= 1 && (k.freed && k.started ==> k.unmaps == 1)
  {
    EveryRun(states, actions, i);
    assert FieldsOk(states[i].controls[c]);
  }

  lemma SearchKeepsStacks(s: State, a: Action, c: Cid)
    requires a.Step? && Enabled(s, a) && c in s.controls && (Subject(PcOf(s, a.t)) == None || PcOf(s, a.t).EnsureReaper?)
    ensures Apply(s, a).controls[c].unmaps == s.controls[c].unmaps
  {
    hide AnswersFit, Critical, CreateStep, ReclaimStep;
  }

  lemma ReclaimKeepsStacks(s: State, a: Action, c: Cid)
    requires a.Step? && Enabled(s, a) && c in s.controls && Reclaims(PcOf(s, a.t))
    requires !(PcOf(s, a.t).Unmap? && PcOf(s, a.t).c == c)
    ensures Apply(s, a).controls[c].unmaps == s.controls[c].unmaps
  {
    hide AnswersFit, Critical, CreateStep, SearchStep, EnsureStep, Back;
    match PcOf(s, a.t)
    case Unmap(_, _) =>
    case Restore(_, _) =>
    case Free(_, _) =>
    case Remove(_, _) =>
    case _ =>
  }

  lemma CreateKeepsStacks(s: State, a: Action, c: Cid)
    requires a.Step? && Enabled(s, a) && c in s.controls && Subject(PcOf(s, a.t)).Some? && !Reclaims(PcOf(s, a.t))
    requires !(PcOf(s, a.t).DropUnmap? && PcOf(s, a.t).c == c) && !PcOf(s, a.t).EnsureReaper?
    ensures Apply(s, a).controls[c].unmaps == s.controls[c].unmaps
  {
    hide Apply, Enabled, AnswersFit, Critical;
    CreateApplies(s, a);
  }

  lemma WhoUnmaps(s: State, a: Action, c: Cid)
    requires Enabled(s, a) && c in s.controls && Apply(s, a).controls[c].unmaps != s.controls[c].unmaps
    ensures a.Step? && (PcOf(s, a.t).Unmap? || PcOf(s, a.t).DropUnmap?) && PcOf(s, a.t).c == c
  {
    hide SearchStep, CreateStep, ReclaimStep, AnswersFit, Critical;
    if a.Step? {
      var p := PcOf(s, a.t);
      if Subject(p) == None || p.EnsureReaper? { SearchKeepsStacks(s, a, c); }
      else if Reclaims(p) { if !(p.Unmap? && p.c == c) { ReclaimKeepsStacks(s, a, c); } }
      else if !(p.DropUnmap? && p.c == c) { CreateKeepsStacks(s, a, c); }
    }
  }

  /** A stack is unmapped only when no thread is on it. `clear_tid` is 0 then exactly if a thread was
      started on it, which is exactly if the step is not the one of a create whose clone was refused. */
  lemma UnmapsDeadStacks(states: seq<State>, actions: seq<Action>, i: nat, c: Cid)
    requires IsRun(states, actions) && i < |actions| && c in states[i].controls
    requires Apply(states[i], actions[i]).controls[c].unmaps != states[i].controls[c].unmaps
    ensures states[i].controls[c].clear == 0 <==> states[i].controls[c].started
    ensures states[i].controls[c].clear == 0 <==> !PcOf(states[i], actions[i].t).DropUnmap?
    ensures forall u: Tid :: OwnOf(states[i], u) == Some(c) ==> PcOf(states[i], u) == Gone
  {
    var s, a := states[i], actions[i];
    EveryRun(states, actions, i);
    WhoUnmaps(s, a, c);
    hide Apply, SlotsOk, ByReaper, Enabled;
    assert ThreadOk(s, a.t) && FieldsOk(s.controls[c]);
    hide StageOf, StageOk;
    forall u: Tid | OwnOf(s, u) == Some(c) ensures PcOf(s, u) == Gone {
      assert ThreadOk(s, u);
    }
  }

  /** While a thread lives, its own block is registered, its stack mapped, and neither reclaimed. */
  lemma LivingThreads(states: seq<State>, actions: seq<Action>, i: nat, t: Tid)
    requires IsRun(states, actions) && i < |states| && OwnOf(states[i], t).Some? && PcOf(states[i], t) != Gone
    ensures OwnOf(states[i], t).value in states[i].controls
    ensures var k := states[i].controls[OwnOf(states[i], t).value]; k.registered && k.mapped && !k.freed && k.clear != 0
  {
    EveryRun(states, actions, i);
    assert ThreadOk(states[i], t) && FieldsOk(states[i].controls[OwnOf(states[i], t).value]);
  }
}
