/** Three runs of the life cycle: a thread is created, exits and is joined; the clone is refused; and
    the reaper falls asleep beside a dead detached thread. */
module LifecycleExample {
  import opened Lifecycle
  import opened LifecycleCalls

  /** Thread 1 is the creator and joiner, thread 2 the child with kernel id 9, block 5 its control. */
  function Parent(pc: Pc, queued: bool, k: Control, lock: Option<Tid>): State {
    State(map[1 := Thread(pc, queued, None)], map[5 := k], lock, 0, false)
  }

  function Both(pc: Pc, queued: bool, child: Pc, k: Control, lock: Option<Tid>): State {
    State(map[1 := Thread(pc, queued, None), 2 := Thread(child, false, Some(5))], map[5 := k], lock, 0, false)
  }

  function Do(t: Tid): Action { Step(t, true, None, 0, 0) }

  const MAPPED := NewControl(1).(mapped := true)
  const REGISTERED := MAPPED.(registered := true)
  const CLONED := REGISTERED.(started := true, claimant := None, publisher := Some(1), runner := Some(2))
  const RUNNING := CLONED.(clear := 9)
  const PUBLISHED := RUNNING.(tid := 9, published := true, publisher := None)
  const EXITED := PUBLISHED.(clear := 0, runner := None)
  const DETACHED := PUBLISHED.(life := Detached)
  const DEAD := DETACHED.(clear := 0, runner := None)
  const CLAIMED := EXITED.(life := Joining, claimant := Some(1))
  const UNMAPPED := CLAIMED.(mapped := false, unmaps := 1)
  const REMOVED := UNMAPPED.(registered := false)
  const DROPPED := REGISTERED.(registered := false)
  const ABANDONED := DROPPED.(mapped := false, unmaps := 1)

  /** With the reaper started, after one event. */
  function Three(child: Pc, reaper: Pc, queued: bool, k: Control, lock: Option<Tid>): State {
    State(map[1 := Thread(User(Success), false, None), 2 := Thread(child, false, Some(5)), REAPER := Thread(reaper, queued, None)],
          map[5 := k], lock, 1, true)
  }

  ghost predicate Leads(s: State, a: Action, n: State) { Enabled(s, a) && Apply(s, a) == n }

  lemma Creates()
    ensures Leads(State(map[1 := Thread(User(Success), false, None)], map[], None, 0, false), StartCreate(1, 5), Parent(Map(5), false, NewControl(1), None))
  {
    hide SearchStep, CreateStep, EnsureStep, ReclaimStep, AnswersFit;
  }

  lemma Maps()
    ensures Leads(Parent(Map(5), false, NewControl(1), None), Do(1), Parent(Insert(5), true, MAPPED, None))
  {
    hide ReclaimStep, SearchStep, EnsureStep;
  }

  lemma LocksToInsert()
    ensures Leads(Parent(Insert(5), true, MAPPED, None), Acquire(1), Parent(Insert(5), false, MAPPED, Some(1)))
  {
    hide SearchStep, CreateStep, EnsureStep, ReclaimStep, AnswersFit;
  }

  lemma Inserts()
    ensures Leads(Parent(Insert(5), false, MAPPED, Some(1)), Do(1), Parent(Clone(5), false, REGISTERED, None))
  {
    hide ReclaimStep, SearchStep, EnsureStep;
  }

  lemma Clones()
    ensures Leads(Parent(Clone(5), false, REGISTERED, None), Step(1, true, None, 2, 9), Both(Publish(5, 9), true, Child, CLONED, None))
  {
    hide ReclaimStep, SearchStep, EnsureStep;
  }

  lemma ChildRuns()
    ensures Leads(Both(Publish(5, 9), true, Child, CLONED, None), Step(2, true, None, 0, 9), Both(Publish(5, 9), true, User(Success), RUNNING, None))
  {
    hide CreateStep, ReclaimStep, EnsureStep, DecideStep;
  }

  lemma LocksToPublish()
    ensures Leads(Both(Publish(5, 9), true, User(Success), RUNNING, None), Acquire(1), Both(Publish(5, 9), false, User(Success), RUNNING, Some(1)))
  {
    hide SearchStep, CreateStep, EnsureStep, ReclaimStep, AnswersFit;
  }

  lemma Publishes()
    ensures Leads(Both(Publish(5, 9), false, User(Success), RUNNING, Some(1)), Step(1, true, None, 0, 9), Both(User(Success), false, User(Success), PUBLISHED, None))
  {
    hide ReclaimStep, SearchStep, EnsureStep;
  }

  lemma Exits()
    ensures Leads(Both(User(Success), false, User(Success), PUBLISHED, None), StartExit(2), Both(User(Success), false, StoreResult, PUBLISHED, None))
  {
    hide SearchStep, CreateStep, EnsureStep, ReclaimStep, AnswersFit;
  }

  lemma StoresResult()
    ensures Leads(Both(User(Success), false, StoreResult, PUBLISHED, None), Do(2), Both(User(Success), false, Exit, PUBLISHED, None))
  {
    hide CreateStep, ReclaimStep, EnsureStep, DecideStep;
  }

  lemma Leaves()
    ensures Leads(Both(User(Success), false, Exit, PUBLISHED, None), Do(2), Both(User(Success), false, Gone, EXITED, None))
  {
    hide CreateStep, ReclaimStep, EnsureStep, DecideStep;
  }

  lemma Joins()
    ensures Leads(Both(User(Success), false, Gone, EXITED, None), StartJoin(1, false, 9), Both(Find(9), true, Gone, EXITED, None))
  {
    hide SearchStep, CreateStep, EnsureStep, ReclaimStep, AnswersFit;
  }

  lemma LocksToFind()
    ensures Leads(Both(Find(9), true, Gone, EXITED, None), Acquire(1), Both(Find(9), false, Gone, EXITED, Some(1)))
  {
    hide SearchStep, CreateStep, EnsureStep, ReclaimStep, AnswersFit;
  }

  lemma Finds()
    ensures Leads(Both(Find(9), false, Gone, EXITED, Some(1)), Step(1, true, Some(5), 0, 0), Both(Read(5), false, Gone, CLAIMED, None))
  {
    hide CreateStep, ReclaimStep, EnsureStep, DecideStep;
  }

  lemma Reads()
    ensures Leads(Both(Read(5), false, Gone, CLAIMED, None), Do(1), Both(Unmap(5, Join), false, Gone, CLAIMED, None))
  {
    hide SearchStep, CreateStep, EnsureStep;
  }

  lemma Unmaps()
    ensures Leads(Both(Unmap(5, Join), false, Gone, CLAIMED, None), Do(1), Both(ReadResult(5), false, Gone, UNMAPPED, None))
  {
    hide SearchStep, CreateStep, EnsureStep;
  }

  lemma ReadsResult()
    ensures Leads(Both(ReadResult(5), false, Gone, UNMAPPED, None), Do(1), Both(Remove(5, Join), true, Gone, UNMAPPED, None))
  {
    hide SearchStep, CreateStep, EnsureStep;
  }

  lemma LocksToRemove()
    ensures Leads(Both(Remove(5, Join), true, Gone, UNMAPPED, None), Acquire(1), Both(Remove(5, Join), false, Gone, UNMAPPED, Some(1)))
  {
    hide SearchStep, CreateStep, EnsureStep, ReclaimStep, AnswersFit;
  }

  lemma Removes()
    ensures Leads(Both(Remove(5, Join), false, Gone, UNMAPPED, Some(1)), Do(1), Both(Free(5, Join), false, Gone, REMOVED, None))
  {
    hide SearchStep, CreateStep, EnsureStep;
  }

  lemma Frees()
    ensures Leads(Both(Free(5, Join), false, Gone, REMOVED, None), Do(1), Both(User(Success), false, Gone, Lifecycle.Freed(REMOVED), None))
  {
    hide SearchStep, CreateStep, EnsureStep;
  }

  lemma CloneRefused()
    ensures Leads(Parent(Clone(5), false, REGISTERED, None), Step(1, false, None, 0, 0), Parent(Drop(5, Error), true, REGISTERED, None))
  {
    hide ReclaimStep, SearchStep, EnsureStep;
  }

  lemma LocksToDrop()
    ensures Leads(Parent(Drop(5, Error), true, REGISTERED, None), Acquire(1), Parent(Drop(5, Error), false, REGISTERED, Some(1)))
  {
    hide SearchStep, CreateStep, EnsureStep, ReclaimStep, AnswersFit;
  }

  lemma Drops()
    ensures Leads(Parent(Drop(5, Error), false, REGISTERED, Some(1)), Do(1), Parent(DropUnmap(5, Error), false, DROPPED, None))
  {
    hide ReclaimStep, SearchStep, EnsureStep;
  }

  lemma UnmapsUnused()
    ensures Leads(Parent(DropUnmap(5, Error), false, DROPPED, None), Do(1), Parent(DropFree(5, Error), false, ABANDONED, None))
  {
    hide ReclaimStep, SearchStep, EnsureStep;
  }

  /** One more step. */
  lemma Extend(states: seq<State>, actions: seq<Action>, a: Action, s: State, n: State) returns (more: seq<State>, done: seq<Action>)
    requires Reaches(states, actions, s) && Leads(s, a, n)
    ensures Reaches(more, done, n) && |done| == |actions| + 1 && more[|actions|] == s && done[|actions|] == a
  {
    hide Enabled, Apply, Initial;
    more, done := states + [n], actions + [a];
  }

  ghost predicate Reaches(states: seq<State>, actions: seq<Action>, s: State) {
    IsRun(states, actions) && states[|actions|] == s
  }

  lemma CreationRun(states: seq<State>, actions: seq<Action>) returns (more: seq<State>, done: seq<Action>)
    requires Reaches(states, actions, State(map[1 := Thread(User(Success), false, None)], map[], None, 0, false))
    ensures Reaches(more, done, Parent(Clone(5), false, REGISTERED, None))
  {
    hide Leads, Reaches, Parent, Both;
    more, done := states, actions;
    Creates();
    more, done := Extend(more, done, StartCreate(1, 5), State(map[1 := Thread(User(Success), false, None)], map[], None, 0, false), Parent(Map(5), false, NewControl(1), None));
    Maps();
    more, done := Extend(more, done, Do(1), Parent(Map(5), false, NewControl(1), None), Parent(Insert(5), true, MAPPED, None));
    LocksToInsert();
    more, done := Extend(more, done, Acquire(1), Parent(Insert(5), true, MAPPED, None), Parent(Insert(5), false, MAPPED, Some(1)));
    Inserts();
    more, done := Extend(more, done, Do(1), Parent(Insert(5), false, MAPPED, Some(1)), Parent(Clone(5), false, REGISTERED, None));
  }

  lemma PublicationRun(states: seq<State>, actions: seq<Action>) returns (more: seq<State>, done: seq<Action>)
    requires Reaches(states, actions, Parent(Clone(5), false, REGISTERED, None))
    ensures Reaches(more, done, Both(User(Success), false, User(Success), PUBLISHED, None))
  {
    hide Leads, Reaches, Parent, Both;
    more, done := states, actions;
    Clones();
    more, done := Extend(more, done, Step(1, true, None, 2, 9), Parent(Clone(5), false, REGISTERED, None), Both(Publish(5, 9), true, Child, CLONED, None));
    ChildRuns();
    more, done := Extend(more, done, Step(2, true, None, 0, 9), Both(Publish(5, 9), true, Child, CLONED, None), Both(Publish(5, 9), true, User(Success), RUNNING, None));
    LocksToPublish();
    more, done := Extend(more, done, Acquire(1), Both(Publish(5, 9), true, User(Success), RUNNING, None), Both(Publish(5, 9), false, User(Success), RUNNING, Some(1)));
    Publishes();
    more, done := Extend(more, done, Step(1, true, None, 0, 9), Both(Publish(5, 9), false, User(Success), RUNNING, Some(1)), Both(User(Success), false, User(Success), PUBLISHED, None));
  }

  lemma ExitRun(states: seq<State>, actions: seq<Action>) returns (more: seq<State>, done: seq<Action>)
    requires Reaches(states, actions, Both(User(Success), false, User(Success), PUBLISHED, None))
    ensures Reaches(more, done, Both(User(Success), false, Gone, EXITED, None))
  {
    hide Leads, Reaches, Parent, Both;
    more, done := states, actions;
    Exits();
    more, done := Extend(more, done, StartExit(2), Both(User(Success), false, User(Success), PUBLISHED, None), Both(User(Success), false, StoreResult, PUBLISHED, None));
    StoresResult();
    more, done := Extend(more, done, Do(2), Both(User(Success), false, StoreResult, PUBLISHED, None), Both(User(Success), false, Exit, PUBLISHED, None));
    Leaves();
    more, done := Extend(more, done, Do(2), Both(User(Success), false, Exit, PUBLISHED, None), Both(User(Success), false, Gone, EXITED, None));
  }

  lemma ClaimRun(states: seq<State>, actions: seq<Action>) returns (more: seq<State>, done: seq<Action>)
    requires Reaches(states, actions, Both(User(Success), false, Gone, EXITED, None))
    ensures Reaches(more, done, Both(Unmap(5, Join), false, Gone, CLAIMED, None))
  {
    hide Leads, Reaches, Parent, Both;
    more, done := states, actions;
    Joins();
    more, done := Extend(more, done, StartJoin(1, false, 9), Both(User(Success), false, Gone, EXITED, None), Both(Find(9), true, Gone, EXITED, None));
    LocksToFind();
    more, done := Extend(more, done, Acquire(1), Both(Find(9), true, Gone, EXITED, None), Both(Find(9), false, Gone, EXITED, Some(1)));
    Finds();
    more, done := Extend(more, done, Step(1, true, Some(5), 0, 0), Both(Find(9), false, Gone, EXITED, Some(1)), Both(Read(5), false, Gone, CLAIMED, None));
    Reads();
    more, done := Extend(more, done, Do(1), Both(Read(5), false, Gone, CLAIMED, None), Both(Unmap(5, Join), false, Gone, CLAIMED, None));
  }

  lemma ReclaimRun(states: seq<State>, actions: seq<Action>) returns (more: seq<State>, done: seq<Action>)
    requires Reaches(states, actions, Both(Unmap(5, Join), false, Gone, CLAIMED, None))
    ensures Reaches(more, done, Both(User(Success), false, Gone, Lifecycle.Freed(REMOVED), None))
  {
    hide Leads, Reaches, Parent, Both;
    more, done := states, actions;
    Unmaps();
    more, done := Extend(more, done, Do(1), Both(Unmap(5, Join), false, Gone, CLAIMED, None), Both(ReadResult(5), false, Gone, UNMAPPED, None));
    ReadsResult();
    more, done := Extend(more, done, Do(1), Both(ReadResult(5), false, Gone, UNMAPPED, None), Both(Remove(5, Join), true, Gone, UNMAPPED, None));
    LocksToRemove();
    more, done := Extend(more, done, Acquire(1), Both(Remove(5, Join), true, Gone, UNMAPPED, None), Both(Remove(5, Join), false, Gone, UNMAPPED, Some(1)));
    Removes();
    more, done := Extend(more, done, Do(1), Both(Remove(5, Join), false, Gone, UNMAPPED, Some(1)), Both(Free(5, Join), false, Gone, REMOVED, None));
    Frees();
    more, done := Extend(more, done, Do(1), Both(Free(5, Join), false, Gone, REMOVED, None), Both(User(Success), false, Gone, Lifecycle.Freed(REMOVED), None));
  }

  /** There is a run in which a thread is created, exits and is joined: its stack is unmapped and its block freed. */
  lemma CreatedExitedJoined() returns (states: seq<State>, actions: seq<Action>)
    ensures IsRun(states, actions) && 5 in states[|actions|].controls
    ensures var k := states[|actions|].controls[5]; k.freed && k.unmaps == 1 && k.frees == 1
  {
    hide Enabled, Apply;
    states, actions := [State(map[1 := Thread(User(Success), false, None)], map[], None, 0, false)], [];
    states, actions := CreationRun(states, actions);
    states, actions := PublicationRun(states, actions);
    states, actions := ExitRun(states, actions);
    states, actions := ClaimRun(states, actions);
    states, actions := ReclaimRun(states, actions);
  }

  /** There is a run in which the clone is refused and the stack is unmapped although `clear_tid` is not 0. */
  lemma UnmappedUncleared() returns (states: seq<State>, actions: seq<Action>)
    ensures IsRun(states, actions) && 0 < |actions|
    ensures var k, n := states[|actions| - 1].controls, states[|actions|].controls;
      5 in k && 5 in n && k[5].clear == -1 && k[5].unmaps == 0 && n[5].unmaps == 1
  {
    hide Enabled, Apply;
    states, actions := [State(map[1 := Thread(User(Success), false, None)], map[], None, 0, false)], [];
    states, actions := CreationRun(states, actions);
    states, actions := RefusalRun(states, actions);
    UnmapsUnused();
    assert states[|actions|].controls[5] == DROPPED;
    states, actions := Extend(states, actions, Do(1), Parent(DropUnmap(5, Error), false, DROPPED, None), Parent(DropFree(5, Error), false, ABANDONED, None));
  }

  lemma RefusalRun(states: seq<State>, actions: seq<Action>) returns (more: seq<State>, done: seq<Action>)
    requires Reaches(states, actions, Parent(Clone(5), false, REGISTERED, None))
    ensures Reaches(more, done, Parent(DropUnmap(5, Error), false, DROPPED, None))
  {
    hide Leads, Reaches, Parent, Both;
    more, done := states, actions;
    CloneRefused();
    more, done := Extend(more, done, Step(1, false, None, 0, 0), Parent(Clone(5), false, REGISTERED, None), Parent(Drop(5, Error), true, REGISTERED, None));
    LocksToDrop();
    more, done := Extend(more, done, Acquire(1), Parent(Drop(5, Error), true, REGISTERED, None), Parent(Drop(5, Error), false, REGISTERED, Some(1)));
    Drops();
    more, done := Extend(more, done, Do(1), Parent(Drop(5, Error), false, REGISTERED, Some(1)), Parent(DropUnmap(5, Error), false, DROPPED, None));
  }

  // ----- A detached thread dies between the two searches of the reaper

  lemma AsksToDetach()
    ensures Leads(Both(User(Success), false, User(Success), PUBLISHED, None), StartDetach(1, false, 9), Both(Decide(false, 9), true, User(Success), PUBLISHED, None))
  {
    hide SearchStep, CreateStep, EnsureStep, ReclaimStep, AnswersFit;
  }

  lemma LocksToDecide()
    ensures Leads(Both(Decide(false, 9), true, User(Success), PUBLISHED, None), Acquire(1), Both(Decide(false, 9), false, User(Success), PUBLISHED, Some(1)))
  {
    hide SearchStep, CreateStep, EnsureStep, ReclaimStep, AnswersFit;
  }

  lemma Decides()
    ensures Leads(Both(Decide(false, 9), false, User(Success), PUBLISHED, Some(1)), Step(1, true, Some(5), 0, 0),
                  Both(EnsureReaper(5), false, User(Success), PUBLISHED, Some(1)))
  {
    hide CreateStep, ReclaimStep, EnsureStep;
  }

  lemma StartsReaper()
    ensures Leads(Both(EnsureReaper(5), false, User(Success), PUBLISHED, Some(1)), Do(1), Three(User(Success), Scan, true, DETACHED, None))
  {
    hide CreateStep, ReclaimStep, SearchStep;
    var s := Both(EnsureReaper(5), false, User(Success), PUBLISHED, Some(1));
    assert Apply(s, Do(1)).threads == Three(User(Success), Scan, true, DETACHED, None).threads;
  }

  lemma LocksToScan()
    ensures Leads(Three(User(Success), Scan, true, DETACHED, None), Acquire(REAPER), Three(User(Success), Scan, false, DETACHED, Some(REAPER)))
  {
    hide SearchStep, CreateStep, EnsureStep, ReclaimStep, AnswersFit;
  }

  lemma ScansNothing()
    ensures Leads(Three(User(Success), Scan, false, DETACHED, Some(REAPER)), Do(REAPER), Three(User(Success), Rescan, false, DETACHED, Some(REAPER)))
  {
    hide CreateStep, ReclaimStep, EnsureStep, DecideStep;
  }

  lemma ExitsMeanwhile()
    ensures Leads(Three(User(Success), Rescan, false, DETACHED, Some(REAPER)), StartExit(2), Three(StoreResult, Rescan, false, DETACHED, Some(REAPER)))
  {
    hide SearchStep, CreateStep, EnsureStep, ReclaimStep, AnswersFit;
  }

  lemma StoresMeanwhile()
    ensures Leads(Three(StoreResult, Rescan, false, DETACHED, Some(REAPER)), Do(2), Three(Exit, Rescan, false, DETACHED, Some(REAPER)))
  {
    hide CreateStep, ReclaimStep, EnsureStep, DecideStep;
  }

  lemma DiesMeanwhile()
    ensures Leads(Three(Exit, Rescan, false, DETACHED, Some(REAPER)), Do(2), Three(Gone, Rescan, false, DEAD, Some(REAPER)))
  {
    hide CreateStep, ReclaimStep, EnsureStep, DecideStep;
  }

  lemma SleepsBeside()
    ensures Leads(Three(Gone, Rescan, false, DEAD, Some(REAPER)), Step(REAPER, true, Some(5), 0, 0), Three(Gone, Lifecycle.Sleep(1), false, DEAD, None))
  {
    hide CreateStep, ReclaimStep, EnsureStep, DecideStep;
  }

  lemma DetachRun(states: seq<State>, actions: seq<Action>) returns (more: seq<State>, done: seq<Action>)
    requires Reaches(states, actions, Both(User(Success), false, User(Success), PUBLISHED, None))
    ensures Reaches(more, done, Three(User(Success), Rescan, false, DETACHED, Some(REAPER)))
  {
    hide Leads, Reaches, Parent, Both, Three;
    more, done := states, actions;
    AsksToDetach();
    more, done := Extend(more, done, StartDetach(1, false, 9), Both(User(Success), false, User(Success), PUBLISHED, None), Both(Decide(false, 9), true, User(Success), PUBLISHED, None));
    LocksToDecide();
    more, done := Extend(more, done, Acquire(1), Both(Decide(false, 9), true, User(Success), PUBLISHED, None), Both(Decide(false, 9), false, User(Success), PUBLISHED, Some(1)));
    Decides();
    more, done := Extend(more, done, Step(1, true, Some(5), 0, 0), Both(Decide(false, 9), false, User(Success), PUBLISHED, Some(1)), Both(EnsureReaper(5), false, User(Success), PUBLISHED, Some(1)));
    StartsReaper();
    more, done := Extend(more, done, Do(1), Both(EnsureReaper(5), false, User(Success), PUBLISHED, Some(1)), Three(User(Success), Scan, true, DETACHED, None));
    LocksToScan();
    more, done := Extend(more, done, Acquire(REAPER), Three(User(Success), Scan, true, DETACHED, None), Three(User(Success), Scan, false, DETACHED, Some(REAPER)));
    ScansNothing();
    more, done := Extend(more, done, Do(REAPER), Three(User(Success), Scan, false, DETACHED, Some(REAPER)), Three(User(Success), Rescan, false, DETACHED, Some(REAPER)));
  }

  lemma DeathRun(states: seq<State>, actions: seq<Action>) returns (more: seq<State>, done: seq<Action>)
    requires Reaches(states, actions, Three(User(Success), Rescan, false, DETACHED, Some(REAPER)))
    ensures Reaches(more, done, Three(Gone, Rescan, false, DEAD, Some(REAPER)))
  {
    hide Leads, Reaches, Parent, Both, Three;
    more, done := states, actions;
    ExitsMeanwhile();
    more, done := Extend(more, done, StartExit(2), Three(User(Success), Rescan, false, DETACHED, Some(REAPER)), Three(StoreResult, Rescan, false, DETACHED, Some(REAPER)));
    StoresMeanwhile();
    more, done := Extend(more, done, Do(2), Three(StoreResult, Rescan, false, DETACHED, Some(REAPER)), Three(Exit, Rescan, false, DETACHED, Some(REAPER)));
    DiesMeanwhile();
    more, done := Extend(more, done, Do(2), Three(Exit, Rescan, false, DETACHED, Some(REAPER)), Three(Gone, Rescan, false, DEAD, Some(REAPER)));
  }

  /** There is a run at whose end the reaper sleeps on the event word while a dead detached thread waits for it. */
  lemma ReaperSleepsBesideDead() returns (states: seq<State>, actions: seq<Action>, r: nat)
    ensures SleepsOn(states, actions, r, |actions|) && Lost(states[|actions|], 5)
  {
    hide Enabled, Apply;
    states, actions := [State(map[1 := Thread(User(Success), false, None)], map[], None, 0, false)], [];
    states, actions := CreationRun(states, actions);
    states, actions := PublicationRun(states, actions);
    states, actions := DetachRun(states, actions);
    states, actions := DeathRun(states, actions);
    SleepsBeside();
    r := |actions|;
    states, actions := Extend(states, actions, Step(REAPER, true, Some(5), 0, 0), Three(Gone, Rescan, false, DEAD, Some(REAPER)), Three(Gone, Lifecycle.Sleep(1), false, DEAD, None));
  }
}
