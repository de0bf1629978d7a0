/** What happens to the `auth_xfer` of a deleted auth zone when every worker picks up the change.

    Each worker visits the structure once to let go of its own transfer tasks and, if it let go of
    any or is thread 0, a second time to remove it when nobody has a task left.  Before and after
    that the worker serves notifies, which reach the structure through the tree, and callbacks of
    tasks it owns, which reach it directly.  A lock is held by the workers whose program counter
    says so; taking one waits until no other worker holds it.
 */
module AuthHandover {

  datatype Owner = Nobody | By(worker: nat)

  datatype Tasks = Tasks(nextprobe: Owner, probe: Owner, transfer: Owner)

  /** Why a worker looks the structure up: the two visits of `fr_worker_auth_del`, or a notify. */
  datatype Why = First | Second | Notify

  datatype Pc =
    | Rest
    | WaitZones(why: Why)   // waits for auth_zones->lock
    | WaitXfer(why: Why)    // holds auth_zones->lock, found the xfr, waits for xfr->lock
    | Both(why: Why)        // holds both
    | WantXfer              // callback of an owned task, waits for xfr->lock
    | Locked(why: Why)      // holds xfr->lock only
    | Keep                  // second visit, a task is still owned: holds both
    | Unlinked              // second visit, took the xfr out of the tree: holds both
    | UnlinkedX             // auth_zones->lock released
    | Freeing               // both released, about to free

  /** Whether the worker has yet to handle the item, is handling it, or has handled it. */
  datatype Phase = Before | During | After

  datatype Worker = Worker(pc: Pc, phase: Phase, released: bool)

  datatype State = State(ws: seq<Worker>, inTree: bool, tasks: Tasks, freed: nat)

  // ----- locks and references

  predicate WritesZones(pc: Pc) {
    match pc
    case WaitXfer(w) => w != Notify
    case Both(w) => w != Notify
    case Keep | Unlinked => true
    case _ => false
  }

  predicate HoldsZones(pc: Pc) {
    pc.WaitXfer? || pc.Both? || pc.Keep? || pc.Unlinked?
  }

  predicate HoldsXfer(pc: Pc) {
    pc.Both? || pc.Locked? || pc.Keep? || pc.Unlinked? || pc.UnlinkedX?
  }

  /** Holds the lock of the structure or waits for it. */
  predicate RefersTo(pc: Pc) {
    HoldsXfer(pc) || pc.WaitXfer? || pc.WantXfer?
  }

  predicate Removing(pc: Pc) {
    pc.Unlinked? || pc.UnlinkedX? || pc.Freeing?
  }

  /** `fr_worker_auth_del` takes the write lock, a notify the read lock. */
  predicate ZonesFree(s: State, why: Why) {
    forall w <- s.ws :: !WritesZones(w.pc) && (why != Notify ==> !HoldsZones(w.pc))
  }

  predicate XferFree(s: State) {
    forall w <- s.ws :: !HoldsXfer(w.pc)
  }

  // ----- task ownership

  predicate Owns(t: Tasks, i: nat) {
    t.nextprobe == By(i) || t.probe == By(i) || t.transfer == By(i)
  }

  predicate AllFree(t: Tasks) {
    t.nextprobe == Nobody && t.probe == Nobody && t.transfer == Nobody
  }

  function Drop(o: Owner, i: nat): Owner {
    if o == By(i) then Nobody else o
  }

  /** `xfr_disown_tasks`. */
  function Disown(t: Tasks, i: nat): Tasks {
    Tasks(Drop(t.nextprobe, i), Drop(t.probe, i), Drop(t.transfer, i))
  }

  predicate Moves(o: Owner, o': Owner, i: nat) {
    o' == o || (o == By(i) && o' == Nobody) || (o == Nobody && o' == By(i))
  }

  /** Under the lock a worker may take tasks that are free and give up tasks of its own. */
  predicate Changes(t: Tasks, t': Tasks, i: nat) {
    Moves(t.nextprobe, t'.nextprobe, i) && Moves(t.probe, t'.probe, i) && Moves(t.transfer, t'.transfer, i)
  }

  // ----- steps

  function Set(s: State, i: nat, w: Worker): State
    requires i < |s.ws|
  {
    s.(ws := s.ws[i := w])
  }

  /** The end of the first visit: see if the structure can go. */
  function AfterFirst(w: Worker, i: nat, released: bool): Worker {
    if released || i == 0 then Worker(WaitZones(Second), During, released) else Worker(Rest, After, released)
  }

  /** Where a worker is when the lookup finds nothing. */
  function Missed(w: Worker, i: nat, why: Why): Worker {
    match why
    case First => AfterFirst(w, i, false)
    case Second => w.(pc := Rest, phase := After)
    case Notify => w.(pc := Rest)
  }

  ghost predicate WorkerNext(s: State, s': State, i: nat)
    requires i < |s.ws|
  {
    var w := s.ws[i];
    match w.pc
    case Rest =>
      || (w.phase == Before && s' == Set(s, i, Worker(WaitZones(First), During, false)))
      || s' == Set(s, i, w.(pc := WaitZones(Notify)))
      || (Owns(s.tasks, i) && s' == Set(s, i, w.(pc := WantXfer)))
    case WaitZones(why) =>
      && ZonesFree(s, why)
      && s' == Set(s, i, if s.inTree then w.(pc := WaitXfer(why)) else Missed(w, i, why))
    case WaitXfer(why) => XferFree(s) && s' == Set(s, i, w.(pc := Both(why)))
    case WantXfer => XferFree(s) && s' == Set(s, i, w.(pc := Locked(Notify)))
    case Both(why) =>
      if why == Second then
        if AllFree(s.tasks) then s' == Set(s, i, w.(pc := Unlinked)).(inTree := false)
        else s' == Set(s, i, w.(pc := Keep))
      else s' == Set(s, i, w.(pc := Locked(why)))
    case Locked(why) =>
      (match why
       case First => s' == Set(s, i, AfterFirst(w, i, Owns(s.tasks, i))).(tasks := Disown(s.tasks, i))
       case Second => s' == Set(s, i, w.(pc := Rest, phase := After))
       case Notify => Changes(s.tasks, s'.tasks, i) && s' == Set(s, i, w.(pc := Rest)).(tasks := s'.tasks))
    case Keep => s' == Set(s, i, w.(pc := Locked(Second)))
    case Unlinked => s' == Set(s, i, w.(pc := UnlinkedX))
    case UnlinkedX => s' == Set(s, i, w.(pc := Freeing))
    case Freeing => s' == Set(s, i, w.(pc := Rest, phase := After)).(freed := s.freed + 1)
  }

  ghost predicate Next(s: State, s': State) {
    exists i: nat :: i < |s.ws| && WorkerNext(s, s', i)
  }

  /** The item is handed out: the structure is in the tree, with any tasks owned by any workers. */
  ghost predicate Init(s: State) {
    && 0 < |s.ws|
    && (forall i | 0 <= i < |s.ws| :: s.ws[i].pc == Rest && s.ws[i].phase == Before)
    && s.inTree
    && s.freed == 0
    && OwnersExist(s)
  }

  ghost predicate OwnersExist(s: State) {
    forall i: nat :: Owns(s.tasks, i) ==> i < |s.ws|
  }

  ghost predicate NextAt(run: seq<State>, k: nat)
    requires k + 1 < |run|
  {
    Next(run[k], run[k + 1])
  }

  ghost predicate IsRun(run: seq<State>) {
    && run != []
    && Init(run[0])
    && forall k: nat :: k + 1 < |run| ==> NextAt(run, k)
  }

  // ----- who comes back

  predicate OnSecond(pc: Pc) {
    || pc == WaitZones(Second) || pc == WaitXfer(Second) || pc == Both(Second) || pc == Locked(Second)
    || pc == Keep || pc == Unlinked || pc == UnlinkedX || pc == Freeing
  }

  lemma ComesBack(s: State, s': State, i: nat)
    requires Next(s, s') && 0 < i < |s'.ws| && OnSecond(s'.ws[i].pc)
    ensures |s'.ws| == |s.ws|
    ensures OnSecond(s.ws[i].pc) || (s.ws[i].pc == Locked(First) && Owns(s.tasks, i) && !Owns(s'.tasks, i))
  {
    var j: nat :| j < |s.ws| && WorkerNext(s, s', j);
    if i == j {
      OwnSecond(s, s', i);
    } else {
      OthersStay(s, s', i, j);
    }
  }

  lemma OwnSecond(s: State, s': State, i: nat)
    requires 0 < i < |s.ws| && WorkerNext(s, s', i)
    ensures |s'.ws| == |s.ws|
    ensures OnSecond(s'.ws[i].pc) ==> OnSecond(s.ws[i].pc) || (s.ws[i].pc == Locked(First) && Owns(s.tasks, i) && !Owns(s'.tasks, i))
  {
  }

  lemma OthersStay(s: State, s': State, i: nat, j: nat)
    requires i < |s'.ws| && i != j && j < |s.ws| && WorkerNext(s, s', j)
    ensures |s'.ws| == |s.ws| && s'.ws[i] == s.ws[i]
  {
  }

  /** Only thread 0 and workers that gave up tasks on the first visit come for a second one. */
  lemma {:induction false} SecondVisit(run: seq<State>, i: nat, k: nat) returns (j: nat)
    requires IsRun(run) && k < |run| && 0 < i < |run[k].ws| && OnSecond(run[k].ws[i].pc)
    ensures j < k && i < |run[j].ws|
    ensures run[j].ws[i].pc == Locked(First) && Owns(run[j].tasks, i) && !Owns(run[j + 1].tasks, i)
    decreases k
  {
    j := k - 1;
    assert NextAt(run, j);
    ComesBack(run[j], run[k], i);
    if OnSecond(run[j].ws[i].pc) {
      j := SecondVisit(run, i, j);
    }
  }

  // ----- the invariant

  predicate PhaseOk(w: Worker) {
    match w.pc
    case Rest | WantXfer => w.phase != During
    case WaitZones(why) => w.phase == During <==> why != Notify
    case WaitXfer(why) => w.phase == During <==> why != Notify
    case Both(why) => w.phase == During <==> why != Notify
    case Locked(why) => w.phase == During <==> why != Notify
    case _ => w.phase == During
  }

  predicate Compatible(a: Pc, b: Pc) {
    && !(WritesZones(a) && HoldsZones(b))
    && !(HoldsZones(a) && WritesZones(b))
    && !(HoldsXfer(a) && HoldsXfer(b))
    && !(Removing(a) && RefersTo(b))
    && !(RefersTo(a) && Removing(b))
    && !(Removing(a) && Removing(b))
  }

  /** Locks are exclusive, and whoever removes the structure is the only one to refer to it. */
  ghost predicate Exclusive(s: State) {
    forall i, j :: 0 <= i < |s.ws| && 0 <= j < |s.ws| && i != j ==> Compatible(s.ws[i].pc, s.ws[j].pc)
  }

  ghost predicate SomeoneRemoves(s: State) {
    exists i :: 0 <= i < |s.ws| && Removing(s.ws[i].pc)
  }

  ghost predicate WorkersOk(s: State) {
    && (forall i | 0 <= i < |s.ws| :: PhaseOk(s.ws[i]))
    && (forall i: nat | i < |s.ws| && s.ws[i].pc.WantXfer? :: Owns(s.tasks, i))
  }

  /** In the tree and alive; or out of it with the one worker that will free it; or freed. */
  ghost predicate LifeOk(s: State) {
    if s.inTree then s.freed == 0 && !SomeoneRemoves(s)
    else if SomeoneRemoves(s) then s.freed == 0 && AllFree(s.tasks)
    else s.freed == 1 && AllFree(s.tasks) && forall i | 0 <= i < |s.ws| :: !RefersTo(s.ws[i].pc)
  }

  ghost predicate Inv(s: State) {
    0 < |s.ws| && Exclusive(s) && WorkersOk(s) && LifeOk(s)
  }

  // ----- preservation

  lemma InitInv(s: State)
    requires Init(s)
    ensures Inv(s)
  {
  }

  lemma OnlyMoves(s: State, s': State, i: nat)
    requires i < |s.ws| && WorkerNext(s, s', i)
    ensures |s'.ws| == |s.ws| && (forall j | 0 <= j < |s.ws| && j != i :: s'.ws[j] == s.ws[j])
  {
  }

  /** What a worker can rely on about another one. */
  predicate Beside(s: State, a: Pc, b: Pc, j: nat) {
    && Compatible(a, b)
    && (s.inTree ==> !Removing(b))
    && (Removing(b) ==> AllFree(s.tasks))
    && (b.WantXfer? ==> Owns(s.tasks, j))
  }

  lemma BesideOf(s: State, i: nat, j: nat)
    requires Inv(s) && i < |s.ws| && j < |s.ws| && j != i
    ensures Beside(s, s.ws[i].pc, s.ws[j].pc, j)
  {
  }

  predicate Asks(pc: Pc) {
    pc.Rest? || pc.WaitZones? || pc.WaitXfer? || pc.WantXfer?
  }

  lemma PairAsks(s: State, s': State, i: nat, j: nat)
    requires i < |s.ws| && WorkerNext(s, s', i) && j < |s.ws| && j != i
    requires Beside(s, s.ws[i].pc, s.ws[j].pc, j) && Asks(s.ws[i].pc)
    ensures |s'.ws| == |s.ws| && Compatible(s'.ws[i].pc, s.ws[j].pc)
  {
    assert s.ws[j] in s.ws;
  }

  lemma PairHolds(s: State, s': State, i: nat, j: nat)
    requires i < |s.ws| && WorkerNext(s, s', i) && j < |s.ws| && j != i
    requires Beside(s, s.ws[i].pc, s.ws[j].pc, j) && !Asks(s.ws[i].pc)
    ensures |s'.ws| == |s.ws| && Compatible(s'.ws[i].pc, s.ws[j].pc)
  {
  }

  /** The program counters of the others stay compatible with the new one. */
  lemma PairStep(s: State, s': State, i: nat, j: nat)
    requires i < |s.ws| && WorkerNext(s, s', i) && j < |s.ws| && j != i
    requires Beside(s, s.ws[i].pc, s.ws[j].pc, j)
    ensures |s'.ws| == |s.ws| && Compatible(s'.ws[i].pc, s.ws[j].pc)
  {
    if Asks(s.ws[i].pc) {
      PairAsks(s, s', i, j);
    } else {
      PairHolds(s, s', i, j);
    }
  }

  lemma CompatibleSwapped(a: Pc, b: Pc)
    ensures Compatible(a, b) <==> Compatible(b, a)
  {
  }

  lemma ExclusiveStep(s: State, s': State, i: nat)
    requires Inv(s) && i < |s.ws| && WorkerNext(s, s', i)
    ensures |s'.ws| == |s.ws| && (forall j | 0 <= j < |s.ws| && j != i :: s'.ws[j] == s.ws[j])
    ensures Exclusive(s')
  {
    OnlyMoves(s, s', i);
    forall a: nat, b: nat | a < |s'.ws| && b < |s'.ws| && a != b
      ensures Compatible(s'.ws[a].pc, s'.ws[b].pc)
    {
      ExclusivePair(s, s', i, a, b);
    }
  }

  lemma ExclusivePair(s: State, s': State, i: nat, a: nat, b: nat)
    requires Inv(s) && i < |s.ws| == |s'.ws| && WorkerNext(s, s', i) && a < |s.ws| && b < |s.ws| && a != b
    requires forall j | 0 <= j < |s.ws| && j != i :: s'.ws[j] == s.ws[j]
    ensures Compatible(s'.ws[a].pc, s'.ws[b].pc)
  {
    if a == i {
      BesideOf(s, i, b);
      PairStep(s, s', i, b);
    } else if b == i {
      BesideOf(s, i, a);
      PairStep(s, s', i, a);
      CompatibleSwapped(s'.ws[i].pc, s.ws[a].pc);
    } else {
      BesideOf(s, a, b);
    }
  }

  lemma OwnershipStep(s: State, s': State, i: nat)
    requires Inv(s) && i < |s.ws| && WorkerNext(s, s', i)
    ensures forall j: nat | j != i :: Owns(s'.tasks, j) <==> Owns(s.tasks, j)
    ensures AllFree(s.tasks) && !s.inTree ==> AllFree(s'.tasks)
  {
  }

  /** The worker that moves: its phase fits, and it waits as an owner only if it is one. */
  lemma OwnStep(s: State, s': State, i: nat)
    requires i < |s.ws| && WorkerNext(s, s', i) && PhaseOk(s.ws[i]) && |s'.ws| == |s.ws|
    ensures PhaseOk(s'.ws[i]) && (s'.ws[i].pc.WantXfer? ==> Owns(s'.tasks, i))
  {
  }

  lemma WorkersStep(s: State, s': State, i: nat)
    requires Inv(s) && i < |s.ws| && WorkerNext(s, s', i)
    ensures WorkersOk(s')
  {
    OnlyMoves(s, s', i);
    OwnershipStep(s, s', i);
    OwnStep(s, s', i);
    forall j: nat | j < |s.ws| && j != i
      ensures PhaseOk(s'.ws[j]) && (s'.ws[j].pc.WantXfer? ==> Owns(s'.tasks, j))
    {
      assert s'.ws[j] == s.ws[j];
    }
  }

  /** Nobody can refer to the structure when it is taken out of the tree. */
  lemma UnlinkStep(s: State, i: nat)
    requires Inv(s) && i < |s.ws| && s.ws[i].pc == Both(Second) && AllFree(s.tasks)
    ensures forall j | 0 <= j < |s.ws| && j != i :: !RefersTo(s.ws[j].pc) && !Removing(s.ws[j].pc)
  {
    forall j | 0 <= j < |s.ws| && j != i
      ensures !RefersTo(s.ws[j].pc) && !Removing(s.ws[j].pc)
    {
      assert Compatible(s.ws[i].pc, s.ws[j].pc);
    }
  }

  lemma LifeStepInTree(s: State, s': State, i: nat)
    requires Inv(s) && i < |s.ws| && WorkerNext(s, s', i) && s.inTree
    ensures LifeOk(s')
  {
    ExclusiveStep(s, s', i);
    if s.ws[i].pc == Both(Second) && AllFree(s.tasks) {
      UnlinkStep(s, i);
      assert Removing(s'.ws[i].pc);
    } else {
      assert !Removing(s'.ws[i].pc);
    }
  }

  lemma LifeStepRemoving(s: State, s': State, i: nat)
    requires Inv(s) && i < |s.ws| && WorkerNext(s, s', i) && !s.inTree
    ensures LifeOk(s')
  {
    ExclusiveStep(s, s', i);
    OwnershipStep(s, s', i);
    if Removing(s.ws[i].pc) {
      assert SomeoneRemoves(s);
      assert forall j | 0 <= j < |s.ws| && j != i :: Compatible(s.ws[i].pc, s.ws[j].pc);
      assert !s.ws[i].pc.Freeing? ==> Removing(s'.ws[i].pc);
    } else if SomeoneRemoves(s) {
      var d :| 0 <= d < |s.ws| && Removing(s.ws[d].pc);
      assert Compatible(s.ws[d].pc, s.ws[i].pc) && Removing(s'.ws[d].pc);
    }
  }

  lemma NextKeeps(s: State, s': State)
    requires Inv(s) && Next(s, s')
    ensures Inv(s')
  {
    var i: nat :| i < |s.ws| && WorkerNext(s, s', i);
    ExclusiveStep(s, s', i);
    WorkersStep(s, s', i);
    if s.inTree { LifeStepInTree(s, s', i); } else { LifeStepRemoving(s, s', i); }
  }

  lemma FrontIsRun(run: seq<State>)
    requires IsRun(run) && |run| > 1
    ensures IsRun(run[..|run| - 1]) && Next(run[|run| - 2], run[|run| - 1])
  {
    var front := run[..|run| - 1];
    forall k: nat | k + 1 < |front|
      ensures NextAt(front, k)
    {
      assert NextAt(run, k);
    }
    assert NextAt(run, |run| - 2);
  }

  lemma {:induction false} RunInv(run: seq<State>)
    requires IsRun(run)
    ensures forall s <- run :: Inv(s)
  {
    if |run| == 1 {
      InitInv(run[0]);
    } else {
      var front := run[..|run| - 1];
      FrontIsRun(run);
      RunInv(front);
      assert run[|run| - 2] in front;
      NextKeeps(run[|run| - 2], run[|run| - 1]);
      assert run == front + [run[|run| - 1]];
    }
  }

  lemma StepOfRun(run: seq<State>, k: nat)
    requires IsRun(run) && k + 1 < |run|
    ensures Inv(run[k]) && Next(run[k], run[k + 1])
  {
    RunInv(run);
    assert run[k] in run && NextAt(run, k);
  }

  // ----- safety

  /** The lock of the structure has one holder, and the write lock of the tree excludes all others that hold it. */
  lemma LocksAreExclusive(run: seq<State>, s: State, i: nat, j: nat)
    requires IsRun(run) && s in run && i < |s.ws| && j < |s.ws| && i != j
    ensures var p, q := s.ws[i].pc, s.ws[j].pc;
      && (p.Both? || p.Locked? || p.Keep? || p.Unlinked? || p.UnlinkedX? ==>
            !(q.Both? || q.Locked? || q.Keep? || q.Unlinked? || q.UnlinkedX?))
      && (p == WaitXfer(First) || p == WaitXfer(Second) || p == Both(First) || p == Both(Second) || p.Keep? || p.Unlinked? ==>
            !(q.WaitXfer? || q.Both? || q.Keep? || q.Unlinked?))
  {
    RunInv(run);
    assert Compatible(s.ws[i].pc, s.ws[j].pc);
  }

  /** However the workers interleave: the structure is freed at most once, and from the moment it
      leaves the tree no task is owned and no other worker holds or awaits its lock. */
  lemma RemovalIsSafe(run: seq<State>, s: State)
    requires IsRun(run) && s in run
    ensures s.freed <= 1
    ensures !s.inTree ==> s.tasks == Tasks(Nobody, Nobody, Nobody)
    ensures forall i, j | 0 <= i < |s.ws| && 0 <= j < |s.ws| && i != j && Removing(s.ws[i].pc) ::
              !RefersTo(s.ws[j].pc) && !Removing(s.ws[j].pc)
    ensures s.freed == 1 ==> forall i | 0 <= i < |s.ws| :: !RefersTo(s.ws[i].pc) && !Removing(s.ws[i].pc)
  {
    RunInv(run);
    forall i, j | 0 <= i < |s.ws| && 0 <= j < |s.ws| && i != j && Removing(s.ws[i].pc)
      ensures !RefersTo(s.ws[j].pc) && !Removing(s.ws[j].pc)
    {
      assert Compatible(s.ws[i].pc, s.ws[j].pc);
    }
  }

  /** Who is not about the structure is at rest or waits for the lock of the tree. */
  lemma RefersIs(pc: Pc)
    ensures !RefersTo(pc) && !Removing(pc) <==> pc == Rest || pc.WaitZones?
    ensures Removing(pc) <==> pc == Unlinked || pc == UnlinkedX || pc == Freeing
  {
  }

  // ----- completeness

  /** A worker that has handled the item does not take a task. */
  ghost predicate NoLateTask(s: State, s': State) {
    forall i: nat :: i < |s.ws| && WorkerNext(s, s', i) && s.ws[i].phase == After && Owns(s'.tasks, i) ==> Owns(s.tasks, i)
  }

  ghost predicate NoLateTaskAt(run: seq<State>, k: nat)
    requires k + 1 < |run|
  {
    NoLateTask(run[k], run[k + 1])
  }

  ghost predicate IsSettledRun(run: seq<State>) {
    IsRun(run) && forall k: nat :: k + 1 < |run| ==> NoLateTaskAt(run, k)
  }

  ghost predicate AllDone(s: State) {
    forall i | 0 <= i < |s.ws| :: s.ws[i].phase == After
  }

  /** Has done its first visit. */
  predicate LetGo(w: Worker) {
    || w.phase == After
    || (w.phase == During && !(w.pc == WaitZones(First) || w.pc == WaitXfer(First) || w.pc == Both(First) || w.pc == Locked(First)))
  }

  /** Will still look at whether the structure can be removed, if all tasks are free: thread 0 until it
      has, and a worker that let go of a task of its own. */
  predicate WillTry(w: Worker, i: nat) {
    || (i == 0 && !LetGo(w))
    || w.pc == WaitZones(Second) || w.pc == WaitXfer(Second) || w.pc == Both(Second)
  }

  ghost predicate SomeoneTries(s: State) {
    exists i: nat :: i < |s.ws| && WillTry(s.ws[i], i)
  }

  /** Whoever has done the first visit owns nothing. */
  ghost predicate Disowned(s: State) {
    OwnersExist(s) && forall i: nat | i < |s.ws| && LetGo(s.ws[i]) :: !Owns(s.tasks, i)
  }

  lemma DisownedStep(s: State, s': State, i: nat)
    requires Inv(s) && Disowned(s) && i < |s.ws| && WorkerNext(s, s', i) && NoLateTask(s, s')
    ensures Disowned(s')
  {
    OnlyMoves(s, s', i);
    OwnershipStep(s, s', i);
    OwnDisowned(s, s', i);
    forall j: nat | j < |s'.ws| && LetGo(s'.ws[j])
      ensures !Owns(s'.tasks, j)
    {
      assert j != i ==> s'.ws[j] == s.ws[j];
    }
  }

  lemma OwnDisowned(s: State, s': State, i: nat)
    requires i < |s.ws| == |s'.ws| && WorkerNext(s, s', i) && NoLateTask(s, s') && PhaseOk(s.ws[i])
    requires (LetGo(s.ws[i]) ==> !Owns(s.tasks, i)) && (!s.inTree ==> AllFree(s.tasks))
    ensures LetGo(s'.ws[i]) ==> !Owns(s'.tasks, i)
  {
  }

  lemma {:induction false} SettledRunDisowns(run: seq<State>)
    requires IsSettledRun(run)
    ensures forall s <- run :: Inv(s) && Disowned(s)
  {
    RunInv(run);
    if |run| > 1 {
      var front := run[..|run| - 1];
      FrontIsRun(run);
      forall k: nat | k + 1 < |front|
        ensures NoLateTaskAt(front, k)
      {
        assert NoLateTaskAt(run, k);
      }
      SettledRunDisowns(front);
      var s, s' := run[|run| - 2], run[|run| - 1];
      assert s in front && NoLateTaskAt(run, |run| - 2);
      var i: nat :| i < |s.ws| && WorkerNext(s, s', i);
      DisownedStep(s, s', i);
      assert run == front + [s'];
    }
  }

  lemma DoneIsFree(s: State)
    requires Disowned(s) && AllDone(s)
    ensures AllFree(s.tasks)
  {
    assert forall o: Owner :: o.By? && (o == s.tasks.nextprobe || o == s.tasks.probe || o == s.tasks.transfer) ==> Owns(s.tasks, o.worker);
  }

  // ----- when the structure is removed

  /** While the structure is there and no task is owned, whether someone tries does not change. */
  lemma TriesStep(s: State, s': State, i: nat)
    requires Inv(s) && i < |s.ws| && WorkerNext(s, s', i)
    requires s.inTree && s'.inTree && AllFree(s.tasks) && AllFree(s'.tasks)
    ensures SomeoneTries(s') <==> SomeoneTries(s)
  {
    OnlyMoves(s, s', i);
    WillTryStep(s, s', i);
    if SomeoneTries(s) {
      var t: nat :| t < |s.ws| && WillTry(s.ws[t], t);
      assert WillTry(s'.ws[t], t);
    }
    if SomeoneTries(s') {
      var t: nat :| t < |s'.ws| && WillTry(s'.ws[t], t);
      assert WillTry(s.ws[t], t);
    }
  }

  lemma WillTryStep(s: State, s': State, i: nat)
    requires i < |s.ws| == |s'.ws| && WorkerNext(s, s', i) && PhaseOk(s.ws[i])
    requires s.inTree && s'.inTree && AllFree(s.tasks) && AllFree(s'.tasks)
    ensures WillTry(s'.ws[i], i) <==> WillTry(s.ws[i], i)
  {
  }

  /** Whoever takes the structure out of the tree was trying, and it does not come back. */
  lemma UnlinkTries(s: State, s': State, i: nat)
    requires i < |s.ws| && WorkerNext(s, s', i)
    ensures s.inTree && !s'.inTree ==> WillTry(s.ws[i], i)
    ensures !s.inTree ==> !s'.inTree
  {
  }

  ghost predicate FreeFrom(run: seq<State>, k: nat) {
    k < |run| && forall j :: k <= j < |run| ==> AllFree(run[j].tasks)
  }

  /** Whether the structure is gone or someone tries. */
  ghost predicate GoneOrTried(s: State) {
    s.inTree ==> SomeoneTries(s)
  }

  lemma GoneOrTriedStep(s: State, s': State)
    requires Inv(s) && Next(s, s') && AllFree(s.tasks) && AllFree(s'.tasks)
    ensures GoneOrTried(s) <==> GoneOrTried(s')
  {
    var i: nat :| i < |s.ws| && WorkerNext(s, s', i);
    UnlinkTries(s, s', i);
    if s.inTree && s'.inTree {
      TriesStep(s, s', i);
    }
  }

  lemma {:induction false} TriesFrom(run: seq<State>, k: nat, j: nat)
    requires IsRun(run) && FreeFrom(run, k) && k <= j < |run|
    ensures GoneOrTried(run[j]) <==> GoneOrTried(run[k])
    decreases j
  {
    if j > k {
      TriesFrom(run, k, j - 1);
      StepOfRun(run, j - 1);
      GoneOrTriedStep(run[j - 1], run[j]);
    }
  }

  lemma {:induction false} LastFreed(run: seq<State>, n: nat) returns (k: nat)
    requires n < |run| && forall j :: n <= j < |run| ==> AllFree(run[j].tasks)
    ensures FreeFrom(run, k) && (k == 0 || !AllFree(run[k - 1].tasks))
    decreases n
  {
    if n == 0 || !AllFree(run[n - 1].tasks) {
      k := n;
    } else {
      k := LastFreed(run, n - 1);
    }
  }

  lemma StillInTree(run: seq<State>, k: nat)
    requires IsRun(run) && k < |run| && AllFree(run[k].tasks) && (k == 0 || !AllFree(run[k - 1].tasks))
    ensures run[k].inTree
  {
    if k > 0 {
      StepOfRun(run, k - 1);
    }
  }

  lemma DoneEnds(s: State)
    requires Inv(s) && AllDone(s)
    ensures !SomeoneTries(s) && !SomeoneRemoves(s) && (s.inTree <==> s.freed == 0)
  {
    forall i: nat | i < |s.ws|
      ensures !WillTry(s.ws[i], i) && !Removing(s.ws[i].pc)
    {
      assert PhaseOk(s.ws[i]) && s.ws[i].phase == After;
    }
  }

  /** In every run where no worker takes a task after handling the item, once all have handled it: the
      structure is out of the tree and freed exactly if, at the last time that the tasks became free,
      thread 0 had still to look or some worker was on its second visit. */
  lemma RemovedIff(run: seq<State>) returns (k: nat)
    requires IsSettledRun(run) && AllDone(run[|run| - 1])
    ensures FreeFrom(run, k) && (k == 0 || !AllFree(run[k - 1].tasks))
    ensures var s := run[|run| - 1]; (!s.inTree && s.freed == 1) <==> SomeoneTries(run[k])
    ensures var s := run[|run| - 1]; (s.inTree && s.freed == 0) <==> !SomeoneTries(run[k])
  {
    var s := run[|run| - 1];
    SettledRunDisowns(run);
    assert s in run;
    DoneIsFree(s);
    k := LastFreed(run, |run| - 1);
    StillInTree(run, k);
    TriesFrom(run, k, |run| - 1);
    DoneEnds(s);
  }

  /** Callbacks and notifies hand a task on rather than let go of the last one. */
  ghost predicate HandsOn(s: State, s': State) {
    forall i: nat :: i < |s.ws| && WorkerNext(s, s', i) && s.ws[i].pc == Locked(Notify) && AllFree(s'.tasks) ==> AllFree(s.tasks)
  }

  ghost predicate HandsOnAt(run: seq<State>, k: nat)
    requires k + 1 < |run|
  {
    HandsOn(run[k], run[k + 1])
  }

  ghost predicate IsOrderlyRun(run: seq<State>) {
    IsSettledRun(run) && forall k: nat :: k + 1 < |run| ==> HandsOnAt(run, k)
  }

  /** The hand-over itself frees the last task only in the hands of a worker that will try. */
  lemma HandOverTries(s: State, s': State, i: nat)
    requires i < |s.ws| && WorkerNext(s, s', i) && HandsOn(s, s') && !AllFree(s.tasks) && AllFree(s'.tasks)
    ensures SomeoneTries(s')
  {
    assert s.ws[i].pc == Locked(First);
    assert WillTry(s'.ws[i], i);
  }

  lemma InitTries(s: State)
    requires Init(s)
    ensures SomeoneTries(s)
  {
    assert WillTry(s.ws[0], 0);
  }

  /** So it is always removed when tasks outside of the hand-over are handed on. */
  lemma RemovedInTheEnd(run: seq<State>)
    requires IsOrderlyRun(run) && AllDone(run[|run| - 1])
    ensures !run[|run| - 1].inTree && run[|run| - 1].freed == 1
  {
    var k := RemovedIff(run);
    if k == 0 {
      InitTries(run[0]);
    } else {
      var s, s' := run[k - 1], run[k];
      StepOfRun(run, k - 1);
      assert HandsOnAt(run, k - 1);
      var i: nat :| i < |s.ws| && WorkerNext(s, s', i);
      HandOverTries(s, s', i);
    }
  }

  // ----- why nobody may let go of the last task

  predicate NoneTaken(s: State, s': State) {
    |s.ws| == |s'.ws| && forall i: nat :: i < |s.ws| && Owns(s'.tasks, i) ==> Owns(s.tasks, i)
  }

  ghost predicate NoneTakenAt(run: seq<State>, k: nat)
    requires k + 1 < |run|
  {
    NoneTaken(run[k], run[k + 1])
  }

  ghost predicate TakesNothing(run: seq<State>) {
    forall k: nat :: k + 1 < |run| ==> NoneTakenAt(run, k)
  }

  lemma Extend(run: seq<State>, s': State, i: nat) returns (run': seq<State>)
    requires IsRun(run) && TakesNothing(run)
    requires i < |run[|run| - 1].ws| && WorkerNext(run[|run| - 1], s', i) && NoneTaken(run[|run| - 1], s')
    ensures run' == run + [s'] && IsRun(run') && TakesNothing(run')
  {
    run' := run + [s'];
    assert Next(run[|run| - 1], s');
    forall k: nat | k + 1 < |run'|
      ensures NextAt(run', k) && NoneTakenAt(run', k)
    {
      if k + 1 < |run| {
        assert NextAt(run, k) && NoneTakenAt(run, k);
      }
    }
  }

  /** Two workers, of which worker i is the one that moves; one task may be owned. */
  function Pair(i: nat, w: Worker, other: Worker, probe: Owner): State {
    State(if i == 0 then [w, other] else [other, w], true, Tasks(probe, Nobody, Nobody), 0)
  }

  /** The next step of handling the item, alone and without a task of its own. */
  function Visit(w: Worker, i: nat): Worker {
    match w.pc
    case Rest => Worker(WaitZones(First), During, false)
    case WaitZones(why) => w.(pc := WaitXfer(why))
    case WaitXfer(why) => w.(pc := Both(why))
    case Both(why) => w.(pc := if why == Second then Keep else Locked(why))
    case Keep => w.(pc := Locked(Second))
    case Locked(why) => if why == First then AfterFirst(w, i, false) else w.(pc := Rest, phase := After)
    case _ => w
  }

  predicate CanVisit(w: Worker, probe: Owner) {
    match w.pc
    case Rest => w.phase == Before
    case WaitZones(why) => why != Notify
    case WaitXfer(why) => why != Notify
    case Both(why) => why == First || (why == Second && probe != Nobody)
    case Keep => true
    case Locked(why) => why != Notify
    case _ => false
  }

  lemma VisitStep(w: Worker, i: nat, other: Worker, probe: Owner)
    requires i < 2 && other.pc == Rest && CanVisit(w, probe) && probe != By(i)
    ensures WorkerNext(Pair(i, w, other, probe), Pair(i, Visit(w, i), other, probe), i)
  {
    var s := Pair(i, w, other, probe);
    assert s.ws[i] == w && s.ws[1 - i] == other;
    assert Set(s, i, Visit(w, i)).ws == Pair(i, Visit(w, i), other, probe).ws;
  }

  predicate CanVisitN(w: Worker, i: nat, probe: Owner, n: nat)
    decreases n
  {
    n == 0 || (CanVisit(w, probe) && CanVisitN(Visit(w, i), i, probe, n - 1))
  }

  function VisitN(w: Worker, i: nat, n: nat): Worker
    decreases n
  {
    if n == 0 then w else VisitN(Visit(w, i), i, n - 1)
  }

  lemma {:induction false} Walk(run: seq<State>, w: Worker, i: nat, other: Worker, probe: Owner, n: nat) returns (run': seq<State>)
    requires IsRun(run) && TakesNothing(run) && run[|run| - 1] == Pair(i, w, other, probe)
    requires i < 2 && other.pc == Rest && probe != By(i) && CanVisitN(w, i, probe, n)
    ensures IsRun(run') && TakesNothing(run') && run'[|run'| - 1] == Pair(i, VisitN(w, i, n), other, probe)
    decreases n
  {
    run' := run;
    if n > 0 {
      VisitStep(w, i, other, probe);
      run' := Extend(run, Pair(i, Visit(w, i), other, probe), i);
      run' := Walk(run', Visit(w, i), i, other, probe, n - 1);
    }
  }

  /** Thread 0 handles the item in ten steps while thread 1 owns a task, and keeps the structure. */
  lemma TenSteps()
    ensures var w := Worker(Rest, Before, false); CanVisitN(w, 0, By(1), 10) && VisitN(w, 0, 10) == Worker(Rest, After, false)
  {
    var w := Worker(WaitZones(Second), During, false);
    assert CanVisitN(w.(pc := Both(Second)), 0, By(1), 3) && VisitN(w.(pc := Both(Second)), 0, 3) == Worker(Rest, After, false);
    assert CanVisitN(w, 0, By(1), 5) && VisitN(w, 0, 5) == Worker(Rest, After, false);
    var v := Worker(WaitXfer(First), During, false);
    assert CanVisitN(v, 0, By(1), 8) && VisitN(v, 0, 8) == Worker(Rest, After, false);
  }

  /** Thread 1 without a task needs five steps. */
  lemma FiveSteps()
    ensures var w := Worker(Rest, Before, false); CanVisitN(w, 1, Nobody, 5) && VisitN(w, 1, 5) == Worker(Rest, After, false)
  {
    var v := Worker(WaitXfer(First), During, false);
    assert CanVisitN(v, 1, Nobody, 3) && VisitN(v, 1, 3) == Worker(Rest, After, false);
  }

  /** A run in which no task is taken and the structure is never removed: after thread 0 kept it, a
      callback of thread 1 lets go of the last task, so that thread 1 has none when its turn comes. */
  lemma LastTaskLost() returns (run: seq<State>)
    ensures IsSettledRun(run) && TakesNothing(run)
    ensures run[|run| - 1] == Pair(1, Worker(Rest, After, false), Worker(Rest, After, false), Nobody)
    ensures var s := run[|run| - 1]; (forall i | 0 <= i < |s.ws| :: s.ws[i].phase == After) && s.inTree && s.freed == 0
  {
    var b, a := Worker(Rest, Before, false), Worker(Rest, After, false);
    run := [Pair(0, b, b, By(1))];
    TenSteps();
    run := Walk(run, b, 0, b, By(1), 10);
    run := Callback(run);
    FiveSteps();
    run := Walk(run, b, 1, a, Nobody, 5);
    Settled(run);
  }

  lemma Settled(run: seq<State>)
    requires IsRun(run) && TakesNothing(run)
    ensures IsSettledRun(run)
  {
    forall k: nat | k + 1 < |run|
      ensures NoLateTaskAt(run, k)
    {
      assert NoneTakenAt(run, k);
    }
  }

  /** The timer of the task cannot be set up, and the task is nobody's. */
  lemma Callback(run: seq<State>) returns (run': seq<State>)
    requires IsRun(run) && TakesNothing(run)
    requires run[|run| - 1] == Pair(0, Worker(Rest, After, false), Worker(Rest, Before, false), By(1))
    ensures IsRun(run') && TakesNothing(run')
    ensures run'[|run'| - 1] == Pair(1, Worker(Rest, Before, false), Worker(Rest, After, false), Nobody)
  {
    var a, b := Worker(Rest, After, false), Worker(Rest, Before, false);
    assert run[|run| - 1] == Pair(1, b, a, By(1));
    run' := Extend(run, Pair(1, b.(pc := WantXfer), a, By(1)), 1);
    run' := Extend(run', Pair(1, b.(pc := Locked(Notify)), a, By(1)), 1);
    run' := Extend(run', Pair(1, b, a, Nobody), 1);
  }
}
