/** The grace period between swap and deletion, said of the run alone. */
module FastReloadGrace {
  import opened Sequences
  import opened FastReload
  import opened FastReloadSafety

  // ----- what a step leaves

  /** A callback is marked when it begins and keeps its mark, and the swap is no step of a worker or of main. */
  ghost predicate Frame(s: State, s': State) {
    && |s'.ws| == |s.ws| && s'.me == s.me
    && (s'.swapped != s.swapped ==> s'.main == s.main && s'.ws == s.ws && s'.mainPicked == s.mainPicked)
    && (s.main.MainQuery? && s'.main.MainQuery? ==> s'.main == s.main)
    && forall i: nat :: IsOther(s, i) && s.ws[i].pc.Query? && s'.ws[i].pc.Query? ==> s'.ws[i].pc == s.ws[i].pc
  }

  lemma SameThreads(s: State, s': State)
    requires s'.main == s.main && s'.ws == s.ws && s'.me == s.me && s'.mainPicked == s.mainPicked
    ensures Frame(s, s')
  {
  }

  lemma ReloadFrame(s: State)
    requires ReloadEnabled(s)
    ensures Frame(s, ReloadStep(s))
  {
    match s.reload
    case Loading(k) =>
      if k > 0 {
        SameThreads(s, Notify(s, Printout).(reload := Loading(k - 1)));
      } else {
        SameThreads(s, s.(reload := if s.nopause then Swap else Ask(StopR)));
      }
    case Ask(r) => SameThreads(s, Notify(s, Request(r)).(reload := Await(r)));
    case Await(r) => SameThreads(s, s.(toReload := s.toReload[1..], reload := if r == StopR then Swap else DeleteOld));
    case Swap => SameThreads(s, s.(swapped := true, reload := Ask(if s.nopause then PollR else StartR)));
    case DeleteOld => SameThreads(s, s.(deleted := true, reload := SendOk));
    case SendOk => SameThreads(s, Notify(s, Printout).(reload := SendDone));
    case SendDone => SameThreads(s, Notify(s, ReloadDone).(reload := Exiting));
    case Exiting => SameThreads(s, s.(reload := Exited));
  }

  lemma SendFrame(s: State, i: nat, c: Command)
    requires i < |s.ws|
    ensures var s' := SendTo(s, i, c);
      && s' == s.(ws := s'.ws) && |s'.ws| == |s.ws|
      && forall k :: 0 <= k < |s.ws| ==> s'.ws[k].pc == s.ws[k].pc && s'.ws[k].picked == s.ws[k].picked
  {
  }

  /** Main changes only itself and the pipes of workers. */
  predicate MainOnly(s: State, s': State) {
    && s'.swapped == s.swapped && s'.me == s.me && |s'.ws| == |s.ws|
    && forall k :: 0 <= k < |s.ws| ==> s'.ws[k].pc == s.ws[k].pc && s'.ws[k].picked == s.ws[k].picked
  }

  lemma MainOnlyStep(s: State)
    requires MainEnabled(s)
    ensures MainOnly(s, MainStep(s))
  {
    if s.main.Send? && s.main.next < |s.ws| {
      SendFrame(s, s.main.next, Cmd(s.main.r));
    } else {
      assert MainStep(s).ws == s.ws;
    }
  }

  lemma MainFrame(s: State)
    requires MainEnabled(s)
    ensures Frame(s, MainStep(s)) && MainOnly(s, MainStep(s))
    ensures var s' := MainStep(s); (s'.mainPicked != s.mainPicked ==> s.main.MainPickup?) && !s'.main.MainQuery?
  {
    MainOnlyStep(s);
  }

  lemma WorkerFrame(s: State, i: nat)
    requires IsOther(s, i) && WorkerEnabled(s.ws[i])
    ensures Frame(s, WorkerStep(s, i))
    ensures var s' := WorkerStep(s, i);
      && s'.swapped == s.swapped && s'.main == s.main && s'.mainPicked == s.mainPicked && s'.me == s.me
      && s'.ws == s.ws[i := WorkerAfter(s.ws[i])] && !s'.ws[i].pc.Query?
      && (s'.ws[i].picked != s.ws[i].picked ==> s.ws[i].pc.Pickup?)
  {
  }

  lemma BeginFrame(s: State, t: Thread)
    requires CanBeginQuery(s, t)
    ensures Frame(s, BeginQuery(s, t))
  {
  }

  lemma EndFrame(s: State, t: Thread)
    requires InQuery(s, t)
    ensures Frame(s, EndQuery(s, t))
  {
  }

  lemma StepFrame(s: State, t: Thread)
    requires Enabled(s, t)
    ensures Frame(s, Step(s, t))
  {
    match t
    case ReloadThread => ReloadFrame(s);
    case MainThread => MainFrame(s);
    case WorkerThread(i) => WorkerFrame(s, i);
  }

  lemma NextFrame(s: State, s': State)
    requires Next(s, s')
    ensures Frame(s, s')
  {
    if ProtocolNext(s, s') {
      var t :| Enabled(s, t) && s' == Step(s, t);
      StepFrame(s, t);
    } else if BeginNext(s, s') {
      var t :| CanBeginQuery(s, t) && s' == BeginQuery(s, t);
      BeginFrame(s, t);
    } else if EndNext(s, s') {
      var t :| InQuery(s, t) && s' == EndQuery(s, t);
      EndFrame(s, t);
    } else if OtherNext(s, s') {
      var i :| CanSendOther(s, i) && s' == SendTo(s, i, OtherCmd);
      SendFrame(s, i, OtherCmd);
    }
  }

  // ----- before the swap

  /** Before the swap nobody has picked up anything, and every callback that is running is marked. */
  ghost predicate BeforeSwap(s: State) {
    !s.swapped ==>
      && s.main != MainQuery(false) && !s.mainPicked
      && forall i: nat :: IsOther(s, i) ==> s.ws[i].pc != Query(false) && !s.ws[i].picked
  }

  lemma WorkerBefore(s: State, i: nat)
    requires Inv(s) && BeforeSwap(s) && IsOther(s, i) && WorkerEnabled(s.ws[i])
    ensures BeforeSwap(WorkerStep(s, i))
  {
    WorkerFrame(s, i);
    assert WorkerOk(s.ws[i], StageOf(s.main, i), i in Acked(s));
  }

  lemma MainBefore(s: State)
    requires Control(s) && BeforeSwap(s) && MainEnabled(s)
    ensures BeforeSwap(MainStep(s))
  {
    MainFrame(s);
  }

  lemma BeginBefore(s: State, t: Thread)
    requires BeforeSwap(s) && CanBeginQuery(s, t)
    ensures BeforeSwap(BeginQuery(s, t))
  {
  }

  lemma EndBefore(s: State, t: Thread)
    requires BeforeSwap(s) && InQuery(s, t)
    ensures BeforeSwap(EndQuery(s, t))
  {
  }

  lemma NextBefore(s: State, s': State)
    requires Inv(s) && BeforeSwap(s) && Next(s, s')
    ensures BeforeSwap(s')
  {
    if ProtocolNext(s, s') {
      var t :| Enabled(s, t) && s' == Step(s, t);
      match t
      case ReloadThread =>
      case MainThread => MainBefore(s);
      case WorkerThread(i) => WorkerBefore(s, i);
    } else if BeginNext(s, s') {
      var t :| CanBeginQuery(s, t) && s' == BeginQuery(s, t);
      BeginBefore(s, t);
    } else if EndNext(s, s') {
      var t :| InQuery(s, t) && s' == EndQuery(s, t);
      EndBefore(s, t);
    } else if OtherNext(s, s') {
      var i :| CanSendOther(s, i) && s' == SendTo(s, i, OtherCmd);
      SendFrame(s, i, OtherCmd);
    }
  }

  lemma {:induction false} RunBefore(run: seq<State>)
    requires IsRun(run)
    ensures forall s <- run :: BeforeSwap(s)
  {
    if |run| > 1 {
      var front := run[..|run| - 1];
      RunBefore(front);
      RunInv(front);
      NextBefore(front[|front| - 1], run[|run| - 1]);
    }
  }

  ghost predicate FrameAt(run: seq<State>, k: nat)
    requires k + 1 < |run|
  {
    Frame(run[k], run[k + 1])
  }

  ghost predicate FrameRun(run: seq<State>) {
    forall k: nat :: k + 1 < |run| ==> FrameAt(run, k)
  }

  lemma RunFrame(run: seq<State>)
    requires IsRun(run)
    ensures FrameRun(run)
  {
    forall k: nat | k + 1 < |run|
      ensures FrameAt(run, k)
    {
      NextFrame(run[k], run[k + 1]);
    }
  }

  // ----- callbacks

  /** The thread is in a callback that is marked as begun before the swap. */
  predicate Marked(s: State, t: Thread) {
    match t
    case ReloadThread => false
    case MainThread => s.main == MainQuery(true)
    case WorkerThread(i) => IsOther(s, i) && s.ws[i].pc == Query(true)
  }

  lemma MarkedBefore(s: State, t: Thread)
    requires BeforeSwap(s) && !s.swapped && InQuery(s, t)
    ensures Marked(s, t)
  {
  }

  lemma FrameMarked(s: State, s': State, t: Thread)
    requires Frame(s, s') && Marked(s, t) && InQuery(s', t)
    ensures Marked(s', t)
  {
  }

  lemma {:induction false} StillMarked(run: seq<State>, t: Thread, j: nat, k: nat)
    requires FrameRun(run) && j <= k < |run| && Marked(run[j], t)
    requires forall m: nat :: j <= m <= k ==> InQuery(run[m], t)
    ensures Marked(run[k], t)
    decreases k - j
  {
    if j < k {
      StillMarked(run, t, j, k - 1);
      assert FrameAt(run, k - 1);
      FrameMarked(run[k - 1], run[k], t);
    }
  }

  lemma NotMarked(run: seq<State>, k: nat, t: Thread)
    requires IsRun(run) && k < |run| && (run[k].reload.DeleteOld? || run[k].deleted)
    ensures !Marked(run[k], t)
  {
    DeleteIsSafe(run, run[k]);
  }

  /** Between any moment before the swap and any moment from which the old structures may be freed on, every
      thread was outside of its query callback: none holds on to anything that it found before the swap. */
  lemma GracePeriod(run: seq<State>, t: Thread, j: nat, k: nat) returns (m: nat)
    requires IsRun(run) && j < k < |run|
    requires !run[j].swapped && (run[k].reload.DeleteOld? || run[k].deleted)
    ensures j <= m <= k
    ensures t == MainThread ==> !run[m].main.MainQuery?
    ensures t.WorkerThread? && IsOther(run[m], t.i) ==> !run[m].ws[t.i].pc.Query?
  {
    RunFrame(run);
    RunBefore(run);
    NotMarked(run, k, t);
    assert run[j] in run;
    m := LeftQuery(run, t, j, k);
  }

  lemma LeftQuery(run: seq<State>, t: Thread, j: nat, k: nat) returns (m: nat)
    requires FrameRun(run) && j < k < |run| && BeforeSwap(run[j]) && !run[j].swapped && !Marked(run[k], t)
    ensures j <= m <= k && !InQuery(run[m], t)
  {
    if n: nat :| j <= n <= k && !InQuery(run[n], t) {
      m := n;
    } else {
      MarkedBefore(run[j], t);
      StillMarked(run, t, j, k);
      assert false;
    }
  }

  // ----- the new configuration

  predicate HasPicked(s: State, t: Thread) {
    match t
    case ReloadThread => false
    case MainThread => s.mainPicked
    case WorkerThread(i) => IsOther(s, i) && s.ws[i].picked
  }

  lemma FramePicked(s: State, s': State, t: Thread)
    requires Frame(s, s') && BeforeSwap(s') && !HasPicked(s, t) && HasPicked(s', t)
    ensures s.swapped && s'.swapped
  {
  }

  lemma NonePicked(s: State, t: Thread)
    requires BeforeSwap(s) && !s.swapped
    ensures !HasPicked(s, t)
  {
  }

  lemma {:induction false} FirstPicked(run: seq<State>, t: Thread, k: nat) returns (m: nat)
    requires k < |run| && HasPicked(run[k], t) && !HasPicked(run[0], t)
    ensures m < k && !HasPicked(run[m], t) && HasPicked(run[m + 1], t)
  {
    if HasPicked(run[k - 1], t) {
      m := FirstPicked(run, t, k - 1);
    } else {
      m := k - 1;
    }
  }

  lemma HavePicked(run: seq<State>, k: nat, t: Thread)
    requires IsRun(run) && k < |run| && (run[k].reload.DeleteOld? || run[k].deleted)
    requires t == MainThread || (t.WorkerThread? && IsOther(run[k], t.i))
    ensures HasPicked(run[k], t) && !run[0].swapped
  {
    DeleteIsSafe(run, run[k]);
  }

  /** By then every thread has picked up the new configuration, after the swap. */
  lemma PickedUpAfterSwap(run: seq<State>, t: Thread, k: nat) returns (m: nat)
    requires IsRun(run) && k < |run| && (run[k].reload.DeleteOld? || run[k].deleted)
    requires t == MainThread || (t.WorkerThread? && IsOther(run[k], t.i))
    ensures m < k && run[m].swapped && !HasPicked(run[m], t) && HasPicked(run[m + 1], t)
  {
    RunFrame(run);
    RunBefore(run);
    HavePicked(run, k, t);
    assert run[0] in run;
    NonePicked(run[0], t);
    m := FirstPicked(run, t, k);
    assert FrameAt(run, m) && run[m + 1] in run;
    FramePicked(run[m], run[m + 1], t);
  }
}
