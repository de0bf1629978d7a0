/** Every step of the handshake keeps the invariant, and what that means for the swap and the delete. */
module FastReloadSafety {
  import opened Sequences
  import opened FastReload

  ghost function UpTo(n: nat): (r: set<nat>)
    ensures |r| == n && forall i: nat :: i in r <==> i < n
  {
    if n == 0 then {} else UpTo(n - 1) + {n - 1}
  }

  /** The workers other than main. */
  ghost function Others(s: State): set<nat> {
    UpTo(|s.ws|) - {s.me}
  }

  // ----- queues and rounds

  lemma {:induction false} AppendPending<T>(q: seq<T>, filler: T, c: T)
    requires Pending(q, filler, [])
    ensures Pending(q + [c], filler, [c])
    ensures c == filler ==> Pending(q + [c], filler, [])
  {
    if q == [] {
      assert q + [c] == [c] && [c][1..] == [];
    } else {
      AppendPending(q[1..], filler, c);
      assert (q + [c])[1..] == q[1..] + [c];
    }
  }

  lemma AckedInOthers(s: State, got: seq<nat>)
    requires s.me < |s.ws|
    requires NoDup(got + s.acks)
    requires forall i <- got + s.acks :: IsOther(s, i)
    ensures NoDup(got) && Elems(got) <= Others(s)
    ensures |got| + |s.acks| <= |s.ws| - 1
  {
    var all := got + s.acks;
    assert forall i | 0 <= i < |got| :: all[i] == got[i];
    assert forall i | i in got :: i in all;
    assert Elems(all) <= Others(s);
    PigeonHole(all, Others(s));
  }

  /** A full count of acks names every other worker once and leaves nothing in the stream. */
  lemma FullRound(s: State, got: seq<nat>)
    requires s.me < |s.ws|
    requires NoDup(got + s.acks)
    requires forall i <- got + s.acks :: IsOther(s, i)
    requires |got| == |s.ws| - 1
    ensures Elems(got) == Others(s) && s.acks == []
  {
    AckedInOthers(s, got);
    PigeonHole(got, Others(s));
  }

  // ----- preservation

  lemma InitInv(s: State)
    requires Init(s)
    ensures Inv(s)
  {
  }

  lemma ReloadKeepsFlags(s: State)
    requires Control(s) && ReloadEnabled(s)
    ensures Flags(ReloadStep(s))
  {
  }

  lemma ReloadKeepsLoopFlight(s: State)
    requires Flags(s) && LoopFlight(s) && ReloadEnabled(s)
    ensures LoopFlight(ReloadStep(s))
  {
    if Prints(s.toMain) {
      match s.reload
      case Loading(_) | SendOk => AppendPending(s.toMain, Printout, Printout);
      case Ask(r) => AppendPending(s.toMain, Printout, Request(r));
      case SendDone => AppendPending(s.toMain, Printout, ReloadDone);
      case _ =>
    }
  }

  lemma ReloadKeepsControl(s: State)
    requires Control(s) && ReloadEnabled(s)
    ensures Control(ReloadStep(s))
  {
    ReloadKeepsFlags(s);
    if s.main.MainIdle? || s.main.MainQuery? { ReloadKeepsLoopFlight(s); }
  }

  lemma ReloadSettled(s: State)
    requires Control(s) && ReloadEnabled(s)
    ensures Settled(ReloadStep(s)) ==> Settled(s)
  {
  }

  lemma ReloadKeeps(s: State)
    requires Inv(s) && ReloadEnabled(s)
    ensures Inv(ReloadStep(s))
  {
    ReloadKeepsControl(s);
    ReloadSettled(s);
    assert Acked(ReloadStep(s)) == Acked(s);
  }

  /** The step of one worker, seen on its own. */
  lemma WorkerAfterOk(w: Worker, st: Stage, acked: bool)
    requires WorkerOk(w, st, acked) && WorkerEnabled(w)
    ensures WorkerOk(WorkerAfter(w), st, acked || w.pc.Acking?)
    ensures w.pc.Acking? ==> !acked
    ensures Fresh(w) ==> Fresh(WorkerAfter(w))
  {
  }

  lemma WorkerAcked(s: State, i: nat)
    requires IsOther(s, i) && WorkerEnabled(s.ws[i])
    ensures Acked(WorkerStep(s, i)) == if s.ws[i].pc.Acking? then Acked(s) + [i] else Acked(s)
  {
  }

  lemma WorkerKeepsRound(s: State, i: nat)
    requires RoundOk(s) && IsOther(s, i) && WorkerEnabled(s.ws[i])
    requires s.ws[i].pc.Acking? ==> i !in Acked(s)
    ensures RoundOk(WorkerStep(s, i))
  {
    WorkerAcked(s, i);
    if s.ws[i].pc.Acking? { NoDupAppend(Acked(s), i); }
  }

  lemma WorkerKeepsOthers(s: State, i: nat)
    requires WorkersOk(s) && IsOther(s, i) && WorkerEnabled(s.ws[i])
    ensures WorkersOk(WorkerStep(s, i))
  {
    WorkerAcked(s, i);
    WorkerAfterOk(s.ws[i], StageOf(s.main, i), i in Acked(s));
  }

  lemma WorkerKeeps(s: State, i: nat)
    requires Inv(s) && IsOther(s, i) && WorkerEnabled(s.ws[i])
    ensures Inv(WorkerStep(s, i))
  {
    WorkerAfterOk(s.ws[i], StageOf(s.main, i), i in Acked(s));
    WorkerKeepsRound(s, i);
    WorkerKeepsOthers(s, i);
  }

  lemma BeginKeeps(s: State, t: Thread)
    requires Inv(s) && CanBeginQuery(s, t)
    ensures Inv(BeginQuery(s, t))
  {
    assert Acked(BeginQuery(s, t)) == Acked(s);
  }

  lemma EndKeeps(s: State, t: Thread)
    requires Inv(s) && InQuery(s, t)
    ensures Inv(EndQuery(s, t))
  {
    assert Acked(EndQuery(s, t)) == Acked(s);
  }

  lemma OtherKeeps(s: State, i: nat)
    requires Inv(s) && CanSendOther(s, i)
    ensures Inv(SendTo(s, i, OtherCmd))
  {
    assert Acked(SendTo(s, i, OtherCmd)) == Acked(s);
    AppendPending(s.ws[i].tube, OtherCmd, OtherCmd);
  }

  /** Main reads a notification in its event loop. */
  lemma MainReads(s: State)
    requires Control(s) && MainEnabled(s) && s.main.MainIdle?
    ensures Control(MainStep(s))
  {
    match s.reload
    case Await(r) =>
    case Exiting | Exited =>
    case _ =>
  }

  lemma MainWorks(s: State)
    requires Control(s) && MainEnabled(s) && !s.main.MainIdle?
    ensures Control(MainStep(s))
  {
    match s.main
    case Reply(r) =>
    case AwaitStart =>
    case Joining =>
    case _ =>
  }

  lemma MainKeepsControl(s: State)
    requires Control(s) && MainEnabled(s)
    ensures Control(MainStep(s))
  {
    if s.main.MainIdle? { MainReads(s); } else { MainWorks(s); }
  }

  lemma MainSends(s: State, r: Round, i: nat)
    requires Inv(s) && s.main == Send(r, i)
    ensures Inv(MainStep(s))
  {
    MainKeepsControl(s);
    assert Acked(MainStep(s)) == Acked(s);
    if IsOther(s, i) && OnlyOther(s.ws[i].tube) {
      AppendPending(s.ws[i].tube, OtherCmd, Cmd(r));
    }
  }

  lemma MainTakesAck(s: State, r: Round, got: seq<nat>)
    requires Inv(s) && MainEnabled(s) && s.main == Acks(r, got) && |got| + 1 < |s.ws|
    ensures Inv(MainStep(s))
  {
    MainKeepsControl(s);
    var s' := MainStep(s);
    assert s.acks == [s.acks[0]] + s.acks[1..];
    assert Acked(s') == Acked(s);
    AckedInOthers(s', s'.main.got);
  }

  lemma MainEndsRound(s: State, r: Round, got: seq<nat>)
    requires Inv(s) && MainEnabled(s) && s.main == Acks(r, got) && |got| + 1 >= |s.ws|
    ensures Inv(MainStep(s))
  {
    MainKeepsControl(s);
    FullRound(s, got);
    assert Acked(MainStep(s)) == [];
    forall i: nat | IsOther(s, i)
      ensures i in Acked(s)
    {
      assert i in Elems(got);
    }
  }

  lemma MainKeepsRead(s: State)
    requires Inv(s) && MainEnabled(s) && s.main.MainIdle?
    ensures Inv(MainStep(s))
  {
    MainKeepsControl(s);
    assert Acked(MainStep(s)) == Acked(s);
  }

  lemma MainKeepsRest(s: State)
    requires Inv(s) && MainEnabled(s) && !s.main.Send? && !s.main.Acks? && !s.main.MainIdle?
    ensures Inv(MainStep(s))
  {
    MainKeepsControl(s);
    assert Acked(MainStep(s)) == Acked(s);
  }

  lemma MainKeeps(s: State)
    requires Inv(s) && MainEnabled(s)
    ensures Inv(MainStep(s))
  {
    match s.main
    case Send(r, i) => MainSends(s, r, i);
    case Acks(r, got) =>
      if |got| + 1 < |s.ws| { MainTakesAck(s, r, got); } else { MainEndsRound(s, r, got); }
    case MainIdle => MainKeepsRead(s);
    case _ => MainKeepsRest(s);
  }

  lemma NextKeeps(s: State, s': State)
    requires Inv(s) && Next(s, s')
    ensures Inv(s')
  {
    if ProtocolNext(s, s') {
      var t :| Enabled(s, t) && s' == Step(s, t);
      match t
      case ReloadThread => ReloadKeeps(s);
      case MainThread => MainKeeps(s);
      case WorkerThread(i) => WorkerKeeps(s, i);
    } else if BeginNext(s, s') {
      var t :| CanBeginQuery(s, t) && s' == BeginQuery(s, t);
      BeginKeeps(s, t);
    } else if EndNext(s, s') {
      var t :| InQuery(s, t) && s' == EndQuery(s, t);
      EndKeeps(s, t);
    } else if OtherNext(s, s') {
      var i :| CanSendOther(s, i) && s' == SendTo(s, i, OtherCmd);
      OtherKeeps(s, i);
    }
  }

  /** The invariant holds in every state of every run, for any number of workers. */
  lemma {:induction false} RunInv(run: seq<State>)
    requires IsRun(run)
    ensures forall s <- run :: Inv(s)
  {
    if |run| == 1 {
      InitInv(run[0]);
    } else {
      var front := run[..|run| - 1];
      RunInv(front);
      NextKeeps(front[|front| - 1], run[|run| - 1]);
    }
  }

  // ----- what the invariant says about the reload

  /** When the configuration is swapped in pause mode, every other worker sits between its stop
      ack and `reload_start` with an empty command pipe, and main waits for `reload_start`. */
  lemma SwapIsExclusive(run: seq<State>, s: State)
    requires IsRun(run) && s in run
    requires s.reload.Swap? && !s.nopause
    ensures s.main.AwaitStart? && s.toMain == []
    ensures forall i: nat :: IsOther(s, i) ==> s.ws[i].pc.Parked? && s.ws[i].tube == []
  {
    RunInv(run);
  }

  /** In either mode: from the moment the old structures may be freed, no thread is in a query
      callback that began before the swap, every thread has picked up the new configuration, and
      none is inside the handshake. */
  lemma DeleteIsSafe(run: seq<State>, s: State)
    requires IsRun(run) && s in run
    requires s.reload.DeleteOld? || s.deleted
    ensures s.swapped && s.mainPicked
    ensures s.main == MainIdle || s.main == MainQuery(false) || s.main == Joining
    ensures forall i: nat :: IsOther(s, i) ==> s.ws[i].picked && (s.ws[i].pc == Idle || s.ws[i].pc == Query(false))
  {
    RunInv(run);
    forall i: nat | IsOther(s, i)
      ensures s.ws[i].picked && (s.ws[i].pc == Idle || s.ws[i].pc == Query(false))
    {
      assert WorkerOk(s.ws[i], StageOf(s.main, i), i in Acked(s));
    }
  }

  /** The acks main counts in one round are from different workers, all of them past that point;
      when it has counted them all, they are all the other workers. */
  lemma RoundAcks(run: seq<State>, s: State, r: Round, got: seq<nat>)
    requires IsRun(run) && s in run && s.main == Acks(r, got)
    ensures NoDup(got + s.acks)
    ensures forall i <- got + s.acks :: IsOther(s, i) &&
              if r == StopR then s.ws[i].pc.Parked? else s.ws[i].picked && (s.ws[i].pc == Idle || s.ws[i].pc == Query(false))
    ensures |got| == |s.ws| - 1 ==> s.acks == [] && forall i: nat :: IsOther(s, i) <==> i in got
  {
    RunInv(run);
    assert Acked(s) == got + s.acks;
    if |got| == |s.ws| - 1 {
      FullRound(s, got);
      assert forall i: nat :: IsOther(s, i) <==> i in Elems(got);
    }
  }

  /** No thread ever reads a notification or command that it does not expect there, and polling
      for a quit before a send never swallows an ack. */
  lemma NothingUnexpected(run: seq<State>, s: State)
    requires IsRun(run) && s in run
    ensures s.main.AwaitStart? && s.toMain != [] ==> s.toMain[0] == Request(StartR)
    ensures s.main.MainIdle? && s.toMain != [] ==> s.toMain[0] != Request(StartR) && s.toMain[0] != ReloadAck
    ensures s.toReload != [] ==> s.toReload == [ReloadAck] && s.reload.Await?
    ensures forall i: nat :: IsOther(s, i) && s.ws[i].tube != [] ==>
              (s.ws[i].tube[0] == Cmd(StartR) <==> s.ws[i].pc.Parked?)
  {
    RunInv(run);
    forall i: nat | IsOther(s, i) && s.ws[i].tube != []
      ensures s.ws[i].tube[0] == Cmd(StartR) <==> s.ws[i].pc.Parked?
    {
      assert WorkerOk(s.ws[i], StageOf(s.main, i), i in Acked(s));
    }
  }
}
