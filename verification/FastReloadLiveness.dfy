/** The handshake cannot get stuck, and every fair run of it ends. */
module FastReloadLiveness {
  import opened Sequences
  import opened FastReload
  import opened FastReloadSafety

  /** The reload thread was joined and main serves queries again. */
  predicate Final(s: State) {
    s.joined && (s.main.MainIdle? || s.main.MainQuery?)
  }

  /** The thread has a handshake step to make, at once or as soon as its query callback returns. */
  predicate Ready(s: State, t: Thread) {
    Enabled(s, t) || (InQuery(s, t) && Enabled(EndQuery(s, t), t))
  }

  // ----- no deadlock

  lemma MissingOther(s: State, got: seq<nat>) returns (i: nat)
    requires s.me < |s.ws| && NoDup(got) && Elems(got) <= Others(s) && |got| < |s.ws| - 1
    ensures IsOther(s, i) && i !in got
  {
    PigeonHole(got, Others(s));
    assert Others(s) - Elems(got) != {} by {
      assert Elems(got) + (Others(s) - Elems(got)) == Others(s);
    }
    i :| i in Others(s) - Elems(got);
  }

  lemma NotAckedIsReady(w: Worker, r: Round)
    requires WorkerOk(w, Asked(r), false)
    ensures WorkerEnabled(w) || (w.pc.Query? && WorkerEnabled(w.(pc := Idle)))
  {
  }

  /** A round that is short of acks is short because some worker still has to answer. */
  lemma MissingAck(s: State, r: Round, got: seq<nat>) returns (i: nat)
    requires Inv(s) && s.main == Acks(r, got) && s.acks == [] && |got| < |s.ws| - 1
    ensures IsOther(s, i) && Ready(s, WorkerThread(i))
  {
    assert Acked(s) == got + s.acks;
    AckedInOthers(s, got);
    i := MissingOther(s, got);
    NotAckedIsReady(s.ws[i], r);
  }

  /** In every reachable state before the end some thread can move the handshake on: the reload thread or
      main, or a worker that main waits for. */
  lemma NoDeadlock(s: State) returns (t: Thread)
    requires Inv(s) && !Final(s)
    ensures Ready(s, t) && (t.WorkerThread? ==> s.main.Acks?)
  {
    if ReloadEnabled(s) {
      t := ReloadThread;
    } else if s.main.Acks? && !MainEnabled(s) {
      var i := MissingAck(s, s.main.r, s.main.got);
      t := WorkerThread(i);
    } else {
      t := MainThread;
    }
  }

  // ----- the measure

  function CommandWeight(c: Command): nat {
    if c == OtherCmd then 1 else 4
  }

  function TubeWeight(q: seq<Command>): nat {
    if q == [] then 0 else CommandWeight(q[0]) + TubeWeight(q[1..])
  }

  function WorkerWeight(w: Worker): nat {
    TubeWeight(w.tube) +
    match w.pc
    case Acking(_) => 2
    case Pickup(_) => 3
    case _ => 0
  }

  function WorkersWeight(ws: seq<Worker>): nat {
    if ws == [] then 0 else WorkerWeight(ws[0]) + WorkersWeight(ws[1..])
  }

  function MainWeight(m: MainPc, n: nat): int {
    match m
    case MainIdle | MainQuery(_) => 0
    case Joining => 1
    case AwaitStart => 6 + 2 * n
    case Reply(r) => 2 + Rest(r, n)
    case MainPickup(r) => if r == StartR then 4 + n else 3
    case Acks(r, got) => (if r == StartR then 3 else 4) + n - |got| + Rest(r, n)
    case Send(r, i) => 5 + n + (n - i) + Rest(r, n)
  }

  /** After the stop round main still has the start round to go. */
  function Rest(r: Round, n: nat): nat {
    if r == StopR then 6 + 2 * n else 0
  }

  function NoteWeight(x: Notification, n: nat): nat {
    match x
    case Request(r) => if r == StartR then 1 else 6 + 2 * n + Rest(r, n)
    case ReloadDone => 2
    case _ => 1
  }

  function NotesWeight(q: seq<Notification>, n: nat): nat {
    if q == [] then 0 else NoteWeight(q[0], n) + NotesWeight(q[1..], n)
  }

  function ReloadWeight(p: ReloadPc, nopause: bool, n: nat): nat {
    match p
    case Exited => 0
    case Exiting => 1
    case SendDone => 4
    case SendOk => 6
    case DeleteOld => 7
    case Await(r) => if r == StopR then 12 else 8
    case Ask(r) => if r == StartR then 10 else if r == PollR then 15 + 2 * n else 25 + 4 * n
    case Swap => if nopause then 16 + 2 * n else 11
    case Loading(k) => 26 + 4 * n + 2 * k
  }

  /** What the reload thread and main still have to do, and what is on its way to them. */
  function Front(s: State): int {
    ReloadWeight(s.reload, s.nopause, |s.ws|) + MainWeight(s.main, |s.ws|) + NotesWeight(s.toMain, |s.ws|) + |s.toReload|
  }

  /** What the workers still have to do. */
  function Work(s: State): nat {
    WorkersWeight(s.ws)
  }

  lemma FrontNat(s: State)
    requires Inv(s)
    ensures Front(s) >= 0
  {
  }

  lemma {:induction false} NotesAppend(q: seq<Notification>, x: Notification, n: nat)
    ensures NotesWeight(q + [x], n) == NotesWeight(q, n) + NoteWeight(x, n)
  {
    if q == [] {
      assert q + [x] == [x];
    } else {
      NotesAppend(q[1..], x, n);
      assert (q + [x])[1..] == q[1..] + [x];
    }
  }

  lemma {:induction false} WorkersUpdate(ws: seq<Worker>, i: nat, w: Worker)
    requires i < |ws|
    ensures WorkersWeight(ws[i := w]) == WorkersWeight(ws) - WorkerWeight(ws[i]) + WorkerWeight(w)
  {
    if i == 0 {
      assert ws[0 := w][1..] == ws[1..];
    } else {
      WorkersUpdate(ws[1..], i - 1, w);
      assert ws[i := w][1..] == ws[1..][i - 1 := w];
    }
  }

  lemma NotifyFront(s: State, x: Notification, p: ReloadPc)
    ensures Front(Notify(s, x).(reload := p)) <= Front(s) + NoteWeight(x, |s.ws|)
              + ReloadWeight(p, s.nopause, |s.ws|) - ReloadWeight(s.reload, s.nopause, |s.ws|)
  {
    NotesAppend(s.toMain, x, |s.ws|);
  }

  lemma ReloadDrops(s: State)
    requires Flags(s) && ReloadEnabled(s)
    ensures Front(ReloadStep(s)) < Front(s)
  {
    match s.reload
    case Loading(k) => if k > 0 { NotifyFront(s, Printout, Loading(k - 1)); }
    case Ask(r) => NotifyFront(s, Request(r), Await(r));
    case SendOk => NotifyFront(s, Printout, SendDone);
    case SendDone => NotifyFront(s, ReloadDone, Exiting);
    case _ =>
  }

  lemma MainReadDrops(s: State)
    requires MainEnabled(s) && (s.main.MainIdle? || s.main.AwaitStart?)
    ensures Front(MainStep(s)) < Front(s)
  {
    var s' := MainStep(s);
    assert s'.reload == s.reload && s'.toReload == s.toReload && s'.toMain == s.toMain[1..];
    assert MainWeight(s'.main, |s.ws|) < MainWeight(s.main, |s.ws|) + NoteWeight(s.toMain[0], |s.ws|);
  }

  /** Main goes on without reading. */
  lemma MainWeightDrops(s: State, s': State)
    requires s'.reload == s.reload && s'.nopause == s.nopause && |s'.ws| == |s.ws| && s'.toMain == s.toMain
    requires MainWeight(s'.main, |s.ws|) + |s'.toReload| < MainWeight(s.main, |s.ws|) + |s.toReload|
    ensures Front(s') < Front(s)
  {
  }

  lemma SendWeight(r: Round, i: nat, n: nat)
    requires i <= n
    ensures MainWeight(Send(r, i + 1), n) < MainWeight(Send(r, i), n)
    ensures MainWeight(if r == StartR then MainPickup(r) else Acks(r, []), n) < MainWeight(Send(r, i), n)
  {
  }

  lemma MainSendDrops(s: State, r: Round, i: nat)
    requires s.main == Send(r, i) && i <= |s.ws|
    ensures Front(MainStep(s)) < Front(s)
  {
    SendWeight(r, i, |s.ws|);
    if i < |s.ws| {
      var s' := SendTo(s, i, Cmd(r));
      assert |s'.ws| == |s.ws| && s'.toReload == s.toReload;
      MainWeightDrops(s, s'.(main := Send(r, i + 1)));
    } else {
      MainWeightDrops(s, s.(main := if r == StartR then MainPickup(r) else Acks(r, [])));
    }
  }

  lemma MainAckDrops(s: State, r: Round, got: seq<nat>)
    requires MainEnabled(s) && s.main == Acks(r, got) && |got| < |s.ws|
    ensures Front(MainStep(s)) < Front(s)
  {
    MainWeightDrops(s, MainStep(s));
  }

  lemma MainRestDrops(s: State)
    requires MainEnabled(s) && (s.main.MainPickup? || s.main.Reply? || s.main.Joining?)
    requires s.main.MainPickup? ==> s.main.r != StopR
    ensures Front(MainStep(s)) < Front(s)
  {
    MainWeightDrops(s, MainStep(s));
  }

  lemma MainDrops(s: State)
    requires Inv(s) && MainEnabled(s)
    ensures Front(MainStep(s)) < Front(s)
  {
    match s.main
    case MainIdle | AwaitStart => MainReadDrops(s);
    case Send(r, i) => MainSendDrops(s, r, i);
    case Acks(r, got) => MainAckDrops(s, r, got);
    case _ => MainRestDrops(s);
  }

  lemma WorkerAfterDrops(w: Worker, st: Stage, acked: bool)
    requires WorkerOk(w, st, acked) && WorkerEnabled(w)
    ensures WorkerWeight(WorkerAfter(w)) < WorkerWeight(w)
  {
  }

  lemma WorkerDrops(s: State, i: nat)
    requires Inv(s) && IsOther(s, i) && WorkerEnabled(s.ws[i])
    ensures Front(WorkerStep(s, i)) == Front(s) && Work(WorkerStep(s, i)) < Work(s)
  {
    WorkerAfterDrops(s.ws[i], StageOf(s.main, i), i in Acked(s));
    WorkersUpdate(s.ws, i, WorkerAfter(s.ws[i]));
  }

  /** Every step of the handshake brings down what the reload thread and main have to do, or leaves that and
      brings down what the workers have to do. */
  lemma StepDrops(s: State, t: Thread)
    requires Inv(s) && Enabled(s, t)
    ensures if t.WorkerThread? then Front(Step(s, t)) == Front(s) && Work(Step(s, t)) < Work(s)
            else Front(Step(s, t)) < Front(s)
  {
    match t
    case ReloadThread => ReloadDrops(s);
    case MainThread => MainDrops(s);
    case WorkerThread(i) => WorkerDrops(s, i);
  }

  lemma BeginKeepsWeights(s: State, u: Thread)
    requires CanBeginQuery(s, u)
    ensures Front(BeginQuery(s, u)) == Front(s) && Work(BeginQuery(s, u)) == Work(s)
  {
    if u.WorkerThread? { WorkersUpdate(s.ws, u.i, s.ws[u.i].(pc := Query(!s.swapped))); }
  }

  lemma EndKeepsWeights(s: State, u: Thread)
    requires InQuery(s, u)
    ensures Front(EndQuery(s, u)) == Front(s) && Work(EndQuery(s, u)) == Work(s)
  {
    if u.WorkerThread? { WorkersUpdate(s.ws, u.i, s.ws[u.i].(pc := Idle)); }
  }

  lemma BeginKeepsReady(s: State, u: Thread, t: Thread)
    requires CanBeginQuery(s, u) && Ready(s, t)
    ensures Ready(BeginQuery(s, u), t)
  {
  }

  lemma EndKeepsReady(s: State, u: Thread, t: Thread)
    requires InQuery(s, u) && Ready(s, t)
    ensures Ready(EndQuery(s, u), t)
  {
  }

  lemma WorkerKeepsReady(s: State, i: nat, t: Thread)
    requires IsOther(s, i) && WorkerEnabled(s.ws[i]) && !t.WorkerThread? && Ready(s, t)
    ensures Ready(WorkerStep(s, i), t)
  {
  }

  lemma OtherKeepsReady(s: State, i: nat, t: Thread)
    requires CanSendOther(s, i) && !t.WorkerThread? && Ready(s, t)
    ensures Ready(SendTo(s, i, OtherCmd), t)
  {
  }

  /** A step brings down what the reload thread and main have to do, or leaves it, and then they stay ready:
      whatever else main sends to the workers. */
  lemma NextDropsOrKeeps(s: State, s': State, t: Thread)
    requires Inv(s) && Next(s, s') && !t.WorkerThread?
    ensures Front(s') < Front(s) || (Front(s') == Front(s) && (Ready(s, t) ==> Ready(s', t)))
  {
    if ProtocolNext(s, s') {
      var u :| Enabled(s, u) && s' == Step(s, u);
      StepDrops(s, u);
      if u.WorkerThread? && Ready(s, t) { WorkerKeepsReady(s, u.i, t); }
    } else if BeginNext(s, s') {
      var u :| CanBeginQuery(s, u) && s' == BeginQuery(s, u);
      BeginKeepsWeights(s, u);
      if Ready(s, t) { BeginKeepsReady(s, u, t); }
    } else if EndNext(s, s') {
      var u :| InQuery(s, u) && s' == EndQuery(s, u);
      EndKeepsWeights(s, u);
      if Ready(s, t) { EndKeepsReady(s, u, t); }
    } else if OtherNext(s, s') {
      var i :| CanSendOther(s, i) && s' == SendTo(s, i, OtherCmd);
      if Ready(s, t) { OtherKeepsReady(s, i, t); }
    }
  }

  predicate Less(s': State, s: State) {
    Front(s') < Front(s) || (Front(s') == Front(s) && Work(s') < Work(s))
  }

  /** While main waits for acks, a step brings down what there is to do, or leaves it and who is ready. */
  lemma RoundDropsOrKeeps(s: State, s': State, t: Thread)
    requires Inv(s) && Next(s, s') && s.main.Acks?
    ensures Less(s', s) || (Front(s') == Front(s) && Work(s') == Work(s) && s'.main == s.main && (Ready(s, t) ==> Ready(s', t)))
  {
    if ProtocolNext(s, s') {
      var u :| Enabled(s, u) && s' == Step(s, u);
      StepDrops(s, u);
    } else if BeginNext(s, s') {
      var u :| CanBeginQuery(s, u) && s' == BeginQuery(s, u);
      BeginKeepsWeights(s, u);
      if Ready(s, t) { BeginKeepsReady(s, u, t); }
    } else if EndNext(s, s') {
      var u :| InQuery(s, u) && s' == EndQuery(s, u);
      EndKeepsWeights(s, u);
      if Ready(s, t) { EndKeepsReady(s, u, t); }
    }
  }

  // ----- fair runs end

  ghost predicate NextAt(run: nat -> State, k: nat) {
    Next(run(k), run(k + 1))
  }

  ghost predicate IsInfiniteRun(run: nat -> State) {
    Init(run(0)) && forall k: nat :: NextAt(run, k)
  }

  predicate Takes(s: State, s': State, t: Thread) {
    Enabled(s, t) && s' == Step(s, t)
  }

  ghost predicate Always(p: nat -> bool, k: nat) {
    forall i: nat :: k <= i ==> p(i)
  }

  ghost predicate Eventually(p: nat -> bool, k: nat) {
    exists i: nat :: k <= i && p(i)
  }

  ghost function ReadyAt(run: nat -> State, t: Thread): nat -> bool {
    (i: nat) => Ready(run(i), t)
  }

  ghost function TakesAt(run: nat -> State, t: Thread): nat -> bool {
    (i: nat) => Takes(run(i), run(i + 1), t)
  }

  /** Main waits for acks and the thread is ready. */
  ghost function AwaitedAt(run: nat -> State, t: Thread): nat -> bool {
    (i: nat) => run(i).main.Acks? && Ready(run(i), t)
  }

  ghost function FrontAt(run: nat -> State): nat -> int {
    (i: nat) => Front(run(i))
  }

  ghost function WorkAt(run: nat -> State): nat -> int {
    (i: nat) => Work(run(i))
  }

  /** Query callbacks return and event loops get round to their command pipes: a thread that
      stays ready takes its step at some point. */
  ghost predicate Fair(run: nat -> State) {
    forall t: Thread, k: nat :: Always(ReadyAt(run, t), k) ==> Eventually(TakesAt(run, t), k)
  }

  lemma {:induction false} InfiniteRunInv(run: nat -> State, k: nat)
    requires IsInfiniteRun(run)
    ensures Inv(run(k))
  {
    if k == 0 {
      InitInv(run(0));
    } else {
      InfiniteRunInv(run, k - 1);
      assert NextAt(run, k - 1);
      NextKeeps(run(k - 1), run(k));
    }
  }

  ghost predicate Below(a: nat -> int, b: nat -> int, j: nat, k: nat) {
    a(j) < a(k) || (a(j) == a(k) && b(j) < b(k))
  }

  ghost predicate Level(a: nat -> int, b: nat -> int, j: nat, k: nat) {
    a(j) == a(k) && b(j) == b(k)
  }

  /** While something is held, step `i` brings the measure down, or leaves it and what is held. */
  ghost predicate DropsOrHolds(a: nat -> int, b: nat -> int, held: nat -> bool, i: nat) {
    held(i) ==> Below(a, b, i + 1, i) || (Level(a, b, i + 1, i) && held(i + 1))
  }

  ghost predicate ActsDrop(a: nat -> int, b: nat -> int, acts: nat -> bool, i: nat) {
    acts(i) ==> Below(a, b, i + 1, i)
  }

  lemma {:induction false} HeldOrDropped(a: nat -> int, b: nat -> int, held: nat -> bool, k: nat, j: nat) returns (d: nat)
    requires k <= j && held(k)
    requires forall i: nat :: DropsOrHolds(a, b, held, i)
    ensures Below(a, b, d, k) || (Level(a, b, j, k) && held(j))
    decreases j - k
  {
    d := k;
    if k < j {
      d := HeldOrDropped(a, b, held, k, j - 1);
      if !Below(a, b, d, k) {
        assert DropsOrHolds(a, b, held, j - 1);
        d := j;
      }
    }
  }

  /** What is held for good is acted on, and acting brings the measure down. */
  lemma FairDrop(a: nat -> int, b: nat -> int, held: nat -> bool, acts: nat -> bool, k: nat) returns (j: nat)
    requires held(k)
    requires forall i: nat :: DropsOrHolds(a, b, held, i)
    requires forall i: nat :: ActsDrop(a, b, acts, i)
    requires Always(held, k) ==> Eventually(acts, k)
    ensures Below(a, b, j, k)
  {
    if Always(held, k) {
      var i: nat :| k <= i && acts(i);
      j := HeldOrDropped(a, b, held, k, i);
      if !Below(a, b, j, k) {
        assert ActsDrop(a, b, acts, i);
        j := i + 1;
      }
    } else {
      var i: nat :| k <= i && !held(i);
      j := HeldOrDropped(a, b, held, k, i);
    }
  }

  // the reload thread or main is ready

  lemma FrontKeeps(run: nat -> State, t: Thread, i: nat)
    requires IsInfiniteRun(run) && !t.WorkerThread?
    ensures var s, s' := run(i), run(i + 1);
      Front(s') < Front(s) || (Front(s') == Front(s) && (Ready(s, t) ==> Ready(s', t)))
  {
    InfiniteRunInv(run, i);
    assert NextAt(run, i);
    NextDropsOrKeeps(run(i), run(i + 1), t);
  }

  lemma FrontHolds(run: nat -> State, none: nat -> int, t: Thread, i: nat)
    requires IsInfiniteRun(run) && !t.WorkerThread? && none(i) == none(i + 1)
    ensures DropsOrHolds(FrontAt(run), none, ReadyAt(run, t), i)
  {
    FrontKeeps(run, t, i);
  }

  lemma TakesDrops(s: State, s': State, t: Thread)
    requires Inv(s)
    ensures Takes(s, s', t) ==> Less(s', s) && (!t.WorkerThread? ==> Front(s') < Front(s))
  {
    if Takes(s, s', t) { StepDrops(s, t); }
  }

  lemma FrontActs(run: nat -> State, none: nat -> int, t: Thread, i: nat)
    requires Takes(run(i), run(i + 1), t) ==> Front(run(i + 1)) < Front(run(i))
    ensures ActsDrop(FrontAt(run), none, TakesAt(run, t), i)
  {
  }

  lemma FrontDrops(run: nat -> State, none: nat -> int, k: nat, t: Thread) returns (j: nat)
    requires IsInfiniteRun(run) && Fair(run) && !t.WorkerThread? && ReadyAt(run, t)(k)
    requires forall i: nat :: none(i) == 0
    ensures FrontAt(run)(j) < FrontAt(run)(k)
  {
    forall i: nat
      ensures DropsOrHolds(FrontAt(run), none, ReadyAt(run, t), i)
      ensures ActsDrop(FrontAt(run), none, TakesAt(run, t), i)
    {
      FrontHolds(run, none, t, i);
      InfiniteRunInv(run, i);
      TakesDrops(run(i), run(i + 1), t);
      FrontActs(run, none, t, i);
    }
    j := FairDrop(FrontAt(run), none, ReadyAt(run, t), TakesAt(run, t), k);
  }

  // main waits for a worker that is ready

  lemma RoundKeeps(run: nat -> State, t: Thread, i: nat)
    requires IsInfiniteRun(run) && run(i).main.Acks? && Ready(run(i), t)
    ensures var s, s' := run(i), run(i + 1);
      Less(s', s) || (Front(s') == Front(s) && Work(s') == Work(s) && s'.main.Acks? && Ready(s', t))
  {
    InfiniteRunInv(run, i);
    assert NextAt(run, i);
    RoundDropsOrKeeps(run(i), run(i + 1), t);
  }

  lemma AwaitedIsReady(run: nat -> State, t: Thread, k: nat)
    requires Always(AwaitedAt(run, t), k)
    ensures Always(ReadyAt(run, t), k)
  {
    forall i: nat | k <= i
      ensures ReadyAt(run, t)(i)
    {
      assert AwaitedAt(run, t)(i);
    }
  }

  lemma RoundHolds(run: nat -> State, t: Thread, i: nat)
    requires IsInfiniteRun(run)
    ensures DropsOrHolds(FrontAt(run), WorkAt(run), AwaitedAt(run, t), i)
  {
    if AwaitedAt(run, t)(i) { RoundKeeps(run, t, i); }
  }

  lemma RoundActs(run: nat -> State, t: Thread, i: nat)
    requires Takes(run(i), run(i + 1), t) ==> Less(run(i + 1), run(i))
    ensures ActsDrop(FrontAt(run), WorkAt(run), TakesAt(run, t), i)
  {
  }

  lemma RoundDrops(run: nat -> State, k: nat, t: Thread) returns (j: nat)
    requires IsInfiniteRun(run) && Fair(run) && AwaitedAt(run, t)(k)
    ensures Below(FrontAt(run), WorkAt(run), j, k)
  {
    forall i: nat
      ensures DropsOrHolds(FrontAt(run), WorkAt(run), AwaitedAt(run, t), i)
      ensures ActsDrop(FrontAt(run), WorkAt(run), TakesAt(run, t), i)
    {
      RoundHolds(run, t, i);
      InfiniteRunInv(run, i);
      TakesDrops(run(i), run(i + 1), t);
      RoundActs(run, t, i);
    }
    if Always(AwaitedAt(run, t), k) { AwaitedIsReady(run, t, k); }
    j := FairDrop(FrontAt(run), WorkAt(run), AwaitedAt(run, t), TakesAt(run, t), k);
  }

  lemma {:induction false} FinalAfter(run: nat -> State, k: nat) returns (f: nat)
    requires IsInfiniteRun(run) && Fair(run)
    ensures Final(run(f))
    decreases Front(run(k)), Work(run(k))
  {
    InfiniteRunInv(run, k);
    FrontNat(run(k));
    if Final(run(k)) {
      f := k;
    } else {
      var t := NoDeadlock(run(k));
      var j: nat;
      if t.WorkerThread? {
        j := RoundDrops(run, k, t);
      } else {
        j := FrontDrops(run, _ => 0, k, t);
      }
      f := FinalAfter(run, j);
    }
  }

  /** The worker serves queries with the new configuration, and its pipe holds no command of the handshake. */
  predicate BackToWork(w: Worker) {
    && w.picked && (w.pc == Idle || w.pc == Query(false))
    && forall k :: 0 <= k < |w.tube| ==> w.tube[k] == OtherCmd
  }

  lemma {:induction false} OnlyOthers(tube: seq<Command>)
    requires OnlyOther(tube)
    ensures forall k :: 0 <= k < |tube| ==> tube[k] == OtherCmd
  {
    if tube != [] {
      OnlyOthers(tube[1..]);
    }
  }

  /** Every fair run, with any number of workers, gets to where the reload thread has been joined
      after swapping and deleting, and every thread is back in its event loop with the new
      configuration and nothing of the handshake left in any channel. */
  lemma EveryFairRunEnds(run: nat -> State) returns (f: nat)
    requires IsInfiniteRun(run) && Fair(run)
    ensures var s := run(f);
      && s.joined && s.reload == Exited && s.swapped && s.deleted
      && s.acks == [] && s.toMain == [] && s.toReload == []
      && s.mainPicked && (s.main == MainIdle || s.main == MainQuery(false))
      && forall i: nat :: IsOther(s, i) ==> BackToWork(s.ws[i])
  {
    f := FinalAfter(run, 0);
    InfiniteRunInv(run, f);
    FinalState(run(f));
  }

  lemma FinalState(s: State)
    requires Inv(s) && Final(s)
    ensures s.reload == Exited && s.swapped && s.deleted
    ensures s.acks == [] && s.toMain == [] && s.toReload == []
    ensures s.mainPicked && (s.main == MainIdle || s.main == MainQuery(false))
    ensures forall i: nat :: IsOther(s, i) ==> BackToWork(s.ws[i])
  {
    assert Acked(s) == s.acks;
    assert Elems(s.acks) == {};
    PigeonHole(s.acks, {});
    forall i: nat | IsOther(s, i)
      ensures BackToWork(s.ws[i])
    {
      OnlyOthers(s.ws[i].tube);
    }
  }
}
