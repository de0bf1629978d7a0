/** The fast-reload handshake between the reload thread, the main thread and the other workers.

    Every thread is a program counter; the socket pair (`commpair`), the ack byte stream
    (`commreload`) and the command pipe of each worker are FIFO sequences.  One step of a thread
    is one send, one receive, or one action between them.  Reads take whatever is at the head of
    the channel and carry on, as the code does: that only the right notification is ever read is
    a consequence, not an assumption.
 */
module FastReload {
  import opened Sequences

  /** The three rounds of commands and acks: `reload_stop`, `reload_start` and `reload_poll`. */
  datatype Round = StopR | StartR | PollR

  /** What travels over the socket pair; `ReloadAck` goes to the reload thread, the rest to main. */
  datatype Notification = Printout | Request(r: Round) | ReloadDone | ReloadAck

  datatype Command = OtherCmd | Cmd(r: Round)

  /** Where the reload thread is in `fr_load_config` and `fast_reload_thread_main`. */
  datatype ReloadPc =
    | Loading(prints: nat)  // still reading and constructing, with this many lines to print
    | Ask(r: Round) | Await(r: Round)
    | Swap
    | DeleteOld
    | SendOk | SendDone | Exiting | Exited

  /** Where the main thread is.  `got` lists the senders of the ack bytes counted so far;
      `stale` tells that the running callback began before the swap. */
  datatype MainPc =
    | MainIdle | MainQuery(stale: bool)
    | Send(r: Round, next: nat) | Acks(r: Round, got: seq<nat>) | MainPickup(r: Round) | Reply(r: Round)
    | AwaitStart
    | Joining

  /** Where another worker is. */
  datatype WorkerPc =
    | Idle | Query(stale: bool)
    | Pickup(r: Round) | Acking(r: Round)
    | Parked

  /** A worker, the commands in its pipe, and whether it picked up the new configuration. */
  datatype Worker = Worker(pc: WorkerPc, tube: seq<Command>, picked: bool)

  /** `me` is the thread number of the main thread; `ws[me]` is not used. */
  datatype State = State(
    nopause: bool,
    me: nat,
    reload: ReloadPc,
    main: MainPc,
    ws: seq<Worker>,
    acks: seq<nat>,
    toMain: seq<Notification>,
    toReload: seq<Notification>,
    swapped: bool,
    deleted: bool,
    mainPicked: bool,
    joined: bool)

  datatype Thread = ReloadThread | MainThread | WorkerThread(i: nat)

  // ----- one step of each thread

  /** `fr_send_notification`: polls for a quit first, which takes a pending message off the channel. */
  function Notify(s: State, n: Notification): State {
    s.(toReload := if s.toReload == [] then [] else s.toReload[1..], toMain := s.toMain + [n])
  }

  predicate ReloadEnabled(s: State) {
    match s.reload
    case Await(_) => s.toReload != []
    case Exited => false
    case _ => true
  }

  function ReloadStep(s: State): State
    requires ReloadEnabled(s)
  {
    match s.reload
    case Loading(k) =>
      if k > 0 then Notify(s, Printout).(reload := Loading(k - 1))
      else s.(reload := if s.nopause then Swap else Ask(StopR))
    case Ask(r) => Notify(s, Request(r)).(reload := Await(r))
    case Await(r) => s.(toReload := s.toReload[1..], reload := if r == StopR then Swap else DeleteOld)
    case Swap => s.(swapped := true, reload := Ask(if s.nopause then PollR else StartR))
    case DeleteOld => s.(deleted := true, reload := SendOk)
    case SendOk => Notify(s, Printout).(reload := SendDone)
    case SendDone => Notify(s, ReloadDone).(reload := Exiting)
    case Exiting => s.(reload := Exited)
  }

  predicate MainEnabled(s: State) {
    match s.main
    case MainIdle | AwaitStart => s.toMain != []
    case MainQuery(_) => false
    case Acks(_, got) => |got| + 1 >= |s.ws| || s.acks != []
    case Joining => s.reload.Exited?
    case _ => true
  }

  /** `worker_send_cmd` in the loops over all workers but this one. */
  function SendTo(s: State, i: nat, c: Command): State
    requires i < |s.ws|
  {
    if i == s.me then s else s.(ws := s.ws[i := s.ws[i].(tube := s.ws[i].tube + [c])])
  }

  /** `fr_main_perform_cmd`, `fr_main_perform_reload_stop` and `fr_main_perform_reload_nopause_poll`:
      main picks up its own changes before the acks of the start round, after those of the poll round. */
  function MainStep(s: State): State
    requires MainEnabled(s)
  {
    match s.main
    case MainIdle =>
      var s1 := s.(toMain := s.toMain[1..]);
      (match s.toMain[0]
       case Request(r) => if r == StartR then s1 else s1.(main := Send(r, 0))
       case ReloadDone => s1.(main := Joining)
       case _ => s1)
    case Send(r, i) =>
      if i < |s.ws| then SendTo(s, i, Cmd(r)).(main := Send(r, i + 1))
      else s.(main := if r == StartR then MainPickup(r) else Acks(r, []))
    case Acks(r, got) =>
      if |got| + 1 < |s.ws| then s.(main := Acks(r, got + [s.acks[0]]), acks := s.acks[1..])
      else s.(main := if r == PollR then MainPickup(r) else Reply(r))
    case MainPickup(r) => s.(mainPicked := true, main := if r == StartR then Acks(r, []) else Reply(r))
    case Reply(r) => s.(toReload := s.toReload + [ReloadAck], main := if r == StopR then AwaitStart else MainIdle)
    case AwaitStart => s.(toMain := s.toMain[1..], main := Send(StartR, 0))
    case Joining => s.(joined := true, main := MainIdle)
  }

  predicate WorkerEnabled(w: Worker) {
    match w.pc
    case Idle | Parked => w.tube != []
    case Query(_) => false
    case _ => true
  }

  /** `worker_handle_control_cmd` and `worker_stop_and_wait`. */
  function WorkerAfter(w: Worker): Worker
    requires WorkerEnabled(w)
  {
    match w.pc
    case Idle =>
      var w1 := w.(tube := w.tube[1..]);
      (match w.tube[0]
       case Cmd(r) => w1.(pc := if r == StopR then Acking(r) else if r == PollR then Pickup(r) else Idle)
       case _ => w1)
    case Parked => w.(tube := w.tube[1..], pc := Pickup(StartR))
    case Pickup(r) => w.(picked := true, pc := Acking(r))
    case Acking(r) => w.(pc := if r == StopR then Parked else Idle)
  }

  predicate IsOther(s: State, i: nat) {
    i < |s.ws| && i != s.me
  }

  /** `Acking` is `worker_send_reload_ack`: one byte on the shared stream. */
  function WorkerStep(s: State, i: nat): State
    requires IsOther(s, i) && WorkerEnabled(s.ws[i])
  {
    s.(ws := s.ws[i := WorkerAfter(s.ws[i])],
       acks := if s.ws[i].pc.Acking? then s.acks + [i] else s.acks)
  }

  // ----- the transition system

  predicate Enabled(s: State, t: Thread) {
    match t
    case ReloadThread => ReloadEnabled(s)
    case MainThread => MainEnabled(s)
    case WorkerThread(i) => IsOther(s, i) && WorkerEnabled(s.ws[i])
  }

  /** A step of the handshake. */
  function Step(s: State, t: Thread): State
    requires Enabled(s, t)
  {
    match t
    case ReloadThread => ReloadStep(s)
    case MainThread => MainStep(s)
    case WorkerThread(i) => WorkerStep(s, i)
  }

  /** Whether a thread is inside a query callback. */
  predicate InQuery(s: State, t: Thread) {
    match t
    case ReloadThread => false
    case MainThread => s.main.MainQuery?
    case WorkerThread(i) => IsOther(s, i) && s.ws[i].pc.Query?
  }

  predicate CanBeginQuery(s: State, t: Thread) {
    match t
    case ReloadThread => false
    case MainThread => s.main.MainIdle?
    case WorkerThread(i) => IsOther(s, i) && s.ws[i].pc.Idle?
  }

  function BeginQuery(s: State, t: Thread): State
    requires CanBeginQuery(s, t)
  {
    match t
    case MainThread => s.(main := MainQuery(!s.swapped))
    case WorkerThread(i) => s.(ws := s.ws[i := s.ws[i].(pc := Query(!s.swapped))])
  }

  function EndQuery(s: State, t: Thread): State
    requires InQuery(s, t)
  {
    match t
    case MainThread => s.(main := MainIdle)
    case WorkerThread(i) => s.(ws := s.ws[i := s.ws[i].(pc := Idle)])
  }

  ghost predicate ProtocolNext(s: State, s': State) {
    exists t :: Enabled(s, t) && s' == Step(s, t)
  }

  ghost predicate BeginNext(s: State, s': State) {
    exists t :: CanBeginQuery(s, t) && s' == BeginQuery(s, t)
  }

  ghost predicate EndNext(s: State, s': State) {
    exists t :: InQuery(s, t) && s' == EndQuery(s, t)
  }

  /** In its event loop main can send other commands, such as those for statistics, at any time. */
  predicate CanSendOther(s: State, i: nat) {
    IsOther(s, i) && (s.main.MainIdle? || s.main.MainQuery?)
  }

  ghost predicate OtherNext(s: State, s': State) {
    exists i :: CanSendOther(s, i) && s' == SendTo(s, i, OtherCmd)
  }

  /** A handshake step, an event loop starting or finishing a query callback, another command, or nothing. */
  ghost predicate Next(s: State, s': State) {
    s' == s || ProtocolNext(s, s') || BeginNext(s, s') || EndNext(s, s') || OtherNext(s, s')
  }

  /** Whatever else goes on, main may send another command from its event loop or from a query. */
  lemma OthersAtAnyTime(s: State, i: nat)
    requires IsOther(s, i) && (s.main == MainIdle || s.main.MainQuery?)
    ensures Next(s, s.(ws := s.ws[i := s.ws[i].(tube := s.ws[i].tube + [OtherCmd])]))
  {
    assert CanSendOther(s, i) && SendTo(s, i, OtherCmd) == s.(ws := s.ws[i := s.ws[i].(tube := s.ws[i].tube + [OtherCmd])]);
  }

  /** Nothing but `filler` in the queue, and then `tail`. */
  predicate Pending<T(==)>(q: seq<T>, filler: T, tail: seq<T>) {
    q == tail || (q != [] && q[0] == filler && Pending(q[1..], filler, tail))
  }

  predicate OnlyOther(tube: seq<Command>) {
    Pending(tube, OtherCmd, [])
  }

  /** Any number of workers, running or idle, with any unrelated commands still in their pipes. */
  ghost predicate Init(s: State) {
    && s.me < |s.ws|
    && s.reload.Loading?
    && (s.main == MainIdle || s.main == MainQuery(true))
    && (forall i: nat :: IsOther(s, i) ==>
          && (s.ws[i].pc == Idle || s.ws[i].pc == Query(true))
          && OnlyOther(s.ws[i].tube)
          && !s.ws[i].picked)
    && s.acks == [] && s.toMain == [] && s.toReload == []
    && !s.swapped && !s.deleted && !s.mainPicked && !s.joined
  }

  /** A finite run from an initial state. */
  ghost predicate IsRun(run: seq<State>) {
    && run != []
    && Init(run[0])
    && forall k :: 0 <= k < |run| - 1 ==> Next(run[k], run[k + 1])
  }

  // ----- the invariant

  /** The acks of the current round: counted by main, then still in the stream. */
  function Acked(s: State): seq<nat> {
    (if s.main.Acks? then s.main.got else []) + s.acks
  }

  predicate Serving(w: Worker) {
    w.pc.Idle? || w.pc.Query?
  }

  /** Has let go of everything that belongs to the old configuration. */
  predicate Fresh(w: Worker) {
    w.picked && w.pc != Query(true)
  }

  datatype Stage = Serve | Asked(r: Round) | Stopped

  /** What main has asked of worker `i`. */
  function StageOf(m: MainPc, i: nat): Stage {
    match m
    case Send(r, k) => if i < k then Asked(r) else if r == StartR then Stopped else Serve
    case Acks(r, _) => Asked(r)
    case MainPickup(r) => if r == StartR then Asked(r) else Serve
    case Reply(r) => if r == StopR then Stopped else Serve
    case AwaitStart => Stopped
    case _ => Serve
  }

  /** Where a worker can be in each stage, `acked` telling whether its ack of the round is out. */
  predicate WorkerOk(w: Worker, st: Stage, acked: bool) {
    match st
    case Serve => Serving(w) && OnlyOther(w.tube) && !acked
    case Stopped => w.pc.Parked? && w.tube == [] && !acked
    case Asked(r) =>
      if acked then w.tube == [] && if r == StopR then w.pc.Parked? else Serving(w) && Fresh(w)
      else
        match w.pc
        case Idle | Query(_) => r != StartR && Pending(w.tube, OtherCmd, [Cmd(r)])
        case Parked => r == StartR && w.tube == [Cmd(r)]
        case Pickup(p) => p == r && r != StopR && w.tube == []
        case Acking(p) => p == r && w.tube == [] && (r != StopR ==> w.picked)
  }

  predicate Prints(c: seq<Notification>) {
    Pending(c, Printout, [])
  }

  predicate PrintsThen(c: seq<Notification>, n: Notification) {
    Pending(c, Printout, [n])
  }

  /** What has happened is told by where the reload thread is. */
  predicate Flags(s: State) {
    match s.reload
    case Loading(_) => !s.swapped && !s.deleted && !s.joined
    case Ask(_) | Await(_) =>
      (s.swapped <==> s.reload.r != StopR) && (s.nopause <==> s.reload.r == PollR) && !s.deleted && !s.joined
    case Swap => !s.swapped && !s.deleted && !s.joined
    case DeleteOld => s.swapped && !s.deleted && !s.joined
    case SendOk | SendDone | Exiting => s.swapped && s.deleted && !s.joined
    case Exited => s.swapped && s.deleted
  }

  /** Main is in its event loop: what is in flight. */
  predicate LoopFlight(s: State) {
    match s.reload
    case Loading(_) | SendDone => Prints(s.toMain) && s.toReload == []
    case Ask(r) => r != StartR && Prints(s.toMain) && s.toReload == []
    case Swap => s.nopause && Prints(s.toMain) && s.toReload == []
    case Await(r) =>
      || (r != StartR && PrintsThen(s.toMain, Request(r)) && s.toReload == [])
      || (r != StopR && s.toMain == [] && s.toReload == [ReloadAck])
    case DeleteOld | SendOk => s.toMain == [] && s.toReload == []
    case Exiting | Exited =>
      s.toReload == [] && if s.joined then s.toMain == [] else PrintsThen(s.toMain, ReloadDone)
  }

  /** Main waits for `reload_start`: what is in flight. */
  predicate HoldFlight(s: State) {
    match s.reload
    case Swap => !s.nopause && s.toMain == [] && s.toReload == []
    case Ask(r) => r == StartR && s.toMain == [] && s.toReload == []
    case Await(r) =>
      if r == StopR then s.toMain == [] && s.toReload == [ReloadAck]
      else r == StartR && s.toMain == [Request(StartR)] && s.toReload == []
    case _ => false
  }

  /** How the two ends of the socket pair fit together, by what main is doing. */
  predicate InFlight(s: State) {
    match s.main
    case MainIdle | MainQuery(_) => LoopFlight(s)
    case AwaitStart => HoldFlight(s)
    case Send(_, _) | Acks(_, _) | Reply(_) | MainPickup(_) =>
      && s.reload == Await(s.main.r) && s.toMain == [] && s.toReload == []
      && (s.main.MainPickup? ==> s.main.r != StopR)
    case Joining => (s.reload.Exiting? || s.reload.Exited?) && !s.joined && s.toMain == [] && s.toReload == []
  }

  predicate Control(s: State) {
    Flags(s) && InFlight(s)
  }

  /** The last round is over: every worker has answered with the new configuration in place. */
  predicate Settled(s: State) {
    || (s.main.Reply? && s.main.r != StopR)
    || (s.main.MainPickup? && s.main.r == PollR)
    || (s.toReload != [] && s.reload.Await? && s.reload.r != StopR)
    || s.reload.DeleteOld? || s.deleted
  }

  predicate MainFresh(s: State) {
    s.mainPicked && s.main != MainQuery(true)
  }

  /** The acks of a round come from different workers, none of them main. */
  ghost predicate RoundOk(s: State) {
    && NoDup(Acked(s))
    && (forall i <- Acked(s) :: IsOther(s, i))
    && (s.main.Acks? ==> |s.main.got| < |s.ws|)
  }

  ghost predicate WorkersOk(s: State) {
    && (forall i: nat :: IsOther(s, i) ==> WorkerOk(s.ws[i], StageOf(s.main, i), i in Acked(s)))
    && (s.main.Send? ==> s.main.next <= |s.ws|)
  }

  ghost predicate FreshOk(s: State) {
    && (Settled(s) ==> forall i: nat :: IsOther(s, i) ==> Fresh(s.ws[i]))
    && (Settled(s) && !s.main.MainPickup? ==> MainFresh(s))
    && (s.main.Acks? && s.main.r == StartR ==> s.mainPicked)
  }

  ghost predicate Inv(s: State) {
    s.me < |s.ws| && Control(s) && RoundOk(s) && WorkersOk(s) && FreshOk(s)
  }
}
