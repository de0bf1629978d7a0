/** The allocators and caches of `daemon/daemon.c` over restarts that may keep them. */
module DaemonLifecycle {
  import opened Options

  // ----- allocators of RRset ids (util/alloc.c)

  const RANGE := 0x1_0000_0000_0000  // 1 << THRNUM_SHIFT

  /** The allocator of a thread: the next id it gives out. */
  datatype Alloc = Alloc(thread: nat, next: nat)

  function FirstId(thread: nat): nat {
    RANGE * thread + 1
  }

  function LastId(thread: nat): nat {
    RANGE * thread + (RANGE - 1)
  }

  predicate AllocOk(a: Alloc, thread: nat) {
    a.thread == thread && FirstId(thread) <= a.next <= LastId(thread)
  }

  /** The id was given out by the allocator since it started, or started again. */
  predicate Issued(a: Alloc, id: nat) {
    FirstId(a.thread) <= id < a.next
  }

  predicate AllocsOk(allocs: seq<Alloc>) {
    forall t :: 0 <= t < |allocs| ==> AllocOk(allocs[t], t)
  }

  predicate IssuedByOne(allocs: seq<Alloc>, id: nat) {
    exists t :: 0 <= t < |allocs| && Issued(allocs[t], id)
  }

  /** An id that no allocator has given out is new, because the ranges of the threads are apart. */
  lemma NextIsNew(allocs: seq<Alloc>, t: nat)
    requires AllocsOk(allocs) && t < |allocs|
    ensures !IssuedByOne(allocs, allocs[t].next)
  {
    forall u | 0 <= u < |allocs|
      ensures !Issued(allocs[u], allocs[t].next)
    {
      assert AllocOk(allocs[u], u) && AllocOk(allocs[t], t);
    }
  }

  // ----- configuration and caches

  datatype Config = Config(
    numThreads: nat, port: int, soReuseport: bool,
    msgSize: nat, msgSlabs: nat, rrsetSize: nat, rrsetSlabs: nat)

  /** A cache: its number of slabs, their total size, and the RRset ids in it. */
  datatype CacheState = CacheState(slabs: nat, total: nat, ids: set<nat>)

  /** `slabhash_is_size`. */
  predicate IsSize(c: CacheState, size: nat, slabs: nat) {
    c.slabs == slabs && slabs != 0 && size / slabs * slabs == c.total
  }

  function Cleared(c: CacheState): CacheState {
    c.(ids := {})
  }

  function Created(size: nat, slabs: nat): CacheState {
    CacheState(slabs, if slabs == 0 then 0 else size / slabs * slabs, {})
  }

  /** The number of threads that a configuration asks for. */
  function Threads(cfg: Config): nat {
    if cfg.numThreads != 0 then cfg.numThreads else 1
  }

  /** The state that a restart can keep: the allocators and the ids in both caches. */
  datatype Caches = Caches(allocs: seq<Alloc>, rrsets: set<nat>, msgs: set<nat>)

  function FreshAllocs(n: nat): seq<Alloc> {
    seq(n, (t: nat) => Alloc(t, FirstId(t)))
  }

  function FreshCaches(n: nat): Caches {
    Caches(FreshAllocs(n), {}, {})
  }

  /** The id that a worker gets next; its range starts again when it is used up. */
  function NextId(a: Alloc): nat {
    if a.next == LastId(a.thread) then FirstId(a.thread) else a.next
  }

  /** A worker stores an RRset; everything cached goes when its range of ids starts again. */
  function Stored(c: Caches, t: nat): Caches
    requires t < |c.allocs|
  {
    var id := NextId(c.allocs[t]);
    var allocs := c.allocs[t := c.allocs[t].(next := id + 1)];
    if id < c.allocs[t].next then Caches(allocs, {id}, {}) else Caches(allocs, c.rrsets + {id}, c.msgs)
  }

  predicate CachedOk(c: Caches) {
    AllocsOk(c.allocs) && forall id :: id in c.rrsets + c.msgs ==> IssuedByOne(c.allocs, id)
  }

  /** Where the run loop is. */
  datatype Phase = Down | Applied | Opened | Running

  class Daemon {
    var phase: Phase
    var cfg: Config
    var listeningPort: int
    var reuseport: bool
    var numPorts: nat
    var num: nat                     // worker threads, 0 when there are none
    var oldNum: nat                  // worker threads before the restart
    var allocs: Option<seq<Alloc>>   // worker_allocs
    var rrsets: CacheState
    var msgs: CacheState
    var reuseCache: bool
    var needToExit: bool

    /** Every id in a cache was given out by an allocator that is still there. */
    ghost predicate CachesOk()
      reads this
    {
      && (allocs.Some? ==> AllocsOk(allocs.value))
      && (forall id :: id in rrsets.ids ==> allocs.Some? && IssuedByOne(allocs.value, id))
      && (forall id :: id in msgs.ids ==> allocs.Some? && IssuedByOne(allocs.value, id))
    }

    /** The allocators fit the threads that there were, or are going to be. */
    ghost predicate CountsOk()
      reads this
    {
      match phase
      case Down => (allocs.Some? ==> |allocs.value| == oldNum) && (reuseport ==> numPorts <= oldNum)
      case Applied =>
        (allocs.Some? ==> |allocs.value| == oldNum == Threads(cfg)) && (reuseport ==> numPorts <= oldNum)
      case Opened =>
        (allocs.Some? ==> |allocs.value| == Threads(cfg) && (reuseport ==> numPorts <= Threads(cfg)))
      case Running => allocs.Some? && |allocs.value| == num > 0 && (reuseport ==> numPorts <= num)
    }

    ghost predicate Valid()
      reads this
    {
      CachesOk() && CountsOk()
    }

    ghost function View(): Caches
      reads this
      requires allocs.Some?
    {
      Caches(allocs.value, rrsets.ids, msgs.ids)
    }

    ghost function PortsView(): Ports
      reads this
    {
      Ports(listeningPort, reuseport, numPorts)
    }

    /** Both caches have the sizes of the configuration. */
    ghost predicate HasShape(c: Config)
      reads this
    {
      Cleared(msgs) == Created(c.msgSize, c.msgSlabs) && Cleared(rrsets) == Created(c.rrsetSize, c.rrsetSlabs)
    }

    /** `daemon_init`. */
    constructor ()
      ensures Valid() && phase == Down && !needToExit && allocs.None? && PortsView() == Ports(0, false, 0)
    {
      phase, cfg := Down, Config(0, 0, false, 0, 0, 0, 0);
      listeningPort, reuseport, numPorts, num, oldNum := 0, false, 0, 0, 0;
      allocs, rrsets, msgs := None, CacheState(0, 0, {}), CacheState(0, 0, {});
      reuseCache, needToExit := false, false;
    }

    /** `daemon_clear_allocs`: the count that is used is the one from before the restart. */
    method ClearAllocs() returns (freed: seq<Alloc>)
      requires allocs.Some? && |allocs.value| == oldNum
      modifies this`allocs
      ensures allocs == None && freed == old(allocs).value
    {
      freed := [];
      var i := 0;
      while i < oldNum
        invariant 0 <= i <= oldNum && allocs == old(allocs) && freed == allocs.value[..i]
      {
        freed := freed + [allocs.value[i]];
        i := i + 1;
      }
      allocs := None;
    }

    /** `daemon_apply_cfg`. */
    method ApplyCfg(c: Config)
      requires Valid() && phase == Down
      modifies this`phase, this`cfg, this`allocs, this`rrsets, this`msgs
      ensures Valid() && phase == Applied && cfg == c && HasShape(c)
      ensures IsSize(msgs, c.msgSize, c.msgSlabs) || c.msgSlabs == 0
      ensures IsSize(rrsets, c.rrsetSize, c.rrsetSlabs) || c.rrsetSlabs == 0
      ensures allocs.Some? ==> allocs == old(allocs) && rrsets == old(rrsets) && msgs == old(msgs)
      ensures allocs.Some? <==>
        old(allocs).Some? && Threads(c) == oldNum && old(IsSize(msgs, c.msgSize, c.msgSlabs) && IsSize(rrsets, c.rrsetSize, c.rrsetSlabs))
    {
      cfg, phase := c, Applied;
      var newNum := if c.numThreads != 0 then c.numThreads else 1;
      if allocs.Some? && (newNum != oldNum || !IsSize(msgs, c.msgSize, c.msgSlabs) || !IsSize(rrsets, c.rrsetSize, c.rrsetSlabs)) {
        rrsets := Cleared(rrsets);
        msgs := Cleared(msgs);
        var _ := ClearAllocs();
      }
      assert allocs.None? ==> rrsets.ids == {} && msgs.ids == {};
      if !IsSize(msgs, c.msgSize, c.msgSlabs) {
        msgs := Created(c.msgSize, c.msgSlabs);
      }
      if !IsSize(rrsets, c.rrsetSize, c.rrsetSlabs) {
        rrsets := Created(c.rrsetSize, c.rrsetSlabs);
      }
    }

    /** `daemon_open_shared_ports`: `works` tells whether the kernel takes the option, `opens` whether
        the ports can be opened; if not, the daemon exits. */
    method OpenSharedPorts(works: bool, opens: bool) returns (ok: bool)
      requires Valid() && phase == Applied
      modifies this`phase, this`reuseport, this`numPorts, this`listeningPort
      ensures ok ==> Valid() && phase == Opened
      ensures ok <==> opens || old(listeningPort) == cfg.port
      ensures ok ==> PortsView() == Reopened(old(PortsView()), cfg, works)
      ensures ok && old(listeningPort) == cfg.port ==> reuseport == old(reuseport) && numPorts == old(numPorts)
      ensures ok && old(listeningPort) != cfg.port ==>
        reuseport == (cfg.soReuseport && cfg.numThreads > 0 && works) && numPorts == if reuseport then cfg.numThreads else 1
    {
      if cfg.port != listeningPort {
        reuseport := false;
        if cfg.soReuseport && cfg.numThreads > 0 {
          reuseport := true;
        }
        if !opens {
          return false;
        }
        if !works {
          reuseport := false;
        }
        numPorts := if reuseport then cfg.numThreads else 1;
        listeningPort := cfg.port;
      }
      phase := Opened;
      return true;
    }

    /** `daemon_create_workers`: allocators that were kept are as many as the workers. */
    method CreateWorkers()
      requires Valid() && phase == Opened
      modifies this`phase, this`num, this`allocs
      ensures Valid() && phase == Running
      ensures allocs.Some? && |allocs.value| == num
      ensures num == if reuseport && Threads(cfg) < numPorts then numPorts else Threads(cfg)
      ensures old(allocs).Some? ==> allocs == old(allocs)
      ensures old(allocs).None? ==> allocs.value == FreshAllocs(num)
    {
      num := if cfg.numThreads != 0 then cfg.numThreads else 1;
      if reuseport && num < numPorts {
        num := numPorts;
      }
      if allocs.None? {
        var made: seq<Alloc> := [];
        var i := 0;
        while i < num
          invariant 0 <= i <= num && |made| == i && forall t :: 0 <= t < i ==> made[t] == Alloc(t, FirstId(t))
        {
          made := made + [Alloc(i, RANGE * i + 1)];
          i := i + 1;
        }
        allocs := Some(made);
      }
      phase := Running;
    }

    /** `alloc_get_id` of a worker's own allocator: the id is not in any cache. */
    method GetId(t: nat) returns (id: nat)
      requires Valid() && phase == Running && t < num
      modifies this`allocs, this`rrsets, this`msgs
      ensures Valid() && id !in rrsets.ids + msgs.ids && IssuedByOne(allocs.value, id)
      ensures id == NextId(old(allocs).value[t])
      ensures allocs == Some(old(allocs).value[t := Alloc(t, id + 1)])
      ensures if id < old(allocs).value[t].next then rrsets == Cleared(old(rrsets)) && msgs == Cleared(old(msgs))
              else rrsets == old(rrsets) && msgs == old(msgs)
    {
      var a := allocs.value[t];
      assert AllocOk(a, t);
      id := a.next;
      NextIsNew(allocs.value, t);
      if id == RANGE * t + (RANGE - 1) {
        rrsets := Cleared(rrsets);
        msgs := Cleared(msgs);
        id := RANGE * t + 1;
      }
      ghost var before := allocs.value;
      allocs := Some(allocs.value[t := Alloc(t, id + 1)]);
      StillIssued(before, allocs.value, t, rrsets.ids + msgs.ids);
      assert Issued(allocs.value[t], id);
    }

    /** A worker stores an RRset under a new id. */
    method StoreRRset(t: nat) returns (id: nat)
      requires Valid() && phase == Running && t < num
      modifies this`allocs, this`rrsets, this`msgs
      ensures Valid() && View() == Stored(old(View()), t) && id in rrsets.ids
      ensures Cleared(rrsets) == Cleared(old(rrsets)) && Cleared(msgs) == Cleared(old(msgs))
      ensures (id !in old(rrsets.ids + msgs.ids) && rrsets.ids == old(rrsets.ids) + {id} && msgs.ids == old(msgs.ids))
        || (rrsets.ids == {id} && msgs.ids == {})
    {
      id := GetId(t);
      assert {} + {id} == {id};
      rrsets := rrsets.(ids := rrsets.ids + {id});
    }

    /** A worker stores a message with references to RRsets. */
    method StoreMsg(ids: set<nat>)
      requires Valid() && phase == Running && ids <= rrsets.ids
      modifies this`msgs
      ensures Valid() && msgs == old(msgs).(ids := old(msgs.ids) + ids)
    {
      msgs := msgs.(ids := msgs.ids + ids);
    }

    /** Entries leave the caches at any time. */
    method Evict(ids: set<nat>)
      requires Valid()
      modifies this`rrsets, this`msgs
      ensures Valid()
      ensures rrsets == old(rrsets).(ids := old(rrsets.ids) - ids) && msgs == old(msgs).(ids := old(msgs.ids) - ids)
    {
      rrsets := rrsets.(ids := rrsets.ids - ids);
      msgs := msgs.(ids := msgs.ids - ids);
    }

    /** The end of `daemon_fork`, and `daemon_cleanup`. */
    method Cleanup(reuse: bool, exits: bool)
      requires Valid() && phase == Running
      modifies this`phase, this`num, this`oldNum, this`allocs, this`rrsets, this`msgs, this`reuseCache, this`needToExit
      ensures Valid() && phase == Down && num == 0 && oldNum == old(num) && needToExit == exits
      ensures if reuse && !exits then allocs == old(allocs) && rrsets == old(rrsets) && msgs == old(msgs)
              else allocs == None && rrsets == Cleared(old(rrsets)) && msgs == Cleared(old(msgs))
    {
      reuseCache, needToExit := reuse, exits;
      if !reuseCache || needToExit {
        rrsets := Cleared(rrsets);
        msgs := Cleared(msgs);
      }
      oldNum := num;
      if !reuseCache || needToExit {
        var _ := ClearAllocs();
      }
      num := 0;
      phase := Down;
    }
  }

  lemma StillIssued(allocs: seq<Alloc>, allocs': seq<Alloc>, t: nat, ids: set<nat>)
    requires AllocsOk(allocs) && t < |allocs| && |allocs'| == |allocs|
    requires forall u :: 0 <= u < |allocs| && u != t ==> allocs'[u] == allocs[u]
    requires AllocOk(allocs'[t], t) && (ids == {} || allocs'[t].next >= allocs[t].next)
    requires forall id :: id in ids ==> IssuedByOne(allocs, id)
    ensures AllocsOk(allocs') && forall id :: id in ids ==> IssuedByOne(allocs', id)
  {
    forall id | id in ids
      ensures IssuedByOne(allocs', id)
    {
      var u :| 0 <= u < |allocs| && Issued(allocs[u], id);
      assert Issued(allocs'[u], id);
    }
  }

  // ----- any run

  datatype Work = NewRRset(t: nat) | NewMsg(ids: set<nat>) | Leave(ids: set<nat>)

  /** One round of the run loop: a configuration, how the ports are opened, what the workers do, and
      how it ends: by a reload, a reload that keeps the cache, or a stop. */
  datatype Round = Round(cfg: Config, works: bool, opens: bool, work: seq<Work>, reuse: bool, exits: bool)

  function Front(rounds: seq<Round>): seq<Round>
    requires rounds != []
  {
    rounds[..|rounds| - 1]
  }

  function Last(rounds: seq<Round>): Round
    requires rounds != []
  {
    rounds[|rounds| - 1]
  }

  /** The ports that are open: their number, whether the threads have one each, and how many there are. */
  datatype Ports = Ports(port: int, each: bool, count: nat)

  /** Ports are opened for another port number only. */
  function Reopened(p: Ports, cfg: Config, works: bool): Ports {
    if cfg.port == p.port then p
    else
      var each := cfg.soReuseport && cfg.numThreads > 0 && works;
      Ports(cfg.port, each, if each then cfg.numThreads else 1)
  }

  function PortsAfter(rounds: seq<Round>): Ports {
    if rounds == [] then Ports(0, false, 0) else Reopened(PortsAfter(Front(rounds)), Last(rounds).cfg, Last(rounds).works)
  }

  /** The ports of the last round can be opened, or are open. */
  predicate CanOpen(rounds: seq<Round>)
    requires rounds != []
  {
    Last(rounds).opens || PortsAfter(Front(rounds)).port == Last(rounds).cfg.port
  }

  /** The daemon gets to the last round: nobody stopped it, and the ports could always be opened. */
  predicate GetsTo(rounds: seq<Round>)
    requires rounds != []
  {
    && CanOpen(rounds)
    && (|rounds| > 1 ==> GetsTo(Front(rounds)) && !Last(Front(rounds)).exits)
  }

  /** The workers of the last round: those configured, but not fewer than the ports opened for one each. */
  function Workers(rounds: seq<Round>): nat
    requires rounds != []
  {
    var threads, ports := Threads(Last(rounds).cfg), PortsAfter(rounds);
    if ports.each && threads < ports.count then ports.count else threads
  }

  predicate SameSize(size: nat, slabs: nat, size': nat, slabs': nat) {
    slabs == slabs' && slabs != 0 && size / slabs == size' / slabs
  }

  /** The last round goes on with what the round before it had: that round was ended by a reload that keeps
      the cache, it ran as many workers as there are threads now, and both caches have the same size. */
  predicate Kept(rounds: seq<Round>)
    requires rounds != []
  {
    && |rounds| > 1
    && var before, now := Last(Front(rounds)), Last(rounds).cfg;
    && before.reuse && !before.exits
    && Workers(Front(rounds)) == Threads(now)
    && SameSize(before.cfg.msgSize, before.cfg.msgSlabs, now.msgSize, now.msgSlabs)
    && SameSize(before.cfg.rrsetSize, before.cfg.rrsetSlabs, now.rrsetSize, now.rrsetSlabs)
  }

  function WorkedOne(c: Caches, w: Work): Caches {
    match w
    case NewRRset(t) => if t < |c.allocs| then Stored(c, t) else c
    case NewMsg(ids) => if ids <= c.rrsets then c.(msgs := c.msgs + ids) else c
    case Leave(ids) => c.(rrsets := c.rrsets - ids, msgs := c.msgs - ids)
  }

  function Worked(c: Caches, work: seq<Work>): Caches {
    if work == [] then c else WorkedOne(Worked(c, work[..|work| - 1]), work[|work| - 1])
  }

  /** What the workers of the last round start with. */
  function StartOf(rounds: seq<Round>): Caches
    requires rounds != []
    decreases |rounds|, 0
  {
    if Kept(rounds) then EndOf(Front(rounds)) else FreshCaches(Workers(rounds))
  }

  /** What they leave. */
  function EndOf(rounds: seq<Round>): Caches
    requires rounds != []
    decreases |rounds|, 1
  {
    Worked(StartOf(rounds), Last(rounds).work)
  }

  /** What is there when the workers of a round have been created. */
  datatype Started = Started(workers: nat, kept: bool, caches: Caches)

  /** The daemon between two rounds, after those that are done. */
  ghost predicate Between(d: Daemon, done: seq<Round>)
    reads d
  {
    && d.Valid() && d.phase == Down && d.PortsView() == PortsAfter(done)
    && if done == [] then d.allocs.None? && !d.needToExit
       else
         var last := Last(done);
         && d.oldNum == Workers(done) && d.needToExit == last.exits && d.HasShape(last.cfg)
         && d.allocs.Some? == (last.reuse && !last.exits)
         && (d.allocs.Some? ==> d.View() == EndOf(done))
  }

  /** The daemon in a round, with the given allocators and caches. */
  ghost predicate Within(d: Daemon, rounds: seq<Round>, caches: Caches)
    reads d
    requires rounds != []
  {
    && d.Valid() && d.phase == Running && d.PortsView() == PortsAfter(rounds)
    && d.num == Workers(rounds) && d.HasShape(Last(rounds).cfg) && d.View() == caches
  }

  lemma KeptShape(size: nat, slabs: nat, size': nat, slabs': nat, c: CacheState)
    requires Cleared(c) == Created(size, slabs)
    ensures IsSize(c, size', slabs') <==> SameSize(size, slabs, size', slabs')
  {
    if slabs == slabs' && slabs != 0 {
      Cancel(size / slabs, size' / slabs, slabs);
    }
  }

  lemma Cancel(a: nat, b: nat, n: nat)
    requires n > 0
    ensures a * n == b * n <==> a == b
  {
    if a < b {
      assert (b - a) * n > 0;
    } else if b < a {
      assert (a - b) * n > 0;
    }
  }

  /** The rounds up to the i-th. */
  function UpTo(rounds: seq<Round>, i: nat): (r: seq<Round>)
    requires i < |rounds|
    ensures r != [] && Last(r) == rounds[i] && Front(r) == rounds[..i]
  {
    rounds[..i + 1]
  }

  /** As many workers as configured, 1 for none, and at least one for each port when they have one each. */
  predicate CountsAs(workers: nat, configured: nat, ports: Ports) {
    && (!ports.each ==> workers == if configured == 0 then 1 else configured)
    && (ports.each ==> workers == if ports.count > configured && ports.count > 0 then ports.count else if configured == 0 then 1 else configured)
  }

  /** What the last round starts with: as many allocators as workers, going on with the allocators and
      caches of the round before or with nothing cached, and whatever is cached has an id that one of these
      allocators gave out. */
  ghost predicate StartsAs(rounds: seq<Round>, start: Started)
    requires rounds != []
  {
    && start == Started(Workers(rounds), Kept(rounds), StartOf(rounds))
    && |start.caches.allocs| == start.workers >= Threads(Last(rounds).cfg)
    && CountsAs(start.workers, Last(rounds).cfg.numThreads, PortsAfter(rounds))
    && CachedOk(start.caches)
  }

  /** `run_daemon`: however the configurations change and the daemon is reloaded, rounds run up to the
      first stop or ports that cannot be opened. */
  method RunDaemon(rounds: seq<Round>) returns (starts: seq<Started>)
    ensures |starts| <= |rounds|
    ensures forall i :: 0 <= i < |rounds| ==> (i < |starts| <==> GetsTo(UpTo(rounds, i)))
    ensures forall i :: 0 <= i < |starts| ==> StartsAs(UpTo(rounds, i), starts[i])
  {
    var d := new Daemon();
    starts := [];
    while |starts| < |rounds| && !d.needToExit
      invariant fresh(d) && SoFar(rounds, starts) && Between(d, rounds[..|starts|])
      invariant d.needToExit <==> starts != [] && rounds[|starts| - 1].exits
    {
      var n := |starts|;
      var ok, start := RunRound(d, rounds[n], UpTo(rounds, n));
      if !ok {
        Stopped(rounds, starts);
        return;
      }
      GoesOn(rounds, starts, start);
      starts := starts + [start];
      assert d.needToExit == rounds[n].exits;
    }
    if |starts| < |rounds| {
      Stopped(rounds, starts);
    }
  }

  ghost predicate SoFar(rounds: seq<Round>, starts: seq<Started>) {
    && |starts| <= |rounds|
    && forall i :: 0 <= i < |starts| ==> GetsTo(UpTo(rounds, i)) && StartsAs(UpTo(rounds, i), starts[i])
  }

  lemma GoesOn(rounds: seq<Round>, starts: seq<Started>, start: Started)
    requires SoFar(rounds, starts) && |starts| < |rounds|
    requires starts != [] ==> !rounds[|starts| - 1].exits
    requires CanOpen(UpTo(rounds, |starts|)) && StartsAs(UpTo(rounds, |starts|), start)
    ensures SoFar(rounds, starts + [start])
  {
    ReachedNext(rounds, |starts|);
  }

  lemma Stopped(rounds: seq<Round>, starts: seq<Started>)
    requires SoFar(rounds, starts) && |starts| < |rounds|
    requires !CanOpen(UpTo(rounds, |starts|)) || (starts != [] && rounds[|starts| - 1].exits)
    ensures forall i :: 0 <= i < |rounds| ==> (i < |starts| <==> GetsTo(UpTo(rounds, i)))
  {
    ReachedNext(rounds, |starts|);
    StopsHere(rounds, |starts|);
  }

  lemma ReachedNext(rounds: seq<Round>, n: nat)
    requires n < |rounds|
    ensures GetsTo(UpTo(rounds, n)) <==>
      CanOpen(UpTo(rounds, n)) && (n > 0 ==> GetsTo(UpTo(rounds, n - 1)) && !rounds[n - 1].exits)
  {
    if n > 0 {
      assert Front(UpTo(rounds, n)) == UpTo(rounds, n - 1);
    }
  }

  /** No later round is reached once one is not. */
  lemma {:induction false} StopsHere(rounds: seq<Round>, n: nat)
    requires n < |rounds| && !GetsTo(UpTo(rounds, n))
    ensures forall i :: n <= i < |rounds| ==> !GetsTo(UpTo(rounds, i))
    decreases |rounds| - n
  {
    if n + 1 < |rounds| {
      ReachedNext(rounds, n + 1);
      StopsHere(rounds, n + 1);
    }
  }

  /** One round of the loop. */
  method RunRound(d: Daemon, r: Round, ghost rounds: seq<Round>) returns (ok: bool, start: Started)
    requires rounds != [] && Last(rounds) == r && Between(d, Front(rounds)) && !d.needToExit
    modifies d
    ensures ok <==> CanOpen(rounds)
    ensures ok ==> Between(d, rounds) && StartsAs(rounds, start)
  {
    ok, start := Start(d, r, rounds);
    if ok {
      Serve(d, r.work, rounds);
      d.Cleanup(r.reuse, r.exits);
    }
  }

  method Start(d: Daemon, r: Round, ghost rounds: seq<Round>) returns (ok: bool, start: Started)
    requires rounds != [] && Last(rounds) == r && Between(d, Front(rounds)) && !d.needToExit
    modifies d
    ensures ok <==> CanOpen(rounds)
    ensures ok ==> Within(d, rounds, StartOf(rounds))
    ensures ok ==> StartsAs(rounds, start)
  {
    ghost var before := Front(rounds);
    if before != [] {
      var c := Last(before).cfg;
      KeptShape(c.msgSize, c.msgSlabs, r.cfg.msgSize, r.cfg.msgSlabs, d.msgs);
      KeptShape(c.rrsetSize, c.rrsetSlabs, r.cfg.rrsetSize, r.cfg.rrsetSlabs, d.rrsets);
    }
    d.ApplyCfg(r.cfg);
    start := Started(0, false, Caches([], {}, {}));
    ok := d.OpenSharedPorts(r.works, r.opens);
    if ok {
      var kept := d.allocs.Some?;
      d.CreateWorkers();
      start := Started(d.num, kept, Caches(d.allocs.value, d.rrsets.ids, d.msgs.ids));
    }
  }

  method Serve(d: Daemon, work: seq<Work>, ghost rounds: seq<Round>)
    requires rounds != [] && work == Last(rounds).work && Within(d, rounds, StartOf(rounds))
    modifies d
    ensures Within(d, rounds, EndOf(rounds))
  {
    var k := 0;
    ghost var caches := StartOf(rounds);
    while k < |work|
      invariant 0 <= k <= |work| && Within(d, rounds, Worked(caches, work[..k]))
    {
      assert work[..k + 1][..k] == work[..k];
      ServeOne(d, work[k], rounds);
      k := k + 1;
    }
    assert work[..|work|] == work;
  }

  method ServeOne(d: Daemon, w: Work, ghost rounds: seq<Round>)
    requires rounds != [] && d.allocs.Some? && Within(d, rounds, d.View())
    modifies d`allocs, d`rrsets, d`msgs
    ensures d.allocs.Some? && Within(d, rounds, WorkedOne(old(d.View()), w))
  {
    match w {
      case NewRRset(t) => if t < d.num { var _ := d.StoreRRset(t); }
      case NewMsg(ids) => if ids <= d.rrsets.ids { d.StoreMsg(ids); }
      case Leave(ids) => d.Evict(ids);
    }
  }
}
