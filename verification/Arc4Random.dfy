/** The keystream buffer of `compat/arc4random.c`, on the block loop of `compat/chacha_private.h`. A
    byte is known by the key that the cipher had and its place in the keystream of that key. */
module Arc4Random {
  import opened Sequences

  /** What a byte of memory holds: zero, or the byte at a place of the keystream of a key. */
  datatype Cell = Zero | Stream(key: nat, pos: nat)

  const KEYSZ := 32
  const IVSZ := 8
  const BLOCKSZ := 64
  const RSBUFSZ := 1024
  const REKEY_BASE := 1024 * 1024
  const TWO32 := 0x1_0000_0000
  const TWO64 := 0x1_0000_0000_0000_0000

  // ----- the cipher

  function Wrap(n: nat): nat {
    n % TWO64
  }

  lemma WrapNext(n: nat)
    ensures Wrap(Wrap(n) + 1) == Wrap(n + 1)
  {
  }

  /** The keystream of a key; block numbers have 64 bits. */
  function KeyStream(key: nat, first: nat, k: nat): Cell {
    Stream(key, 64 * Wrap(first + k / 64) + k % 64)
  }

  class ChaCha {
    var key: nat   // the number of the key and nonce that are set up
    var j12: nat   // input[12], low word of the block counter
    var j13: nat   // input[13], high word

    predicate Valid()
      reads this
    {
      j12 < TWO32 && j13 < TWO32
    }

    function Counter(): nat
      reads this
    {
      j12 + TWO32 * j13
    }

    constructor ()
      ensures Valid() && key == 0 && Counter() == 0
    {
      key, j12, j13 := 0, 0, 0;
    }

    /** `chacha_keysetup` and `chacha_ivsetup`: another key, and the counter starts again. */
    method SetKey()
      modifies this
      ensures Valid() && key == old(key) + 1 && Counter() == 0
    {
      key, j12, j13 := key + 1, 0, 0;
    }

    /** The advance of the counter after a block. */
    method Advance()
      requires Valid()
      modifies this`j12, this`j13
      ensures Valid() && Counter() == Wrap(old(Counter()) + 1)
    {
      j12 := (j12 + 1) % TWO32;
      if j12 == 0 {
        j13 := (j13 + 1) % TWO32;
      }
    }

    /** One block, or the start of one. */
    method Block(c: array<Cell>, b: nat, n: nat, ghost first: nat)
      requires Valid() && n <= 64 && 64 * b + n <= c.Length && Counter() == Wrap(first + b)
      modifies this`j12, this`j13, c
      ensures Valid() && Counter() == Wrap(first + (b + 1))
      ensures forall k :: 64 * b <= k < 64 * b + n ==> c[k] == KeyStream(key, first, k)
      ensures forall k :: 0 <= k < c.Length && !(64 * b <= k < 64 * b + n) ==> c[k] == old(c[k])
    {
      forall k | 64 * b <= k < 64 * b + n { c[k] := Stream(key, 64 * Counter() + (k - 64 * b)); }
      forall k | 64 * b <= k < 64 * b + n
        ensures k / 64 == b && k % 64 == k - 64 * b
      {
      }
      Advance();
      WrapNext(first + b);
    }

    /** `chacha_encrypt_bytes` without a message: the next whole blocks of the keystream, the last of
        them cut to what was asked for; the rest of a cut block is never used. */
    method Encrypt(c: array<Cell>, total: nat)
      requires Valid() && total <= c.Length
      modifies this`j12, this`j13, c
      ensures Valid() && Counter() == Wrap(old(Counter()) + (total + 63) / 64)
      ensures forall k :: 0 <= k < total ==> c[k] == KeyStream(key, old(Counter()), k)
      ensures forall k :: total <= k < c.Length ==> c[k] == old(c[k])
    {
      ghost var first := Counter();
      assert first < TWO64;
      if total == 0 {
        return;
      }
      var b, bytes := 0, total;
      while true
        invariant Valid() && bytes > 0 && b >= 0 && 64 * b + bytes == total
        invariant Counter() == Wrap(first + b)
        invariant forall k :: 0 <= k < 64 * b ==> c[k] == KeyStream(key, first, k)
        invariant forall k :: total <= k < c.Length ==> c[k] == old(c[k])
        decreases bytes
      {
        Block(c, b, if bytes < 64 then bytes else 64, first);
        if bytes <= 64 {
          assert (total + 63) / 64 == b + 1;
          return;
        }
        bytes := bytes - 64;
        b := b + 1;
      }
    }
  }

  // ----- what has become of the keystream

  /** What bytes of the keystream are used for, and what is asked for. */
  datatype Use =
    | NewKey(cells: seq<Cell>)    // made into the next key and nonce
    | Interval(cells: seq<Cell>)  // told the reseed interval, at the end of a stir
    | Out(cells: seq<Cell>)       // handed out
    | Ask(n: nat)                 // a request for so many bytes

  function CellsOf(u: Use): seq<Cell> {
    if u.Ask? then [] else u.cells
  }

  /** All bytes that were used, in order. */
  function AllCells(log: seq<Use>): seq<Cell> {
    if log == [] then [] else AllCells(log[..|log| - 1]) + CellsOf(log[|log| - 1])
  }

  function Outs(log: seq<Use>): seq<Cell> {
    if log == [] then []
    else Outs(log[..|log| - 1]) + (if log[|log| - 1].Out? then log[|log| - 1].cells else [])
  }

  function Asks(log: seq<Use>): seq<nat> {
    if log == [] then []
    else Asks(log[..|log| - 1]) + (if log[|log| - 1].Ask? then [log[|log| - 1].n] else [])
  }

  /** The number of the key in force. */
  function KeyNumber(log: seq<Use>): nat {
    if log == [] then 0 else KeyNumber(log[..|log| - 1]) + (if log[|log| - 1].NewKey? then 1 else 0)
  }

  /** The requests since the last stir. */
  function SinceStir(log: seq<Use>): seq<nat> {
    if log == [] then []
    else
      match log[|log| - 1]
      case Interval(_) => []
      case Ask(n) => SinceStir(log[..|log| - 1]) + [n]
      case _ => SinceStir(log[..|log| - 1])
  }

  lemma LogGrows(log: seq<Use>, u: Use)
    ensures (log + [u])[..|log|] == log
    ensures AllCells(log + [u]) == AllCells(log) + CellsOf(u)
    ensures Outs(log + [u]) == Outs(log) + (if u.Out? then u.cells else [])
    ensures Asks(log + [u]) == Asks(log) + (if u.Ask? then [u.n] else [])
    ensures KeyNumber(log + [u]) == KeyNumber(log) + (if u.NewKey? then 1 else 0)
    ensures SinceStir(log + [u])
      == if u.Interval? then [] else if u.Ask? then SinceStir(log) + [u.n] else SinceStir(log)
  {
    assert (log + [u])[..|log|] == log;
  }

  function Sum(ns: seq<nat>): nat {
    if ns == [] then 0 else Sum(ns[..|ns| - 1]) + ns[|ns| - 1]
  }

  lemma SumGrows(ns: seq<nat>, n: nat)
    ensures Sum(ns + [n]) == Sum(ns) + n
  {
    assert (ns + [n])[..|ns|] == ns;
  }

  /** Below twice the base, or one request alone. */
  predicate WithinBudget(asked: seq<nat>) {
    Sum(asked) < 2 * REKEY_BASE || |asked| == 1
  }

  /** An entry of the log, given what came before it: a key is made of the first 40 bytes of the buffer
      that the key in force fills, but for the first one, which is made of nothing of it; a stir sets a
      key and reads its first four bytes; and since every stir the budget is kept. */
  ghost predicate EntryOk(log: seq<Use>, k: nat)
    requires k < |log|
  {
    var key := KeyNumber(log[..k]);
    && WithinBudget(SinceStir(log[..k + 1]))
    && match log[k]
       case NewKey(cells) =>
         if k == 0 then cells == [] else cells == Run(key, 0, KEYSZ + IVSZ) || cells == Run(key, 64, KEYSZ + IVSZ)
       case Interval(cells) => k > 0 && log[k - 1].NewKey? && cells == Run(key, 0, 4)
       case Out(_) => k > 0
       case Ask(_) => k > 0
  }

  ghost predicate LogOk(log: seq<Use>) {
    forall k: nat :: k < |log| ==> EntryOk(log, k)
  }

  lemma LogOkGrows(log: seq<Use>, u: Use)
    requires LogOk(log) && EntryOk(log + [u], |log|)
    ensures LogOk(log + [u])
  {
    var log' := log + [u];
    forall k: nat | k < |log'|
      ensures EntryOk(log', k)
    {
      if k < |log| {
        assert log'[..k] == log[..k] && log'[..k + 1] == log[..k + 1];
        assert EntryOk(log, k);
      }
    }
  }

  lemma BudgetNow(log: seq<Use>)
    requires LogOk(log) && log != []
    ensures WithinBudget(SinceStir(log))
  {
    assert EntryOk(log, |log| - 1) && log[..|log|] == log;
  }

  lemma WholeLog(log: seq<Use>, u: Use)
    ensures (log + [u])[..|log| + 1] == log + [u]
  {
  }

  lemma KeyFits(log: seq<Use>, pos: nat)
    requires LogOk(log) && log != [] && (pos == 0 || pos == 64)
    ensures EntryOk(log + [NewKey(Run(KeyNumber(log), pos, KEYSZ + IVSZ))], |log|)
  {
    var u := NewKey(Run(KeyNumber(log), pos, KEYSZ + IVSZ));
    BudgetNow(log);
    LogGrows(log, u);
    WholeLog(log, u);
  }

  lemma FirstKeyFits()
    ensures EntryOk([] + [NewKey([])], 0)
  {
    LogGrows([], NewKey([]));
    WholeLog([], NewKey([]));
  }

  lemma IntervalFits(log: seq<Use>)
    requires log != [] && log[|log| - 1].NewKey?
    ensures EntryOk(log + [Interval(Run(KeyNumber(log), 0, 4))], |log|)
  {
    var u := Interval(Run(KeyNumber(log), 0, 4));
    LogGrows(log, u);
    WholeLog(log, u);
  }

  lemma OutFits(log: seq<Use>, cells: seq<Cell>)
    requires LogOk(log) && log != []
    ensures EntryOk(log + [Out(cells)], |log|)
  {
    BudgetNow(log);
    LogGrows(log, Out(cells));
    WholeLog(log, Out(cells));
  }

  lemma AskFits(log: seq<Use>, n: nat)
    requires log != [] && WithinBudget(SinceStir(log) + [n])
    ensures EntryOk(log + [Ask(n)], |log|)
  {
    LogGrows(log, Ask(n));
    WholeLog(log, Ask(n));
  }

  // ----- places in the keystream

  /** A place of the keystream that comes before another, keys being numbered as they are set. */
  predicate Before(c: Cell, key: nat, pos: nat) {
    c.Stream? && (c.key < key || (c.key == key && c.pos < pos))
  }

  /** No byte was used twice, and everything that was used lies before the edge. */
  ghost predicate Ledger(cells: seq<Cell>, key: nat, pos: nat) {
    NoDup(cells) && forall c :: c in cells ==> Before(c, key, pos)
  }

  ghost predicate NotBefore(key: nat, pos: nat, key': nat, pos': nat) {
    key' > key || (key' == key && pos' >= pos)
  }

  function Run(key: nat, pos: nat, n: nat): (r: seq<Cell>)
    ensures |r| == n && forall i :: 0 <= i < n ==> r[i] == Stream(key, pos + i)
  {
    seq(n, i requires 0 <= i => Stream(key, pos + i))
  }

  lemma LedgerGrows(cells: seq<Cell>, key: nat, pos: nat, key': nat, pos': nat, n: nat)
    requires Ledger(cells, key, pos) && NotBefore(key, pos, key', pos')
    ensures Ledger(cells + Run(key', pos', n), key', pos' + n)
  {
    var run := Run(key', pos', n);
    forall c | c in run
      ensures c !in cells && Before(c, key', pos' + n)
    {
    }
    NoDupConcat(cells, run);
  }

  lemma StreamIsRun(key: nat, first: nat, k: nat)
    requires first <= 1 && k < 1024
    ensures KeyStream(key, first, k) == Stream(key, 64 * first + k)
  {
    assert first + k / 64 < TWO64;
  }

  // ----- the history of a generator

  /** The log and a summary of it: what was handed out and asked for, the requests since the last stir, the
      number of the key in force, and the edge behind which nothing was used. */
  datatype Past = Past(
    log: seq<Use>,
    outs: seq<Cell>, asks: seq<nat>, since: seq<nat>,
    key: nat, edgeKey: nat, edgePos: nat)

  /** The log is in order, and the summary is that of the log. */
  ghost predicate LogSays(log: seq<Use>, p: Past) {
    && Ledger(AllCells(log), p.edgeKey, p.edgePos) && LogOk(log)
    && p.key == KeyNumber(log) && p.outs == Outs(log) && p.asks == Asks(log) && p.since == SinceStir(log)
  }

  predicate IsLog(log: seq<Use>, p: Past) {
    log == p.log
  }

  /** `LogSays(p.log, p)`.  The quantifier over the one log only keeps the verifier from unfolding the recursive
      functions of the log wherever a generator is valid; `Opened` and `Closed` go from one form to the other. */
  ghost predicate History(p: Past) {
    forall log :: IsLog(log, p) ==> LogSays(log, p)
  }

  lemma Opened(p: Past)
    requires History(p)
    ensures LogSays(p.log, p)
  {
    assert IsLog(p.log, p);
  }

  lemma Closed(p: Past)
    requires LogSays(p.log, p)
    ensures History(p)
  {
  }

  /** One more use, of n bytes from a place on. */
  function With(p: Past, u: Use, key: nat, pos: nat, n: nat): Past {
    Past(p.log + [u],
         p.outs + (if u.Out? then u.cells else []),
         p.asks + (if u.Ask? then [u.n] else []),
         if u.Interval? then [] else if u.Ask? then p.since + [u.n] else p.since,
         p.key + (if u.NewKey? then 1 else 0), key, pos + n)
  }

  /** A use is added that the log allows; its cells come behind the edge. */
  lemma Extends(p: Past, u: Use, key: nat, pos: nat, n: nat)
    requires History(p) && EntryOk(p.log + [u], |p.log|)
    requires CellsOf(u) == Run(key, pos, n) && NotBefore(p.edgeKey, p.edgePos, key, pos)
    ensures History(With(p, u, key, pos, n))
  {
    Opened(p);
    LedgerGrows(AllCells(p.log), p.edgeKey, p.edgePos, key, pos, n);
    LogGrows(p.log, u);
    LogOkGrows(p.log, u);
    Closed(With(p, u, key, pos, n));
  }

  /** The first bytes of a buffer are made into a key. */
  function Rekeyed(p: Past, pos: nat): Past {
    p.(log := p.log + [NewKey(Run(p.key, pos, KEYSZ + IVSZ))], key := p.key + 1,
       edgeKey := p.key, edgePos := pos + KEYSZ + IVSZ)
  }

  lemma KeyMade(p: Past, pos: nat)
    requires History(p) && p.log != [] && (pos == 0 || pos == 64) && NotBefore(p.edgeKey, p.edgePos, p.key, pos)
    ensures History(Rekeyed(p, pos))
  {
    Opened(p);
    KeyFits(p.log, pos);
    Extends(p, NewKey(Run(p.key, pos, KEYSZ + IVSZ)), p.key, pos, KEYSZ + IVSZ);
    assert p.outs + [] == p.outs && p.asks + [] == p.asks;
  }

  /** The first key of all. */
  function FirstKeyed(p: Past): Past {
    p.(log := p.log + [NewKey([])], key := p.key + 1)
  }

  lemma FirstKeyMade(p: Past)
    requires History(p) && p.log == []
    ensures History(FirstKeyed(p))
  {
    FirstKeyFits();
    Extends(p, NewKey([]), p.edgeKey, p.edgePos, 0);
    assert p.outs + [] == p.outs && p.asks + [] == p.asks;
  }

  /** The first bytes of a key tell the reseed interval. */
  function IntervalSet(p: Past): Past {
    p.(log := p.log + [Interval(Run(p.key, 0, 4))], since := [], edgeKey := p.key, edgePos := 4)
  }

  lemma IntervalRead(p: Past)
    requires History(p) && p.log != [] && p.log[|p.log| - 1].NewKey? && NotBefore(p.edgeKey, p.edgePos, p.key, 0)
    ensures History(IntervalSet(p))
  {
    Opened(p);
    IntervalFits(p.log);
    Extends(p, Interval(Run(p.key, 0, 4)), p.key, 0, 4);
    assert p.outs + [] == p.outs && p.asks + [] == p.asks;
  }

  /** The next bytes are handed out. */
  function Handed(p: Past, m: nat): Past {
    var cells := Run(p.edgeKey, p.edgePos, m);
    p.(log := p.log + [Out(cells)], outs := p.outs + cells, edgePos := p.edgePos + m)
  }

  lemma HandedOut(p: Past, m: nat)
    requires History(p) && p.log != []
    ensures History(Handed(p, m))
  {
    var u := Out(Run(p.edgeKey, p.edgePos, m));
    Opened(p);
    OutFits(p.log, u.cells);
    Extends(p, u, p.edgeKey, p.edgePos, m);
    assert p.asks + [] == p.asks;
  }

  /** Bytes are asked for. */
  function Asked(p: Past, n: nat): Past {
    p.(log := p.log + [Ask(n)], asks := p.asks + [n], since := p.since + [n])
  }

  lemma AskedFor(p: Past, n: nat)
    requires History(p) && p.log != [] && WithinBudget(p.since + [n])
    ensures History(Asked(p, n))
  {
    Opened(p);
    AskFits(p.log, n);
    assert CellsOf(Ask(n)) == Run(p.edgeKey, p.edgePos, 0);
    Extends(p, Ask(n), p.edgeKey, p.edgePos, 0);
    assert p.outs + [] == p.outs;
  }

  /** Bytes of the keystream with keys in a range. */
  ghost predicate KeysIn(cells: seq<Cell>, lo: nat, hi: nat) {
    forall c :: c in cells ==> c.Stream? && lo <= c.key <= hi
  }

  lemma KeysAppend(a: seq<Cell>, b: seq<Cell>, lo: nat, mid: nat, hi: nat)
    requires KeysIn(a, lo, mid) && KeysIn(b, mid, hi) && lo <= mid <= hi
    ensures KeysIn(a + b, lo, hi)
  {
  }

  /** A stir stands in the log before the request with number i and behind the one before it. */
  ghost predicate StirredFor(log: seq<Use>, i: nat) {
    exists k: nat :: k < |log| && log[k].Interval? && |Asks(log[..k])| == i
  }

  lemma StirredStill(log: seq<Use>, log': seq<Use>, i: nat)
    requires log <= log' && StirredFor(log, i)
    ensures StirredFor(log', i)
  {
    var k: nat :| k < |log| && log[k].Interval? && |Asks(log[..k])| == i;
    assert log'[..k] == log[..k] && log'[k] == log[k];
  }

  lemma StirredNow(log: seq<Use>, key: Use, interval: Use)
    requires key.NewKey? && interval.Interval?
    ensures StirredFor(log + [key, interval], |Asks(log)|)
  {
    var log', k := log + [key, interval], |log| + 1;
    assert log'[..k] == log + [key] && log'[k] == interval;
    LogGrows(log, key);
  }

  class Generator {
    const chacha: ChaCha
    const buf: array<Cell>   // rs_buf
    var started: bool        // whether rs and rsx are set up
    var have: nat            // rs_have, valid bytes at the end of the buffer
    var count: nat           // rs_count, bytes till reseed
    ghost var past: Past
    ghost var quota: nat     // rs_count after the last stir

    /** The bytes left in the buffer are the next ones of the keystream, every place before them is
        zero, and the cipher has not yet made what comes after them. */
    ghost predicate BufferOk()
      reads this, chacha, buf
    {
      && buf.Length == RSBUFSZ && chacha.Valid() && chacha.Counter() <= 1
      && have <= RSBUFSZ - KEYSZ - IVSZ && (have > 0 ==> started)
      && (forall i :: 0 <= i < RSBUFSZ - have ==> buf[i] == Zero)
      && buf[RSBUFSZ - have..] == Run(past.edgeKey, past.edgePos, have)
      && NotBefore(past.edgeKey, past.edgePos + have, chacha.key, 64 * chacha.Counter())
    }

    ghost predicate HistoryOk()
      reads this, chacha
    {
      History(past) && past.key == chacha.key && (started <==> past.log != [])
    }

    ghost predicate Core()
      reads this, chacha, buf
    {
      BufferOk() && HistoryOk()
    }

    /** What was asked for since the stir is below the quota, or it is one request alone. */
    ghost predicate Budget()
      reads this
    {
      && quota < 2 * REKEY_BASE
      && (count > 0 ==> Sum(past.since) + count == quota)
      && (count == 0 && started ==> |past.since| == 1)
    }

    ghost predicate Valid()
      reads this, chacha, buf
    {
      Core() && Budget()
    }

    constructor ()
      ensures Valid() && fresh(chacha) && fresh(buf) && past.log == [] && past.outs == [] && past.asks == [] && !started
    {
      chacha := new ChaCha();
      buf := new Cell[RSBUFSZ](_ => Zero);
      started, have, count := false, 0, 0;
      past, quota := Past([], [], [], [], 0, 0, 0), 0;
      new;
      Closed(past);
    }

    method FillBuffer()
      requires buf.Length == RSBUFSZ && chacha.Valid() && chacha.Counter() <= 1
      modifies chacha`j12, chacha`j13, buf
      ensures chacha.Valid() && buf[..] == Run(chacha.key, 64 * old(chacha.Counter()), RSBUFSZ)
    {
      ghost var key, first := chacha.key, chacha.Counter();
      chacha.Encrypt(buf, RSBUFSZ);
      forall k | 0 <= k < RSBUFSZ
        ensures buf[k] == Stream(key, 64 * first + k)
      {
        StreamIsRun(key, first, k);
      }
    }

    /** `_rs_rekey`: the buffer is filled, and its start becomes the next key and nonce, mixed with the
        data that is passed, if any. */
    method Rekey()
      requires Core() && started
      modifies this`have, this`past, chacha, buf
      ensures Core() && have == RSBUFSZ - KEYSZ - IVSZ && chacha.Counter() == 0
      ensures past == Rekeyed(old(past), 64 * old(chacha.Counter()))
    {
      ghost var key, pos := chacha.key, 64 * chacha.Counter();
      KeyMade(past, pos);
      FillBuffer();
      ghost var made := buf[..KEYSZ + IVSZ];
      assert made == Run(key, pos, KEYSZ + IVSZ);
      chacha.SetKey();
      past := past.(log := past.log + [NewKey(made)], key := chacha.key, edgeKey := key, edgePos := pos + KEYSZ + IVSZ);
      assert past == Rekeyed(old(past), pos);
      ghost var rest := buf[KEYSZ + IVSZ..];
      forall k | 0 <= k < KEYSZ + IVSZ { buf[k] := Zero; }
      have := RSBUFSZ - KEYSZ - IVSZ;
      assert buf[KEYSZ + IVSZ..] == rest == Run(key, pos + KEYSZ + IVSZ, have);
    }

    /** The first key of all, from entropy alone. */
    method FirstKey()
      requires Core() && !started
      modifies this`started, this`past, chacha
      ensures Core() && started && chacha.Counter() == 0 && past == FirstKeyed(old(past))
    {
      FirstKeyMade(past);
      started := true;
      chacha.SetKey();
      past := past.(log := past.log + [NewKey([])], key := chacha.key);
    }

    /** Four bytes of the keystream for the reseed interval. */
    method Fuzz()
      requires Core() && have == 0 && chacha.Counter() == 0 && past.log != [] && past.log[|past.log| - 1].NewKey?
      modifies this`past, chacha`j12, chacha`j13
      ensures Core() && past == IntervalSet(old(past))
    {
      IntervalRead(past);
      var bytes := new Cell[4](_ => Zero);
      chacha.Encrypt(bytes, 4);
      ghost var cells := bytes[..];
      assert cells == Run(chacha.key, 0, 4);
      past := past.(log := past.log + [Interval(cells)], since := [], edgeKey := chacha.key, edgePos := 4);
    }

    /** What a stir adds to the log. */
    ghost function StirUses(): seq<Use>
      reads this, chacha
    {
      [NewKey(if started then Run(chacha.key, 64 * chacha.Counter(), KEYSZ + IVSZ) else []),
       Interval(Run(chacha.key + 1, 0, 4))]
    }

    /** `_rs_stir`: another key, the rest of the buffer thrown away, and a reseed interval that four
        bytes of the keystream tell. */
    method Stir(fuzz: nat)
      requires Core()
      modifies this, chacha, buf
      ensures Core() && started && have == 0 && chacha.key == old(chacha.key) + 1
      ensures count == REKEY_BASE + fuzz % REKEY_BASE && quota == count && past.since == []
      ensures past.log == old(past).log + old(StirUses()) && past.outs == old(past).outs && past.asks == old(past).asks
      ensures past.edgeKey == chacha.key
    {
      if !started {
        FirstKey();
      } else {
        Rekey();
      }
      have := 0;
      forall k | 0 <= k < RSBUFSZ { buf[k] := Zero; }
      Fuzz();
      count := REKEY_BASE + fuzz % REKEY_BASE;
      quota := count;
    }

    /** Whether a request makes the generator stir. */
    predicate Stirs(len: nat, forked: bool)
      reads this
    {
      !started || forked || count <= len
    }

    /** `_rs_stir_if_needed`: a stir when the bytes till reseed do not last, and after a fork. */
    method StirIfNeeded(len: nat, forked: bool, fuzz: nat)
      requires Valid()
      modifies this, chacha, buf
      ensures Valid() && started && past.outs == old(past).outs && past.asks == old(past).asks + [len]
      ensures past.log == old(past).log + (if old(Stirs(len, forked)) then old(StirUses()) else []) + [Ask(len)]
      ensures chacha.key == old(chacha.key) + (if old(Stirs(len, forked)) then 1 else 0)
      ensures past.since == (if old(Stirs(len, forked)) then [] else old(past).since) + [len]
      ensures var full := if old(Stirs(len, forked)) then REKEY_BASE + fuzz % REKEY_BASE else old(count);
        count == if full <= len then 0 else full - len
      ensures past.edgeKey >= old(past).edgeKey && old(past).log <= past.log
      ensures forked ==> past.edgeKey > old(past).edgeKey && StirredFor(past.log, |old(past).asks|)
    {
      StirFirst(len, forked, fuzz);
      ghost var log := past.log;
      Charge(len);
      if forked {
        StirredStill(log, past.log, |old(past).asks|);
      }
    }

    method StirFirst(len: nat, forked: bool, fuzz: nat)
      requires Valid()
      modifies this, chacha, buf
      ensures Core() && started && past.outs == old(past).outs && past.asks == old(past).asks
      ensures past.log == old(past).log + (if old(Stirs(len, forked)) then old(StirUses()) else [])
      ensures chacha.key == old(chacha.key) + (if old(Stirs(len, forked)) then 1 else 0)
      ensures past.since == if old(Stirs(len, forked)) then [] else old(past).since
      ensures count == if old(Stirs(len, forked)) then REKEY_BASE + fuzz % REKEY_BASE else old(count)
      ensures quota < 2 * REKEY_BASE && Sum(past.since) + count == quota && (count > len || past.since == [])
      ensures past.edgeKey >= old(past).edgeKey
      ensures forked ==> past.edgeKey > old(past).edgeKey && StirredFor(past.log, |old(past).asks|)
    {
      if forked && started {
        count := 0;
      }
      if !started || count <= len {
        ghost var uses := StirUses();
        Opened(past);
        StirredNow(past.log, uses[0], uses[1]);
        Stir(fuzz);
      } else {
        assert old(past).log + [] == past.log;
      }
    }

    /** The request is taken off the bytes till reseed. */
    method Charge(len: nat)
      requires Core() && started && quota < 2 * REKEY_BASE && Sum(past.since) + count == quota
      requires count > len || past.since == []
      modifies this`count, this`past
      ensures Valid() && past == Asked(old(past), len)
      ensures count == if old(count) <= len then 0 else old(count) - len
    {
      SumGrows(past.since, len);
      AskedFor(past, len);
      past := Asked(past, len);
      if count <= len {
        count := 0;
      } else {
        count := count - len;
      }
    }

    /** The next bytes of the buffer are copied out and cleared. */
    method Take(out: array<Cell>, at: nat, m: nat)
      requires Core() && m <= have && at + m <= out.Length && out != buf
      modifies this`have, this`past, buf, out
      ensures Core() && have == old(have) - m
      ensures out[..at + m] == old(out[..at]) + Run(old(past).edgeKey, old(past).edgePos, m)
      ensures past == if m == 0 then old(past) else Handed(old(past), m)
    {
      if m == 0 {
        return;
      }
      HandedOut(past, m);
      ghost var cells := CopyOut(out, at, m);
      past := past.(log := past.log + [Out(cells)], outs := past.outs + cells, edgePos := past.edgePos + m);
      assert past == Handed(old(past), m);
      have := have - m;
    }

    method CopyOut(out: array<Cell>, at: nat, m: nat) returns (ghost cells: seq<Cell>)
      requires BufferOk() && m <= have && at + m <= out.Length && out != buf
      modifies buf, out
      ensures cells == out[at..at + m] == Run(past.edgeKey, past.edgePos, m)
      ensures out[..at + m] == old(out[..at]) + Run(past.edgeKey, past.edgePos, m)
      ensures forall i :: 0 <= i < RSBUFSZ - have + m ==> buf[i] == Zero
      ensures buf[RSBUFSZ - have + m..] == Run(past.edgeKey, past.edgePos + m, have - m)
    {
      var from := RSBUFSZ - have;
      ghost var live := buf[from..];
      forall k | 0 <= k < m { out[at + k] := buf[from + k]; }
      assert out[..at + m] == old(out[..at]) + live[..m];
      cells := out[at..at + m];
      assert cells == live[..m] == Run(past.edgeKey, past.edgePos, m);
      forall k | 0 <= k < m { buf[from + k] := Zero; }
      assert buf[from + m..] == live[m..] == Run(past.edgeKey, past.edgePos + m, have - m);
    }

    /** `_rs_random_buf`. */
    method RandomBuf(out: array<Cell>, n: nat, forked: bool, fuzz: nat)
      requires Valid() && n <= out.Length && out != buf
      modifies this, chacha, buf, out
      ensures Valid() && past.outs == old(past).outs + out[..n] && past.asks == old(past).asks + [n]
      ensures past.since == (if old(Stirs(n, forked)) then [] else old(past).since) + [n]
      ensures Forward(old(past), out[..n], forked)
    {
      StirIfNeeded(n, forked, fuzz);
      ghost var log := past.log;
      TakeAll(out, n);
      if forked {
        StirredStill(log, past.log, |old(past).asks|);
      }
    }

    /** What is handed out comes from keys set since, and after a fork from keys that were not in force before. */
    ghost predicate Forward(before: Past, cells: seq<Cell>, forked: bool)
      reads this
    {
      && before.log <= past.log && before.edgeKey <= past.edgeKey
      && KeysIn(cells, if forked then before.edgeKey + 1 else before.edgeKey, past.edgeKey)
      && (forked ==> before.edgeKey < past.edgeKey && StirredFor(past.log, |before.asks|))
    }

    method TakeAll(out: array<Cell>, n: nat)
      requires Valid() && started && n <= out.Length && out != buf
      modifies this`have, this`past, chacha, buf, out
      ensures Valid() && past.outs == old(past).outs + out[..n]
      ensures past.asks == old(past).asks && past.since == old(past).since
      ensures old(past).log <= past.log && old(past).edgeKey <= past.edgeKey && KeysIn(out[..n], old(past).edgeKey, past.edgeKey)
    {
      ghost var before := past.outs;
      var at: nat, left: nat := 0, n;
      while left > 0
        invariant Valid() && at + left == n && past.outs == before + out[..at]
        invariant past.asks == old(past).asks && past.since == old(past).since
        invariant old(past).log <= past.log && old(past).edgeKey <= past.edgeKey
        invariant KeysIn(out[..at], old(past).edgeKey, past.edgeKey)
        decreases left, if have == 0 then 1 else 0
      {
        ghost var first, edge := out[..at], past.edgeKey;
        ghost var more;
        at, left, more := TakeTurn(out, at, left, before);
        KeysAppend(first, more, old(past).edgeKey, edge, past.edgeKey);
      }
    }

    /** One turn of the loop: what the buffer has, and a new one when it is empty. */
    method TakeTurn(out: array<Cell>, at: nat, left: nat, ghost before: seq<Cell>)
      returns (at': nat, left': nat, ghost more: seq<Cell>)
      requires Valid() && started && left > 0 && at + left <= out.Length && out != buf && past.outs == before + out[..at]
      modifies this`have, this`past, chacha, buf, out
      ensures Valid() && at' + left' == at + left && past.outs == before + out[..at']
      ensures past.asks == old(past).asks && past.since == old(past).since
      ensures left' < left || (left' == left && old(have) == 0 && have > 0)
      ensures old(past).log <= past.log && old(past).edgeKey <= past.edgeKey
      ensures at <= at' && out[..at'] == old(out[..at]) + more && KeysIn(more, old(past).edgeKey, past.edgeKey)
    {
      at', left', more := at, left, [];
      if have > 0 {
        at', left', more := TakeSome(out, at, left, before);
      }
      if have == 0 {
        Rekey();
      }
    }

    /** As much as is wanted and there. */
    method TakeSome(out: array<Cell>, at: nat, left: nat, ghost before: seq<Cell>)
      returns (at': nat, left': nat, ghost more: seq<Cell>)
      requires Valid() && have > 0 && left > 0 && at + left <= out.Length && out != buf && past.outs == before + out[..at]
      modifies this`have, this`past, buf, out
      ensures Valid() && at' + left' == at + left && left' < left && past.outs == before + out[..at']
      ensures past.asks == old(past).asks && past.since == old(past).since
      ensures old(past).log <= past.log && past.edgeKey == old(past).edgeKey
      ensures at <= at' && out[..at'] == old(out[..at]) + more && KeysIn(more, past.edgeKey, past.edgeKey)
    {
      var m := if left < have then left else have;
      ghost var first := out[..at];
      more := Run(past.edgeKey, past.edgePos, m);
      Take(out, at, m);
      at', left' := at + m, left - m;
      assert before + first + more == before + (first + more);
    }

    /** `_rs_random_u32`: what is left of the buffer is thrown away when it is too short. */
    method RandomU32(val: array<Cell>, forked: bool, fuzz: nat)
      requires Valid() && val.Length == 4 && val != buf
      modifies this, chacha, buf, val
      ensures Valid() && past.outs == old(past).outs + val[..] && past.asks == old(past).asks + [4]
      ensures past.since == (if old(Stirs(4, forked)) then [] else old(past).since) + [4]
      ensures Forward(old(past), val[..], forked)
    {
      StirIfNeeded(4, forked, fuzz);
      ghost var log := past.log;
      TakeWord(val);
      if forked {
        StirredStill(log, past.log, |old(past).asks|);
      }
    }

    method TakeWord(val: array<Cell>)
      requires Valid() && started && val.Length == 4 && val != buf
      modifies this`have, this`past, chacha, buf, val
      ensures old(have) >= 4 ==> past.edgeKey == old(past).edgeKey
      ensures Valid() && past.outs == old(past).outs + val[..]
      ensures past.asks == old(past).asks && past.since == old(past).since
      ensures old(past).log <= past.log && old(past).edgeKey <= past.edgeKey && KeysIn(val[..], old(past).edgeKey, past.edgeKey)
    {
      if have < 4 {
        Rekey();
      }
      TakeFour(val);
    }

    method TakeFour(val: array<Cell>)
      requires Valid() && have >= 4 && val.Length == 4 && val != buf
      modifies this`have, this`past, buf, val
      ensures Valid() && past.outs == old(past).outs + val[..]
      ensures past.asks == old(past).asks && past.since == old(past).since
      ensures old(past).log <= past.log && past.edgeKey == old(past).edgeKey && KeysIn(val[..], past.edgeKey, past.edgeKey)
    {
      ghost var cells := Run(past.edgeKey, past.edgePos, 4);
      Take(val, 0, 4);
      assert val[..] == val[..4] == cells;
    }
  }

  // ----- any run

  datatype Request = U32(forked: bool, fuzz: nat) | Buf(n: nat, forked: bool, fuzz: nat)

  function SizeOf(r: Request): nat {
    if r.U32? then 4 else r.n
  }

  function Sizes(requests: seq<Request>): (ns: seq<nat>)
    ensures |ns| == |requests|
  {
    if requests == [] then [] else Sizes(requests[..|requests| - 1]) + [SizeOf(requests[|requests| - 1])]
  }

  /** What is handed out is used once. */
  lemma {:induction false} OutsOnce(log: seq<Use>)
    requires NoDup(AllCells(log))
    ensures NoDup(Outs(log)) && forall c :: c in Outs(log) ==> c in AllCells(log)
    decreases |log|
  {
    if log != [] {
      var front, u := log[..|log| - 1], log[|log| - 1];
      SplitNoDup(AllCells(front), CellsOf(u));
      OutsOnce(front);
      if u.Out? {
        NoDupConcat(Outs(front), u.cells);
      }
    }
  }

  /** What is used for something else is not handed out. */
  lemma {:induction false} SpentApart(log: seq<Use>, k: nat, c: Cell)
    requires NoDup(AllCells(log)) && k < |log| && !log[k].Out? && c in CellsOf(log[k])
    ensures c in AllCells(log) && c !in Outs(log)
    decreases |log|
  {
    var front, u := log[..|log| - 1], log[|log| - 1];
    SplitNoDup(AllCells(front), CellsOf(u));
    OutsOnce(front);
    if k < |front| {
      SpentApart(front, k, c);
    }
  }

  lemma SplitNoDup(a: seq<Cell>, b: seq<Cell>)
    requires NoDup(a + b)
    ensures NoDup(a) && NoDup(b) && forall c :: c in b ==> c !in a
  {
    var s := a + b;
    forall i, j | 0 <= i < j < |b|
      ensures b[i] != b[j]
    {
      assert s[|a| + i] == b[i] && s[|a| + j] == b[j];
    }
    forall i, j | 0 <= i < |a| && 0 <= j < |b|
      ensures a[i] != b[j]
    {
      assert s[i] == a[i] && s[|a| + j] == b[j];
    }
    forall i, j | 0 <= i < j < |a|
      ensures a[i] != a[j]
    {
      assert s[i] == a[i] && s[j] == a[j];
    }
  }

  /** Where the bytes of the request with number i begin in the output. */
  function Start(requests: seq<Request>, i: nat): nat
    requires i <= |requests|
  {
    Sum(Sizes(requests[..i]))
  }

  /** No key of a byte handed out before the request is one of a byte handed out for it or later. */
  ghost predicate Apart(requests: seq<Request>, outputs: seq<Cell>, i: nat)
    requires i <= |requests|
  {
    forall a, b :: 0 <= a < Start(requests, i) <= b < |outputs| ==>
      outputs[a].Stream? && outputs[b].Stream? && outputs[a].key < outputs[b].key
  }

  /** What was handed out before the request is below the key. */
  ghost predicate BelowKey(requests: seq<Request>, outputs: seq<Cell>, i: nat, key: nat)
    requires i <= |requests|
  {
    forall a :: 0 <= a < Start(requests, i) && a < |outputs| ==> outputs[a].Stream? && outputs[a].key < key
  }

  ghost predicate ForksOk(requests: seq<Request>, n: nat, outputs: seq<Cell>, log: seq<Use>, edge: nat)
    requires n <= |requests|
  {
    && KeysIn(outputs, 0, edge)
    && forall i: nat :: i < n && requests[i].forked ==>
      Apart(requests, outputs, i) && BelowKey(requests, outputs, i, edge) && StirredFor(log, i)
  }

  lemma ApartGrows(requests: seq<Request>, i: nat, outputs: seq<Cell>, more: seq<Cell>, lo: nat, hi: nat)
    requires i <= |requests| && Apart(requests, outputs, i) && BelowKey(requests, outputs, i, lo) && KeysIn(more, lo, hi)
    requires Start(requests, i) <= |outputs| && lo <= hi
    ensures Apart(requests, outputs + more, i) && BelowKey(requests, outputs + more, i, hi)
  {
    var all := outputs + more;
    forall a, b | 0 <= a < Start(requests, i) <= b < |all|
      ensures all[a].Stream? && all[b].Stream? && all[a].key < all[b].key
    {
      if b >= |outputs| {
        assert all[b] == more[b - |outputs|] && more[b - |outputs|] in more;
      }
    }
  }

  lemma ApartNow(requests: seq<Request>, n: nat, outputs: seq<Cell>, more: seq<Cell>, edge: nat, hi: nat)
    requires n < |requests| && Start(requests, n) == |outputs|
    requires KeysIn(outputs, 0, edge) && KeysIn(more, edge + 1, hi) && edge < hi
    ensures Apart(requests, outputs + more, n) && BelowKey(requests, outputs + more, n, hi)
  {
    var all := outputs + more;
    forall a | 0 <= a < |outputs|
      ensures all[a].Stream? && all[a].key <= edge
    {
      assert all[a] == outputs[a] && outputs[a] in outputs;
    }
    forall b | |outputs| <= b < |all|
      ensures all[b].Stream? && all[b].key > edge
    {
      assert all[b] == more[b - |outputs|] && more[b - |outputs|] in more;
    }
  }

  lemma {:induction false} StartsGrow(requests: seq<Request>, i: nat, n: nat)
    requires i <= n <= |requests|
    ensures Start(requests, i) <= Start(requests, n)
  {
    if i < n {
      StartsGrow(requests, i, n - 1);
      assert requests[..n][..n - 1] == requests[..n - 1];
      SumGrows(Sizes(requests[..n - 1]), SizeOf(requests[n - 1]));
    }
  }

  lemma ForksGrow(requests: seq<Request>, n: nat, outputs: seq<Cell>, more: seq<Cell>, log: seq<Use>, log': seq<Use>,
                  edge: nat, edge': nat)
    requires n < |requests| && Start(requests, n) == |outputs| && ForksOk(requests, n, outputs, log, edge)
    requires log <= log' && edge <= edge' && KeysIn(more, if requests[n].forked then edge + 1 else edge, edge')
    requires requests[n].forked ==> edge < edge' && StirredFor(log', n)
    ensures ForksOk(requests, n + 1, outputs + more, log', edge')
  {
    KeysAppend(outputs, more, 0, edge, edge');
    forall i: nat | i < n + 1 && requests[i].forked
      ensures Apart(requests, outputs + more, i) && BelowKey(requests, outputs + more, i, edge') && StirredFor(log', i)
    {
      if i == n {
        ApartNow(requests, n, outputs, more, edge, edge');
      } else {
        StartsGrow(requests, i, n);
        ApartGrows(requests, i, outputs, more, edge, edge');
        StirredStill(log, log', i);
      }
    }
  }

  /** Whatever is asked for in whatever order, every request is served in full; no byte of any keystream
      is used twice, so that none is handed out twice and none that was made into a key, a nonce or a
      reseed interval is handed out; and the log of all uses shows that every key but the first is made
      of the start of the buffer before it, that every stir sets a key, and that what is asked for since
      a stir is below 2*REKEY_BASE unless it is one request.  Before a request after a fork there is a stir, and no
      byte from then on has a key that a byte before had. */
  method AnyRun(requests: seq<Request>) returns (outputs: seq<Cell>, ghost log: seq<Use>)
    ensures outputs == Outs(log) && |outputs| == Sum(Sizes(requests)) && Asks(log) == Sizes(requests)
    ensures NoDup(AllCells(log)) && LogOk(log) && forall c :: c in AllCells(log) ==> c.Stream?
    ensures NoDup(outputs)
    ensures forall k: nat, c :: k < |log| && !log[k].Out? && c in CellsOf(log[k]) ==> c !in outputs
    ensures forall i: nat :: i < |requests| && requests[i].forked ==> StirredFor(log, i) && Apart(requests, outputs, i)
  {
    var g := new Generator();
    outputs := [];
    var i := 0;
    while i < |requests|
      invariant 0 <= i <= |requests| && fresh(g) && fresh(g.chacha) && fresh(g.buf)
      invariant g.Valid() && outputs == g.past.outs && g.past.asks == Sizes(requests[..i])
      invariant |outputs| == Sum(Sizes(requests[..i])) && ForksOk(requests, i, outputs, g.past.log, g.past.edgeKey)
    {
      assert requests[..i + 1][..i] == requests[..i];
      SumGrows(Sizes(requests[..i]), SizeOf(requests[i]));
      ghost var was := g.past;
      var more := Serve(g, requests[i]);
      ForksGrow(requests, i, outputs, more, was.log, g.past.log, was.edgeKey, g.past.edgeKey);
      outputs := outputs + more;
      i := i + 1;
    }
    assert requests[..i] == requests;
    log := g.past.log;
    Opened(g.past);
    OutsOnce(log);
    forall k: nat, c | k < |log| && !log[k].Out? && c in CellsOf(log[k])
      ensures c !in outputs
    {
      SpentApart(log, k, c);
    }
  }

  method Serve(g: Generator, r: Request) returns (more: seq<Cell>)
    requires g.Valid()
    modifies g, g.chacha, g.buf
    ensures g.Valid() && |more| == SizeOf(r) && g.Forward(old(g.past), more, r.forked)
    ensures r.forked ==> StirredFor(g.past.log, |old(g.past).asks|)
    ensures g.past.outs == old(g.past).outs + more && g.past.asks == old(g.past).asks + [SizeOf(r)]
  {
    match r {
      case U32(forked, fuzz) => more := ServeU32(g, forked, fuzz);
      case Buf(n, forked, fuzz) => more := ServeBuf(g, n, forked, fuzz);
    }
  }

  method ServeU32(g: Generator, forked: bool, fuzz: nat) returns (more: seq<Cell>)
    requires g.Valid()
    modifies g, g.chacha, g.buf
    ensures g.Forward(old(g.past), more, forked)
    ensures g.Valid() && |more| == 4 && g.past.outs == old(g.past).outs + more && g.past.asks == old(g.past).asks + [4]
  {
    var val := new Cell[4](_ => Zero);
    g.RandomU32(val, forked, fuzz);
    more := val[..];
  }

  method ServeBuf(g: Generator, n: nat, forked: bool, fuzz: nat) returns (more: seq<Cell>)
    requires g.Valid()
    modifies g, g.chacha, g.buf
    ensures g.Forward(old(g.past), more, forked)
    ensures g.Valid() && |more| == n && g.past.outs == old(g.past).outs + more && g.past.asks == old(g.past).asks + [n]
  {
    var out := new Cell[n](_ => Zero);
    g.RandomBuf(out, n, forked, fuzz);
    more := out[..n];
  }
}
