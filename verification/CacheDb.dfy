/** The external cache of `cachedb/cachedb.c` against a plain map with expiry times. */
module CacheDb {
  import opened CacheDbKeys
  import opened Octets
  import opened Options

  // ----- messages

  const NOERROR := 0
  const NXDOMAIN := 3
  const YXDOMAIN := 6
  const TYPE_SOA := 6
  const TYPE_NSEC := 47
  const TYPE_NSEC3 := 50

  datatype RRset = RRset(rtype: nat, ttl: int, rrTtl: seq<int>)

  datatype Msg = Msg(rcode: nat, ttl: int, bogus: bool, rrsets: seq<RRset>)

  predicate GoodRcode(m: Msg) {
    m.rcode == NOERROR || m.rcode == NXDOMAIN || m.rcode == YXDOMAIN
  }

  /** Less by the time passed, and not below zero; zero where that is negative. */
  function Less(ttl: int, subtract: int): (r: int) {
    if subtract >= 0 && ttl > subtract then ttl - subtract else 0
  }

  /** A TTL after the time has passed: what is left of it, and nothing when that is not more. */
  predicate TtlAged(ttl: int, ttl': int, passed: int) {
    if 0 <= passed < ttl then ttl' + passed == ttl else ttl' == 0
  }

  /** `packed_rrset_ttl_subtract`. */
  method RRsetSubtract(d: RRset, subtract: int) returns (d': RRset)
    ensures d'.rtype == d.rtype && TtlAged(d.ttl, d'.ttl, subtract) && |d'.rrTtl| == |d.rrTtl|
    ensures forall i :: 0 <= i < |d.rrTtl| ==> TtlAged(d.rrTtl[i], d'.rrTtl[i], subtract)
  {
    d' := d.(ttl := Less(d.ttl, subtract));
    var i := 0;
    while i < |d.rrTtl|
      invariant 0 <= i <= |d.rrTtl| == |d'.rrTtl| && d'.rtype == d.rtype && d'.ttl == Less(d.ttl, subtract)
      invariant forall k :: 0 <= k < |d.rrTtl| ==> d'.rrTtl[k] == if k < i then Less(d.rrTtl[k], subtract) else d.rrTtl[k]
    {
      d' := d'.(rrTtl := d'.rrTtl[i := Less(d.rrTtl[i], subtract)]);
      i := i + 1;
    }
  }

  /** An RRset that is older by the time passed; that of NSEC and NSEC3 records (47 and 50) may be lower still. */
  predicate RRsetAged(d: RRset, d': RRset, passed: int) {
    && d'.rtype == d.rtype && |d'.rrTtl| == |d.rrTtl|
    && (if d.rtype == 47 || d.rtype == 50 then d'.ttl == 0 || (passed >= 0 && d'.ttl > 0 && d'.ttl + passed <= d.ttl)
        else TtlAged(d.ttl, d'.ttl, passed))
    && forall i :: 0 <= i < |d.rrTtl| ==> TtlAged(d.rrTtl[i], d'.rrTtl[i], passed)
  }

  /** A message that is older by the time passed. */
  predicate Aged(m: Msg, m': Msg, passed: int) {
    && m'.rcode == m.rcode && m'.bogus == m.bogus && |m'.rrsets| == |m.rrsets|
    && TtlAged(m.ttl, m'.ttl, passed)
    && forall i :: 0 <= i < |m.rrsets| ==> RRsetAged(m.rrsets[i], m'.rrsets[i], passed)
  }

  /** `adjust_msg_ttl`. */
  method AdjustMsgTtl(m: Msg, adjust: int) returns (m': Msg)
    ensures Aged(m, m', adjust)
  {
    m' := m.(ttl := Less(m.ttl, adjust));
    var i := 0;
    while i < |m.rrsets|
      invariant 0 <= i <= |m.rrsets| == |m'.rrsets|
      invariant m'.rcode == m.rcode && m'.bogus == m.bogus && m'.ttl == Less(m.ttl, adjust)
      invariant forall k :: 0 <= k < i ==> RRsetAged(m.rrsets[k], m'.rrsets[k], adjust)
      invariant forall k :: i <= k < |m.rrsets| ==> m'.rrsets[k] == m.rrsets[k]
    {
      var d := RRsetSubtract(m'.rrsets[i], adjust);
      m' := m'.(rrsets := m'.rrsets[i := d]);
      i := i + 1;
    }
  }

  predicate IsNsec(d: RRset) {
    d.rtype == TYPE_NSEC || d.rtype == TYPE_NSEC3
  }

  /** The first SOA record (6). */
  predicate FirstSoa(m: Msg, s: int) {
    0 <= s < |m.rrsets| && m.rrsets[s].rtype == 6 && forall k :: 0 <= k < s ==> m.rrsets[k].rtype != 6
  }

  /** An RRset next to a SOA record with the TTL: one of NSEC or NSEC3 records (47 and 50) has at most that TTL. */
  predicate Limited(d: RRset, d': RRset, soa: int) {
    d' == if (d.rtype == 47 || d.rtype == 50) && soa < d.ttl then d.(ttl := soa) else d
  }

  method FindSoa(m: Msg) returns (s: nat)
    ensures s < |m.rrsets| ==> FirstSoa(m, s)
    ensures s >= |m.rrsets| ==> forall t :: !FirstSoa(m, t)
  {
    s := 0;
    while s < |m.rrsets| && m.rrsets[s].rtype != TYPE_SOA
      invariant 0 <= s <= |m.rrsets| && forall k :: 0 <= k < s ==> m.rrsets[k].rtype != TYPE_SOA
    {
      s := s + 1;
    }
  }

  /** `limit_nsec_ttl`: the TTLs of NSEC RRsets are limited by the first SOA record, if there is one. */
  method LimitNsecTtl(m: Msg) returns (m': Msg)
    ensures m' == m.(rrsets := m'.rrsets) && |m'.rrsets| == |m.rrsets|
    ensures (forall s :: !FirstSoa(m, s)) ==> m' == m
    ensures forall s, i :: FirstSoa(m, s) && 0 <= i < |m.rrsets| ==> Limited(m.rrsets[i], m'.rrsets[i], m.rrsets[s].ttl)
    ensures forall i :: 0 <= i < |m.rrsets| ==>
      m'.rrsets[i] == m.rrsets[i] || (IsNsec(m.rrsets[i]) && m'.rrsets[i].ttl < m.rrsets[i].ttl && m'.rrsets[i] == m.rrsets[i].(ttl := m'.rrsets[i].ttl))
    ensures (forall i :: 0 <= i < |m.rrsets| ==> m.rrsets[i].ttl >= 0) ==> forall i :: 0 <= i < |m.rrsets| ==> m'.rrsets[i].ttl >= 0
  {
    m' := m;
    var s := FindSoa(m);
    if s >= |m.rrsets| {
      return;
    }
    assert forall t :: FirstSoa(m, t) ==> t == s;
    var soa := m.rrsets[s].ttl;
    var i := 0;
    while i < |m.rrsets|
      invariant 0 <= i <= |m.rrsets| == |m'.rrsets| && m' == m.(rrsets := m'.rrsets)
      invariant forall k :: 0 <= k < i ==> Limited(m.rrsets[k], m'.rrsets[k], soa)
      invariant forall k :: i <= k < |m.rrsets| ==> m'.rrsets[k] == m.rrsets[k]
    {
      if IsNsec(m'.rrsets[i]) && m'.rrsets[i].ttl > soa {
        m' := m'.(rrsets := m'.rrsets[i := m'.rrsets[i].(ttl := soa)]);
      }
      i := i + 1;
    }
  }

  // ----- records

  /** What a packet carries of a message. */
  datatype Packet = Packet(rcode: nat, rrsets: seq<RRset>)

  /** The wire format of messages, which is not modelled further. */
  datatype Codec = Codec(encode: Msg -> Option<seq<Byte>>, parse: seq<Byte> -> Option<Packet>)

  const HEADER_SIZE := 12

  /** What is encoded has a header, and its answer code and RRsets are parsed as they were; the TTL of the
      message and its security status are not encoded. */
  ghost predicate CodecOk(c: Codec) {
    forall m :: c.encode(m).Some? ==>
      |c.encode(m).value| >= HEADER_SIZE && c.parse(c.encode(m).value) == Some(Packet(m.rcode, m.rrsets))
  }

  const NORR_TTL := 5

  /** The lowest of the TTLs and a limit. */
  function Lowest(limit: nat, rrsets: seq<RRset>): (r: int)
    ensures r <= limit && forall i :: 0 <= i < |rrsets| ==> r <= rrsets[i].ttl
    ensures r == limit || exists i :: 0 <= i < |rrsets| && r == rrsets[i].ttl
  {
    if rrsets == [] then limit
    else
      var n := |rrsets| - 1;
      var r := Lowest(limit, rrsets[..n]);
      if rrsets[n].ttl < r then rrsets[n].ttl else r
  }

  /** The TTL that a message gets when it is parsed. */
  function ParsedTtl(maxTtl: nat, rrsets: seq<RRset>): int {
    if rrsets == [] then 5 else Lowest(maxTtl, rrsets)
  }

  /** A message as it is read back. */
  function Reread(maxTtl: nat, m: Msg): Msg {
    Msg(m.rcode, ParsedTtl(maxTtl, m.rrsets), false, m.rrsets)
  }

  /** The loop of `parse_copy_decompress` over the RRsets. */
  method CreateMsg(p: Packet, maxTtl: nat) returns (m: Msg)
    ensures m == Msg(p.rcode, ParsedTtl(maxTtl, p.rrsets), false, p.rrsets)
  {
    var ttl: int := maxTtl;
    if |p.rrsets| == 0 {
      ttl := NORR_TTL;
    }
    var i := 0;
    while i < |p.rrsets|
      invariant 0 <= i <= |p.rrsets|
      invariant ttl == if |p.rrsets| == 0 then NORR_TTL else Lowest(maxTtl, p.rrsets[..i])
    {
      assert p.rrsets[..i + 1][..i] == p.rrsets[..i];
      if p.rrsets[i].ttl < ttl {
        ttl := p.rrsets[i].ttl;
      }
      i := i + 1;
    }
    assert p.rrsets[..|p.rrsets|] == p.rrsets;
    return Msg(p.rcode, ttl, false, p.rrsets);
  }

  /** A message as it was stored, and when. */
  datatype Stored = Stored(msg: Msg, time: nat)

  predicate TtlsOk(m: Msg) {
    m.ttl >= 0 && forall i :: 0 <= i < |m.rrsets| ==> RRsetOk(m.rrsets[i])
  }

  predicate RRsetOk(d: RRset) {
    d.ttl >= 0 && forall i :: 0 <= i < |d.rrTtl| ==> d.rrTtl[i] >= 0
  }

  predicate StoredOk(c: Codec, st: Stored) {
    c.encode(st.msg).Some? && GoodRcode(st.msg) && st.msg.ttl > 0 && TtlsOk(st.msg) && st.time + st.msg.ttl < TWO63
  }

  function Expiry(st: Stored): int {
    st.time + st.msg.ttl
  }

  /** The message, the time it was stored and the time it expires. */
  function Record(c: Codec, st: Stored): seq<Byte>
    requires StoredOk(c, st)
  {
    c.encode(st.msg).value + NetworkOrder(st.time, 8) + NetworkOrder(Expiry(st), 8)
  }

  const REMOVED: seq<Byte> := [0, 0, 0, 0]

  lemma RecordParts(c: Codec, st: Stored)
    requires CodecOk(c) && StoredOk(c, st)
    ensures var r := Record(c, st); var n := |r|;
      && n >= HEADER_SIZE + 16
      && c.parse(r[..n - 16]) == Some(Packet(st.msg.rcode, st.msg.rrsets))
      && NetworkValue(r[n - 16..n - 8]) == st.time && NetworkValue(r[n - 8..]) == Expiry(st)
  {
    var r := Record(c, st);
    var n := |r|;
    var packet := c.encode(st.msg).value;
    assert r[..n - 16] == packet;
    assert r[n - 16..n - 8] == NetworkOrder(st.time, 8) && r[n - 8..] == NetworkOrder(Expiry(st), 8);
    Powers();
    NetworkRoundTrip(st.time, 8);
    NetworkRoundTrip(Expiry(st), 8);
  }

  /** TTL_IS_EXPIRED. */
  predicate Expired(expiry: int, now: int) {
    expiry <= now
  }

  datatype Config = Config(
    secret: seq<Byte>,
    serveExpired: bool,
    serveExpiredTtl: nat,
    validate: bool,        // need_to_validate
    aggressiveNsec: bool,
    capacity: nat,         // of the scratch buffer
    maxTtl: nat,           // cache-max-ttl
    expireCommand: bool)   // the backend removes a key that is stored with TTL 0

  /** What a lookup in the backend has come to. */
  datatype Found = Found(msg: Msg, expired: bool)

  /** How much of the TTLs has passed; a clock that went back takes nothing. */
  function Elapsed(st: Stored, now: int): int {
    if now <= st.time then 0 else now - st.time
  }

  /** The message has not expired, and neither has any RRset in it. */
  predicate Current(maxTtl: nat, st: Stored, now: int) {
    now < Expiry(st) && Elapsed(st, now) < ParsedTtl(maxTtl, st.msg.rrsets)
  }

  /** What is left when a key is gone. */
  function Without(sha: Hash, secret: seq<Byte>, last: map<Question, Stored>, key: string): map<Question, Stored> {
    map c | c in last && KeyOf(sha, c, secret) != key :: last[c]
  }

  class Cache {
    const cfg: Config
    const codec: Codec
    const sha: Hash
    var now: nat
    var db: map<string, seq<Byte>>            // the backend
    ghost var last: map<Question, Stored>     // the last message stored for a question, if not removed or evicted

    /** What the backend has for a question is the last message stored for it, or the mark of a removal. */
    ghost predicate Agrees(q: Question)
      reads this
    {
      var key := KeyOf(sha, q, cfg.secret);
      && (key in db ==> db[key] == REMOVED || Live(q))
      && (Canon(q) in last ==> Live(q))
    }

    ghost predicate Live(q: Question)
      reads this
    {
      var key := KeyOf(sha, q, cfg.secret);
      && key in db && Canon(q) in last && StoredOk(codec, last[Canon(q)])
      && db[key] == Record(codec, last[Canon(q)])
    }

    ghost predicate Valid()
      reads this
    {
      CodecOk(codec) && Injective(sha) && forall q :: QuestionOk(q) ==> Agrees(q)
    }

    constructor (cfg: Config, codec: Codec, sha: Hash, now: nat)
      requires CodecOk(codec) && Injective(sha)
      ensures Valid() && last == map[] && db == map[] && this.now == now
      ensures this.cfg == cfg && this.codec == codec && this.sha == sha
    {
      this.cfg, this.codec, this.sha, this.now := cfg, codec, sha, now;
      db, last := map[], map[];
    }

    // ----- what happens to the backend and the clock on their own

    method Evict(key: string)
      requires Valid()
      modifies this`db, this`last
      ensures Valid() && db == old(db) - {key} && last == Without(sha, cfg.secret, old(last), key)
    {
      db := db - {key};
      last := Without(sha, cfg.secret, last, key);
      forall q | QuestionOk(q)
        ensures Agrees(q)
      {
        assert old(Agrees(q));
        CanonKey(sha, q, cfg.secret);
      }
    }

    method SetClock(t: nat)
      requires Valid()
      modifies this`now
      ensures Valid() && now == t
    {
      now := t;
      forall q | QuestionOk(q)
        ensures Agrees(q)
      {
        assert old(Agrees(q));
      }
    }

    // ----- storing

    /** Failures, bogus messages and messages with TTL 0 are not stored. */
    predicate Storable(m: Msg) {
      StorableMsg(cfg, codec, m)
    }

    /** `prep_data`: the record of a message, unless it is not to be stored or does not fit. */
    method PrepData(m: Msg) returns (buf: Option<seq<Byte>>)
      requires Valid() && TtlsOk(m) && now + m.ttl < TWO63
      ensures buf.Some? ==> StoredOk(codec, Stored(m, now)) && buf.value == Record(codec, Stored(m, now))
      ensures buf.Some? <==> Storable(m)
    {
      if !GoodRcode(m) || (cfg.validate && m.bogus) || m.ttl == 0 {
        return None;
      }
      var packet := codec.encode(m);
      if packet.None? || |packet.value| + 16 >= cfg.capacity {
        return None;
      }
      return Some(packet.value + NetworkOrder(now, 8) + NetworkOrder(now + m.ttl, 8));
    }

    /** `cachedb_extcache_store`: what cannot be stored leaves what is there. */
    method Store(q: Question, m: Msg) returns (stored: bool)
      requires Valid() && QuestionOk(q) && TtlsOk(m) && now + m.ttl < TWO63
      modifies this`db, this`last
      ensures Valid() && stored == Storable(m) && (stored ==> Live(q))
      ensures last == if stored then old(last)[Canon(q) := Stored(m, now)] else old(last)
      ensures !stored ==> db == old(db)
    {
      var buf := PrepData(m);
      if buf.None? {
        return false;
      }
      var key := KeyOf(sha, q, cfg.secret);
      db := db[key := buf.value];
      last := last[Canon(q) := Stored(m, now)];
      forall q' | QuestionOk(q')
        ensures Agrees(q')
      {
        assert old(Agrees(q'));
        SameKey(sha, q, q', cfg.secret);
      }
      return true;
    }

    /** `cachedb_msg_remove_qinfo`: four zero bytes, which no lookup takes for a record, or no key. */
    method Remove(q: Question)
      requires Valid() && QuestionOk(q)
      modifies this`db, this`last
      ensures Valid() && !Live(q) && last == old(last) - {Canon(q)}
    {
      var key := KeyOf(sha, q, cfg.secret);
      if cfg.expireCommand {
        db := db - {key};
      } else {
        db := db[key := REMOVED];
      }
      last := last - {Canon(q)};
      forall q' | QuestionOk(q')
        ensures Agrees(q')
      {
        assert old(Agrees(q'));
        SameKey(sha, q, q', cfg.secret);
      }
    }

    // ----- looking up

    /** `good_expiry_and_qinfo`. */
    method GoodExpiry(buf: seq<Byte>) returns (good: bool)
      ensures good <==> |buf| >= 8 && Usable(NetworkValue(buf[|buf| - 8..]))
    {
      if |buf| < 8 {
        return false;
      }
      var expiry := NetworkValue(buf[|buf| - 8..]);
      if Expired(expiry, now) && (!cfg.serveExpired || (cfg.serveExpiredTtl != 0 && now - expiry > cfg.serveExpiredTtl)) {
        return false;
      }
      return true;
    }

    /** A record that has not expired, or one that may be served expired. */
    predicate Usable(expiry: int)
      reads this
    {
      Expired(expiry, now) ==> cfg.serveExpired && (cfg.serveExpiredTtl == 0 || now - expiry <= cfg.serveExpiredTtl)
    }

    /** `parse_data`: the message with the time that passed taken off its TTLs. */
    method ParseData(buf: seq<Byte>, ghost st: Stored) returns (r: Option<Found>)
      requires CodecOk(codec) && StoredOk(codec, st) && buf == Record(codec, st) && Usable(Expiry(st))
      ensures r.Some? && r.value.expired == Expired(Expiry(st), now)
      ensures !r.value.expired ==> Aged(Reread(cfg.maxTtl, st.msg), r.value.msg, Elapsed(st, now))
    {
      RecordParts(codec, st);
      var n := |buf|;
      if n < HEADER_SIZE + 16 {
        return None;
      }
      var expiry, timestamp := NetworkValue(buf[n - 8..]), NetworkValue(buf[n - 16..n - 8]);
      var parsed := codec.parse(buf[..n - 16]);
      if parsed.None? {
        return None;
      }
      var msg := CreateMsg(parsed.value, cfg.maxTtl);
      if now <= timestamp {
        FromTheFuture(cfg.maxTtl, st.msg);
        return Some(Found(msg, false));
      }
      var adjust, expired := now - timestamp, false;
      if Expired(expiry, now) {
        expired := true;
        if !cfg.serveExpired || !GoodRcode(msg) {
          return None;
        }
        adjust := -1;
      }
      msg := AdjustMsgTtl(msg, adjust);
      if cfg.aggressiveNsec {
        ghost var aged := msg;
        assert forall i :: 0 <= i < |msg.rrsets| ==> msg.rrsets[i].ttl >= 0;
        msg := LimitNsecTtl(msg);
        StillAged(Reread(cfg.maxTtl, st.msg), aged, msg, adjust);
      }
      return Some(Found(msg, expired));
    }

    /** `cachedb_extcache_lookup`. */
    method ExtLookup(q: Question) returns (r: Option<Found>)
      requires Valid() && QuestionOk(q)
      ensures r.Some? <==> Live(q) && Usable(Expiry(last[Canon(q)]))
      ensures r.Some? ==> r.value.expired == Expired(Expiry(last[Canon(q)]), now)
      ensures r.Some? && !r.value.expired ==>
        Aged(Reread(cfg.maxTtl, last[Canon(q)].msg), r.value.msg, Elapsed(last[Canon(q)], now))
    {
      assert Agrees(q);
      var key := KeyOf(sha, q, cfg.secret);
      if key !in db {
        return None;
      }
      if Live(q) { RecordParts(codec, last[Canon(q)]); }
      var good := GoodExpiry(db[key]);
      if !good {
        return None;
      }
      r := ParseData(db[key], last[Canon(q)]);
    }

    /** `cachedb_handle_query`: an answer from the external cache is the last message stored for the
        question and not removed since, still current, with what is left of its TTLs. It is given
        whenever the backend still has that message and something is left of every TTL, unless the query
        is not to be answered from a cache, or the internal cache answers it, or it waits for newer data. */
    method HandleQuery(q: Question, skip: bool, internal: Option<Msg>, awaitsRefetch: bool)
      returns (answer: Option<Msg>, isCachedbAnswer: bool)
      requires Valid() && QuestionOk(q)
      ensures isCachedbAnswer <==>
        !skip && internal.None? && !awaitsRefetch && Live(q) && Current(cfg.maxTtl, last[Canon(q)], now)
      ensures isCachedbAnswer ==>
        && answer.Some? && answer.value.ttl > 0
        && Aged(Reread(cfg.maxTtl, last[Canon(q)].msg), answer.value, Elapsed(last[Canon(q)], now))
      ensures isCachedbAnswer ==> var st := last[Canon(q)];
        answer.value.ttl + (if now > st.time then now - st.time else 0) == ParsedTtl(cfg.maxTtl, st.msg.rrsets)
      ensures !isCachedbAnswer ==> answer == if skip then None else internal
    {
      if skip {
        return None, false;
      }
      if internal.Some? {
        return internal, false;
      }
      var found := ExtLookup(q);
      if found.Some? {
        if cfg.serveExpired && found.value.expired {
          return None, false;
        }
        if awaitsRefetch {
          return None, false;
        }
        if found.value.msg.ttl == 0 {
          return None, false;
        }
        return Some(found.value.msg), true;
      }
      return None, false;
    }
  }

  lemma FromTheFuture(maxTtl: nat, m: Msg)
    requires TtlsOk(m)
    ensures var r := Reread(maxTtl, m); r.ttl >= 0 && Aged(r, r, 0)
  {
    assert forall i :: 0 <= i < |m.rrsets| ==> RRsetOk(m.rrsets[i]);
  }

  lemma StillAged(m: Msg, aged: Msg, limited: Msg, adjust: int)
    requires Aged(m, aged, adjust) && limited == aged.(rrsets := limited.rrsets) && |limited.rrsets| == |aged.rrsets|
    requires forall i :: 0 <= i < |aged.rrsets| ==>
      limited.rrsets[i] == aged.rrsets[i]
      || (IsNsec(aged.rrsets[i]) && 0 <= limited.rrsets[i].ttl && limited.rrsets[i].ttl < aged.rrsets[i].ttl && limited.rrsets[i] == aged.rrsets[i].(ttl := limited.rrsets[i].ttl))
    ensures Aged(m, limited, adjust)
  {
    forall i | 0 <= i < |m.rrsets|
      ensures RRsetAged(m.rrsets[i], limited.rrsets[i], adjust)
    {
      assert RRsetAged(m.rrsets[i], aged.rrsets[i], adjust);
    }
  }

  // ----- any run, against a plain map

  datatype Event =
    | StoreMsg(q: Question, msg: Msg)
    | RemoveMsg(q: Question)
    | EvictKey(key: string)
    | Clock(t: nat)

  const FAR := 0x4000_0000_0000_0000

  predicate EventOk(e: Event) {
    match e
    case StoreMsg(q, m) => QuestionOk(q) && TtlsOk(m) && m.ttl < FAR
    case RemoveMsg(q) => QuestionOk(q)
    case EvictKey(_) => true
    case Clock(t) => t < FAR
  }

  datatype Plain = Plain(last: map<Question, Stored>, now: nat)

  predicate StorableMsg(cfg: Config, codec: Codec, m: Msg) {
    && m.rcode in {0, 3, 6} && !(cfg.validate && m.bogus) && m.ttl != 0
    && codec.encode(m).Some? && |codec.encode(m).value| + 16 < cfg.capacity
  }

  /** The plain map: what was stored last, until it is removed or evicted. */
  function PlainStep(cfg: Config, codec: Codec, sha: Hash, p: Plain, e: Event): Plain {
    match e
    case StoreMsg(q, m) =>
      if StorableMsg(cfg, codec, m) then p.(last := p.last[Canon(q) := Stored(m, p.now)]) else p
    case RemoveMsg(q) => p.(last := p.last - {Canon(q)})
    case EvictKey(key) => p.(last := Without(sha, cfg.secret, p.last, key))
    case Clock(t) => p.(now := t)
  }

  function PlainRun(cfg: Config, codec: Codec, sha: Hash, events: seq<Event>): Plain {
    if events == [] then Plain(map[], 0)
    else PlainStep(cfg, codec, sha, PlainRun(cfg, codec, sha, events[..|events| - 1]), events[|events| - 1])
  }

  method Apply(c: Cache, e: Event)
    requires c.Valid() && c.now < FAR && EventOk(e)
    modifies c
    ensures c.Valid() && c.now < FAR
    ensures Plain(c.last, c.now) == PlainStep(c.cfg, c.codec, c.sha, Plain(old(c.last), old(c.now)), e)
  {
    match e {
      case StoreMsg(q, m) => var _ := c.Store(q, m);
      case RemoveMsg(q) => c.Remove(q);
      case EvictKey(key) => c.Evict(key);
      case Clock(t) => c.SetClock(t);
    }
  }

  /** The answer in plain arithmetic, with the time passed since it was stored: something is left of the lowest
      TTL, every record has what is left of its own TTL, and no RRset has more than that. */
  ghost predicate AgedPlainly(maxTtl: nat, p: Plain, q: Question, answer: Msg)
    requires Canon(q) in p.last
  {
    var st := p.last[Canon(q)];
    var e := if p.now > st.time then p.now - st.time else 0;
    var was, got := st.msg.rrsets, answer.rrsets;
    && answer.rcode == st.msg.rcode && |got| == |was|
    && answer.ttl + e == ParsedTtl(maxTtl, was)
    && forall i :: 0 <= i < |was| ==>
      && got[i].rtype == was[i].rtype && |got[i].rrTtl| == |was[i].rrTtl|
      && (got[i].ttl == 0 || (got[i].ttl > 0 && got[i].ttl + e <= was[i].ttl))
      && forall k :: 0 <= k < |was[i].rrTtl| ==>
        got[i].rrTtl[k] == if was[i].rrTtl[k] > e then was[i].rrTtl[k] - e else 0
  }

  lemma AgedIsPlain(maxTtl: nat, p: Plain, q: Question, answer: Msg)
    requires Canon(q) in p.last && Aged(Reread(maxTtl, p.last[Canon(q)].msg), answer, Elapsed(p.last[Canon(q)], p.now))
    requires Current(maxTtl, p.last[Canon(q)], p.now)
    ensures AgedPlainly(maxTtl, p, q, answer)
  {
    var st := p.last[Canon(q)];
    forall i | 0 <= i < |st.msg.rrsets|
      ensures RRsetAged(st.msg.rrsets[i], answer.rrsets[i], Elapsed(st, p.now))
    {
    }
  }

  /** A lookup after any run: an answer from the external cache is given if and only if the plain map has
      a current one, and it is that one, aged. */
  method AnyRun(cfg: Config, codec: Codec, sha: Hash, events: seq<Event>, q: Question)
    returns (answer: Option<Msg>, isCachedbAnswer: bool)
    requires CodecOk(codec) && Injective(sha) && QuestionOk(q)
    requires forall i :: 0 <= i < |events| ==> EventOk(events[i])
    ensures var p := PlainRun(cfg, codec, sha, events);
      isCachedbAnswer <==> Canon(q) in p.last && Current(cfg.maxTtl, p.last[Canon(q)], p.now)
    ensures var p := PlainRun(cfg, codec, sha, events); isCachedbAnswer ==>
      && answer.Some? && answer.value.ttl > 0
      && Aged(Reread(cfg.maxTtl, p.last[Canon(q)].msg), answer.value, Elapsed(p.last[Canon(q)], p.now))
    ensures isCachedbAnswer ==> AgedPlainly(cfg.maxTtl, PlainRun(cfg, codec, sha, events), q, answer.value)
    ensures !isCachedbAnswer ==> answer == None
  {
    var c := new Cache(cfg, codec, sha, 0);
    var i := 0;
    while i < |events|
      invariant 0 <= i <= |events| && fresh(c) && c.Valid() && c.now < FAR
      invariant c.cfg == cfg && c.codec == codec && c.sha == sha
      invariant Plain(c.last, c.now) == PlainRun(cfg, codec, sha, events[..i])
    {
      assert events[..i + 1][..i] == events[..i];
      Apply(c, events[i]);
      i := i + 1;
    }
    assert events[..i] == events;
    assert c.Agrees(q);
    answer, isCachedbAnswer := c.HandleQuery(q, false, None, false);
    if isCachedbAnswer {
      AgedIsPlain(cfg.maxTtl, PlainRun(cfg, codec, sha, events), q, answer.value);
    }
  }
}
