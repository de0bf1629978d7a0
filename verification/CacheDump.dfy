/** The cache dump of `daemon/cachedump.c`, which lets go of the table between batches. */
module CacheDump {
  import opened Options
  import opened Sequences

  /** An entry of a hash table, by its identity and hash value. */
  datatype Entry = Entry(id: nat, hash: nat)

  /** The bins of a table with their overflow lists. */
  type Table = seq<seq<Entry>>

  /** Every entry lies in the bin of its hash value, once. */
  ghost predicate TableOk(t: Table, size: nat) {
    && 0 < size == |t|
    && forall b :: 0 <= b < size ==> NoDup(t[b]) && forall e :: e in t[b] ==> e.hash % size == b
  }

  /** The table at each time that the dump holds its lock; in between it changes in any way, except
      that its size does not. */
  ghost predicate WorldOk(world: nat -> Table, size: nat) {
    size > 0 && forall k: nat :: TableOk(world(k), size)
  }

  ghost predicate InTable(t: Table, size: nat, e: Entry)
    requires TableOk(t, size)
  {
    e in t[e.hash % size]
  }

  /** The entry is there at each of the first n times. */
  ghost predicate Present(world: nat -> Table, size: nat, n: nat, e: Entry)
    requires WorldOk(world, size)
  {
    forall k: nat :: k < n ==> InTable(world(k), size, e)
  }

  /** Every entry that was there all the time and lies below bin `low` was visited. */
  ghost predicate Covered(world: nat -> Table, size: nat, n: nat, low: nat, visited: seq<Entry>)
    requires WorldOk(world, size)
  {
    forall e :: Present(world, size, n, e) && e.hash % size < low ==> e in visited
  }

  /** Nothing was visited twice, nor before its bin, nor without having been there. */
  ghost predicate Honest(world: nat -> Table, size: nat, n: nat, low: nat, visited: seq<Entry>)
    requires WorldOk(world, size)
  {
    && NoDup(visited)
    && forall e :: e in visited ==> e.hash % size < low && exists k: nat :: k < n && InTable(world(k), size, e)
  }

  lemma NextTime(world: nat -> Table, size: nat, n: nat, low: nat, visited: seq<Entry>)
    requires WorldOk(world, size) && Covered(world, size, n, low, visited) && Honest(world, size, n, low, visited)
    ensures Covered(world, size, n + 1, low, visited) && Honest(world, size, n + 1, low, visited)
  {
    forall e | Present(world, size, n + 1, e)
      ensures Present(world, size, n, e)
    {
    }
  }

  lemma VisitBin(world: nat -> Table, size: nat, n: nat, i: nat, visited: seq<Entry>)
    requires WorldOk(world, size) && i < size
    requires Covered(world, size, n + 1, i, visited) && Honest(world, size, n + 1, i, visited)
    ensures Covered(world, size, n + 1, i + 1, visited + world(n)[i])
    ensures Honest(world, size, n + 1, i + 1, visited + world(n)[i])
  {
    assert TableOk(world(n), size);
    forall e | Present(world, size, n + 1, e) && e.hash % size == i
      ensures e in world(n)[i]
    {
      assert InTable(world(n), size, e);
    }
    forall e | e in world(n)[i]
      ensures InTable(world(n), size, e) && e !in visited
    {
    }
  }

  lemma SkipBin(world: nat -> Table, size: nat, n: nat, i: nat, visited: seq<Entry>)
    requires WorldOk(world, size) && i < size && world(n)[i] == []
    requires Covered(world, size, n + 1, i, visited) && Honest(world, size, n + 1, i, visited)
    ensures Covered(world, size, n + 1, i + 1, visited) && Honest(world, size, n + 1, i + 1, visited)
  {
    assert visited + world(n)[i] == visited;
    VisitBin(world, size, n, i, visited);
  }

  const MAX := 2  // the number of entries after which a batch lets go of the table

  /** One batch, on the table as it is: whole bins from bin `low` on, until two entries or more were
      processed. The hash value of an entry in the next bin with any is where to go on. */
  method Batch(world: nat -> Table, size: nat, n: nat, low: nat, visited: seq<Entry>)
    returns (more: seq<Entry>, hash: Option<nat>, ghost next: nat)
    requires WorldOk(world, size) && low < size
    requires Covered(world, size, n, low, visited) && Honest(world, size, n, low, visited)
    ensures low < next <= size && (hash.Some? ==> hash.value % size == next) && (hash.None? ==> next == size)
    ensures Covered(world, size, n + 1, next, more) && Honest(world, size, n + 1, next, more)
    ensures hash.Some? ==> |more| >= |visited| + 2
    ensures exists b :: low <= b < next && b < |world(n)| && |more| < |visited| + 2 + |world(n)[b]|
  {
    var table := world(n);
    assert TableOk(table, size);
    NextTime(world, size, n, low, visited);
    more, hash, next := visited, None, low;
    var i := low;
    var num := 0;
    while true
      invariant low <= i < size && num >= 0 && TableOk(table, size)
      invariant i == low || (hash.Some? && hash.value % size == i)
      invariant Covered(world, size, n + 1, i, more) && Honest(world, size, n + 1, i, more)
      invariant |more| == |visited| + num && num < MAX
      decreases size - i
    {
      VisitBin(world, size, n, i, more);
      more := more + table[i];
      num := num + |table[i]|;
      ghost var last := i;
      assert |more| < |visited| + 2 + |table[last]|;
      i := i + 1;
      while i < size && table[i] == []
        invariant low < i <= size
        invariant Covered(world, size, n + 1, i, more) && Honest(world, size, n + 1, i, more)
      {
        SkipBin(world, size, n, i, more);
        i := i + 1;
      }
      next := i;
      if i == size {
        hash := None;
        return;
      }
      assert table[i][0] in table[i];
      hash := Some(table[i][0].hash);
      if num >= MAX {
        return;
      }
    }
  }

  /** `dump_lruhash`: it ends, and visits no entry twice and every entry that is there throughout,
      unless the print fails. */
  method DumpLruHash(world: nat -> Table, size: nat, prints: nat -> bool)
    returns (ok: bool, visited: seq<Entry>, n: nat)
    requires WorldOk(world, size)
    ensures Honest(world, size, n, size, visited)
    ensures ok ==> Covered(world, size, n, size, visited)
    ensures ok <==> forall k: nat :: k < n ==> prints(k)
  {
    assert TableOk(world(0), size);
    var low := 0;
    visited, n := [], 0;
    while true
      invariant low < size && Covered(world, size, n, low, visited) && Honest(world, size, n, low, visited)
      invariant forall k: nat :: k < n ==> prints(k)
      decreases size - low
    {
      ghost var next;
      var hash;
      visited, hash, next := Batch(world, size, n, low, visited);
      n := n + 1;
      if !prints(n - 1) {
        return false, visited, n;
      }
      match hash {
        case None => return true, visited, n;
        case Some(h) => low := h % size;
      }
    }
  }

  // ----- a cache of several tables

  /** A table holds only entries whose hash value selects it. */
  ghost predicate SlabOk(t: Table, size: nat, slab: nat -> nat, s: nat) {
    TableOk(t, size) && forall e :: InTable(t, size, e) ==> slab(e.hash) == s
  }

  ghost predicate SlabsOk(world: (nat, nat) -> Table, sizes: seq<nat>, slab: nat -> nat) {
    && (forall s :: 0 <= s < |sizes| ==> sizes[s] > 0)
    && forall k: nat, s: nat :: s < |sizes| ==> SlabOk(world(k, s), sizes[s], slab, s)
  }

  ghost predicate PresentAt(world: (nat, nat) -> Table, sizes: seq<nat>, slab: nat -> nat, k: nat, e: Entry)
    requires SlabsOk(world, sizes, slab)
  {
    var s := slab(e.hash);
    s < |sizes| && SlabOk(world(k, s), sizes[s], slab, s) && InTable(world(k, s), sizes[s], e)
  }

  ghost predicate PresentThroughout(world: (nat, nat) -> Table, sizes: seq<nat>, slab: nat -> nat, n: nat, e: Entry)
    requires SlabsOk(world, sizes, slab)
  {
    slab(e.hash) < |sizes| && forall k: nat :: k < n ==> PresentAt(world, sizes, slab, k, e)
  }

  /** What holds of the tables before table s. */
  ghost predicate SlabsDone(world: (nat, nat) -> Table, sizes: seq<nat>, slab: nat -> nat, n: nat, s: nat, visited: seq<Entry>)
    requires SlabsOk(world, sizes, slab)
  {
    && NoDup(visited)
    && (forall e :: e in visited ==> slab(e.hash) < s)
    && forall e :: PresentThroughout(world, sizes, slab, n, e) && slab(e.hash) < s ==> e in visited
  }

  lemma SlabWorld(world: (nat, nat) -> Table, sizes: seq<nat>, slab: nat -> nat, n: nat, s: nat)
    requires SlabsOk(world, sizes, slab) && s < |sizes|
    ensures WorldOk((k: nat) => world(n + k, s), sizes[s])
  {
    var own := (k: nat) => world(n + k, s);
    forall k: nat
      ensures TableOk(own(k), sizes[s])
    {
      assert SlabOk(world(n + k, s), sizes[s], slab, s);
    }
  }

  lemma SlabDone(world: (nat, nat) -> Table, sizes: seq<nat>, slab: nat -> nat, n: nat, s: nat, visited: seq<Entry>,
                 own: nat -> Table, m: nat, more: seq<Entry>)
    requires SlabsOk(world, sizes, slab) && s < |sizes| && SlabsDone(world, sizes, slab, n, s, visited)
    requires WorldOk(own, sizes[s]) && forall k: nat :: own(k) == world(n + k, s)
    requires Honest(own, sizes[s], m, sizes[s], more) && Covered(own, sizes[s], m, sizes[s], more)
    ensures SlabsDone(world, sizes, slab, n + m, s + 1, visited + more)
  {
    var all := visited + more;
    forall e | e in more
      ensures slab(e.hash) == s && e !in visited
    {
      var k: nat :| k < m && InTable(own(k), sizes[s], e);
      assert SlabOk(world(n + k, s), sizes[s], slab, s);
    }
    assert NoDup(all);
    assert forall e :: e in all ==> slab(e.hash) < s + 1;
    forall e | PresentThroughout(world, sizes, slab, n + m, e) && slab(e.hash) < s + 1
      ensures e in all
    {
      if slab(e.hash) == s {
        forall k: nat | k < m
          ensures InTable(own(k), sizes[s], e)
        {
          assert PresentAt(world, sizes, slab, n + k, e);
        }
        assert Present(own, sizes[s], m, e);
        assert e in more;
      } else {
        assert PresentThroughout(world, sizes, slab, n, e);
      }
    }
  }

  /** `dump_slabhash`: every entry that is in the cache throughout is dumped exactly once. */
  method DumpSlabHash(world: (nat, nat) -> Table, sizes: seq<nat>, slab: nat -> nat, prints: nat -> bool)
    returns (ok: bool, visited: seq<Entry>, n: nat)
    requires SlabsOk(world, sizes, slab)
    ensures ok ==> NoDup(visited) && forall e :: PresentThroughout(world, sizes, slab, n, e) ==> e in visited
    ensures (forall k: nat :: prints(k)) ==> ok
  {
    visited, n := [], 0;
    for s := 0 to |sizes|
      invariant SlabsDone(world, sizes, slab, n, s, visited)
    {
      SlabWorld(world, sizes, slab, n, s);
      var own := (k: nat) => world(n + k, s);
      var good, more, m := DumpLruHash(own, sizes[s], (k: nat) => prints(n + k));
      if !good {
        return false, visited + more, n + m;
      }
      SlabDone(world, sizes, slab, n, s, visited, own, m, more);
      visited, n := visited + more, n + m;
    }
    return true, visited, n;
  }
}
