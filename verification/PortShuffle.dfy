/** The shuffled list of outgoing ports of `daemon/daemon.c`. */
module PortShuffle {
  import opened Options
  import opened Sequences

  // ----- the shuffle as a function of the random choices

  function Swap<T>(s: seq<T>, i: nat, j: nat): (t: seq<T>)
    requires i < |s| && j < |s|
    ensures |t| == |s|
  {
    s[i := s[j]][j := s[i]]
  }

  lemma SwapKeeps<T>(s: seq<T>, i: nat, j: nat)
    requires i < |s| && j < |s|
    ensures multiset(Swap(s, i, j)) == multiset(s)
  {
  }

  /** One choice for every position from the last down to the second, each no larger than it. */
  predicate Choices(n: nat, ks: seq<nat>) {
    if n <= 1 then ks == [] else ks != [] && ks[0] < n && Choices(n - 1, ks[1..])
  }

  function Shuffle<T>(s: seq<T>, ks: seq<nat>): (t: seq<T>)
    requires Choices(|s|, ks)
    ensures |t| == |s|
    decreases |s|
  {
    if |s| <= 1 then s
    else
      var n := |s| - 1;
      var u := Swap(s, ks[0], n);
      Shuffle(u[..n], ks[1..]) + [u[n]]
  }

  lemma ShuffleStep<T>(s: seq<T>, ks: seq<nat>, u: seq<T>)
    requires |s| > 1 && Choices(|s|, ks) && u == Swap(s, ks[0], |s| - 1)
    ensures Shuffle(s, ks)[|s| - 1] == s[ks[0]]
    ensures Shuffle(s, ks)[..|s| - 1] == Shuffle(u[..|s| - 1], ks[1..])
  {
  }

  lemma LastAgain<T>(u: seq<T>, v: seq<T>)
    requires u != [] && multiset(v) == multiset(u[..|u| - 1])
    ensures multiset(v + [u[|u| - 1]]) == multiset(u)
  {
    assert u == u[..|u| - 1] + [u[|u| - 1]];
  }

  lemma {:induction false} ShuffleIsPermutation<T>(s: seq<T>, ks: seq<nat>)
    requires Choices(|s|, ks)
    ensures multiset(Shuffle(s, ks)) == multiset(s)
    decreases |s|
  {
    if |s| > 1 {
      var n := |s| - 1;
      var u := Swap(s, ks[0], n);
      SwapKeeps(s, ks[0], n);
      ShuffleIsPermutation(u[..n], ks[1..]);
      LastAgain(u, Shuffle(u[..n], ks[1..]));
    }
  }

  lemma SwapNoDup<T>(s: seq<T>, i: nat, j: nat)
    requires i < |s| && j < |s| && NoDup(s)
    ensures NoDup(Swap(s, i, j))
  {
  }

  /** Different choices give different orders. */
  lemma {:induction false} ShuffleInjective<T>(s: seq<T>, ks: seq<nat>, ls: seq<nat>)
    requires NoDup(s) && Choices(|s|, ks) && Choices(|s|, ls) && Shuffle(s, ks) == Shuffle(s, ls)
    ensures ks == ls
    decreases |s|
  {
    if |s| > 1 {
      var n := |s| - 1;
      var u, v := Swap(s, ks[0], n), Swap(s, ls[0], n);
      ShuffleStep(s, ks, u);
      ShuffleStep(s, ls, v);
      SameChoice(s, ks[0], ls[0]);
      SwapNoDup(s, ks[0], n);
      ShuffleInjective(u[..n], ks[1..], ls[1..]);
      assert ks == [ks[0]] + ks[1..] && ls == [ls[0]] + ls[1..];
    }
  }

  lemma SameChoice<T>(s: seq<T>, k: nat, l: nat)
    requires NoDup(s) && k < |s| && l < |s| && s[k] == s[l]
    ensures k == l
  {
  }

  lemma OneLess<T>(s: seq<T>)
    requires s != []
    ensures multiset(s[..|s| - 1]) == multiset(s) - multiset{s[|s| - 1]}
  {
    assert s == s[..|s| - 1] + [s[|s| - 1]];
  }

  lemma WithoutLast<T>(s: seq<T>, t: seq<T>)
    requires 0 < |s| == |t| && multiset(s) == multiset(t) && s[|s| - 1] == t[|t| - 1]
    ensures multiset(s[..|s| - 1]) == multiset(t[..|t| - 1])
  {
    OneLess(s);
    OneLess(t);
  }

  lemma Find<T>(s: seq<T>, x: T) returns (k: nat)
    requires x in multiset(s)
    ensures k < |s| && s[k] == x
  {
    k :| k < |s| && s[k] == x;
  }

  /** Every order comes from some choices. */
  lemma {:induction false} ShuffleSurjective<T>(s: seq<T>, t: seq<T>) returns (ks: seq<nat>)
    requires |s| == |t| && multiset(s) == multiset(t)
    ensures Choices(|s|, ks) && Shuffle(s, ks) == t
    decreases |s|
  {
    ks := [];
    if |s| == 1 {
      assert s[0] in multiset(t);
    } else if |s| > 1 {
      var n := |s| - 1;
      assert t[n] in multiset(t);
      var k := Find(s, t[n]);
      var u := Swap(s, k, n);
      SwapKeeps(s, k, n);
      WithoutLast(u, t);
      var rest := ShuffleSurjective(u[..n], t[..n]);
      ks := [k] + rest;
      assert ks[1..] == rest;
      ShuffleStep(s, ks, u);
      assert t == t[..n] + [t[n]];
    }
  }

  /** Each of the orders of distinct ports arises from exactly one sequence of choices. */
  lemma ExactlyOne<T>(s: seq<T>, t: seq<T>) returns (ks: seq<nat>)
    requires NoDup(s) && multiset(s) == multiset(t)
    ensures Choices(|s|, ks) && Shuffle(s, ks) == t
    ensures forall ls :: Choices(|s|, ls) && Shuffle(s, ls) == t ==> ls == ks
  {
    assert |multiset(s)| == |s| && |multiset(t)| == |t|;
    ks := ShuffleSurjective(s, t);
    forall ls | Choices(|s|, ls) && Shuffle(s, ls) == t
      ensures ls == ks
    {
      ShuffleInjective(s, ls, ks);
    }
  }

  // ----- the permitted ports

  /** `outgoing_avail_ports`: a port is either itself or zero. */
  predicate PortTable(avail: seq<int>) {
    |avail| == 65536 && forall i :: 0 <= i < 65536 ==> avail[i] == 0 || avail[i] == i
  }

  /** The permitted ports below n, in ascending order. */
  ghost predicate IsPermitted(avail: seq<int>, n: nat, ports: seq<int>)
    requires PortTable(avail) && n <= 65536
  {
    && (forall p :: p in ports <==> 0 < p < n && avail[p] != 0)
    && (forall i, j :: 0 <= i < j < |ports| ==> ports[i] < ports[j])
  }

  lemma AscendingNoDup(ports: seq<int>)
    requires forall i, j :: 0 <= i < j < |ports| ==> ports[i] < ports[j]
    ensures NoDup(ports)
  {
  }

  lemma OneMorePort(avail: seq<int>, i: nat, ports: seq<int>)
    requires PortTable(avail) && i < 65536 && avail[i] != 0 && IsPermitted(avail, i, ports)
    ensures IsPermitted(avail, i + 1, ports + [i])
  {
    assert forall k :: 0 <= k < |ports| ==> ports[k] in ports;
  }

  method CollectPorts(avail: seq<int>, shufport: array<int>) returns (n: nat)
    requires PortTable(avail) && shufport.Length >= 65536
    modifies shufport
    ensures n <= 65536 && IsPermitted(avail, 65536, shufport[..n])
  {
    n := 0;
    for i := 0 to 65536
      invariant n <= i && IsPermitted(avail, i, shufport[..n])
    {
      ghost var before := shufport[..n];
      if avail[i] != 0 {
        shufport[n] := avail[i];
        n := n + 1;
        assert shufport[..n] == before + [i];
        OneMorePort(avail, i, before);
      }
    }
  }

  /** What `ub_random_max` answers for each position from the last down to the second. */
  function Picks(pick: nat -> nat, n: nat): seq<nat> {
    if n <= 1 then [] else [pick(n - 1)] + Picks(pick, n - 1)
  }

  ghost predicate InRange(pick: nat -> nat) {
    forall n: nat :: pick(n) <= n
  }

  lemma {:induction false} PicksAreChoices(pick: nat -> nat, n: nat)
    requires InRange(pick)
    ensures Choices(n, Picks(pick, n))
  {
    if n > 1 {
      PicksAreChoices(pick, n - 1);
      assert Picks(pick, n)[1..] == Picks(pick, n - 1);
    }
  }

  /** The in-place loop does one step of the shuffle at a time. */
  method KnuthShuffle(shufport: array<int>, avail: nat, pick: nat -> nat)
    requires 0 < avail <= shufport.Length && InRange(pick)
    modifies shufport
    ensures Choices(avail, Picks(pick, avail))
    ensures shufport[..avail] == Shuffle(old(shufport[..avail]), Picks(pick, avail))
  {
    PicksAreChoices(pick, avail);
    ghost var all := Shuffle(shufport[..avail], Picks(pick, avail));
    var n := avail - 1;
    ghost var left, done := shufport[..avail], shufport[avail..avail];
    RemainingStart(left, pick);
    while n > 0
      invariant 0 <= n < avail && Remaining(all, pick, left, done)
      invariant left == shufport[..n + 1] && done == shufport[n + 1..avail]
    {
      LoopStep(all, pick, left, done);
      ghost var u := Swap(left, pick(n), n);
      SwapPorts(shufport, pick(n), n, avail);
      left, done := u[..n], [u[n]] + done;
      n := n - 1;
    }
    RemainingEnd(all, pick, left, done);
  }

  /** The result is the shuffle of what is left, followed by what is done. */
  ghost predicate Remaining(all: seq<int>, pick: nat -> nat, s: seq<int>, done: seq<int>) {
    Choices(|s|, Picks(pick, |s|)) && all == Shuffle(s, Picks(pick, |s|)) + done
  }

  lemma RemainingStart(s: seq<int>, pick: nat -> nat)
    requires InRange(pick)
    ensures Choices(|s|, Picks(pick, |s|)) && Remaining(Shuffle(s, Picks(pick, |s|)), pick, s, [])
  {
    PicksAreChoices(pick, |s|);
    NothingMore(Shuffle(s, Picks(pick, |s|)));
  }

  lemma NothingMore(s: seq<int>)
    ensures s + [] == s
  {
  }

  lemma RemainingEnd(all: seq<int>, pick: nat -> nat, s: seq<int>, done: seq<int>)
    requires |s| == 1 && Remaining(all, pick, s, done)
    ensures all == s + done
  {
  }

  lemma LoopStep(all: seq<int>, pick: nat -> nat, s: seq<int>, done: seq<int>)
    requires |s| > 1 && InRange(pick) && Remaining(all, pick, s, done)
    ensures var n := |s| - 1; var u := Swap(s, pick(n), n); Remaining(all, pick, u[..n], [u[n]] + done)
  {
    var n := |s| - 1;
    var u := Swap(s, pick(n), n);
    PicksAreChoices(pick, n);
    assert Picks(pick, n + 1)[1..] == Picks(pick, n);
    ShuffleStep(s, Picks(pick, n + 1), u);
    var t := Shuffle(s, Picks(pick, n + 1));
    assert t == t[..n] + [t[n]];
    assert t[..n] + [t[n]] + done == t[..n] + ([t[n]] + done);
  }

  method SwapPorts(shufport: array<int>, k: nat, n: nat, avail: nat)
    requires k <= n < avail <= shufport.Length
    modifies shufport
    ensures var u := Swap(old(shufport[..n + 1]), k, n);
      shufport[..n] == u[..n] && shufport[n..avail] == [u[n]] + old(shufport[n + 1..avail])
  {
    var temp := shufport[k];
    shufport[k] := shufport[n];
    shufport[n] := temp;
  }

  /** `daemon_get_shufport`: fatal when no port is permitted; else the list holds every permitted port
      once, in the order that the random choices, and only they, stand for. */
  method GetShufport(avail: seq<int>, shufport: array<int>, pick: nat -> nat)
    returns (n: Option<nat>, ghost ports: seq<int>)
    requires PortTable(avail) && shufport.Length >= 65536 && InRange(pick)
    modifies shufport
    ensures IsPermitted(avail, 65536, ports) && NoDup(ports)
    ensures n.None? <==> ports == []
    ensures n.Some? ==> |ports| == n.value <= shufport.Length && Choices(n.value, Picks(pick, n.value))
    ensures n.Some? ==> shufport[..n.value] == Shuffle(ports, Picks(pick, n.value))
    ensures n.Some? ==> multiset(shufport[..n.value]) == multiset(ports)
  {
    var count := CollectPorts(avail, shufport);
    ports := shufport[..count];
    AscendingNoDup(ports);
    if count == 0 {
      return None, ports;
    }
    KnuthShuffle(shufport, count, pick);
    ShuffleIsPermutation(ports, Picks(pick, count));
    return Some(count), ports;
  }
}
