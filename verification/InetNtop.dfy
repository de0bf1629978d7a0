/** The printer of `compat/inet_ntop.c`. */
module InetNtop {
  import opened InetRoundTrip
  import opened InetText
  import opened Numerals
  import opened Octets
  import opened Options

  /** The bytes as words in network order. */
  method ReadWords(src: seq<Byte>) returns (w: seq<Word>)
    requires |src| == 16
    ensures |w| == 8 && Bytes(w) == src
  {
    var words := new int[8](_ => 0);
    var i := 0;
    while i < 16
      invariant 0 <= i <= 16
      invariant forall j :: 0 <= j < 8 ==> words[j] == PartOfWord(src, i, j)
    {
      words[i / 2] := words[i / 2] + (if i % 2 == 0 then (src[i] as int) * 256 else src[i] as int);
      i := i + 1;
    }
    w := words[..];
    BytesOfWords(src, w);
  }

  function JoinBytes(high: Byte, low: Byte): Word {
    (high as int) * 256 + (low as int)
  }

  /** Word j when the first i bytes are read. */
  function PartOfWord(src: seq<Byte>, i: nat, j: nat): Word
    requires |src| == 16 && i <= 16 && j < 8
  {
    if i <= 2 * j then 0 else JoinBytes(src[2 * j], if i == 2 * j + 1 then 0 else src[2 * j + 1])
  }

  lemma BytesOfWords(src: seq<Byte>, w: seq<Word>)
    requires |src| == 16 && |w| == 8 && forall j :: 0 <= j < 8 ==> w[j] == JoinBytes(src[2 * j], src[2 * j + 1])
    ensures Bytes(w) == src
  {
    forall k | 0 <= k < 16
      ensures Bytes(w)[k] == src[k]
    {
      BytesAt(w, k);
      SplitBytes(src[2 * (k / 2)], src[2 * (k / 2) + 1]);
    }
  }

  lemma SplitBytes(high: Byte, low: Byte)
    ensures WordBytes(JoinBytes(high, low)) == [high, low]
  {
  }

  lemma {:induction false} BytesAt(w: seq<Word>, k: nat)
    requires k < 2 * |w|
    ensures Bytes(w)[k] == WordBytes(w[k / 2])[k % 2]
    decreases |w|
  {
    if k >= 2 {
      BytesAt(w[1..], k - 2);
      assert (k - 2) / 2 == k / 2 - 1;
    }
  }

  datatype Run = Run(base: int, len: int)

  /** best is the best of the runs that end at or before `end`. */
  ghost predicate BestBefore(w: seq<Word>, end: int, best: Run) {
    && (best.base != -1 ==> ZeroRun(w, best.base, best.len) && best.base + best.len <= end)
    && forall b, n :: ZeroRun(w, b, n) && b + n <= end ==>
         best.base != -1 && (n < best.len || (n == best.len && best.base <= b))
  }

  /** cur is the run of zeros that goes on at i, and everything before it has been compared. */
  ghost predicate Searched(w: seq<Word>, i: int, best: Run, cur: Run) {
    if cur.base == -1 then
      BestBefore(w, i, best)
    else
      && ZeroRun(w, cur.base, cur.len) && cur.base + cur.len == i
      && (cur.base > 0 ==> w[cur.base - 1] != 0)
      && BestBefore(w, cur.base, best)
  }

  function Better(best: Run, cur: Run): Run {
    if best.base == -1 || cur.len > best.len then cur else best
  }

  /** A run that has ended is compared with the best one before it. */
  lemma Compare(w: seq<Word>, i: int, best: Run, cur: Run)
    requires Searched(w, i, best, cur) && cur.base != -1
    ensures BestBefore(w, i, Better(best, cur))
  {
    forall b, n | ZeroRun(w, b, n) && b + n <= i
      ensures n <= Better(best, cur).len && (n == Better(best, cur).len ==> Better(best, cur).base <= b)
    {
      assert b + n <= cur.base || b >= cur.base;
    }
  }

  lemma NoRunThrough(w: seq<Word>, i: int, best: Run)
    requires 0 <= i < |w| && w[i] != 0 && BestBefore(w, i, best)
    ensures BestBefore(w, i + 1, best)
  {
    forall b, n | ZeroRun(w, b, n) && b + n <= i + 1
      ensures b + n <= i
    {
    }
  }

  lemma RunStarts(w: seq<Word>, i: int, best: Run)
    requires 0 <= i < |w| && w[i] == 0 && BestBefore(w, i, best) && (i > 0 ==> w[i - 1] != 0)
    ensures Searched(w, i + 1, best, Run(i, 1))
  {
  }

  /** The leftmost of the longest runs of two or more zero words. */
  method FindRun(w: seq<Word>) returns (best: Run)
    ensures Shortened(w, best.base, best.len)
  {
    best := Run(-1, 0);
    var cur := Run(-1, 0);
    var i := 0;
    while i < |w|
      invariant 0 <= i <= |w| && Searched(w, i, best, cur)
      invariant cur.base == -1 && i > 0 ==> w[i - 1] != 0
    {
      if w[i] == 0 {
        if cur.base == -1 {
          RunStarts(w, i, best);
          cur := Run(i, 1);
        } else {
          cur := cur.(len := cur.len + 1);
        }
      } else {
        if cur.base != -1 {
          Compare(w, i, best, cur);
          if best.base == -1 || cur.len > best.len {
            best := cur;
          }
          cur := cur.(base := -1);
        }
        NoRunThrough(w, i, best);
      }
      i := i + 1;
    }
    if cur.base != -1 {
      Compare(w, i, best, cur);
      if best.base == -1 || cur.len > best.len {
        best := cur;
      }
    }
    if best.base != -1 && best.len < 2 {
      best := best.(base := -1);
    }
  }

  // ----- the text

  predicate InRun(run: Run, i: int) {
    run.base != -1 && run.base <= i < run.base + run.len
  }

  /** What the loop has written before word i, when it writes no dotted quad. */
  function Emitted(w: seq<Word>, run: Run, i: nat): string
    requires i <= |w|
  {
    if i == 0 then ""
    else if InRun(run, i - 1) then Emitted(w, run, i - 1) + (if i - 1 == run.base then ":" else "")
    else Emitted(w, run, i - 1) + (if i - 1 != 0 then ":" else "") + Hex(w[i - 1])
  }

  lemma Associate(a: string, b: string, c: string, d: string, e: string)
    ensures a + b + (c + d + e) == a + b + c + d + e
  {
  }

  lemma {:induction false} GroupsSnoc(ws: seq<Word>, x: Word)
    requires ws != []
    ensures Groups(ws + [x]) == Groups(ws) + ":" + Hex(x)
    decreases |ws|
  {
    assert (ws + [x])[0] == ws[0] && (ws + [x])[1..] == ws[1..] + [x];
    if |ws| == 1 {
      assert ws[1..] + [x] == [x];
    } else {
      GroupsSnoc(ws[1..], x);
      Associate(Hex(ws[0]), ":", Groups(ws[1..]), ":", Hex(x));
    }
  }

  lemma GroupsNext(w: seq<Word>, a: nat, b: nat)
    requires a <= b < |w|
    ensures Groups(w[a..b + 1]) == if a == b then Hex(w[b]) else Groups(w[a..b]) + ":" + Hex(w[b])
  {
    if a < b {
      assert w[a..b + 1] == w[a..b] + [w[b]];
      GroupsSnoc(w[a..b], w[b]);
    }
  }

  lemma {:induction false} EmittedPlain(w: seq<Word>, run: Run, i: nat)
    requires i <= |w| && (run.base == -1 || i <= run.base)
    ensures Emitted(w, run, i) == Groups(w[0..i])
  {
    if i > 0 {
      EmittedPlain(w, run, i - 1);
      GroupsNext(w, 0, i - 1);
    }
  }

  lemma {:induction false} EmittedInRun(w: seq<Word>, run: Run, i: nat)
    requires i <= |w| && 0 <= run.base < i <= run.base + run.len
    ensures Emitted(w, run, i) == Groups(w[0..run.base]) + ":"
  {
    if i - 1 == run.base {
      EmittedPlain(w, run, i - 1);
    } else {
      EmittedInRun(w, run, i - 1);
    }
  }

  lemma OneMore(before: string, colons: string, g: string, x: string, e: string, e': string, g': string)
    requires e == before + colons + g && e' == e + ":" + x && g' == g + ":" + x
    ensures e' == before + colons + g'
  {
    Associate(before, colons, g, ":", x);
  }

  lemma EmittedNext(w: seq<Word>, run: Run, i: nat)
    requires 1 < i <= |w| && !InRun(run, i - 1)
    ensures Emitted(w, run, i) == Emitted(w, run, i - 1) + ":" + Hex(w[i - 1])
  {
  }

  lemma EmittedFirstAfter(w: seq<Word>, run: Run, i: nat)
    requires i <= |w| && 0 <= run.base && 1 <= run.len && run.base + run.len + 1 == i
    ensures Emitted(w, run, i) == Groups(w[0..run.base]) + "::" + Groups(w[i - 1..i])
  {
    EmittedInRun(w, run, i - 1);
    GroupsNext(w, i - 1, i - 1);
    assert Groups(w[0..run.base]) + ":" + ":" == Groups(w[0..run.base]) + "::";
  }

  lemma EmittedMore(w: seq<Word>, run: Run, i: nat, before: string, g: string)
    requires i <= |w| && 0 <= run.base && 1 <= run.len && run.base + run.len + 1 < i
    requires g == Groups(w[run.base + run.len..i - 1]) && Emitted(w, run, i - 1) == before + "::" + g
    ensures Emitted(w, run, i) == before + "::" + Groups(w[run.base + run.len..i])
  {
    var end := run.base + run.len;
    EmittedNext(w, run, i);
    GroupsNext(w, end, i - 1);
    OneMore(before, "::", g, Hex(w[i - 1]), Emitted(w, run, i - 1), Emitted(w, run, i), Groups(w[end..i]));
  }

  lemma {:induction false} EmittedAfter(w: seq<Word>, run: Run, i: nat)
    requires i <= |w| && 0 <= run.base && 1 <= run.len && run.base + run.len < i
    ensures Emitted(w, run, i) == Groups(w[0..run.base]) + "::" + Groups(w[run.base + run.len..i])
  {
    var end := run.base + run.len;
    if i - 1 == end {
      EmittedFirstAfter(w, run, i);
    } else {
      EmittedAfter(w, run, i - 1);
      EmittedMore(w, run, i, Groups(w[0..run.base]), Groups(w[end..i - 1]));
    }
  }

  lemma {:induction false} HexLength(w: Word)
    ensures |Hex(w)| <= 4 && (w < 4096 ==> |Hex(w)| <= 3) && (w < 256 ==> |Hex(w)| <= 2)
  {
    if w >= 16 { HexLength(w / 16); }
  }

  lemma {:induction false} EmittedLength(w: seq<Word>, run: Run, i: nat)
    requires i <= |w|
    ensures |Emitted(w, run, i)| <= 5 * i
  {
    if i > 0 {
      EmittedLength(w, run, i - 1);
      HexLength(w[i - 1]);
    }
  }

  /** What is written before a dotted quad. */
  lemma EmittedBeforeQuad(w: seq<Word>, run: Run)
    requires |w| == 8 && ZeroRun(w, run.base, run.len) && Embedded(w, run.base, run.len)
    ensures Emitted(w, run, 6) + ":" == "::" + (if run.len == 5 then "ffff:" else "")
  {
    if run.len == 5 {
      EmittedAfter(w, run, 6);
      HexFfff();
      assert w[0..0] == [] && w[5..6] == [0xffff];
    } else {
      EmittedInRun(w, run, 6);
      assert w[0..0] == [];
    }
  }

  /** What is written in the end, when no dotted quad is. */
  lemma EmittedAll(w: seq<Word>, run: Run)
    requires |w| == 8 && (run.base == -1 || ZeroRun(w, run.base, run.len)) && !Embedded(w, run.base, run.len)
    ensures Text(w, run.base, run.len)
      == Emitted(w, run, 8) + (if run.base != -1 && run.base + run.len == 8 then ":" else "")
  {
    if run.base == -1 {
      EmittedPlain(w, run, 8);
      assert w[0..8] == w;
    } else {
      assert w[0..run.base] == w[..run.base];
      if run.base + run.len == 8 {
        EmittedInRun(w, run, 8);
        assert w[8..] == [];
      } else {
        EmittedAfter(w, run, 8);
        assert w[run.base + run.len..8] == w[run.base + run.len..];
      }
    }
  }

  const TMP_SIZE := 46  // sizeof "ffff:ffff:ffff:ffff:ffff:ffff:255.255.255.255"

  /** The loop that writes into the temporary buffer; None where it would overflow. */
  method Format(w: seq<Word>, quad: seq<Byte>, run: Run) returns (text: Option<string>)
    requires |w| == 8 && (run.base == -1 || ZeroRun(w, run.base, run.len)) && quad == Bytes(w[6..])
    ensures text == Some(Text(w, run.base, run.len))
  {
    var t := "";
    var i := 0;
    while i < 8 && |t| < TMP_SIZE
      invariant 0 <= i <= 8 && t == Emitted(w, run, i) && |t| <= 5 * i
      invariant Embedded(w, run.base, run.len) ==> i <= 6
    {
      EmittedLength(w, run, i + 1);
      if run.base != -1 && i >= run.base && i < run.base + run.len {
        if i == run.base {
          if |t| + 1 >= TMP_SIZE { return None; }
          t := t + ":";
        }
        i := i + 1;
        continue;
      }
      if i != 0 {
        if |t| + 1 >= TMP_SIZE { return None; }
        t := t + ":";
      }
      if i == 6 && run.base == 0 && (run.len == 6 || (run.len == 5 && w[5] == 0xffff)) {
        EmittedBeforeQuad(w, run);
        if |Dotted(quad)| >= TMP_SIZE - |t| { return None; }
        t := t + Dotted(quad);
        return Some(t);
      }
      HexLength(w[i]);
      if |Hex(w[i])| >= TMP_SIZE - |t| { return None; }
      t := t + Hex(w[i]);
      i := i + 1;
    }
    EmittedAll(w, run);
    assert t + "" == t;
    if run.base != -1 && run.base + run.len == 8 {
      if |t| + 1 >= TMP_SIZE { return None; }
      t := t + ":";
    }
    if |t| + 1 >= TMP_SIZE { return None; }
    return Some(t);
  }

  /** `inet_ntop6`: the address as text, in the form of section 4.2 of RFC 5952, which reads back as
      the address; it fails, and touches nothing, exactly when text and NUL do not fit. */
  method InetNtop6(src: seq<Byte>, dst: array<char>, size: nat) returns (ok: bool, ghost w: seq<Word>, ghost run: Run)
    requires |src| == 16 && size <= dst.Length
    modifies dst
    ensures |w| == 8 && Bytes(w) == src && Shortened(w, run.base, run.len)
    ensures Parse6(Text(w, run.base, run.len)) == Some(src)
    ensures ok <==> |Text(w, run.base, run.len)| + 1 <= size
    ensures dst[..] == if ok then Text(w, run.base, run.len) + ['\0'] + old(dst[..])[|Text(w, run.base, run.len)| + 1..] else old(dst[..])
  {
    var words := ReadWords(src);
    var best := FindRun(words);
    w, run := words, best;
    QuadBytes(w);
    var text := Format(words, src[12..], best);
    RoundTrip(w, run.base, run.len);
    if text.None? || |text.value| + 1 > size {
      return false, w, run;
    }
    var s := text.value;
    forall k | 0 <= k <= |s| { dst[k] := if k < |s| then s[k] else '\0'; }
    return true, w, run;
  }

  lemma QuadBytes(w: seq<Word>)
    requires |w| == 8
    ensures Bytes(w)[12..] == Bytes(w[6..])
  {
    assert w == w[..6] + w[6..];
    BytesAppend(w[..6], w[6..]);
  }

  /** `inet_ntop4`. */
  method InetNtop4(src: seq<Byte>, dst: array<char>, size: nat) returns (ok: bool)
    requires |src| == 4 && size <= dst.Length
    modifies dst
    ensures Parse4(Dotted(src)) == Some(src)
    ensures ok <==> |Dotted(src)| + 1 <= size
    ensures dst[..] == if ok then Dotted(src) + ['\0'] + old(dst[..])[|Dotted(src)| + 1..] else old(dst[..])
  {
    RoundTrip4(src);
    var s := Dotted(src);
    if |s| >= size {
      return false;
    }
    forall k | 0 <= k <= |s| { dst[k] := if k < |s| then s[k] else '\0'; }
    return true;
  }
}
