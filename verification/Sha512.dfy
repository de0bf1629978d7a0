/** The streaming SHA-512 of `compat/sha512.c`, on a host of either byte order. */
module Sha512 {
  import opened Fips180

  // ----- words in memory

  function LittleEndian(b: seq<Byte>): Word
    requires |b| == 8
  {
    Cat(b[7], b[6], b[5], b[4], b[3], b[2], b[1], b[0])
  }

  function LittleEndianBytes(x: Word): (b: seq<Byte>)
    ensures |b| == 8
  {
    [B0(x), B1(x), B2(x), B3(x), B4(x), B5(x), B6(x), B7(x)]
  }

  /** A 64-bit load and store through a cast pointer. */
  function Load(little: bool, b: seq<Byte>): Word
    requires |b| == 8
  {
    if little then LittleEndian(b) else BigEndian(b)
  }

  function Store(little: bool, x: Word): (b: seq<Byte>)
    ensures |b| == 8
  {
    if little then LittleEndianBytes(x) else BigEndianBytes(x)
  }

  /** The macro REVERSE64. */
  function Reverse64(w: Word): Word {
    var t1 := (w >> 32) | (w << 32);
    var t2 := ((t1 & 0xff00ff00ff00ff00) >> 8) | ((t1 & 0x00ff00ff00ff00ff) << 8);
    ((t2 & 0xffff0000ffff0000) >> 16) | ((t2 & 0x0000ffff0000ffff) << 16)
  }

  /** Convert between host and network byte order: the macro where the host is little-endian. */
  function Swap(little: bool, x: Word): Word {
    if little then Reverse64(x) else x
  }

  lemma CatBytes(x: Word)
    ensures Cat(B7(x), B6(x), B5(x), B4(x), B3(x), B2(x), B1(x), B0(x)) == x
  {
  }

  lemma ReverseCat(b0: Byte, b1: Byte, b2: Byte, b3: Byte, b4: Byte, b5: Byte, b6: Byte, b7: Byte)
    ensures Reverse64(Cat(b0, b1, b2, b3, b4, b5, b6, b7)) == Cat(b7, b6, b5, b4, b3, b2, b1, b0)
  {
  }

  lemma ReverseBytes(x: Word)
    ensures B0(Reverse64(x)) == B7(x) && B1(Reverse64(x)) == B6(x) && B2(Reverse64(x)) == B5(x) && B3(Reverse64(x)) == B4(x)
    ensures B4(Reverse64(x)) == B3(x) && B5(Reverse64(x)) == B2(x) && B6(Reverse64(x)) == B1(x) && B7(Reverse64(x)) == B0(x)
  {
  }

  lemma EndianOf(b0: Byte, b1: Byte, b2: Byte, b3: Byte, b4: Byte, b5: Byte, b6: Byte, b7: Byte)
    ensures LittleEndian([b0, b1, b2, b3, b4, b5, b6, b7]) == Cat(b7, b6, b5, b4, b3, b2, b1, b0)
    ensures BigEndian([b0, b1, b2, b3, b4, b5, b6, b7]) == Cat(b0, b1, b2, b3, b4, b5, b6, b7)
  {
  }

  lemma LoadStore(little: bool, x: Word)
    ensures Load(little, Store(little, x)) == x
  {
    if little {
      EndianOf(B0(x), B1(x), B2(x), B3(x), B4(x), B5(x), B6(x), B7(x));
    } else {
      EndianOf(B7(x), B6(x), B5(x), B4(x), B3(x), B2(x), B1(x), B0(x));
    }
    CatBytes(x);
  }

  lemma SwapLoad(little: bool, b: seq<Byte>)
    requires |b| == 8
    ensures Swap(little, Load(little, b)) == BigEndian(b)
  {
    ReverseCat(b[7], b[6], b[5], b[4], b[3], b[2], b[1], b[0]);
  }

  lemma StoreSwap(little: bool, x: Word)
    ensures Store(little, Swap(little, x)) == BigEndianBytes(x)
  {
    ReverseBytes(x);
  }

  // ----- the message block in memory

  /** Word i of a memory area that holds at least i + 1 words from `off` on. */
  function WordAt(little: bool, m: seq<Byte>, off: nat, i: nat): Word
    requires off + 8 * i + 8 <= |m|
  {
    Load(little, m[off + 8 * i..off + 8 * i + 8])
  }

  method StoreWord(little: bool, a: array<Byte>, i: nat, x: Word)
    requires 8 * i + 8 <= a.Length
    modifies a
    ensures a[..] == old(a[..8 * i]) + Store(little, x) + old(a[8 * i + 8..])
  {
    var b := Store(little, x);
    forall k | 0 <= k < 8 { a[8 * i + k] := b[k]; }
  }

  /** What a word store does to the words of the same area. */
  lemma WordAfterStore(little: bool, m: seq<Byte>, m': seq<Byte>, i: nat, x: Word, j: nat)
    requires 8 * i + 8 <= |m| && 8 * j + 8 <= |m|
    requires m' == m[..8 * i] + Store(little, x) + m[8 * i + 8..]
    ensures |m'| == |m|
    ensures WordAt(little, m', 0, j) == if j == i then x else WordAt(little, m, 0, j)
  {
    if j == i {
      assert m'[8 * j..8 * j + 8] == Store(little, x);
      LoadStore(little, x);
    } else {
      assert m'[8 * j..8 * j + 8] == m[8 * j..8 * j + 8];
    }
  }

  /** The block that a memory area holds. */
  ghost predicate Holds(little: bool, m: seq<Byte>, off: nat, block: seq<Word>, from: nat)
    requires |block| == 16 && off + 128 <= |m|
  {
    forall i: nat :: from <= i < 16 ==> Swap(little, WordAt(little, m, off, i)) == block[i]
  }

  lemma SliceOfSlice(m: seq<Byte>, off: nat, len: nat, i: nat)
    requires off + len <= |m| && i + 8 <= len
    ensures m[off..off + len][i..i + 8] == m[off + i..off + i + 8]
  {
    var s := m[off..off + len];
    var x := s[i..i + 8];
    assert forall k | 0 <= k < 8 :: x[k] == m[off + i + k];
  }

  lemma HoldsBlock(little: bool, m: seq<Byte>, off: nat)
    requires off + 128 <= |m|
    ensures Holds(little, m, off, BlockWords(m[off..off + 128]), 0)
  {
    forall i: nat | i < 16
      ensures Swap(little, WordAt(little, m, off, i)) == BlockWords(m[off..off + 128])[i]
    {
      SliceOfSlice(m, off, 128, 8 * i);
      SwapLoad(little, m[off + 8 * i..off + 8 * i + 8]);
    }
  }

  lemma BlockWord(little: bool, m: seq<Byte>, off: nat, block: seq<Word>, words: seq<Word>, j: nat)
    requires |block| == 16 && off + 128 <= |m| && j < 16 && |words| >= 16 && words[..16] == block
    requires Holds(little, m, off, block, j)
    ensures Swap(little, WordAt(little, m, off, j)) == words[j]
    ensures Holds(little, m, off, block, j + 1)
  {
    assert block[j] == words[j];
  }

  /** The window holds the last sixteen of the first j words, word t at place t mod 16. */
  ghost predicate Window(little: bool, m: seq<Byte>, words: seq<Word>, j: nat)
    requires |m| == 128 && j <= |words|
  {
    forall t: nat :: t < j <= t + 16 ==> WordAt(little, m, 0, t % 16) == words[t]
  }

  lemma WindowStep(little: bool, m: seq<Byte>, m': seq<Byte>, words: seq<Word>, j: nat)
    requires |m| == 128 && j < |words| && Window(little, m, words, j)
    requires m' == m[..8 * (j % 16)] + Store(little, words[j]) + m[8 * (j % 16) + 8..]
    ensures |m'| == 128 && Window(little, m', words, j + 1)
  {
    forall t: nat | t < j + 1 <= t + 16
      ensures WordAt(little, m', 0, t % 16) == words[t]
    {
      assert t < j ==> t % 16 != j % 16;
      WordAfterStore(little, m, m', j % 16, words[j], t % 16);
    }
  }

  // ----- the macros of sha512.c, against section 4.1.3

  method Rotate(b: bv7, x: Word) returns (r: Word)
    requires b <= 64
    ensures r == RotR(b, x)
  {
    r := (x >> b) | (x << (64 - b));
  }

  method UpperSigma0(x: Word) returns (r: Word)
    ensures r == BigSigma0(x)
  {
    var a := Rotate(28, x);
    var b := Rotate(34, x);
    var c := Rotate(39, x);
    r := Xor(Xor(a, b), c);
  }

  method UpperSigma1(x: Word) returns (r: Word)
    ensures r == BigSigma1(x)
  {
    var a := Rotate(14, x);
    var b := Rotate(18, x);
    var c := Rotate(41, x);
    r := Xor(Xor(a, b), c);
  }

  method LowerSigma0(x: Word) returns (r: Word)
    ensures r == SmallSigma0(x)
  {
    var a := Rotate(1, x);
    var b := Rotate(8, x);
    r := Xor(Xor(a, b), x >> 7);
  }

  method LowerSigma1(x: Word) returns (r: Word)
    ensures r == SmallSigma1(x)
  {
    var a := Rotate(19, x);
    var b := Rotate(61, x);
    r := Xor(Xor(a, b), x >> 6);
  }

  method Choose(x: Word, y: Word, z: Word) returns (r: Word)
    ensures r == Ch(x, y, z)
  {
    r := (x & y) ^ (!x & z);
  }

  method Majority(x: Word, y: Word, z: Word) returns (r: Word)
    ensures r == Maj(x, y, z)
  {
    r := (x & y) ^ (x & z) ^ (y & z);
  }

  /** One round on the eight variables. */
  method Turn(r: Regs, k: Word, w: Word) returns (r': Regs)
    ensures r' == Round(r, k, w)
  {
    var a, b, c, d, e, f, g, h := r.a, r.b, r.c, r.d, r.e, r.f, r.g, r.h;
    var sigma1 := UpperSigma1(e);
    var ch := Choose(e, f, g);
    var sigma0 := UpperSigma0(a);
    var maj := Majority(a, b, c);
    var t1 := Add(Add(Add(Add(h, sigma1), ch), k), w);
    var t2 := Add(sigma0, maj);
    h := g;
    g := f;
    f := e;
    e := Add(d, t1);
    d := c;
    c := b;
    b := a;
    a := Add(t1, t2);
    r' := Regs(a, b, c, d, e, f, g, h);
  }

  ghost function ScheduleWords(block: seq<Word>): (ws: seq<Word>)
    requires |block| == 16
    ensures |ws| == 80 && forall t :: 0 <= t < 80 ==> ws[t] == Schedule(block, t)
    ensures ws[..16] == block
  {
    seq(80, t requires 0 <= t < 80 => Schedule(block, t))
  }

  lemma ScheduleStep(block: seq<Word>, j: nat)
    requires |block| == 16 && 16 <= j < 80
    ensures var ws := ScheduleWords(block); ws[j] == Expand(ws[j - 2], ws[j - 7], ws[j - 15], ws[j - 16])
  {
  }

  lemma AddCommutes(x: Word, y: Word)
    ensures Add(x, y) == Add(y, x)
  {
  }

  /** The words of the window that the next one is made of, at their places mod 16. */
  lemma WindowReads(little: bool, m: seq<Byte>, words: seq<Word>, j: nat)
    requires |m| == 128 && |words| == 80 && 16 <= j < 80 && Window(little, m, words, j)
    ensures WordAt(little, m, 0, (j + 1) % 16) == words[j - 15]
    ensures WordAt(little, m, 0, (j + 14) % 16) == words[j - 2]
    ensures WordAt(little, m, 0, (j + 9) % 16) == words[j - 7]
    ensures WordAt(little, m, 0, j % 16) == words[j - 16]
  {
    assert (j + 1) % 16 == (j - 15) % 16 && (j + 14) % 16 == (j - 2) % 16;
    assert (j + 9) % 16 == (j - 7) % 16 && j % 16 == (j - 16) % 16;
  }

  predicate IsInitial(h: Regs) {
    h == INITIAL
  }

  /** The value that the chain of compressions has reached after the blocks of m, which is
      `s == HashBlocks(INITIAL, m)`.  The quantifier over the one initial value only keeps the verifier from
      unfolding the chain wherever a context is valid; `Reached` and `Reaches` go from one form to the other. */
  ghost predicate Chained(s: Regs, m: seq<Byte>)
    requires |m| % 128 == 0
  {
    forall h :: IsInitial(h) ==> s == HashBlocks(h, m)
  }

  lemma Reached(s: Regs, m: seq<Byte>)
    requires |m| % 128 == 0 && Chained(s, m)
    ensures s == HashBlocks(INITIAL, m)
  {
    assert IsInitial(INITIAL);
  }

  lemma Reaches(s: Regs, m: seq<Byte>)
    requires |m| % 128 == 0 && s == HashBlocks(INITIAL, m)
    ensures Chained(s, m)
  {
    forall h | IsInitial(h)
      ensures s == HashBlocks(h, m)
    {
      assert h == INITIAL;
    }
  }

  lemma ChainedStep(s: Regs, m: seq<Byte>, b: seq<Byte>)
    requires |m| % 128 == 0 && |b| == 128 && Chained(s, m)
    ensures Chained(Compress(s, BlockWords(b)), m + b)
  {
    Reached(s, m);
    HashAppend(INITIAL, m, b);
    Reaches(Compress(s, BlockWords(b)), m + b);
  }

  /** Two 64-bit words hold a count of bits modulo 2^128. */
  predicate Counts(lo: nat, hi: nat, bits: nat) {
    lo == bits % TWO64 && hi == (bits / TWO64) % TWO64
  }

  class Context {
    const little: bool
    const buffer: array<Byte>
    var state: Regs
    var lo: nat   // bitcount[0]
    var hi: nat   // bitcount[1]
    ghost var msg: seq<Byte>  // everything hashed so far

    /** `SHA512_Transform`: the schedule window lies in the buffer of the context, which may be the
        block itself; every word of the block is read before its place is written. */
    method Transform(data: array<Byte>, off: nat)
      requires buffer.Length == 128 && off + 128 <= data.Length && (data == buffer ==> off == 0)
      modifies this`state, buffer
      ensures state == Compress(old(state), BlockWords(old(data[off..off + 128])))
    {
      ghost var block := BlockWords(data[off..off + 128]);
      ghost var words := ScheduleWords(block);
      HoldsBlock(little, data[..], off);
      assert data[..][off..off + 128] == data[off..off + 128];
      var r := state;
      var j: nat := 0;
      while j < 16
        invariant j <= 16 && state == old(state)
        invariant Window(little, buffer[..], words, j)
        invariant Holds(little, data[..], off, block, j)
        invariant r == Rounds(state, block, j)
      {
        var w := CopyWord(data, off, j, block, words);
        r := Turn(r, K(j), w);
        j := j + 1;
      }
      while j < 80
        invariant 16 <= j <= 80 && state == old(state)
        invariant Window(little, buffer[..], words, j)
        invariant r == Rounds(state, block, j)
      {
        var w := ExpandWord(j, block, words);
        r := Turn(r, K(j), w);
        j := j + 1;
      }
      state := AddRegs(state, r);
    }

    /** The transform as a step of the chain. */
    method Process(data: array<Byte>, off: nat, ghost done: seq<Byte>)
      requires buffer.Length == 128 && off + 128 <= data.Length && (data == buffer ==> off == 0)
      requires |done| % 128 == 0 && Chained(state, done)
      modifies this`state, buffer
      ensures Chained(state, done + old(data[off..off + 128]))
    {
      ChainedStep(state, done, data[off..off + 128]);
      Transform(data, off);
    }

    /** W512[j] = the next word of the block, in host order. */
    method CopyWord(data: array<Byte>, off: nat, j: nat, ghost block: seq<Word>, ghost words: seq<Word>) returns (w: Word)
      requires buffer.Length == 128 && off + 128 <= data.Length && (data == buffer ==> off == 0) && j < 16
      requires |block| == 16 && |words| == 80 && words[..16] == block
      requires Window(little, buffer[..], words, j) && Holds(little, data[..], off, block, j)
      modifies buffer
      ensures w == words[j]
      ensures Window(little, buffer[..], words, j + 1) && Holds(little, data[..], off, block, j + 1)
    {
      ghost var m, was := data[..], buffer[..];
      w := Swap(little, WordAt(little, data[..], off, j));
      BlockWord(little, m, off, block, words, j);
      StoreWord(little, buffer, j, w);
      ghost var now := buffer[..];
      assert j % 16 == j && now == was[..8 * j] + Store(little, w) + was[8 * j + 8..];
      WindowStep(little, was, now, words, j);
      if data == buffer {
        HoldsAfterStore(little, was, now, block, j, w);
      } else {
        assert data[..] == m;
      }
    }

    /** W512[j & 15] += sigma1(W512[(j + 14) & 15]) + W512[(j + 9) & 15] + sigma0(W512[(j + 1) & 15]). */
    method ExpandWord(j: nat, ghost block: seq<Word>, ghost words: seq<Word>) returns (w: Word)
      requires buffer.Length == 128 && 16 <= j < 80
      requires |block| == 16 && words == ScheduleWords(block)
      requires Window(little, buffer[..], words, j)
      modifies buffer
      ensures w == words[j]
      ensures Window(little, buffer[..], words, j + 1)
    {
      WindowReads(little, buffer[..], words, j);
      ScheduleStep(block, j);
      var s0 := LowerSigma0(WordAt(little, buffer[..], 0, (j + 1) % 16));
      var s1 := LowerSigma1(WordAt(little, buffer[..], 0, (j + 14) % 16));
      var sum := Add(Add(s1, WordAt(little, buffer[..], 0, (j + 9) % 16)), s0);
      w := Add(WordAt(little, buffer[..], 0, j % 16), sum);
      AddCommutes(words[j - 16], sum);
      StoreWord(little, buffer, j % 16, w);
      WindowStep(little, old(buffer[..]), buffer[..], words, j);
    }

    // ----- streaming

    /** The context stands for the bytes hashed so far: the chaining value of the whole blocks, the
        rest at the start of the buffer, and the number of bits modulo 2^128. */
    ghost predicate Valid()
      reads this, buffer
    {
      && buffer.Length == 128
      && Counts(lo, hi, 8 * |msg|)
      && Chained(state, Whole(msg))
      && buffer[..|msg| % 128] == Rest(msg)
    }

    /** `SHA512_Init`. */
    constructor (little: bool)
      ensures Valid() && msg == [] && this.little == little && fresh(buffer)
    {
      this.little := little;
      buffer := new Byte[128](_ => 0);
      state := INITIAL;
      lo, hi := 0, 0;
      msg := [];
      new;
      Reaches(INITIAL, []);
    }

    /** The macro ADDINC128. */
    method AddInc128(n: nat, ghost bits: nat)
      requires n < TWO64 && Counts(lo, hi, bits)
      modifies this`lo, this`hi
      ensures Counts(lo, hi, bits + n)
    {
      CarryInto(bits, n);
      lo := (lo + n) % TWO64;
      if lo < n {
        hi := (hi + 1) % TWO64;
      }
    }

    /** The low word of the bit count tells how much of the buffer is in use. */
    method Used() returns (n: nat)
      requires Valid()
      ensures n == |msg| % 128
    {
      UsedSpace(|msg|);
      n := (lo / 8) % 128;
    }

    method Copy(at: nat, data: array<Byte>, off: nat, n: nat)
      requires buffer.Length == 128 && at + n <= 128 && off + n <= data.Length && data != buffer
      modifies buffer
      ensures buffer[..] == old(buffer[..at]) + data[off..off + n] + old(buffer[at + n..])
    {
      forall k | 0 <= k < n { buffer[at + k] := data[off + k]; }
    }

    /** Part of a block goes into the buffer. */
    method AppendPart(data: array<Byte>, off: nat, n: nat)
      requires Valid() && data != buffer && off + n <= data.Length && |msg| % 128 + n < 128
      modifies this, buffer
      ensures Valid() && msg == old(msg) + data[off..off + n]
    {
      var used := Used();
      Copy(used, data, off, n);
      AddInc128(8 * n, 8 * |msg|);
      PartGrows(msg, data[off..off + n]);
      msg := msg + data[off..off + n];
      assert buffer[..|msg| % 128] == Rest(msg);
    }

    /** The bytes that completed a block have become part of the message. */
    ghost method Chain(more: seq<Byte>)
      requires buffer.Length == 128 && |msg| % 128 + |more| == 128
      requires Counts(lo, hi, 8 * |msg| + 8 * |more|)
      requires Chained(state, Whole(msg) + (Rest(msg) + more))
      modifies this`msg
      ensures Valid() && msg == old(msg) + more && |msg| % 128 == 0
    {
      WholeGrows(msg, more);
      msg := msg + more;
      assert Rest(msg) == [];
    }

    method CopyRest(data: array<Byte>, off: nat)
      requires Valid() && data != buffer && off + 128 - |msg| % 128 <= data.Length
      modifies buffer
      ensures buffer[0..128] == Rest(msg) + data[off..off + 128 - |msg| % 128]
    {
      var used := Used();
      Copy(used, data, off, 128 - used);
      assert buffer[0..128] == buffer[..];
    }

    /** The buffer is filled up and processed. */
    method FillUp(data: array<Byte>, off: nat)
      requires Valid() && data != buffer && |msg| % 128 > 0 && off + 128 - |msg| % 128 <= data.Length
      modifies this, buffer
      ensures Valid() && msg == old(msg) + data[off..off + 128 - |old(msg)| % 128] && |msg| % 128 == 0
    {
      var used := Used();
      var free := 128 - used;
      ghost var more := data[off..off + free];
      CopyRest(data, off);
      AddInc128(8 * free, 8 * |msg|);
      Process(buffer, 0, Whole(msg));
      Chain(more);
    }

    /** A whole block is processed where it lies. */
    method WholeBlock(data: array<Byte>, off: nat)
      requires Valid() && data != buffer && |msg| % 128 == 0 && off + 128 <= data.Length
      modifies this, buffer
      ensures Valid() && msg == old(msg) + data[off..off + 128] && |msg| % 128 == 0
    {
      Process(data, off, Whole(msg));
      AddInc128(8 * 128, 8 * |msg|);
      ghost var more := data[off..off + 128];
      assert Rest(msg) + more == more;
      Chain(more);
    }

    /** `SHA512_Update`, when the buffer is in use: complete it, or add what there is. */
    method UpdateBuffer(data: array<Byte>) returns (off: nat)
      requires Valid() && data != buffer && |msg| % 128 > 0
      modifies this, buffer
      ensures Valid() && off <= data.Length && msg == old(msg) + data[0..off]
      ensures off == data.Length || |msg| % 128 == 0
    {
      var used := Used();
      var free := 128 - used;
      if data.Length >= free {
        FillUp(data, 0);
        off := free;
      } else {
        AppendPart(data, 0, data.Length);
        off := data.Length;
      }
    }

    /** `SHA512_Update`, the blocks that lie whole in the data. */
    method UpdateBlocks(data: array<Byte>, from: nat) returns (off: nat)
      requires Valid() && data != buffer && |msg| % 128 == 0 && from <= data.Length
      modifies this, buffer
      ensures Valid() && from <= off <= data.Length < off + 128 && |msg| % 128 == 0
      ensures msg == old(msg) + data[from..off]
    {
      off := from;
      while data.Length - off >= 128
        invariant Valid() && from <= off <= data.Length && |msg| % 128 == 0
        invariant msg == old(msg) + data[from..off]
      {
        WholeBlock(data, off);
        Joined(old(msg), data[..], from, off, off + 128);
        off := off + 128;
      }
    }

    /** `SHA512_Update`, once the buffer is empty. */
    method UpdateRest(data: array<Byte>, from: nat)
      requires Valid() && data != buffer && |msg| % 128 == 0 && from <= data.Length
      modifies this, buffer
      ensures Valid() && msg == old(msg) + data[from..data.Length]
    {
      var off := UpdateBlocks(data, from);
      if off < data.Length {
        AppendPart(data, off, data.Length - off);
        Joined(old(msg), data[..], from, off, data.Length);
      }
    }

    /** `SHA512_Update`: any number of bytes, cut at any place. */
    method Update(data: array<Byte>)
      requires Valid() && data != buffer
      modifies this, buffer
      ensures Valid() && msg == old(msg) + data[..]
    {
      if data.Length == 0 {
        assert msg == msg + data[..];
        return;
      }
      var start: nat := 0;
      var used := Used();
      if used > 0 {
        start := UpdateBuffer(data);
      }
      if start < data.Length {
        UpdateRest(data, start);
        Joined(old(msg), data[..], 0, start, data.Length);
      }
      assert data[..] == data[..][0..data.Length];
    }

    // ----- finishing

    method Zero(at: nat, n: nat)
      requires buffer.Length == 128 && at + n <= 128
      modifies buffer
      ensures buffer[..] == old(buffer[..at]) + Zeros(n) + old(buffer[at + n..])
    {
      forall k | at <= k < at + n { buffer[k] := 0; }
    }

    /** `SHA512_Last`, the padding up to the length: a bit, then zeros, with an extra block when the
        length does not fit behind them. */
    method PadTail() returns (ghost done: seq<Byte>)
      requires Valid()
      modifies this`state, buffer
      ensures |done| % 128 == 0 && Chained(state, done)
      ensures done + buffer[..112] == msg + [0x80] + Zeros(PadZeros(|msg|))
    {
      var used := Used();
      if used == 0 {
        PadEmpty();
        done := msg;
      } else {
        buffer[used] := 0x80;
        used := used + 1;
        assert buffer[..used] == Rest(msg) + [0x80];
        if used <= 112 {
          PadShort(used);
          done := Whole(msg);
        } else {
          done := PadBlock(used);
        }
      }
    }

    method PadEmpty()
      requires buffer.Length == 128 && |msg| % 128 == 0
      modifies buffer
      ensures Whole(msg) == msg
      ensures msg + buffer[..112] == msg + [0x80] + Zeros(PadZeros(|msg|))
    {
      Zero(0, 112);
      buffer[0] := 0x80;
      assert buffer[..112] == [0x80] + Zeros(111);
    }

    method PadShort(used: nat)
      requires buffer.Length == 128
      requires 0 < used <= 112 && used == |msg| % 128 + 1 && buffer[..used] == Rest(msg) + [0x80]
      modifies buffer
      ensures Whole(msg) + buffer[..112] == msg + [0x80] + Zeros(PadZeros(|msg|))
    {
      Zero(used, 112 - used);
      assert buffer[..112] == Rest(msg) + [0x80] + Zeros(112 - used);
      PadOnce(msg);
    }

    method PadBlock(used: nat) returns (ghost done: seq<Byte>)
      requires buffer.Length == 128 && Chained(state, Whole(msg))
      requires 112 < used <= 128 && used == |msg| % 128 + 1 && buffer[..used] == Rest(msg) + [0x80]
      modifies this`state, buffer
      ensures |done| % 128 == 0 && Chained(state, done)
      ensures done + buffer[..112] == msg + [0x80] + Zeros(PadZeros(|msg|))
    {
      if used < 128 {
        Zero(used, 128 - used);
      }
      ghost var block := buffer[0..128];
      assert block == Rest(msg) + [0x80] + Zeros(128 - used);
      Process(buffer, 0, Whole(msg));
      Zero(0, 126);
      done := Whole(msg) + block;
      PadTwice(msg);
      assert buffer[..112] == Zeros(112);
    }

    /** `SHA512_Last`, the length in words 14 and 15 of the block. */
    method StoreLength()
      requires buffer.Length == 128 && Counts(lo, hi, 8 * |msg|)
      modifies buffer
      ensures buffer[0..128] == old(buffer[..112]) + LengthBytes(8 * |msg|)
    {
      StoreBoth(WordOf(hi), WordOf(lo));
    }

    method StoreBoth(high: Word, low: Word)
      requires buffer.Length == 128
      modifies buffer
      ensures buffer[0..128] == old(buffer[..112]) + (BigEndianBytes(high) + BigEndianBytes(low))
    {
      StoreSwap(little, high);
      StoreSwap(little, low);
      StoreWord(little, buffer, 14, Swap(little, high));
      StoreWord(little, buffer, 15, Swap(little, low));
      assert buffer[0..128] == buffer[..];
    }

    method FinalBlock() returns (ghost done: seq<Byte>)
      requires Valid()
      modifies this`state, buffer
      ensures |done| % 128 == 0 && Chained(state, done) && done + buffer[0..128] == Pad(msg)
    {
      done := PadTail();
      ghost var head := buffer[..112];
      StoreLength();
      LastBlock(msg, done, head);
    }

    method Last()
      requires Valid()
      modifies this`state, buffer
      ensures Chained(state, Pad(msg))
    {
      ghost var done := FinalBlock();
      Process(buffer, 0, done);
    }

    /** The j-th word of the state array. */
    method StateWord(j: nat) returns (w: Word)
      requires j < 8
      ensures w == Reg(state, j)
    {
      match j {
        case 0 => w := state.a;
        case 1 => w := state.b;
        case 2 => w := state.c;
        case 3 => w := state.d;
        case 4 => w := state.e;
        case 5 => w := state.f;
        case 6 => w := state.g;
        case _ => w := state.h;
      }
    }

    method WriteDigest(digest: array<Byte>)
      requires digest.Length == 64
      modifies digest
      ensures digest[..] == DigestBytes(state)
    {
      var j: nat := 0;
      while j < 8
        invariant j <= 8 && digest[..8 * j] == DigestPart(state, j)
      {
        var w := StateWord(j);
        StoreSwap(little, w);
        StoreWord(little, digest, j, Swap(little, w));
        j := j + 1;
      }
      assert digest[..64] == digest[..];
    }

    /** `SHA512_Final`: the digest, and nothing of the message left in the context. */
    method Final(digest: array?<Byte>)
      requires Valid() && digest != buffer && (digest != null ==> digest.Length == 64)
      modifies this, buffer, if digest == null then {} else {digest}
      ensures digest != null ==> IsDigest(digest[..], old(msg))
      ensures state == Regs(0, 0, 0, 0, 0, 0, 0, 0) && lo == hi == 0 && buffer[..] == Zeros(128)
    {
      if digest != null {
        Last();
        WriteDigest(digest);
        OneDigest(state, msg);
      }
      state := Regs(0, 0, 0, 0, 0, 0, 0, 0);
      lo, hi := 0, 0;
      Zero(0, 128);
    }
  }

  lemma LastBlock(m: seq<Byte>, done: seq<Byte>, head: seq<Byte>)
    requires done + head == m + [0x80] + Zeros(PadZeros(|m|))
    ensures done + (head + LengthBytes(8 * |m|)) == Pad(m)
  {
    Associate(done, head, LengthBytes(8 * |m|));
  }

  lemma PadOnce(m: seq<Byte>)
    requires |m| % 128 < 112
    ensures Whole(m) + (Rest(m) + [0x80] + Zeros(111 - |m| % 128)) == m + [0x80] + Zeros(PadZeros(|m|))
  {
    assert Whole(m) + Rest(m) == m;
  }

  /** The padding with an extra block. */
  lemma PadTwice(m: seq<Byte>)
    requires |m| % 128 >= 112
    ensures Whole(m) + (Rest(m) + [0x80] + Zeros(127 - |m| % 128)) + Zeros(112) == m + [0x80] + Zeros(PadZeros(|m|))
  {
    assert Whole(m) + Rest(m) == m;
    assert Zeros(127 - |m| % 128) + Zeros(112) == Zeros(PadZeros(|m|));
  }

  /** d is what the last value of the chain of the padded message is written as. */
  ghost predicate IsDigest(d: seq<Byte>, m: seq<Byte>) {
    forall s :: Chained(s, Pad(m)) ==> d == DigestBytes(s)
  }

  lemma OneDigest(s: Regs, m: seq<Byte>)
    requires Chained(s, Pad(m))
    ensures IsDigest(DigestBytes(s), m)
  {
    Reached(s, Pad(m));
    forall s' | Chained(s', Pad(m))
      ensures s' == s
    {
      Reached(s', Pad(m));
    }
  }

  lemma DigestIs(d: seq<Byte>, m: seq<Byte>)
    requires IsDigest(d, m) && 8 * |m| < TWO64 * TWO64
    ensures d == Sha512(m)
  {
    Reaches(HashBlocks(INITIAL, Pad(m)), Pad(m));
  }

  // ----- the digest of a message in pieces

  ghost function Contents(pieces: seq<array<Byte>>): seq<Byte>
    reads pieces
  {
    if pieces == [] then [] else Contents(pieces[..|pieces| - 1]) + pieces[|pieces| - 1][..]
  }

  /** Any message, however it is cut into updates and on either byte order, hashes to its SHA-512. */
  method HashPieces(little: bool, pieces: seq<array<Byte>>, digest: array<Byte>)
    requires digest.Length == 64 && digest !in pieces && 8 * |Contents(pieces)| < TWO64 * TWO64
    modifies digest
    ensures digest[..] == Sha512(Contents(pieces))
  {
    ghost var m := Contents(pieces);
    var context := new Context(little);
    assert Contents(pieces) == m;
    Absorb(context, pieces);
    assert Contents(pieces) == m;
    context.Final(digest);
    assert Contents(pieces) == m;
    DigestIs(digest[..], m);
  }

  method Absorb(context: Context, pieces: seq<array<Byte>>)
    requires context.Valid() && context.msg == [] && context.buffer !in pieces
    modifies context, context.buffer
    ensures context.Valid() && context.msg == Contents(pieces)
  {
    var i: nat := 0;
    while i < |pieces|
      invariant i <= |pieces|
      invariant context.Valid() && context.msg == Contents(pieces[..i])
    {
      context.Update(pieces[i]);
      assert pieces[..i + 1][..i] == pieces[..i];
      i := i + 1;
    }
    assert pieces[..i] == pieces;
  }

  lemma Associate(a: seq<Byte>, b: seq<Byte>, c: seq<Byte>)
    ensures a + (b + c) == a + b + c
  {
  }

  lemma Joined(m: seq<Byte>, d: seq<Byte>, a: nat, b: nat, c: nat)
    requires a <= b <= c <= |d|
    ensures m + d[a..b] + d[b..c] == m + d[a..c]
  {
    assert d[a..b] + d[b..c] == d[a..c];
  }

  // ----- whole blocks and the rest of a message

  ghost function Whole(m: seq<Byte>): (w: seq<Byte>)
    ensures |w| % 128 == 0
  {
    m[..|m| - |m| % 128]
  }

  ghost function Rest(m: seq<Byte>): (r: seq<Byte>)
    ensures |r| == |m| % 128
  {
    m[|m| - |m| % 128..]
  }

  lemma CarryInto(bits: nat, n: nat)
    requires n < TWO64
    ensures var lo := (bits % TWO64 + n) % TWO64;
      && lo == (bits + n) % TWO64
      && ((bits + n) / TWO64) % TWO64 == if lo < n then ((bits / TWO64) % TWO64 + 1) % TWO64 else (bits / TWO64) % TWO64
  {
    var q, l := bits / TWO64, bits % TWO64;
    assert bits == q * TWO64 + l;
    if l + n < TWO64 {
      assert (bits + n) / TWO64 == q && (bits + n) % TWO64 == l + n;
    } else {
      assert (bits + n) / TWO64 == q + 1 && (bits + n) % TWO64 == l + n - TWO64;
    }
  }

  /** The low word of the bit count tells how much of the buffer is used, also after it wrapped. */
  lemma UsedSpace(n: nat)
    ensures (((8 * n) % TWO64) / 8) % 128 == n % 128
  {
    var r := n % 0x2000_0000_0000_0000;
    LowBits(n);
    assert (8 * r) / 8 == r;
    LowBytes(n);
  }

  lemma LowBits(n: nat)
    ensures (8 * n) % TWO64 == 8 * (n % 0x2000_0000_0000_0000)
  {
    var q, r := n / 0x2000_0000_0000_0000, n % 0x2000_0000_0000_0000;
    assert 8 * n == q * TWO64 + 8 * r;
  }

  lemma LowBytes(n: nat)
    ensures (n % 0x2000_0000_0000_0000) % 128 == n % 128
  {
    var q, r := n / 0x2000_0000_0000_0000, n % 0x2000_0000_0000_0000;
    assert n == 128 * (q * 0x40_0000_0000_0000) + r;
  }

  lemma PartGrows(m: seq<Byte>, more: seq<Byte>)
    requires |m| % 128 + |more| < 128
    ensures Whole(m + more) == Whole(m) && Rest(m + more) == Rest(m) + more
  {
    assert |m + more| % 128 == |m| % 128 + |more|;
  }

  lemma {:induction false} HashAppend(h: Regs, a: seq<Byte>, b: seq<Byte>)
    requires |a| % 128 == 0 && |b| == 128
    ensures HashBlocks(h, a + b) == Compress(HashBlocks(h, a), BlockWords(b))
    decreases |a|
  {
    if a == [] {
      assert a + b == b && b[..128] == b && b[128..] == [];
    } else {
      assert (a + b)[..128] == a[..128] && (a + b)[128..] == a[128..] + b;
      HashAppend(Compress(h, BlockWords(a[..128])), a[128..], b);
    }
  }

  lemma WholeGrows(m: seq<Byte>, more: seq<Byte>)
    requires |m| % 128 + |more| == 128
    ensures |m + more| % 128 == 0
    ensures Whole(m + more) == Whole(m) + (Rest(m) + more) == m + more
  {
  }

  lemma HoldsAfterStore(little: bool, m: seq<Byte>, m': seq<Byte>, block: seq<Word>, j: nat, x: Word)
    requires |block| == 16 && |m| == 128 && j < 16 && Holds(little, m, 0, block, j)
    requires m' == m[..8 * j] + Store(little, x) + m[8 * j + 8..]
    ensures |m'| == 128 && Holds(little, m', 0, block, j + 1)
  {
    forall i: nat | j + 1 <= i < 16
      ensures Swap(little, WordAt(little, m', 0, i)) == block[i]
    {
      WordAfterStore(little, m, m', j, x, i);
    }
  }
}
