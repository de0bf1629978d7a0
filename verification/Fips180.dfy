/** SHA-512 as section 5.1.2 (padding), section 5.3.5 (initial value) and section 6.4.2 (hash
    computation) of FIPS 180-4 define it. */
module Fips180 {

  type Byte = bv8
  type Word = bv64

  // ----- words and bytes

  /** The word with these bytes, most significant first. */
  function Cat(b0: Byte, b1: Byte, b2: Byte, b3: Byte, b4: Byte, b5: Byte, b6: Byte, b7: Byte): Word {
    ((b0 as Word) << 56) | ((b1 as Word) << 48) | ((b2 as Word) << 40) | ((b3 as Word) << 32) |
    ((b4 as Word) << 24) | ((b5 as Word) << 16) | ((b6 as Word) << 8) | (b7 as Word)
  }

  function B7(x: Word): Byte { ((x >> 56) & 0xff) as Byte }
  function B6(x: Word): Byte { ((x >> 48) & 0xff) as Byte }
  function B5(x: Word): Byte { ((x >> 40) & 0xff) as Byte }
  function B4(x: Word): Byte { ((x >> 32) & 0xff) as Byte }
  function B3(x: Word): Byte { ((x >> 24) & 0xff) as Byte }
  function B2(x: Word): Byte { ((x >> 16) & 0xff) as Byte }
  function B1(x: Word): Byte { ((x >> 8) & 0xff) as Byte }
  function B0(x: Word): Byte { (x & 0xff) as Byte }

  function BigEndian(b: seq<Byte>): Word
    requires |b| == 8
  {
    Cat(b[0], b[1], b[2], b[3], b[4], b[5], b[6], b[7])
  }

  function BigEndianBytes(x: Word): (b: seq<Byte>)
    ensures |b| == 8
  {
    [B7(x), B6(x), B5(x), B4(x), B3(x), B2(x), B1(x), B0(x)]
  }

  /** Addition modulo 2^64. */
  function Add(x: Word, y: Word): Word {
    x + y
  }

  // ----- the six functions of section 4.1.3

  function RotR(n: bv7, x: Word): Word
    requires n <= 64
  {
    (x >> n) | (x << (64 - n))
  }

  function Xor(x: Word, y: Word): Word {
    x ^ y
  }

  function Ch(x: Word, y: Word, z: Word): Word {
    (x & y) ^ (!x & z)
  }

  function Maj(x: Word, y: Word, z: Word): Word {
    (x & y) ^ (x & z) ^ (y & z)
  }

  function BigSigma0(x: Word): Word {
    Xor(Xor(RotR(28, x), RotR(34, x)), RotR(39, x))
  }

  function BigSigma1(x: Word): Word {
    Xor(Xor(RotR(14, x), RotR(18, x)), RotR(41, x))
  }

  function SmallSigma0(x: Word): Word {
    Xor(Xor(RotR(1, x), RotR(8, x)), x >> 7)
  }

  function SmallSigma1(x: Word): Word {
    Xor(Xor(RotR(19, x), RotR(61, x)), x >> 6)
  }

  // ----- constants

  /** The constants of section 4.2.3, sixteen at a time. */
  const K0: seq<Word> := [
    0x428a2f98d728ae22, 0x7137449123ef65cd, 0xb5c0fbcfec4d3b2f, 0xe9b5dba58189dbbc,
    0x3956c25bf348b538, 0x59f111f1b605d019, 0x923f82a4af194f9b, 0xab1c5ed5da6d8118,
    0xd807aa98a3030242, 0x12835b0145706fbe, 0x243185be4ee4b28c, 0x550c7dc3d5ffb4e2,
    0x72be5d74f27b896f, 0x80deb1fe3b1696b1, 0x9bdc06a725c71235, 0xc19bf174cf692694]

  const K1: seq<Word> := [
    0xe49b69c19ef14ad2, 0xefbe4786384f25e3, 0x0fc19dc68b8cd5b5, 0x240ca1cc77ac9c65,
    0x2de92c6f592b0275, 0x4a7484aa6ea6e483, 0x5cb0a9dcbd41fbd4, 0x76f988da831153b5,
    0x983e5152ee66dfab, 0xa831c66d2db43210, 0xb00327c898fb213f, 0xbf597fc7beef0ee4,
    0xc6e00bf33da88fc2, 0xd5a79147930aa725, 0x06ca6351e003826f, 0x142929670a0e6e70]

  const K2: seq<Word> := [
    0x27b70a8546d22ffc, 0x2e1b21385c26c926, 0x4d2c6dfc5ac42aed, 0x53380d139d95b3df,
    0x650a73548baf63de, 0x766a0abb3c77b2a8, 0x81c2c92e47edaee6, 0x92722c851482353b,
    0xa2bfe8a14cf10364, 0xa81a664bbc423001, 0xc24b8b70d0f89791, 0xc76c51a30654be30,
    0xd192e819d6ef5218, 0xd69906245565a910, 0xf40e35855771202a, 0x106aa07032bbd1b8]

  const K3: seq<Word> := [
    0x19a4c116b8d2d0c8, 0x1e376c085141ab53, 0x2748774cdf8eeb99, 0x34b0bcb5e19b48a8,
    0x391c0cb3c5c95a63, 0x4ed8aa4ae3418acb, 0x5b9cca4f7763e373, 0x682e6ff3d6b2b8a3,
    0x748f82ee5defb2fc, 0x78a5636f43172f60, 0x84c87814a1f0ab72, 0x8cc702081a6439ec,
    0x90befffa23631e28, 0xa4506cebde82bde9, 0xbef9a3f7b2c67915, 0xc67178f2e372532b]

  const K4: seq<Word> := [
    0xca273eceea26619c, 0xd186b8c721c0c207, 0xeada7dd6cde0eb1e, 0xf57d4f7fee6ed178,
    0x06f067aa72176fba, 0x0a637dc5a2c898a6, 0x113f9804bef90dae, 0x1b710b35131c471b,
    0x28db77f523047d84, 0x32caab7b40c72493, 0x3c9ebe0a15c9bebc, 0x431d67c49c100d4c,
    0x4cc5d4becb3e42b6, 0x597f299cfc657e2a, 0x5fcb6fab3ad6faec, 0x6c44198c4a475817]

  function K(t: nat): Word
    requires t < 80
  {
    if t < 16 then K0[t] else if t < 32 then K1[t - 16] else if t < 48 then K2[t - 32]
    else if t < 64 then K3[t - 48] else K4[t - 64]
  }

  /** The eight working variables, or the eight words of a hash value. */
  datatype Regs = Regs(a: Word, b: Word, c: Word, d: Word, e: Word, f: Word, g: Word, h: Word)

  const INITIAL: Regs := Regs(
    0x6a09e667f3bcc908, 0xbb67ae8584caa73b, 0x3c6ef372fe94f82b, 0xa54ff53a5f1d36f1,
    0x510e527fade682d1, 0x9b05688c2b3e6c1f, 0x1f83d9abfb41bd6b, 0x5be0cd19137e2179)

  // ----- section 6.4.2

  /** A word of the schedule from those 2, 7, 15 and 16 places before it. */
  function Expand(w2: Word, w7: Word, w15: Word, w16: Word): Word {
    Add(Add(Add(SmallSigma1(w2), w7), SmallSigma0(w15)), w16)
  }

  /** Word t of the message schedule. */
  function Schedule(block: seq<Word>, t: nat): Word
    requires |block| == 16
  {
    if t < 16 then block[t]
    else Expand(Schedule(block, t - 2), Schedule(block, t - 7), Schedule(block, t - 15), Schedule(block, t - 16))
  }

  function Round(r: Regs, k: Word, w: Word): Regs {
    var t1 := Add(Add(Add(Add(r.h, BigSigma1(r.e)), Ch(r.e, r.f, r.g)), k), w);
    var t2 := Add(BigSigma0(r.a), Maj(r.a, r.b, r.c));
    Regs(Add(t1, t2), r.a, r.b, r.c, Add(r.d, t1), r.e, r.f, r.g)
  }

  /** The working variables after the first t rounds. */
  function Rounds(r: Regs, block: seq<Word>, t: nat): Regs
    requires |block| == 16 && t <= 80
  {
    if t == 0 then r else Round(Rounds(r, block, t - 1), K(t - 1), Schedule(block, t - 1))
  }

  function AddRegs(x: Regs, y: Regs): Regs {
    Regs(Add(x.a, y.a), Add(x.b, y.b), Add(x.c, y.c), Add(x.d, y.d), Add(x.e, y.e), Add(x.f, y.f), Add(x.g, y.g), Add(x.h, y.h))
  }

  function Compress(h: Regs, block: seq<Word>): Regs
    requires |block| == 16
  {
    AddRegs(h, Rounds(h, block, 80))
  }

  /** The sixteen words of a 128-byte block. */
  function BlockWords(b: seq<Byte>): (ws: seq<Word>)
    requires |b| == 128
    ensures |ws| == 16
    ensures forall i :: 0 <= i < 16 ==> ws[i] == BigEndian(b[8 * i..8 * i + 8])
  {
    seq(16, i requires 0 <= i < 16 => BigEndian(b[8 * i..8 * i + 8]))
  }

  /** The hash value after the whole blocks of a byte string. */
  function HashBlocks(h: Regs, b: seq<Byte>): Regs
    requires |b| % 128 == 0
    decreases |b|
  {
    if b == [] then h else HashBlocks(Compress(h, BlockWords(b[..128])), b[128..])
  }

  // ----- section 5.1.2

  const TWO64: nat := 0x1_0000_0000_0000_0000

  function Zeros(n: nat): (z: seq<Byte>)
    ensures |z| == n && forall i :: 0 <= i < n ==> z[i] == 0
  {
    seq(n, _ => 0)
  }

  /** The n-th 64-bit word: n modulo 2^64. */
  function WordOf(n: nat): Word {
    if n == 0 then 0 else Add(WordOf(n - 1), 1)
  }

  function Doubled(x: Word): Word { x << 1 }

  function DoubledPlus(x: Word): Word { (x << 1) | 1 }

  lemma AddOne(x: Word)
    ensures Add(Doubled(x), 1) == DoubledPlus(x) && Add(DoubledPlus(x), 1) == Doubled(Add(x, 1))
  {
  }

  /** The binary digits of a word are those of its number. */
  lemma {:induction false} BinaryDigits(n: nat)
    ensures WordOf(2 * n) == Doubled(WordOf(n)) && WordOf(2 * n + 1) == DoubledPlus(WordOf(n))
  {
    if n > 0 {
      BinaryDigits(n - 1);
      AddOne(WordOf(n - 1));
    } else {
      assert Doubled(0) == 0;
    }
    NextWord(2 * n - 1);
    NextWord(2 * n);
    NextWord(n - 1);
    AddOne(WordOf(n));
  }

  lemma NextWord(n: int)
    ensures n >= 0 ==> WordOf(n + 1) == Add(WordOf(n), 1)
  {
  }

  /** The bit length as a 128-bit big-endian number. */
  function LengthBytes(bits: nat): (b: seq<Byte>)
    ensures |b| == 16
  {
    BigEndianBytes(WordOf((bits / TWO64) % TWO64)) + BigEndianBytes(WordOf(bits % TWO64))
  }

  /** How many zero bytes bring the padded message to a multiple of 128. */
  function PadZeros(n: nat): (z: nat)
    ensures (n + 1 + z + 16) % 128 == 0 && z < 128
  {
    (239 - n % 128) % 128
  }

  function Pad(m: seq<Byte>): (p: seq<Byte>)
    ensures |p| % 128 == 0
  {
    m + [0x80] + Zeros(PadZeros(|m|)) + LengthBytes(8 * |m|)
  }

  function Reg(r: Regs, j: nat): Word
    requires j < 8
  {
    if j == 0 then r.a else if j == 1 then r.b else if j == 2 then r.c else if j == 3 then r.d
    else if j == 4 then r.e else if j == 5 then r.f else if j == 6 then r.g else r.h
  }

  function DigestPart(r: Regs, j: nat): (b: seq<Byte>)
    requires j <= 8
    ensures |b| == 8 * j
  {
    if j == 0 then [] else DigestPart(r, j - 1) + BigEndianBytes(Reg(r, j - 1))
  }

  /** The eight words one after the other. */
  function DigestBytes(r: Regs): seq<Byte> {
    DigestPart(r, 8)
  }

  /** The digest; defined by the standard for messages of less than 2^128 bits. */
  function Sha512(m: seq<Byte>): seq<Byte>
    requires 8 * |m| < TWO64 * TWO64
  {
    DigestBytes(HashBlocks(INITIAL, Pad(m)))
  }
}
