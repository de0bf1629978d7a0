/** Text and binary form of Internet addresses: what the printer and the parser compute. */
module InetText {
  import opened Numerals
  import opened Octets
  import opened Options

  function Dotted(b: seq<Byte>): (s: string)
    requires |b| == 4
    ensures 7 <= |s| <= 15
  {
    Dec(b[0]) + "." + Dec(b[1]) + "." + Dec(b[2]) + "." + Dec(b[3])
  }

  /** The value of a hexadecimal digit of either case, or -1. */
  function HexValue(c: char): (v: int)
    ensures -1 <= v < 16
    ensures c == ':' || c == '.' ==> v == -1
    ensures forall d: nat :: d < 16 && c == Digit(d) ==> v == d
  {
    if '0' <= c <= '9' then c as int - '0' as int
    else if 'a' <= c <= 'f' then c as int - 'a' as int + 10
    else if 'A' <= c <= 'F' then c as int - 'A' as int + 10
    else -1
  }

  /** Groups separated by colons. */
  function Groups(ws: seq<Word>): string {
    if ws == [] then "" else if |ws| == 1 then Hex(ws[0]) else Hex(ws[0]) + ":" + Groups(ws[1..])
  }

  function Bytes(ws: seq<Word>): (b: seq<Byte>)
    ensures |b| == 2 * |ws|
  {
    if ws == [] then [] else WordBytes(ws[0]) + Bytes(ws[1..])
  }

  function Zeros(n: nat): (z: seq<Byte>)
    ensures |z| == n && forall i :: 0 <= i < n ==> z[i] == 0
  {
    seq(n, _ => 0)
  }

  // ----- the run of zero words that is shortened (section 4.2 of RFC 5952)

  ghost predicate ZeroRun(w: seq<Word>, b: int, n: int) {
    0 <= b && 1 <= n && b + n <= |w| && forall i :: b <= i < b + n ==> w[i] == 0
  }

  /** Section 4.2: the run is at least two words long, no run is longer, and none that is as long
      comes before it; base -1 stands for no such run. */
  ghost predicate Shortened(w: seq<Word>, base: int, len: int) {
    if base == -1 then forall b, n :: ZeroRun(w, b, n) ==> n < 2
    else
      && len >= 2 && ZeroRun(w, base, len)
      && forall b, n :: ZeroRun(w, b, n) ==> n < len || (n == len && base <= b)
  }

  lemma ShortenedOnce(w: seq<Word>, b: int, n: int, b': int, n': int)
    requires Shortened(w, b, n) && Shortened(w, b', n')
    ensures b == b' && (b != -1 ==> n == n')
  {
  }

  /** An IPv4 address lies in the last two words. */
  predicate Embedded(w: seq<Word>, base: int, len: int)
    requires |w| == 8
  {
    base == 0 && (len == 6 || (len == 5 && w[5] == 0xffff))
  }

  /** The text of an address, by the run that is shortened. */
  function Text(w: seq<Word>, base: int, len: int): string
    requires |w| == 8 && (base == -1 || (0 <= base && 0 <= len && base + len <= 8))
  {
    if base == -1 then Groups(w)
    else if Embedded(w, base, len) then "::" + (if len == 5 then "ffff:" else "") + Dotted(Bytes(w[6..]))
    else Groups(w[..base]) + "::" + Groups(w[base + len..])
  }

  // ----- what the parser accepts

  /** The rest of a dotted quad: the octets done, the one at hand and whether it has a digit. */
  function Quad(s: string, octets: seq<Byte>, cur: Byte, saw: bool): (r: Option<seq<Byte>>)
    requires |octets| <= 3
    ensures r.Some? ==> |r.value| == 4
  {
    if s == "" then
      if |octets| == 3 && saw then Some(octets + [cur]) else None
    else if '0' <= s[0] <= '9' then
      var next := cur * 10 + (s[0] as int - '0' as int);
      if next > 255 then None else Quad(s[1..], octets, next, true)
    else if s[0] == '.' && saw then
      if |octets| == 3 then None else Quad(s[1..], octets + [cur], 0, false)
    else None
  }

  function Parse4(s: string): (r: Option<seq<Byte>>)
    ensures r.Some? ==> |r.value| == 4
  {
    Quad(s, [], 0, false)
  }

  /** `::` fills up with zeros; in an address that is already full everything behind it is lost. */
  function FillIn(out: seq<Byte>, colon: int): (r: seq<Byte>)
    requires |out| <= 16 && 0 <= colon <= |out|
    ensures |r| == 16
  {
    out[..colon] + Zeros(16 - |out|) + (if |out| == 16 then Zeros(16 - colon) else out[colon..])
  }

  function Finish(out: seq<Byte>, colon: int, saw: bool, val: Word): (r: Option<seq<Byte>>)
    requires |out| <= 16 && -1 <= colon <= |out|
    ensures r.Some? ==> |r.value| == 16
  {
    if saw && |out| + 2 > 16 then None
    else
      var all := if saw then out + WordBytes(val) else out;
      if colon != -1 then Some(FillIn(all, colon))
      else if |all| == 16 then Some(all)
      else None
  }

  /** The rest of an address: the token at hand, the bytes done, where `::` was, and the word at hand. */
  function Scan(s: string, tok: string, out: seq<Byte>, colon: int, saw: bool, val: Word): (r: Option<seq<Byte>>)
    requires |out| <= 16 && -1 <= colon <= |out|
    ensures r.Some? ==> |r.value| == 16
    decreases |s|
  {
    if s == "" then Finish(out, colon, saw, val)
    else if HexValue(s[0]) >= 0 then
      var v := val * 16 + HexValue(s[0]);
      if v > 0xffff then None else Scan(s[1..], tok, out, colon, true, v)
    else if s[0] == ':' then
      if !saw then
        if colon != -1 then None else Scan(s[1..], s[1..], out, |out|, false, val)
      else if |out| + 2 > 16 then None
      else Scan(s[1..], s[1..], out + WordBytes(val), colon, false, 0)
    else if s[0] == '.' && |out| + 4 <= 16 && Parse4(tok).Some? then
      Finish(out + Parse4(tok).value, colon, false, val)
    else None
  }

  function Parse6(s: string): (r: Option<seq<Byte>>)
    ensures r.Some? ==> |r.value| == 16
  {
    if s != "" && s[0] == ':' then
      if |s| > 1 && s[1] == ':' then Scan(s[1..], s[1..], [], -1, false, 0) else None
    else Scan(s, s, [], -1, false, 0)
  }
}
