/** The parser of `compat/inet_pton.c`. */
module InetPton {
  import opened InetText
  import opened Octets
  import opened Options

  /** `inet_pton4`. */
  method InetPton4(src: string) returns (r: Option<seq<Byte>>)
    ensures r == Parse4(src)
  {
    var tmp := new Byte[4](_ => 0);
    var tp, octets, saw := 0, 0, false;
    var p := 0;
    assert src[0..] == src && tmp[..0] == [];
    while p < |src|
      invariant 0 <= p <= |src| && 0 <= tp <= 3 && octets == tp + (if saw then 1 else 0)
      invariant Parse4(src) == Quad(src[p..], tmp[..tp], tmp[tp], saw)
    {
      var ch := src[p];
      assert src[p..][1..] == src[p + 1..];
      p := p + 1;
      if '0' <= ch <= '9' {
        var next := tmp[tp] as int * 10 + (ch as int - '0' as int);
        if next > 255 {
          return None;
        }
        ghost var before := tmp[..tp];
        tmp[tp] := next;
        assert tmp[..tp] == before;
        if !saw {
          octets := octets + 1;
          saw := true;
        }
      } else if ch == '.' && saw {
        if octets == 4 {
          return None;
        }
        ghost var before := tmp[..tp] + [tmp[tp]];
        tp := tp + 1;
        tmp[tp] := 0;
        assert tmp[..tp] == before;
        saw := false;
      } else {
        return None;
      }
    }
    if octets < 4 {
      return None;
    }
    assert tmp[..] == tmp[..3] + [tmp[3]];
    return Some(tmp[..]);
  }

  /** The bytes from `colon` to `tp` move to the end and leave zeros behind, byte by byte from the
      last; where there is nothing to move by, each byte is cleared after it was copied to itself. */
  method ShiftToEnd(tmp: array<Byte>, tp: nat, colon: nat)
    requires tmp.Length == 16 && colon <= tp <= 16
    requires forall k :: tp <= k < 16 ==> tmp[k] == 0
    modifies tmp
    ensures tmp[..] == FillIn(old(tmp[..tp]), colon)
  {
    ghost var was := tmp[..];
    var n := tp - colon;
    var i := 1;
    while i <= n
      invariant 1 <= i <= n + 1
      invariant forall k :: 0 <= k < 16 ==> tmp[k] == Shifted(was, tp, i - 1, k)
    {
      tmp[16 - i] := tmp[colon + n - i];
      tmp[colon + n - i] := 0;
      i := i + 1;
    }
    assert tmp[..] == FillIn(was[..tp], colon);
  }

  /** Byte k when the last i of the first tp bytes have moved. */
  ghost function Shifted(was: seq<Byte>, tp: nat, i: nat, k: nat): Byte
    requires |was| == 16 && i <= tp <= 16 && k < 16
  {
    if k >= 16 - i && tp < 16 then was[k - (16 - tp)] else if k >= tp - i then 0 else was[k]
  }

  method StoreWord(tmp: array<Byte>, tp: nat, val: Word)
    requires tmp.Length == 16 && tp + 2 <= 16
    modifies tmp
    ensures tmp[..] == old(tmp[..tp]) + WordBytes(val) + old(tmp[tp + 2..])
  {
    tmp[tp] := val / 256;
    tmp[tp + 1] := val % 256;
  }

  method StoreQuad(tmp: array<Byte>, tp: nat, quad: seq<Byte>)
    requires tmp.Length == 16 && tp + 4 <= 16 && |quad| == 4
    modifies tmp
    ensures tmp[..] == old(tmp[..tp]) + quad + old(tmp[tp + 4..])
  {
    forall k | 0 <= k < 4 { tmp[tp + k] := quad[k]; }
  }

  /** What the loop has read so far, and what it then computes. */
  ghost predicate Reading(tmp: seq<Byte>, tp: int, colon: int) {
    |tmp| == 16 && 0 <= tp <= 16 && -1 <= colon <= tp && forall k :: tp <= k < 16 ==> tmp[k] == 0
  }

  lemma Written(tmp: seq<Byte>, tmp': seq<Byte>, tp: int, colon: int, b: seq<Byte>)
    requires Reading(tmp, tp, colon) && tp + |b| <= 16 && tmp' == tmp[..tp] + b + tmp[tp + |b|..]
    ensures Reading(tmp', tp + |b|, colon) && tmp'[..tp + |b|] == tmp[..tp] + b
  {
  }

  method Complete(tmp: array<Byte>, last: nat, colon: int, saw: bool, val: Word) returns (r: Option<seq<Byte>>)
    requires tmp.Length == 16 && Reading(tmp[..], last, colon)
    modifies tmp
    ensures r == Finish(old(tmp[..last]), colon, saw, val)
  {
    var tp := last;
    if saw {
      if tp + 2 > 16 {
        return None;
      }
      StoreWord(tmp, tp, val);
      Written(old(tmp[..]), tmp[..], tp, colon, WordBytes(val));
      tp := tp + 2;
    }
    if colon != -1 {
      ShiftToEnd(tmp, tp, colon);
      tp := 16;
    }
    if tp != 16 {
      return None;
    }
    assert tmp[..16] == tmp[..];
    return Some(tmp[..]);
  }

  /** `inet_pton6`. */
  method InetPton6(src: string) returns (r: Option<seq<Byte>>)
    ensures r == Parse6(src)
  {
    var tmp := new Byte[16](_ => 0);
    var tp, colon := 0, -1;
    var p := 0;
    if src != "" && src[0] == ':' {
      p := 1;
      if |src| == 1 || src[1] != ':' {
        return None;
      }
    }
    var tok, saw, val := p, false, 0;
    assert src[0..] == src && tmp[..0] == [];
    while p < |src|
      invariant 0 <= tok <= p <= |src| && 0 <= val < 65536 && Reading(tmp[..], tp, colon)
      invariant Parse6(src) == Scan(src[p..], src[tok..], tmp[..tp], colon, saw, val)
    {
      var ch := src[p];
      ghost var s, was := src[p..], tmp[..];
      assert s[0] == ch && s[1..] == src[p + 1..];
      p := p + 1;
      if HexValue(ch) >= 0 {
        var v := val * 16 + HexValue(ch);
        if v > 0xffff {
          return None;
        }
        val := v;
        saw := true;
      } else if ch == ':' {
        tok := p;
        if !saw {
          if colon != -1 {
            return None;
          }
          colon := tp;
        } else {
          if tp + 2 > 16 {
            return None;
          }
          StoreWord(tmp, tp, val);
          Written(was, tmp[..], tp, colon, WordBytes(val));
          tp := tp + 2;
          saw := false;
          val := 0;
        }
      } else if ch == '.' && tp + 4 <= 16 {
        var quad := InetPton4(src[tok..]);
        if quad.None? {
          return None;
        }
        StoreQuad(tmp, tp, quad.value);
        Written(was, tmp[..], tp, colon, quad.value);
        tp := tp + 4;
        saw := false;
        break;
      } else {
        return None;
      }
    }
    r := Complete(tmp, tp, colon, saw, val);
  }
}
