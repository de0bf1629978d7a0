/** Capital and small letters in addresses. */
module InetCase {
  import opened InetText
  import opened Octets
  import opened Options

  const SMALL := "0123456789abcdef"
  const CAPITAL := "0123456789ABCDEF"

  /** The digits of the parser are those of its two strings, each for its place. */
  lemma HexValueIs(c: char, v: nat)
    requires v < 16
    ensures HexValue(c) == v <==> SMALL[v] == c || CAPITAL[v] == c
  {
    if v < 10 {
      SmallDigit(v);
    } else {
      LetterDigit(v);
    }
  }

  lemma SmallDigit(v: nat)
    requires v < 10
    ensures SMALL[v] as int == '0' as int + v && CAPITAL[v] == SMALL[v]
  {
  }

  lemma LetterDigit(v: nat)
    requires 10 <= v < 16
    ensures SMALL[v] as int == 'a' as int + v - 10 && CAPITAL[v] as int == 'A' as int + v - 10
  {
  }

  /** No other character is a digit. */
  lemma NoHexValue(c: char)
    ensures HexValue(c) == -1 <==> c !in SMALL && c !in CAPITAL
  {
    if HexValue(c) >= 0 {
      HexValueIs(c, HexValue(c));
    } else {
      forall v: nat | v < 16
        ensures SMALL[v] != c && CAPITAL[v] != c
      {
        HexValueIs(c, v);
      }
    }
  }

  function Small(c: char): char {
    if 'A' <= c <= 'Z' then (c as int + 32) as char else c
  }

  /** The text with its letters lowered. */
  function Lowered(s: string): (r: string)
    ensures |r| == |s| && forall i :: 0 <= i < |s| ==> r[i] == Small(s[i])
  {
    if s == "" then "" else [Small(s[0])] + Lowered(s[1..])
  }

  lemma SmallChar(c: char)
    ensures HexValue(Small(c)) == HexValue(c)
    ensures ('0' <= Small(c) <= '9' || '0' <= c <= '9' || Small(c) == '.' || c == '.' || Small(c) == ':' || c == ':') ==> Small(c) == c
  {
  }

  lemma {:induction false} QuadLowered(s: string, octets: seq<Byte>, cur: Byte, saw: bool)
    requires |octets| <= 3
    ensures Quad(Lowered(s), octets, cur, saw) == Quad(s, octets, cur, saw)
    decreases |s|
  {
    if s != "" {
      SmallChar(s[0]);
      assert Lowered(s)[1..] == Lowered(s[1..]);
      if '0' <= s[0] <= '9' {
        var next := cur * 10 + (s[0] as int - '0' as int);
        if next <= 255 {
          QuadLowered(s[1..], octets, next, true);
        }
      } else if s[0] == '.' && saw && |octets| < 3 {
        QuadLowered(s[1..], octets + [cur], 0, false);
      }
    }
  }

  lemma {:induction false} ScanLowered(s: string, tok: string, out: seq<Byte>, colon: int, saw: bool, val: Word)
    requires |out| <= 16 && -1 <= colon <= |out|
    ensures Scan(Lowered(s), Lowered(tok), out, colon, saw, val) == Scan(s, tok, out, colon, saw, val)
    decreases |s|
  {
    QuadLowered(tok, [], 0, false);
    if s != "" {
      var c, t := s[0], s[1..];
      SmallChar(c);
      assert Lowered(s)[1..] == Lowered(t);
      if HexValue(c) >= 0 {
        var v := val * 16 + HexValue(c);
        if v <= 0xffff {
          ScanLowered(t, tok, out, colon, true, v);
        }
      } else if c == ':' {
        if !saw {
          if colon == -1 {
            ScanLowered(t, t, out, |out|, false, val);
          }
        } else if |out| + 2 <= 16 {
          ScanLowered(t, t, out + WordBytes(val), colon, false, 0);
        }
      }
    }
  }

  /** Capital letters are read as the small ones. */
  lemma Parse6Lowered(s: string)
    ensures Parse6(Lowered(s)) == Parse6(s)
  {
    if s != "" {
      SmallChar(s[0]);
      assert Lowered(s)[1..] == Lowered(s[1..]);
      if |s| > 1 {
        SmallChar(s[1]);
        ScanLowered(s[1..], s[1..], [], -1, false, 0);
      }
      ScanLowered(s, s, [], -1, false, 0);
    }
  }
}
