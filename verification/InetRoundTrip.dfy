/** The parser reads back what the printer writes. */
module InetRoundTrip {
  import opened InetText
  import opened Numerals
  import opened Octets
  import opened Options

  // ----- dotted quads

  lemma QuadDigit(d: nat, rest: string, octets: seq<Byte>, cur: Byte, saw: bool)
    requires |octets| <= 3 && d < 10 && cur * 10 + d <= 255
    ensures Quad([Digit(d)] + rest, octets, cur, saw) == Quad(rest, octets, cur * 10 + d, true)
  {
    assert ([Digit(d)] + rest)[1..] == rest;
  }

  lemma {:induction false} QuadDec(b: Byte, rest: string, octets: seq<Byte>)
    requires |octets| <= 3
    ensures Quad(Dec(b) + rest, octets, 0, false) == Quad(rest, octets, b, true)
    decreases b
  {
    if b < 10 {
      QuadDigit(b, rest, octets, 0, false);
    } else {
      assert Dec(b) + rest == Dec(b / 10) + ([Digit(b % 10)] + rest);
      QuadDec(b / 10, [Digit(b % 10)] + rest, octets);
      QuadDigit(b % 10, rest, octets, b / 10, true);
    }
  }

  lemma QuadPart(b: Byte, rest: string, octets: seq<Byte>)
    requires |octets| < 3
    ensures Quad(Dec(b) + ("." + rest), octets, 0, false) == Quad(rest, octets + [b], 0, false)
  {
    QuadDec(b, "." + rest, octets);
    assert ("." + rest)[1..] == rest;
  }

  lemma DottedParts(b: seq<Byte>)
    requires |b| == 4
    ensures Dotted(b) == Dec(b[0]) + ("." + (Dec(b[1]) + ("." + (Dec(b[2]) + ("." + (Dec(b[3]) + ""))))))
  {
  }

  lemma RoundTrip4(b: seq<Byte>)
    requires |b| == 4
    ensures Parse4(Dotted(b)) == Some(b)
  {
    var t3 := Dec(b[3]) + "";
    var t2 := Dec(b[2]) + ("." + t3);
    var t1 := Dec(b[1]) + ("." + t2);
    DottedParts(b);
    QuadPart(b[0], t1, []);
    QuadPart(b[1], t2, [] + [b[0]]);
    QuadPart(b[2], t3, [] + [b[0]] + [b[1]]);
    var octets := [] + [b[0]] + [b[1]] + [b[2]];
    QuadDec(b[3], "", octets);
    assert octets + [b[3]] == b;
  }

  // ----- groups

  lemma ScanDigit(d: nat, rest: string, tok: string, out: seq<Byte>, colon: int, saw: bool, val: Word)
    requires |out| <= 16 && -1 <= colon <= |out| && d < 16 && val * 16 + d <= 0xffff
    ensures Scan([Digit(d)] + rest, tok, out, colon, saw, val) == Scan(rest, tok, out, colon, true, val * 16 + d)
  {
    assert ([Digit(d)] + rest)[1..] == rest;
  }

  lemma {:induction false} ScanHex(w: Word, rest: string, tok: string, out: seq<Byte>, colon: int)
    requires |out| <= 16 && -1 <= colon <= |out|
    ensures Scan(Hex(w) + rest, tok, out, colon, false, 0) == Scan(rest, tok, out, colon, true, w)
    decreases w
  {
    if w < 16 {
      ScanDigit(w, rest, tok, out, colon, false, 0);
    } else {
      assert Hex(w) + rest == Hex(w / 16) + ([Digit(w % 16)] + rest);
      ScanHex(w / 16, [Digit(w % 16)] + rest, tok, out, colon);
      ScanDigit(w % 16, rest, tok, out, colon, true, w / 16);
    }
  }

  lemma ScanColon(rest: string, tok: string, out: seq<Byte>, colon: int, w: Word)
    requires |out| <= 14 && -1 <= colon <= |out|
    ensures Scan(":" + rest, tok, out, colon, true, w) == Scan(rest, rest, out + WordBytes(w), colon, false, 0)
  {
    assert (":" + rest)[1..] == rest;
  }

  lemma ScanDouble(rest: string, tok: string, out: seq<Byte>)
    requires |out| <= 16
    ensures Scan(":" + rest, tok, out, -1, false, 0) == Scan(rest, rest, out, |out|, false, 0)
  {
    assert (":" + rest)[1..] == rest;
  }

  lemma ScanGroup(w: Word, more: string, tok: string, out: seq<Byte>, colon: int)
    requires |out| <= 14 && -1 <= colon <= |out|
    ensures Scan(Hex(w) + (":" + more), tok, out, colon, false, 0) == Scan(more, more, out + WordBytes(w), colon, false, 0)
  {
    ScanHex(w, ":" + more, tok, out, colon);
    ScanColon(more, tok, out, colon, w);
  }

  lemma Associate(a: string, b: string, c: string, d: string)
    ensures a + b + c + d == a + (b + (c + d))
  {
  }

  lemma GroupsHead(ws: seq<Word>, rest: string)
    requires |ws| > 1
    ensures Groups(ws) + rest == Hex(ws[0]) + (":" + (Groups(ws[1..]) + rest))
  {
    Associate(Hex(ws[0]), ":", Groups(ws[1..]), rest);
  }

  /** Groups up to the last of them, which is still at hand. */
  lemma {:induction false} ScanGroups(ws: seq<Word>, rest: string, tok: string, out: seq<Byte>, colon: int)
    returns (tok': string)
    requires ws != [] && |out| + 2 * |ws| <= 16 && -1 <= colon <= |out|
    ensures Scan(Groups(ws) + rest, tok, out, colon, false, 0)
      == Scan(rest, tok', out + Bytes(ws[..|ws| - 1]), colon, true, ws[|ws| - 1])
    decreases |ws|
  {
    if |ws| == 1 {
      ScanHex(ws[0], rest, tok, out, colon);
      assert out + Bytes(ws[..0]) == out;
      tok' := tok;
    } else {
      var more := Groups(ws[1..]) + rest;
      GroupsHead(ws, rest);
      ScanGroup(ws[0], more, tok, out, colon);
      tok' := ScanGroups(ws[1..], rest, more, out + WordBytes(ws[0]), colon);
      BytesHead(ws, out);
    }
  }

  lemma BytesHead(ws: seq<Word>, out: seq<Byte>)
    requires |ws| > 1
    ensures out + WordBytes(ws[0]) + Bytes(ws[1..][..|ws| - 2]) == out + Bytes(ws[..|ws| - 1])
  {
    assert ws[..|ws| - 1][1..] == ws[1..][..|ws| - 2];
  }

  lemma {:induction false} BytesAppend(a: seq<Word>, b: seq<Word>)
    ensures Bytes(a + b) == Bytes(a) + Bytes(b)
    decreases |a|
  {
    if a == [] {
      assert a + b == b;
    } else {
      assert (a + b)[1..] == a[1..] + b;
      BytesAppend(a[1..], b);
    }
  }

  lemma {:induction false} BytesLast(ws: seq<Word>)
    requires ws != []
    ensures Bytes(ws) == Bytes(ws[..|ws| - 1]) + WordBytes(ws[|ws| - 1])
    decreases |ws|
  {
    if |ws| == 1 {
      assert ws[1..] == [] && ws[..0] == [];
    } else {
      BytesLast(ws[1..]);
      assert ws[..|ws| - 1][1..] == ws[1..][..|ws| - 2];
    }
  }

  lemma {:induction false} BytesOfZeros(ws: seq<Word>)
    requires forall i :: 0 <= i < |ws| ==> ws[i] == 0
    ensures Bytes(ws) == Zeros(2 * |ws|)
    decreases |ws|
  {
    if ws != [] {
      BytesOfZeros(ws[1..]);
    }
  }

  /** Groups that end the text, after `::` or with none. */
  lemma ScanLast(ws: seq<Word>, tok: string, out: seq<Byte>, colon: int)
    requires |out| + 2 * |ws| <= 16 && -1 <= colon <= |out|
    ensures Scan(Groups(ws), tok, out, colon, false, 0) == Finish(out + Bytes(ws), colon, false, 0)
  {
    if ws == [] {
      assert out + Bytes(ws) == out;
    } else {
      assert Groups(ws) + "" == Groups(ws);
      var _ := ScanGroups(ws, "", tok, out, colon);
      BytesLast(ws);
      assert out + Bytes(ws[..|ws| - 1]) + WordBytes(ws[|ws| - 1]) == out + Bytes(ws);
    }
  }

  /** A dotted quad at the end: its first octet is read as a word up to the dot, then anew. */
  lemma ScanDotted(b: seq<Byte>, out: seq<Byte>, colon: int)
    requires |b| == 4 && |out| <= 12 && -1 <= colon <= |out|
    ensures Scan(Dotted(b), Dotted(b), out, colon, false, 0) == Finish(out + b, colon, false, 0)
  {
    RoundTrip4(b);
    var tail := Dec(b[1]) + ("." + (Dec(b[2]) + ("." + (Dec(b[3]) + ""))));
    DottedParts(b);
    var v := DecAsHex(b[0], "." + tail, Dotted(b), out, colon);
  }

  lemma {:induction false} DecAsHex(n: nat, rest: string, tok: string, out: seq<Byte>, colon: int) returns (v: Word)
    requires |out| <= 16 && -1 <= colon <= |out| && n < 1000
    ensures v < 4096 && (n < 10 ==> v < 16) && (n < 100 ==> v < 256)
    ensures Scan(Dec(n) + rest, tok, out, colon, false, 0) == Scan(rest, tok, out, colon, true, v)
    decreases n
  {
    if n < 10 {
      v := n;
      ScanDigit(n, rest, tok, out, colon, false, 0);
    } else {
      assert Dec(n) + rest == Dec(n / 10) + ([Digit(n % 10)] + rest);
      v := DecAsHex(n / 10, [Digit(n % 10)] + rest, tok, out, colon);
      ScanDigit(n % 10, rest, tok, out, colon, true, v);
      v := v * 16 + n % 10;
    }
  }

  // ----- addresses

  lemma FilledIn(a: seq<Byte>, b: seq<Byte>)
    requires |a| + |b| < 16
    ensures FillIn(a + b, |a|) == a + Zeros(16 - |a| - |b|) + b
  {
    assert (a + b)[..|a|] == a && (a + b)[|a|..] == b;
  }

  /** What follows the first colon of `::`. */
  lemma ScanTail(out: seq<Byte>, b: seq<Word>, tok: string)
    requires |out| + 2 * |b| <= 16
    ensures Scan(":" + Groups(b), tok, out, -1, false, 0) == Some(FillIn(out + Bytes(b), |out|))
  {
    ScanDouble(Groups(b), tok, out);
    ScanLast(b, Groups(b), out, |out|);
  }

  lemma Regroup(x: string, y: string)
    ensures x + "::" + y == x + (":" + (":" + y))
  {
  }

  lemma ParseLeading(g: string, r: Option<seq<Byte>>)
    requires Scan(":" + g, ":" + g, [], -1, false, 0) == r
    ensures Parse6("" + "::" + g) == r
  {
    assert ("" + "::" + g)[1..] == ":" + g;
  }

  lemma ParseInner(a: seq<Word>, g: string, r: Option<seq<Byte>>)
    requires 0 < |a| <= 8
    requires Scan(":" + g, ":" + g, Bytes(a), -1, false, 0) == r
    ensures Parse6(Groups(a) + "::" + g) == r
  {
    var tail := ":" + g;
    GroupsStart(a);
    ScanBefore(a, tail, Groups(a) + (":" + tail));
    Regroup(Groups(a), g);
  }

  lemma ScanBefore(a: seq<Word>, tail: string, tok: string)
    requires 0 < |a| <= 8
    ensures Scan(Groups(a) + (":" + tail), tok, [], -1, false, 0) == Scan(tail, tail, Bytes(a), -1, false, 0)
  {
    var tok' := ScanGroups(a, ":" + tail, tok, [], -1);
    var before := Bytes(a[..|a| - 1]);
    assert [] + before == before;
    ScanColon(tail, tok', before, -1, a[|a| - 1]);
    BytesLast(a);
  }

  lemma {:induction false} HexStart(n: nat)
    ensures HexValue(Hex(n)[0]) >= 0
  {
    if n >= 16 {
      HexStart(n / 16);
    }
  }

  lemma GroupsStart(a: seq<Word>)
    requires a != []
    ensures Groups(a) != "" && Groups(a)[0] != ':'
  {
    HexStart(a[0]);
  }

  lemma ParseCompatible(b: seq<Byte>)
    requires |b| == 4
    ensures Parse6("::" + Dotted(b)) == Some(Zeros(12) + b)
  {
    var quad := Dotted(b);
    assert ("::" + quad)[1..] == ":" + quad;
    ScanDouble(quad, ":" + quad, []);
    ScanDotted(b, [], 0);
    FilledIn([], b);
    assert [] + b == b && [] + Zeros(12) + b == Zeros(12) + b;
  }

  lemma ParseMapped(b: seq<Byte>)
    requires |b| == 4
    ensures Parse6("::ffff:" + Dotted(b)) == Some(Zeros(10) + (WordBytes(0xffff) + b))
  {
    var quad := Dotted(b);
    var tail := Hex(0xffff) + (":" + quad);
    var ff := WordBytes(0xffff);
    HexFfff();
    assert ("::ffff:" + quad)[1..] == ":" + tail;
    ScanDouble(tail, ":" + tail, []);
    ScanHex(0xffff, ":" + quad, tail, [], 0);
    ScanColon(quad, tail, [], 0, 0xffff);
    assert [] + ff == ff;
    ScanDotted(b, ff, 0);
    FilledIn([], ff + b);
    assert [] + (ff + b) == ff + b && [] + Zeros(10) + (ff + b) == Zeros(10) + (ff + b);
  }

  lemma HexFfff()
    ensures Hex(0xffff) == "ffff"
  {
    assert Hex(0xf) == "f";
    assert Hex(0xff) == "ff";
    assert Hex(0xfff) == "fff";
  }

  /** The bytes around a run of zero words. */
  lemma BytesAround(w: seq<Word>, base: int, len: int)
    requires ZeroRun(w, base, len)
    ensures Bytes(w) == Bytes(w[..base]) + Zeros(2 * len) + Bytes(w[base + len..])
  {
    assert w == w[..base] + (w[base..base + len] + w[base + len..]);
    BytesAppend(w[..base], w[base..base + len] + w[base + len..]);
    BytesAppend(w[base..base + len], w[base + len..]);
    BytesOfZeros(w[base..base + len]);
  }

  lemma RoundTripPlain(w: seq<Word>)
    requires |w| == 8
    ensures Parse6(Groups(w)) == Some(Bytes(w))
  {
    GroupsStart(w);
    ScanLast(w, Groups(w), [], -1);
    assert [] + Bytes(w) == Bytes(w);
  }

  lemma RoundTripShortened(w: seq<Word>, base: int, len: int)
    requires |w| == 8 && ZeroRun(w, base, len)
    ensures Parse6(Groups(w[..base]) + "::" + Groups(w[base + len..])) == Some(Bytes(w))
  {
    BytesAround(w, base, len);
    ParseDouble(w[..base], w[base + len..]);
    FilledIn(Bytes(w[..base]), Bytes(w[base + len..]));
  }

  lemma ParseDouble(a: seq<Word>, b: seq<Word>)
    requires |a| + |b| <= 8
    ensures Parse6(Groups(a) + "::" + Groups(b)) == Some(FillIn(Bytes(a) + Bytes(b), 2 * |a|))
  {
    ScanTail(Bytes(a), b, ":" + Groups(b));
    if a == [] {
      ParseLeading(Groups(b), Some(FillIn([] + Bytes(b), 0)));
    } else {
      ParseInner(a, Groups(b), Some(FillIn(Bytes(a) + Bytes(b), 2 * |a|)));
    }
  }

  /** Zeros are filled in between the bytes if and only if any are left out, or the rest is zero itself. */
  lemma FillInIff(x: seq<Byte>, y: seq<Byte>)
    requires |x| + |y| <= 16
    ensures FillIn(x + y, |x|) == x + Zeros(16 - |x| - |y|) + y <==> (|x| + |y| < 16 || y == Zeros(|y|))
  {
    if |x| + |y| < 16 {
      FilledIn(x, y);
    } else {
      assert FillIn(x + y, |x|) == x + Zeros(|y|);
      assert x + Zeros(0) + y == x + y;
      assert (x + y)[|x|..] == y && (x + Zeros(|y|))[|x|..] == Zeros(|y|);
    }
  }

  /** Every address is read back from its text, whichever run of zeros the text shortens. */
  lemma RoundTrip(w: seq<Word>, base: int, len: int)
    requires |w| == 8 && (base == -1 || ZeroRun(w, base, len))
    ensures Parse6(Text(w, base, len)) == Some(Bytes(w))
  {
    if base == -1 {
      RoundTripPlain(w);
    } else if Embedded(w, base, len) {
      RoundTripEmbedded(w, len);
    } else {
      RoundTripShortened(w, base, len);
    }
  }

  lemma RoundTripEmbedded(w: seq<Word>, len: int)
    requires |w| == 8 && ZeroRun(w, 0, len) && Embedded(w, 0, len)
    ensures Parse6(Text(w, 0, len)) == Some(Bytes(w))
  {
    BytesAround(w, 0, len);
    var b := Bytes(w[6..]);
    assert Bytes(w[..0]) + Zeros(2 * len) == Zeros(2 * len);
    if len == 5 {
      assert w[5..] == [w[5]] + w[6..];
      assert Bytes(w[5..]) == WordBytes(w[5]) + b;
      ParseMapped(b);
      assert "::" + "ffff:" + Dotted(b) == "::ffff:" + Dotted(b);
    } else {
      ParseCompatible(b);
      assert "::" + "" + Dotted(b) == "::" + Dotted(b);
    }
  }
}
