/** What texts the address parser accepts, field by field. */
module InetGrammar {
  import opened InetText
  import opened Octets
  import opened Options

  // ----- fields

  /** The place of the first separator, or the end. */
  function Cut(s: string, sep: char): (k: nat)
    ensures k <= |s| && (k < |s| ==> s[k] == sep)
  {
    if s == "" || s[0] == sep then 0 else 1 + Cut(s[1..], sep)
  }

  lemma {:induction false} CutClean(s: string, sep: char)
    ensures sep !in s[..Cut(s, sep)] && (Cut(s, sep) == |s| <==> sep !in s)
  {
    if s != "" && s[0] != sep {
      CutClean(s[1..], sep);
      var k := Cut(s[1..], sep);
      assert s[..k + 1] == [s[0]] + s[1..][..k];
      assert s == [s[0]] + s[1..];
    }
  }

  function Fields(s: string, sep: char): (fs: seq<string>)
    ensures |fs| > 0
    decreases |s|
  {
    var k := Cut(s, sep);
    if k == |s| then [s] else [s[..k]] + Fields(s[k + 1..], sep)
  }

  lemma FieldsEnd(s: string, sep: char)
    requires Cut(s, sep) == |s|
    ensures Fields(s, sep) == [s]
  {
  }

  lemma FieldsStep(s: string, sep: char, k: nat)
    requires Cut(s, sep) == k < |s|
    ensures Fields(s, sep) == [s[..k]] + Fields(s[k + 1..], sep)
  {
  }

  predicate AllHex(f: string) {
    forall c :: c in f ==> HexValue(c) >= 0
  }

  predicate IsDigit(c: char) {
    '0' <= c <= '9'
  }

  predicate AllDigits(f: string) {
    forall c :: c in f ==> IsDigit(c)
  }

  /** The number that digits stand for, after n. */
  function Number(n: nat, f: string, base: nat): nat
    requires AllHex(f)
    decreases |f|
  {
    if f == "" then n else Number(n * base + HexValue(f[0]), f[1..], base)
  }

  /** A field of an IPv4 address: decimal digits, leading zeros allowed, for at most 255. */
  predicate DecField(f: string) {
    f != "" && AllDigits(f) && AllHex(f) && Number(0, f, 10) <= 255
  }

  /** A field of an IPv6 address: hexadecimal digits, leading zeros allowed, for at most 0xffff. */
  predicate HexField(f: string) {
    f != "" && AllHex(f) && Number(0, f, 16) <= 0xffff
  }

  // ----- addresses

  /** An IPv4 address is four decimal fields. */
  function ReadQuad(fs: seq<string>): Option<seq<Byte>> {
    if |fs| == 4 && forall i :: 0 <= i < 4 ==> DecField(fs[i]) then
      Some([Number(0, fs[0], 10), Number(0, fs[1], 10), Number(0, fs[2], 10), Number(0, fs[3], 10)])
    else None
  }

  /** The fields of an IPv6 address: each is a word; one may be empty, which stands for zeros; the last
      may be an IPv4 address, or empty. */
  function Read(fs: seq<string>, out: seq<Byte>, colon: int): Option<seq<Byte>>
    requires fs != [] && |out| <= 16 && -1 <= colon <= |out|
    decreases |fs|
  {
    var f := fs[0];
    if |fs| == 1 then ReadLast(f, out, colon)
    else if f == "" then
      if colon != -1 then None else Read(fs[1..], out, |out|)
    else if HexField(f) && |out| + 2 <= 16 then Read(fs[1..], out + WordBytes(Number(0, f, 16)), colon)
    else None
  }

  function ReadLast(f: string, out: seq<Byte>, colon: int): Option<seq<Byte>>
    requires |out| <= 16 && -1 <= colon <= |out|
  {
    if f == "" then Finish(out, colon, false, 0)
    else if HexField(f) && |out| + 2 <= 16 then Finish(out + WordBytes(Number(0, f, 16)), colon, false, 0)
    else
      var quad := ReadQuad(Fields(f, '.'));
      if quad.Some? && |out| + 4 <= 16 then Finish(out + quad.value, colon, false, 0) else None
  }

  function ReadAddress(s: string): Option<seq<Byte>> {
    if s != "" && s[0] == ':' then
      if |s| > 1 && s[1] == ':' then Read(Fields(s[1..], ':'), [], -1) else None
    else Read(Fields(s, ':'), [], -1)
  }

  // ----- numbers

  lemma {:induction false} NumberGrows(n: nat, f: string, base: nat)
    requires AllHex(f) && (base == 10 || base == 16)
    ensures Number(n, f, base) >= n
    decreases |f|
  {
    if f != "" {
      NumberGrows(n * base + HexValue(f[0]), f[1..], base);
    }
  }

  /** Decimal digits read as hexadecimal are at most the square. */
  lemma {:induction false} HexAtMostSquare(a: nat, b: nat, f: string)
    requires AllHex(f) && AllDigits(f) && b <= a * a
    ensures Number(b, f, 16) <= Number(a, f, 10) * Number(a, f, 10)
    decreases |f|
  {
    if f != "" {
      var d := HexValue(f[0]);
      Square(a, b, d);
      HexAtMostSquare(a * 10 + d, b * 16 + d, f[1..]);
    }
  }

  lemma Square(a: nat, b: nat, d: nat)
    requires b <= a * a
    ensures b * 16 + d <= (a * 10 + d) * (a * 10 + d)
  {
    assert d <= d * d;
    assert (a * 10 + d) * (a * 10 + d) == 100 * (a * a) + 20 * (a * d) + d * d;
  }

  // ----- dotted quads

  /** The octets that fields give, after those done. */
  function ReadOctets(fs: seq<string>, octets: seq<Byte>): Option<seq<Byte>>
    requires fs != [] && |octets| <= 3
    decreases |fs|
  {
    if !DecField(fs[0]) then None
    else if |fs| == 1 then (if |octets| == 3 then Some(octets + [Number(0, fs[0], 10)]) else None)
    else if |octets| == 3 then None
    else ReadOctets(fs[1..], octets + [Number(0, fs[0], 10)])
  }

  lemma {:induction false} QuadDigits(f: string, rest: string, octets: seq<Byte>, cur: Byte, saw: bool)
    requires |octets| <= 3 && AllDigits(f) && AllHex(f)
    ensures Quad(f + rest, octets, cur, saw)
      == if Number(cur, f, 10) <= 255 then Quad(rest, octets, Number(cur, f, 10), saw || f != "") else None
    decreases |f|
  {
    if f == "" {
      assert f + rest == rest;
    } else {
      var next := cur * 10 + HexValue(f[0]);
      assert (f + rest)[1..] == f[1..] + rest && IsDigit(f[0]);
      NumberGrows(next, f[1..], 10);
      if next <= 255 {
        QuadDigits(f[1..], rest, octets, next, true);
      }
    }
  }

  lemma {:induction false} QuadStops(f: string, rest: string, octets: seq<Byte>, cur: Byte, saw: bool)
    requires |octets| <= 3 && '.' !in f && !AllDigits(f)
    ensures Quad(f + rest, octets, cur, saw) == None
    decreases |f|
  {
    assert (f + rest)[1..] == f[1..] + rest;
    if IsDigit(f[0]) {
      var next := cur * 10 + (f[0] as int - '0' as int);
      assert !AllDigits(f[1..]);
      if next <= 255 {
        QuadStops(f[1..], rest, octets, next, true);
      }
    }
  }

  lemma {:induction false} QuadIs(s: string, octets: seq<Byte>)
    requires |octets| <= 3
    ensures Quad(s, octets, 0, false) == ReadOctets(Fields(s, '.'), octets)
    decreases |s|
  {
    var k := Cut(s, '.');
    var f, rest := s[..k], s[k..];
    assert s == f + rest;
    if !AllDigits(f) {
      CutClean(s, '.');
      QuadStops(f, rest, octets, 0, false);
    } else {
      QuadDigits(f, rest, octets, 0, false);
      if k == |s| {
        assert f == s && rest == "";
      } else {
        assert rest[0] == '.' && rest[1..] == s[k + 1..];
        FieldsStep(s, '.', k);
        assert Fields(s, '.')[1..] == Fields(s[k + 1..], '.');
        if f != "" && Number(0, f, 10) <= 255 && |octets| < 3 {
          QuadIs(s[k + 1..], octets + [Number(0, f, 10)]);
        }
      }
    }
  }

  /** `inet_pton4` accepts exactly four decimal fields. */
  lemma Parse4Is(s: string)
    ensures Parse4(s) == ReadQuad(Fields(s, '.'))
  {
    var fs := Fields(s, '.');
    QuadIs(s, []);
    OctetsAreQuad(fs);
  }

  lemma OctetsAreQuad(fs: seq<string>)
    requires fs != []
    ensures ReadOctets(fs, []) == ReadQuad(fs)
  {
    if |fs| >= 2 && DecField(fs[0]) {
      var a := [] + [Number(0, fs[0], 10)];
      assert ReadOctets(fs, []) == ReadOctets(fs[1..], a);
      if |fs| >= 3 && DecField(fs[1]) {
        var b := a + [Number(0, fs[1], 10)];
        assert ReadOctets(fs[1..], a) == ReadOctets(fs[2..], b);
        if |fs| >= 4 && DecField(fs[2]) {
          var c := b + [Number(0, fs[2], 10)];
          assert ReadOctets(fs[2..], b) == ReadOctets(fs[3..], c);
          assert |fs| == 4 && DecField(fs[3]) ==>
            c + [Number(0, fs[3], 10)] == [Number(0, fs[0], 10), Number(0, fs[1], 10), Number(0, fs[2], 10), Number(0, fs[3], 10)];
        }
      }
    }
  }

  // ----- IPv6 addresses

  lemma {:induction false} ScanHexField(f: string, rest: string, tok: string, out: seq<Byte>, colon: int, saw: bool, val: Word)
    requires |out| <= 16 && -1 <= colon <= |out| && AllHex(f)
    ensures Scan(f + rest, tok, out, colon, saw, val)
      == if Number(val, f, 16) <= 0xffff then Scan(rest, tok, out, colon, saw || f != "", Number(val, f, 16)) else None
    decreases |f|
  {
    if f == "" {
      assert f + rest == rest;
    } else {
      var next := val * 16 + HexValue(f[0]);
      assert (f + rest)[1..] == f[1..] + rest;
      NumberGrows(next, f[1..], 16);
      if next <= 0xffff {
        ScanHexField(f[1..], rest, tok, out, colon, true, next);
      }
    }
  }

  /** A field that is not a number ends the scan at its first other character. */
  lemma {:induction false} ScanOther(f: string, rest: string, tok: string, out: seq<Byte>, colon: int, saw: bool, val: Word)
    returns (p: nat)
    requires |out| <= 16 && -1 <= colon <= |out| && ':' !in f && !AllHex(f)
    ensures p < |f| && AllHex(f[..p]) && HexValue(f[p]) < 0
    ensures Scan(f + rest, tok, out, colon, saw, val)
      == if Number(val, f[..p], 16) <= 0xffff && f[p] == '.' && |out| + 4 <= 16 && Parse4(tok).Some?
         then Finish(out + Parse4(tok).value, colon, false, 0) else None
    decreases |f|
  {
    assert (f + rest)[1..] == f[1..] + rest;
    if HexValue(f[0]) < 0 {
      p := 0;
      assert f[..0] == "";
    } else {
      var next := val * 16 + HexValue(f[0]);
      assert !AllHex(f[1..]);
      if next <= 0xffff {
        p := ScanOther(f[1..], rest, tok, out, colon, true, next);
        assert f[..p + 1][1..] == f[1..][..p];
        p := p + 1;
      } else {
        p := FirstOther(f);
        assert f[..p][1..] == f[1..p];
        NumberGrows(next, f[1..p], 16);
      }
    }
  }

  lemma {:induction false} FirstOther(f: string) returns (p: nat)
    requires !AllHex(f)
    ensures p < |f| && AllHex(f[..p]) && HexValue(f[p]) < 0
    decreases |f|
  {
    if HexValue(f[0]) < 0 {
      p := 0;
    } else {
      assert !AllHex(f[1..]);
      p := FirstOther(f[1..]);
      assert f[..p + 1] == [f[0]] + f[1..][..p];
      p := p + 1;
    }
  }

  /** A dotted quad has only digits and dots. */
  lemma {:induction false} QuadChars(s: string, octets: seq<Byte>, cur: Byte, saw: bool)
    requires |octets| <= 3 && Quad(s, octets, cur, saw).Some?
    ensures forall i :: 0 <= i < |s| ==> IsDigit(s[i]) || s[i] == '.'
    decreases |s|
  {
    if s != "" {
      if IsDigit(s[0]) {
        QuadChars(s[1..], octets, cur * 10 + (s[0] as int - '0' as int), true);
      } else {
        QuadChars(s[1..], octets + [cur], 0, false);
      }
    }
  }

  /** The first octet of a dotted quad never overflows the word that it is first read as. */
  lemma QuadFits(f: string, p: nat)
    requires p < |f| && AllHex(f[..p]) && HexValue(f[p]) < 0 && Parse4(f).Some?
    ensures f[p] == '.' && Number(0, f[..p], 16) <= 0xffff
  {
    QuadChars(f, [], 0, false);
    OnlyDigits(f, p);
    assert f == f[..p] + f[p..];
    FirstOctet(f[..p], f[p..]);
  }

  lemma OnlyDigits(f: string, p: nat)
    requires p <= |f| && AllHex(f[..p]) && forall i :: 0 <= i < |f| ==> IsDigit(f[i]) || f[i] == '.'
    ensures AllDigits(f[..p])
  {
    forall c | c in f[..p]
      ensures IsDigit(c)
    {
      var i :| 0 <= i < p && f[i] == c;
      assert HexValue('.') < 0;
    }
  }

  lemma FirstOctet(g: string, rest: string)
    requires AllHex(g) && AllDigits(g) && Parse4(g + rest).Some?
    ensures Number(0, g, 16) <= 0xffff
  {
    QuadDigits(g, rest, [], 0, false);
    HexAtMostSquare(0, 0, g);
    SmallSquare(Number(0, g, 10));
  }

  lemma SmallSquare(a: nat)
    requires a <= 255
    ensures a * a <= 0xffff
  {
    Scaled(a, 255, a);
    Scaled(a, 255, 255);
  }

  lemma Scaled(a: nat, b: nat, c: nat)
    requires a <= b
    ensures a * c <= b * c
  {
    assert (b - a) * c >= 0;
  }

  lemma NoColonInQuad(s: string, k: nat)
    requires k < |s| && s[k] == ':'
    ensures Parse4(s) == None
  {
    if Parse4(s).Some? {
      QuadChars(s, [], 0, false);
      assert false;
    }
  }

  /** A field with another character than hexadecimal digits. */
  lemma OtherField(s: string, k: nat, out: seq<Byte>, colon: int)
    requires k == Cut(s, ':') && !AllHex(s[..k]) && |out| <= 16 && -1 <= colon <= |out|
    ensures Scan(s, s, out, colon, false, 0) == Read(Fields(s, ':'), out, colon)
  {
    var f, rest := s[..k], s[k..];
    assert s == f + rest;
    CutClean(s, ':');
    var p := ScanOther(f, rest, s, out, colon, false, 0);
    if k < |s| {
      NoColonInQuad(s, k);
    } else {
      assert f == s;
      Parse4Is(s);
      if Parse4(s).Some? {
        QuadFits(s, p);
      }
    }
  }

  lemma NoDotNoQuad(f: string)
    requires AllHex(f)
    ensures ReadQuad(Fields(f, '.')) == None
  {
    assert HexValue('.') < 0;
    CutClean(f, '.');
  }

  /** A field of hexadecimal digits at the end. */
  lemma LastHexField(s: string, out: seq<Byte>, colon: int)
    requires |out| <= 16 && -1 <= colon <= |out| && ':' !in s && AllHex(s)
    ensures Scan(s, s, out, colon, false, 0) == Read(Fields(s, ':'), out, colon)
  {
    assert s + "" == s;
    ScanHexField(s, "", s, out, colon, false, 0);
    NoDotNoQuad(s);
  }

  /** A field of hexadecimal digits and a colon. */
  lemma NextHexField(f: string, t: string, tok: string, out: seq<Byte>, colon: int)
    requires |out| <= 16 && -1 <= colon <= |out| && AllHex(f)
    ensures Scan(f + (":" + t), tok, out, colon, false, 0)
      == if f == "" then (if colon != -1 then None else Scan(t, t, out, |out|, false, 0))
         else if HexField(f) && |out| + 2 <= 16 then Scan(t, t, out + WordBytes(Number(0, f, 16)), colon, false, 0)
         else None
  {
    ScanHexField(f, ":" + t, tok, out, colon, false, 0);
    assert (":" + t)[1..] == t;
  }

  /** What is read of a field of hexadecimal digits that is not the last, by characters and by fields. */
  function ScanAfter(f: string, t: string, out: seq<Byte>, colon: int): Option<seq<Byte>>
    requires |out| <= 16 && -1 <= colon <= |out| && AllHex(f)
  {
    if f == "" then (if colon != -1 then None else Scan(t, t, out, |out|, false, 0))
    else if HexField(f) && |out| + 2 <= 16 then Scan(t, t, out + WordBytes(Number(0, f, 16)), colon, false, 0)
    else None
  }

  function ReadAfter(f: string, fs: seq<string>, out: seq<Byte>, colon: int): Option<seq<Byte>>
    requires fs != [] && |out| <= 16 && -1 <= colon <= |out| && AllHex(f)
  {
    if f == "" then (if colon != -1 then None else Read(fs, out, |out|))
    else if HexField(f) && |out| + 2 <= 16 then Read(fs, out + WordBytes(Number(0, f, 16)), colon)
    else None
  }

  lemma ReadNext(f: string, fs: seq<string>, out: seq<Byte>, colon: int)
    requires fs != [] && |out| <= 16 && -1 <= colon <= |out| && AllHex(f)
    ensures Read([f] + fs, out, colon) == ReadAfter(f, fs, out, colon)
  {
    assert ([f] + fs)[1..] == fs;
  }

  lemma ScanNext(s: string, k: nat, out: seq<Byte>, colon: int)
    requires k < |s| && s[k] == ':' && |out| <= 16 && -1 <= colon <= |out| && AllHex(s[..k])
    ensures Scan(s, s, out, colon, false, 0) == ScanAfter(s[..k], s[k + 1..], out, colon)
  {
    assert s == s[..k] + (":" + s[k + 1..]);
    NextHexField(s[..k], s[k + 1..], s, out, colon);
  }

  lemma {:induction false} ScanRest(f: string, t: string, out: seq<Byte>, colon: int)
    requires |out| <= 16 && -1 <= colon <= |out| && AllHex(f)
    ensures ScanAfter(f, t, out, colon) == ReadAfter(f, Fields(t, ':'), out, colon)
    decreases |t|, 2
  {
    if f == "" {
      if colon == -1 {
        ScanIs(t, out, |out|);
      }
    } else if HexField(f) && |out| + 2 <= 16 {
      ScanIs(t, out + WordBytes(Number(0, f, 16)), colon);
    }
  }

  lemma {:induction false} ScanIs(s: string, out: seq<Byte>, colon: int)
    requires |out| <= 16 && -1 <= colon <= |out|
    ensures Scan(s, s, out, colon, false, 0) == Read(Fields(s, ':'), out, colon)
    decreases |s|, 1
  {
    var k := Cut(s, ':');
    if !AllHex(s[..k]) {
      OtherField(s, k, out, colon);
    } else if k == |s| {
      WholeHexField(s, k, out, colon);
    } else {
      ScanIsMore(s, k, out, colon);
    }
  }

  lemma WholeHexField(s: string, k: nat, out: seq<Byte>, colon: int)
    requires |out| <= 16 && -1 <= colon <= |out| && k == |s| == Cut(s, ':') && AllHex(s[..k])
    ensures Scan(s, s, out, colon, false, 0) == Read(Fields(s, ':'), out, colon)
  {
    assert s[..k] == s;
    LastHexField(s, out, colon);
  }

  lemma {:induction false} ScanIsMore(s: string, k: nat, out: seq<Byte>, colon: int)
    requires |out| <= 16 && -1 <= colon <= |out| && k == Cut(s, ':') < |s| && AllHex(s[..k])
    ensures Scan(s, s, out, colon, false, 0) == Read(Fields(s, ':'), out, colon)
    decreases |s|, 0
  {
    FieldsStep(s, ':', k);
    ScanNext(s, k, out, colon);
    ScanRest(s[..k], s[k + 1..], out, colon);
    ReadNext(s[..k], Fields(s[k + 1..], ':'), out, colon);
  }

  /** `inet_pton6` accepts exactly the texts whose fields make an address. */
  lemma Parse6Is(s: string)
    ensures Parse6(s) == ReadAddress(s)
  {
    if s != "" && s[0] == ':' {
      if |s| > 1 && s[1] == ':' {
        ScanIs(s[1..], [], -1);
      }
    } else {
      ScanIs(s, [], -1);
    }
  }

  // ----- a colon at the end

  lemma {:induction false} CutAppend(s: string, sep: char)
    ensures Cut(s + [sep], sep) == Cut(s, sep)
  {
    if s == "" {
      assert s + [sep] == [sep];
    } else if s[0] != sep {
      assert (s + [sep])[1..] == s[1..] + [sep];
      CutAppend(s[1..], sep);
    }
  }

  lemma SlicesAppend(s: string, k: nat, sep: char)
    requires k < |s|
    ensures (s + [sep])[..k] == s[..k] && (s + [sep])[k + 1..] == s[k + 1..] + [sep]
  {
  }

  lemma FieldsLast(s: string, sep: char)
    requires Cut(s, sep) == |s|
    ensures Fields(s + [sep], sep) == [s] + [""]
  {
    var t := s + [sep];
    CutAppend(s, sep);
    FieldsStep(t, sep, |s|);
    assert t[..|s|] == s && t[|s| + 1..] == "";
    FieldsEnd("", sep);
  }

  lemma FieldsMore(s: string, k: nat, sep: char, fs: seq<string>)
    requires k == Cut(s, sep) < |s| && Fields(s[k + 1..] + [sep], sep) == fs
    ensures Fields(s + [sep], sep) == [s[..k]] + fs
  {
    CutAppend(s, sep);
    SlicesAppend(s, k, sep);
    FieldsStep(s + [sep], sep, k);
  }

  lemma {:induction false} FieldsAppend(s: string, sep: char)
    ensures Fields(s + [sep], sep) == Fields(s, sep) + [""]
    decreases |s|
  {
    var k := Cut(s, sep);
    if k == |s| {
      FieldsEnd(s, sep);
      FieldsLast(s, sep);
    } else {
      var t := s[k + 1..];
      FieldsStep(s, sep, k);
      FieldsAppend(t, sep);
      Prepend(s[..k], Fields(t, sep));
      FieldsMore(s, k, sep, Fields(t, sep) + [""]);
    }
  }

  lemma Prepend(f: string, fs: seq<string>)
    ensures [f] + (fs + [""]) == [f] + fs + [""]
  {
  }

  lemma {:induction false} ReadAppend(fs: seq<string>, out: seq<Byte>, colon: int)
    requires fs != [] && |out| <= 16 && -1 <= colon <= |out| && HexField(fs[|fs| - 1])
    ensures Read(fs + [""], out, colon) == Read(fs, out, colon)
    decreases |fs|
  {
    var f := fs[0];
    assert (fs + [""])[0] == f && (fs + [""])[1..] == fs[1..] + [""];
    if |fs| == 1 {
      assert fs[1..] + [""] == [""];
      assert '.' !in f by { assert HexValue('.') < 0; }
    } else if f == "" {
      if colon == -1 {
        ReadAppend(fs[1..], out, |out|);
      }
    } else if HexField(f) && |out| + 2 <= 16 {
      ReadAppend(fs[1..], out + WordBytes(Number(0, f, 16)), colon);
    }
  }

  /** The last field is a word. */
  predicate EndsInWord(fs: seq<string>) {
    fs != [] && HexField(fs[|fs| - 1])
  }

  lemma ReadTrailing(s: string, fs: seq<string>)
    requires fs == Fields(s, ':') && EndsInWord(fs)
    ensures Read(Fields(s + [':'], ':'), [], -1) == Read(fs, [], -1)
  {
    FieldsAppend(s, ':');
    ReadAppend(fs, [], -1);
  }

  lemma WordAtEnd(f: string, fs: seq<string>)
    requires EndsInWord([f] + fs) && fs != []
    ensures EndsInWord(fs)
  {
  }

  lemma TailEndsInWord(s: string, t: string)
    requires s == [':'] + t && EndsInWord(Fields(s, ':'))
    ensures t != "" && EndsInWord(Fields(t, ':'))
  {
    FieldsStep(s, ':', 0);
    assert s[..0] == "" && s[1..] == t;
    FieldsEnd("", ':');
    WordAtEnd("", Fields(t, ':'));
  }

  lemma TrailingAfterColon(s: string, t: string)
    requires s == [':'] + t && EndsInWord(Fields(s, ':'))
    ensures ReadAddress(s + [':']) == ReadAddress(s)
  {
    TailEndsInWord(s, t);
    ReadTrailing(t, Fields(t, ':'));
    assert (s + [':'])[1..] == t + [':'] && s[1..] == t;
  }

  /** After a word a single colon at the end changes nothing: the text is accepted as without it. */
  lemma TrailingColon(s: string)
    requires EndsInWord(Fields(s, ':'))
    ensures Parse6(s + [':']) == Parse6(s)
  {
    Parse6Is(s);
    Parse6Is(s + [':']);
    AddressTrailing(s);
  }

  lemma AddressTrailing(s: string)
    requires EndsInWord(Fields(s, ':'))
    ensures ReadAddress(s + [':']) == ReadAddress(s)
  {
    FieldsEnd("", ':');
    if s[0] == ':' {
      assert s == [':'] + s[1..];
      TrailingAfterColon(s, s[1..]);
    } else {
      ReadTrailing(s, Fields(s, ':'));
    }
  }
}
