/** The texts that the address parser accepts, and those of section 2.2 of RFC 1884. */
module InetRfc {
  import opened InetGrammar
  import opened InetRoundTrip
  import opened InetText
  import opened Numerals
  import opened Octets
  import opened Options

  // ----- kinds of fields

  /** A field of an address: empty, a word, an IPv4 address, or nothing that is accepted. */
  datatype Kind = Gap | Group(word: Word) | Dots(bytes: seq<Byte>) | Junk

  predicate QuadField(f: string) {
    ReadQuad(Fields(f, '.')).Some?
  }

  function KindOf(f: string): (k: Kind)
    ensures k.Dots? ==> |k.bytes| == 4
  {
    if f == "" then Gap
    else if HexField(f) then Group(Number(0, f, 16))
    else if QuadField(f) then Dots(ReadQuad(Fields(f, '.')).value)
    else Junk
  }

  function Kinds(fs: seq<string>): (ks: seq<Kind>)
    ensures |ks| == |fs| && forall i :: 0 <= i < |fs| ==> ks[i] == KindOf(fs[i])
  {
    if fs == [] then [] else [KindOf(fs[0])] + Kinds(fs[1..])
  }

  function BytesOf(k: Kind): seq<Byte> {
    match k
    case Group(w) => WordBytes(w)
    case Dots(b) => b
    case _ => []
  }

  /** The bytes that the fields give. */
  function Given(ks: seq<Kind>): seq<Byte> {
    if ks == [] then [] else BytesOf(ks[0]) + Given(ks[1..])
  }

  lemma {:induction false} GivenAppend(a: seq<Kind>, b: seq<Kind>)
    ensures Given(a + b) == Given(a) + Given(b)
  {
    if a == [] {
      assert a + b == b;
    } else {
      assert (a + b)[0] == a[0] && (a + b)[1..] == a[1..] + b;
      GivenAppend(a[1..], b);
    }
  }

  // ----- reading kinds

  function ReadKinds(ks: seq<Kind>, out: seq<Byte>, colon: int): Option<seq<Byte>>
    requires ks != [] && |out| <= 16 && -1 <= colon <= |out|
    decreases |ks|
  {
    var k := ks[0];
    if |ks| == 1 then
      if k.Junk? || |out| + |BytesOf(k)| > 16 then None else Finish(out + BytesOf(k), colon, false, 0)
    else
      match k
      case Gap => if colon != -1 then None else ReadKinds(ks[1..], out, |out|)
      case Group(w) => if |out| + 2 > 16 then None else ReadKinds(ks[1..], out + WordBytes(w), colon)
      case _ => None
  }

  lemma ReadLastIs(f: string, out: seq<Byte>, colon: int)
    requires |out| <= 16 && -1 <= colon <= |out|
    ensures ReadLast(f, out, colon) == ReadKinds([KindOf(f)], out, colon)
  {
    if f == "" {
      assert out + [] == out;
    } else if HexField(f) {
      NoDotNoQuad(f);
    }
  }

  lemma {:induction false} ReadIs(fs: seq<string>, out: seq<Byte>, colon: int)
    requires fs != [] && |out| <= 16 && -1 <= colon <= |out|
    ensures Read(fs, out, colon) == ReadKinds(Kinds(fs), out, colon)
    decreases |fs|
  {
    var f := fs[0];
    if |fs| == 1 {
      assert Kinds(fs) == [KindOf(f)];
      ReadLastIs(f, out, colon);
    } else {
      assert Kinds(fs)[1..] == Kinds(fs[1..]);
      if f == "" {
        if colon == -1 {
          ReadIs(fs[1..], out, |out|);
        }
      } else if HexField(f) && |out| + 2 <= 16 {
        ReadIs(fs[1..], out + WordBytes(Number(0, f, 16)), colon);
      }
    }
  }

  /** The text as a whole: a colon at its start is one of two. */
  function ReadParts(ks: seq<Kind>): Option<seq<Byte>>
    requires ks != []
  {
    if |ks| >= 2 && ks[0] == Gap then
      if |ks| >= 3 && ks[1] == Gap then ReadKinds(ks[1..], [], -1) else None
    else ReadKinds(ks, [], -1)
  }

  function Parts(s: string): (ks: seq<Kind>)
    ensures ks != []
  {
    Kinds(Fields(s, ':'))
  }

  lemma PartsTail(s: string)
    requires s != "" && s[0] == ':'
    ensures Parts(s) == [Gap] + Parts(s[1..])
  {
    FieldsStep(s, ':', 0);
    assert Fields(s, ':')[1..] == Fields(s[1..], ':');
  }

  lemma FirstGap(s: string)
    ensures Parts(s)[0] == Gap && |Parts(s)| > 1 <==> s != "" && s[0] == ':'
  {
    var k := Cut(s, ':');
    if k == |s| {
      FieldsEnd(s, ':');
    } else {
      FieldsStep(s, ':', k);
    }
  }

  lemma Parse6Parts(s: string)
    ensures Parse6(s) == ReadParts(Parts(s))
  {
    Parse6Is(s);
    FirstGap(s);
    if s != "" && s[0] == ':' {
      PartsTail(s);
      FirstGap(s[1..]);
      assert Parts(s)[1..] == Parts(s[1..]);
      ReadIs(Fields(s[1..], ':'), [], -1);
    } else {
      ReadIs(Fields(s, ':'), [], -1);
    }
  }

  // ----- what is accepted

  /** Words, of which the last may be an IPv4 address, or empty. */
  predicate Tail(ks: seq<Kind>) {
    && ks != [] && !ks[|ks| - 1].Junk?
    && forall i :: 0 <= i < |ks| - 1 ==> ks[i].Group?
  }

  /** An empty field before the last one. */
  predicate HasGap(ks: seq<Kind>) {
    exists i :: 0 <= i < |ks| - 1 && ks[i] == Gap
  }

  lemma {:induction false} ReadTail(ks: seq<Kind>, out: seq<Byte>, colon: int)
    requires ks != [] && |out| <= 16 && -1 <= colon <= |out| && (colon != -1 || !HasGap(ks))
    ensures ReadKinds(ks, out, colon) ==
      if Tail(ks) && |out| + |Given(ks)| <= 16 then Finish(out + Given(ks), colon, false, 0) else None
    decreases |ks|
  {
    var k := ks[0];
    if |ks| == 1 {
      assert Given(ks) == BytesOf(k) + [] == BytesOf(k);
    } else if k.Group? {
      TailStep(ks);
      if |out| + 2 <= 16 {
        ReadTail(ks[1..], out + WordBytes(k.word), colon);
        GivenStep(ks, out, k.word);
      }
    } else {
      assert !Tail(ks);
      assert k == Gap ==> HasGap(ks);
    }
  }

  lemma TailStep(ks: seq<Kind>)
    requires |ks| > 1 && ks[0].Group?
    ensures Tail(ks) <==> Tail(ks[1..])
    ensures HasGap(ks[1..]) ==> HasGap(ks)
    ensures |Given(ks)| == 2 + |Given(ks[1..])|
  {
    assert forall i :: 0 < i < |ks| ==> ks[1..][i - 1] == ks[i];
    if HasGap(ks[1..]) {
      var i :| 0 <= i < |ks| - 2 && ks[1..][i] == Gap;
      assert ks[i + 1] == Gap;
    }
  }

  lemma GivenStep(ks: seq<Kind>, out: seq<Byte>, w: Word)
    requires ks != [] && ks[0] == Group(w)
    ensures out + WordBytes(w) + Given(ks[1..]) == out + Given(ks)
  {
  }

  predicate AllGroups(ks: seq<Kind>) {
    forall i :: 0 <= i < |ks| ==> ks[i].Group?
  }

  lemma {:induction false} ReadUpToGap(ks: seq<Kind>, out: seq<Byte>, l: nat)
    requires l + 1 < |ks| && |out| <= 16 && ks[l] == Gap && forall i :: 0 <= i < l ==> ks[i] != Gap
    ensures var all := out + Given(ks[..l]);
      ReadKinds(ks, out, -1) == if AllGroups(ks[..l]) && |all| <= 16 then ReadKinds(ks[l + 1..], all, |all|) else None
    decreases |ks|
  {
    if l == 0 {
      assert out + Given(ks[..0]) == out;
    } else {
      var k := ks[0];
      assert ks[..l][0] == k && ks[..l][1..] == ks[1..][..l - 1];
      if k.Group? {
        assert AllGroups(ks[..l]) <==> AllGroups(ks[1..][..l - 1]);
        if |out| + 2 <= 16 {
          ReadUpToGap(ks[1..], out + WordBytes(k.word), l - 1);
          GivenStep(ks[..l], out, k.word);
          assert ks[1..][l..] == ks[l + 1..];
        }
      }
    }
  }

  /** Where the text behind `::` starts, when l fields are before it. */
  function Behind(l: nat): nat {
    if l == 0 then 2 else l + 1
  }

  /** `::` stands after l words. */
  predicate Shortens(ks: seq<Kind>, l: nat) {
    && Behind(l) < |ks|
    && AllGroups(ks[..l]) && (forall i :: l <= i < Behind(l) ==> ks[i] == Gap) && Tail(ks[Behind(l)..])
    && |Given(ks[..l])| + |Given(ks[Behind(l)..])| <= 16
  }

  /** What is then read. */
  function Shortened(ks: seq<Kind>, l: nat): seq<Byte>
    requires Shortens(ks, l)
  {
    FillIn(Given(ks[..l]) + Given(ks[Behind(l)..]), |Given(ks[..l])|)
  }

  lemma NoGap(ks: seq<Kind>)
    requires ks != [] && !HasGap(ks)
    ensures ReadParts(ks) == if Tail(ks) && |Given(ks)| == 16 then Some(Given(ks)) else None
  {
    ReadTail(ks, [], -1);
    assert [] + Given(ks) == Given(ks);
  }

  lemma {:induction false} GapsGiveNothing(gaps: seq<Kind>)
    requires forall i :: 0 <= i < |gaps| ==> gaps[i] == Gap
    ensures Given(gaps) == []
  {
    if gaps != [] {
      GapsGiveNothing(gaps[1..]);
    }
  }

  lemma GivenAround(ks: seq<Kind>, l: nat)
    requires Behind(l) <= |ks| && forall i :: l <= i < Behind(l) ==> ks[i] == Gap
    ensures Given(ks) == Given(ks[..l]) + Given(ks[Behind(l)..])
  {
    var k := Behind(l);
    Split(ks, l, k);
    GivenSplit(ks[..l], ks[l..k], ks[k..]);
  }

  lemma Split<T>(s: seq<T>, l: nat, k: nat)
    requires l <= k <= |s|
    ensures s == s[..l] + (s[l..k] + s[k..])
  {
  }

  lemma GivenSplit(a: seq<Kind>, gaps: seq<Kind>, b: seq<Kind>)
    requires forall i :: 0 <= i < |gaps| ==> gaps[i] == Gap
    ensures Given(a + (gaps + b)) == Given(a) + Given(b)
  {
    GivenAppend(a, gaps + b);
    GivenAppend(gaps, b);
    GapsGiveNothing(gaps);
    assert [] + Given(b) == Given(b);
  }

  lemma ReadBehind(b: seq<Kind>, a: seq<Byte>)
    requires b != [] && |a| <= 16
    ensures ReadKinds(b, a, |a|) ==
      if Tail(b) && |a| + |Given(b)| <= 16 then Some(FillIn(a + Given(b), |a|)) else None
  {
    ReadTail(b, a, |a|);
  }

  lemma ReadBefore(ks: seq<Kind>, l: nat)
    requires l + 1 < |ks| && ks[l] == Gap && forall i :: 0 <= i < l ==> ks[i] != Gap
    ensures var a := Given(ks[..l]);
      ReadKinds(ks, [], -1) == if AllGroups(ks[..l]) && |a| <= 16 then ReadKinds(ks[l + 1..], a, |a|) else None
  {
    ReadUpToGap(ks, [], l);
    assert [] + Given(ks[..l]) == Given(ks[..l]);
  }

  lemma GapInside(ks: seq<Kind>, l: nat)
    requires 0 < l && l + 1 < |ks| && ks[l] == Gap && forall i :: 0 <= i < l ==> ks[i] != Gap
    ensures ReadParts(ks) == if Shortens(ks, l) then Some(Shortened(ks, l)) else None
  {
    ReadBefore(ks, l);
    if |Given(ks[..l])| <= 16 {
      ReadBehind(ks[l + 1..], Given(ks[..l]));
    }
  }

  lemma GapFirst(ks: seq<Kind>)
    requires 1 < |ks| && ks[0] == Gap
    ensures ReadParts(ks) == if Shortens(ks, 0) then Some(Shortened(ks, 0)) else None
  {
    if |ks| >= 3 && ks[1] == Gap {
      assert ks[..0] == [] && ks[1..][1..] == ks[2..];
      ReadBehind(ks[2..], []);
    }
  }

  lemma GapAt(ks: seq<Kind>, l: nat)
    requires l + 1 < |ks| && ks[l] == Gap && forall i :: 0 <= i < l ==> ks[i] != Gap
    ensures ReadParts(ks) == if Shortens(ks, l) then Some(Shortened(ks, l)) else None
  {
    if l == 0 {
      GapFirst(ks);
    } else {
      GapInside(ks, l);
    }
  }

  lemma ShortensRead(ks: seq<Kind>, l: nat)
    requires Shortens(ks, l)
    ensures ReadParts(ks) == Some(Shortened(ks, l))
  {
    forall i | 0 <= i < l
      ensures ks[i] != Gap
    {
      assert ks[..l][i] == ks[i];
    }
    GapAt(ks, l);
  }

  lemma {:induction false} FirstGapAt(ks: seq<Kind>, i: nat) returns (l: nat)
    requires i < |ks| && ks[i] == Gap
    ensures l <= i && ks[l] == Gap && forall j :: 0 <= j < l ==> ks[j] != Gap
    decreases i
  {
    if j :| 0 <= j < i && ks[j] == Gap {
      l := FirstGapAt(ks, j);
    } else {
      l := i;
    }
  }

  // ----- the double colon

  /** Nothing behind `::` but the last field is empty. */
  lemma GapPlace(ks: seq<Kind>, l: nat, i: nat)
    requires Shortens(ks, l) && l <= i < |ks| - 1 && ks[i] == Gap
    ensures i == l || (l == 0 && i == 1)
  {
    forall j | Behind(l) <= j < |ks| - 1
      ensures ks[j].Group?
    {
      assert ks[Behind(l)..][j - Behind(l)] == ks[j];
    }
  }

  lemma SameBytes(ks: seq<Kind>, l: nat, i: nat)
    requires Shortens(ks, l) && l <= i < |ks| - 1 && ks[i] == Gap
    ensures Given(ks[..i]) == Given(ks[..l]) && Given(ks[i + 1..]) == Given(ks[Behind(l)..])
  {
    GapPlace(ks, l, i);
    if l == 0 {
      GapsGiveNothing(ks[..i]);
      if i == 0 {
        GivenSkip(ks[1..]);
        assert ks[1..][1..] == ks[2..];
      }
    }
  }

  lemma GivenSkip(ks: seq<Kind>)
    requires ks != [] && ks[0] == Gap
    ensures Given(ks) == Given(ks[1..])
  {
    assert [] + Given(ks[1..]) == Given(ks[1..]);
  }

  /** In every text that is accepted with an empty field, `::` is read as the zeros that are left out between
      the bytes before it and those behind it, if and only if any are left out or those behind it are zero: in a
      full address everything behind `::` is read as zeros. */
  lemma DoubleColon(s: string, i: nat)
    requires Parse6(s).Some? && i + 1 < |Parts(s)| && Parts(s)[i] == Gap
    ensures var a, b := Given(Parts(s)[..i]), Given(Parts(s)[i + 1..]);
      && |a| + |b| <= 16
      && Parse6(s) == Some(FillIn(a + b, |a|))
      && (Parse6(s) == Some(a + Zeros(16 - |a| - |b|) + b) <==> (|a| + |b| < 16 || b == Zeros(|b|)))
  {
    var ks := Parts(s);
    var l := FirstGapAt(ks, i);
    Parse6Parts(s);
    GapAt(ks, l);
    SameBytes(ks, l, i);
    FillInIff(Given(ks[..i]), Given(ks[i + 1..]));
  }

  lemma NextGroup(a: Word, ws: seq<Word>, t: string)
    requires a < 16 && ws != [] && Groups(ws) == t
    ensures Groups([a] + ws) == [Digit(a), ':'] + t
  {
    assert ([a] + ws)[1..] == ws && Hex(a) == [Digit(a)];
    assert [Digit(a)] + ":" + t == [Digit(a), ':'] + t;
  }

  lemma FourGroups(a: Word, b: Word, c: Word, d: Word)
    requires a < 16 && b < 16 && c < 16 && d < 16
    ensures Groups([a, b, c, d]) == [Digit(a), ':', Digit(b), ':', Digit(c), ':', Digit(d)]
  {
    assert Groups([d]) == [Digit(d)];
    NextGroup(c, [d], [Digit(d)]);
    NextGroup(b, [c, d], [Digit(c), ':', Digit(d)]);
    NextGroup(a, [b, c, d], [Digit(b), ':', Digit(c), ':', Digit(d)]);
  }

  lemma TextOfFull()
    ensures Groups([1, 2, 3, 4]) + "::" + Groups([5, 6, 7, 8]) == "1:2:3:4::5:6:7:8"
  {
    FourGroups(1, 2, 3, 4);
    FourGroups(5, 6, 7, 8);
  }

  lemma FullBytes(a: seq<Word>, b: seq<Word>)
    requires |a| == 4 && |b| == 4
    ensures FillIn(Bytes(a) + Bytes(b), 8) == Bytes(a + [0, 0, 0, 0])
  {
    BytesAppend(a, [0, 0, 0, 0]);
    BytesOfZeros([0, 0, 0, 0]);
    assert Bytes(a) + Zeros(0) == Bytes(a);
  }

  /** A full address that loses what is behind `::`. */
  lemma FullAddressLoses(t: string, w: seq<Word>)
    requires t == "1:2:3:4::5:6:7:8" && w == [1, 2, 3, 4, 0, 0, 0, 0]
    ensures Parse6(t) == Some(Bytes(w))
  {
    var a, b := [1, 2, 3, 4], [5, 6, 7, 8];
    TextOfFull();
    ParseDouble(a, b);
    FullBytes(a, b);
    assert a + [0, 0, 0, 0] == w;
  }

  // ----- section 2.2 of RFC 1884

  /** What a field looks like: one to four hexadecimal digits, more of them, an IPv4 address, or else. */
  datatype Form = Empty | Short | Long | Quad4 | Other

  function FormOf(f: string): Form {
    if f == "" then Empty
    else if AllHex(f) then (if |f| <= 4 then Short else Long)
    else if QuadField(f) then Quad4
    else Other
  }

  function Forms(fs: seq<string>): (r: seq<Form>)
    ensures |r| == |fs| && forall i :: 0 <= i < |fs| ==> r[i] == FormOf(fs[i])
  {
    if fs == [] then [] else [FormOf(fs[0])] + Forms(fs[1..])
  }

  function Look(s: string): seq<Form> {
    Forms(Fields(s, ':'))
  }

  /** Groups, of which the last may be an IPv4 address. */
  predicate GroupList(fs: seq<Form>) {
    && fs != [] && (fs[|fs| - 1] == Short || fs[|fs| - 1] == Quad4)
    && forall i :: 0 <= i < |fs| - 1 ==> fs[i] == Short
  }

  /** The groups that fields stand for; an IPv4 address is two. */
  function Size(fs: seq<Form>): nat {
    if fs == [] then 0
    else (if fs[0] == Empty then 0 else if fs[0] == Quad4 then 2 else 1) + Size(fs[1..])
  }

  /** The form with eight groups. */
  predicate RfcPlain(fs: seq<Form>) {
    GroupList(fs) && Size(fs) == 8
  }

  /** The form with `::` for groups of zeros, after l groups.  Section 2.2 of RFC 1884 says that it stands for
      multiple groups; a single one is taken to be allowed, as section 2.2 of RFC 4291 has made clear. */
  predicate RfcShort(fs: seq<Form>, l: nat) {
    && Behind(l) < |fs|
    && (forall i :: 0 <= i < l ==> fs[i] == Short)
    && (forall i :: l <= i < Behind(l) ==> fs[i] == Empty)
    && (fs[Behind(l)..] == [Empty] || GroupList(fs[Behind(l)..]))
    && Size(fs) <= 7
  }

  ghost predicate Rfc(fs: seq<Form>) {
    RfcPlain(fs) || exists l :: RfcShort(fs, l)
  }

  /** A single colon at the end: the last field is empty, but not the one before it. */
  predicate ColonAtEnd(fs: seq<Form>) {
    |fs| >= 2 && fs[|fs| - 1] == Empty && fs[|fs| - 2] != Empty
  }

  /** `::` in an address that is full. */
  predicate StandsForNothing(fs: seq<Form>) {
    (exists i :: 0 <= i < |fs| - 1 && fs[i] == Empty) && Size(fs) == 8
  }

  // the same forms over kinds

  predicate EndsWell(ks: seq<Kind>) {
    Tail(ks) && ks[|ks| - 1] != Gap
  }

  predicate KindPlain(ks: seq<Kind>) {
    EndsWell(ks) && |Given(ks)| == 16
  }

  predicate KindShort(ks: seq<Kind>, l: nat) {
    Shortens(ks, l) && |Given(ks)| < 16 && (ks[Behind(l)..] == [Gap] || EndsWell(ks[Behind(l)..]))
  }

  predicate KindColonAtEnd(ks: seq<Kind>) {
    |ks| >= 2 && ks[|ks| - 1] == Gap && ks[|ks| - 2] != Gap
  }

  lemma PlainAccepted(ks: seq<Kind>)
    requires KindPlain(ks)
    ensures ReadParts(ks).Some? && !KindColonAtEnd(ks) && !HasGap(ks)
  {
    NoGap(ks);
  }

  lemma ShortAccepted(ks: seq<Kind>, l: nat)
    requires KindShort(ks, l)
    ensures ReadParts(ks).Some? && !KindColonAtEnd(ks)
  {
    ShortensRead(ks, l);
    var rest := ks[Behind(l)..];
    assert rest[|rest| - 1] == ks[|ks| - 1] && ks[Behind(l) - 1] == Gap;
  }

  lemma AcceptedPlain(ks: seq<Kind>)
    requires ks != [] && !HasGap(ks) && ReadParts(ks).Some? && !KindColonAtEnd(ks)
    ensures KindPlain(ks)
  {
    NoGap(ks);
    assert |ks| == 1 ==> Given(ks) == BytesOf(ks[0]) + [];
  }

  lemma AcceptedShort(ks: seq<Kind>, l: nat)
    requires l + 1 < |ks| && ks[l] == Gap && forall i :: 0 <= i < l ==> ks[i] != Gap
    requires ReadParts(ks).Some? && !KindColonAtEnd(ks) && |Given(ks)| != 16
    ensures KindShort(ks, l)
  {
    GapAt(ks, l);
    var rest := ks[Behind(l)..];
    assert rest[|rest| - 1] == ks[|ks| - 1];
    assert |rest| > 1 ==> rest[|rest| - 2] == ks[|ks| - 2];
    GivenAround(ks, l);
  }

  /** The forms are what is accepted without these faults. */
  lemma KindForms(ks: seq<Kind>)
    requires ks != []
    ensures (KindPlain(ks) || exists l :: KindShort(ks, l))
      <==> ReadParts(ks).Some? && !KindColonAtEnd(ks) && !(HasGap(ks) && |Given(ks)| == 16)
  {
    if KindPlain(ks) {
      PlainAccepted(ks);
    } else if l :| KindShort(ks, l) {
      ShortAccepted(ks, l);
    } else if ReadParts(ks).Some? && !KindColonAtEnd(ks) && !(HasGap(ks) && |Given(ks)| == 16) {
      if HasGap(ks) {
        var i :| 0 <= i < |ks| - 1 && ks[i] == Gap;
        var l := FirstGapAt(ks, i);
        AcceptedShort(ks, l);
      } else {
        AcceptedPlain(ks);
      }
      assert false;
    }
  }

  // from looks to kinds

  predicate Fits(f: Form, k: Kind) {
    match f
    case Empty => k == Gap
    case Short => k.Group?
    case Long => k.Group? || k.Junk?
    case Quad4 => k.Dots? && |k.bytes| == 4
    case Other => k.Junk?
  }

  predicate AllFit(fs: seq<Form>, ks: seq<Kind>) {
    |fs| == |ks| && forall i :: 0 <= i < |fs| ==> Fits(fs[i], ks[i])
  }

  /** What may be read before k more digits. */
  function Room(k: nat): nat
    requires k <= 4
  {
    if k == 4 then 1 else if k == 3 then 0x10 else if k == 2 then 0x100 else if k == 1 then 0x1000 else 0x10000
  }

  lemma {:induction false} FourDigits(n: nat, f: string)
    requires |f| <= 4 && AllHex(f) && n < Room(|f|)
    ensures Number(n, f, 16) < 0x10000
    decreases |f|
  {
    if f != "" {
      FourDigits(n * 16 + HexValue(f[0]), f[1..]);
    }
  }

  lemma FieldFits(f: string)
    ensures Fits(FormOf(f), KindOf(f))
  {
    if f != "" && AllHex(f) {
      NoDotNoQuad(f);
      if |f| <= 4 {
        FourDigits(0, f);
      }
    }
  }

  lemma {:induction false} FieldsFit(fs: seq<string>)
    ensures AllFit(Forms(fs), Kinds(fs))
  {
    if fs != [] {
      FieldFits(fs[0]);
      FieldsFit(fs[1..]);
    }
  }

  lemma {:induction false} SizeIs(fs: seq<Form>, ks: seq<Kind>)
    requires AllFit(fs, ks) && forall i :: 0 <= i < |ks| ==> !ks[i].Junk?
    ensures |Given(ks)| == 2 * Size(fs)
  {
    if fs != [] {
      SizeIs(fs[1..], ks[1..]);
    }
  }

  lemma ListKinds(fs: seq<Form>, ks: seq<Kind>)
    requires AllFit(fs, ks)
    ensures GroupList(fs) <==> EndsWell(ks) && Long !in fs
  {
    if EndsWell(ks) && Long !in fs {
      assert forall i :: 0 <= i < |fs| ==> fs[i] in fs;
    }
  }

  lemma PlainKinds(fs: seq<Form>, ks: seq<Kind>)
    requires AllFit(fs, ks)
    ensures RfcPlain(fs) <==> KindPlain(ks) && Long !in fs
  {
    ListKinds(fs, ks);
    if EndsWell(ks) {
      SizeIs(fs, ks);
    }
  }

  lemma LongAround(fs: seq<Form>, l: nat)
    requires Behind(l) <= |fs| && forall i :: l <= i < Behind(l) ==> fs[i] == Empty
    ensures Long in fs <==> Long in fs[..l] || Long in fs[Behind(l)..]
  {
    assert fs == fs[..l] + (fs[l..Behind(l)] + fs[Behind(l)..]);
  }

  lemma GroupsKinds(fs: seq<Form>, ks: seq<Kind>, l: nat)
    requires AllFit(fs, ks) && l <= |fs|
    ensures (forall i :: 0 <= i < l ==> fs[i] == Short) <==> AllGroups(ks[..l]) && Long !in fs[..l]
  {
    if AllGroups(ks[..l]) && Long !in fs[..l] {
      forall i | 0 <= i < l
        ensures fs[i] == Short
      {
        assert ks[..l][i].Group? && fs[..l][i] == fs[i] && fs[i] in fs[..l];
      }
    }
  }

  lemma RestKinds(fs: seq<Form>, ks: seq<Kind>)
    requires AllFit(fs, ks)
    ensures (fs == [Empty] || GroupList(fs)) <==> (ks == [Gap] || EndsWell(ks)) && Long !in fs
  {
    ListKinds(fs, ks);
  }

  lemma NoJunk(ks: seq<Kind>, l: nat)
    requires Behind(l) < |ks| && forall i :: l <= i < Behind(l) ==> ks[i] == Gap
    requires AllGroups(ks[..l]) && Tail(ks[Behind(l)..])
    ensures forall i :: 0 <= i < |ks| ==> !ks[i].Junk?
  {
    var k := Behind(l);
    forall i | 0 <= i < |ks|
      ensures !ks[i].Junk?
    {
      if i < l {
        assert ks[..l][i] == ks[i];
      } else if i >= k {
        assert ks[k..][i - k] == ks[i];
      }
    }
  }

  lemma ShortSizes(fs: seq<Form>, ks: seq<Kind>, l: nat)
    requires AllFit(fs, ks) && Behind(l) < |ks| && forall i :: l <= i < Behind(l) ==> ks[i] == Gap
    requires AllGroups(ks[..l]) && Tail(ks[Behind(l)..])
    ensures |Given(ks)| == 2 * Size(fs) == |Given(ks[..l])| + |Given(ks[Behind(l)..])|
  {
    NoJunk(ks, l);
    SizeIs(fs, ks);
    GivenAround(ks, l);
  }

  lemma FitRest(fs: seq<Form>, ks: seq<Kind>, k: nat)
    requires AllFit(fs, ks) && k <= |fs|
    ensures AllFit(fs[k..], ks[k..])
  {
  }

  lemma ShortKinds(fs: seq<Form>, ks: seq<Kind>, l: nat)
    requires AllFit(fs, ks)
    ensures RfcShort(fs, l) <==> KindShort(ks, l) && Long !in fs
  {
    var k := Behind(l);
    if k < |fs| && forall i :: l <= i < k ==> fs[i] == Empty {
      LongAround(fs, l);
      GroupsKinds(fs, ks, l);
      FitRest(fs, ks, k);
      RestKinds(fs[k..], ks[k..]);
      if AllGroups(ks[..l]) && Tail(ks[k..]) {
        ShortSizes(fs, ks, l);
      }
    }
  }

  lemma FaultKinds(fs: seq<Form>, ks: seq<Kind>)
    requires AllFit(fs, ks)
    ensures ColonAtEnd(fs) <==> KindColonAtEnd(ks)
    ensures (exists i :: 0 <= i < |fs| - 1 && fs[i] == Empty) <==> HasGap(ks)
  {
    if HasGap(ks) {
      var i :| 0 <= i < |ks| - 1 && ks[i] == Gap;
      assert fs[i] == Empty;
    }
  }

  lemma AcceptedNoJunk(ks: seq<Kind>)
    requires ks != [] && ReadParts(ks).Some?
    ensures forall i :: 0 <= i < |ks| ==> !ks[i].Junk?
  {
    if HasGap(ks) {
      var i :| 0 <= i < |ks| - 1 && ks[i] == Gap;
      var l := FirstGapAt(ks, i);
      GapAt(ks, l);
      NoJunk(ks, l);
    } else {
      NoGap(ks);
    }
  }

  lemma RfcForms(fs: seq<Form>, ks: seq<Kind>)
    requires ks != [] && AllFit(fs, ks)
    ensures Rfc(fs) <==> (KindPlain(ks) || exists l :: KindShort(ks, l)) && Long !in fs
  {
    PlainKinds(fs, ks);
    forall l: nat
      ensures RfcShort(fs, l) <==> KindShort(ks, l) && Long !in fs
    {
      ShortKinds(fs, ks, l);
    }
  }

  /** The texts of the RFC are exactly those that are accepted and have no single colon at the end, no group
      of more than four digits, and no `::` that stands for nothing. */
  lemma RfcTexts(s: string)
    ensures Rfc(Look(s)) <==>
      && Parse6(s).Some? && !ColonAtEnd(Look(s)) && !StandsForNothing(Look(s))
      && forall f :: f in Fields(s, ':') && AllHex(f) ==> |f| <= 4
  {
    NoLong(Fields(s, ':'));
    var fs, ks := Look(s), Parts(s);
    FieldsFit(Fields(s, ':'));
    Parse6Parts(s);
    RfcFormsAccepted(fs, ks);
  }

  lemma NoLong(fs: seq<string>)
    ensures Long !in Forms(fs) <==> forall f :: f in fs && AllHex(f) ==> |f| <= 4
  {
    forall f | f in fs
      ensures FormOf(f) in Forms(fs)
    {
      var i :| 0 <= i < |fs| && fs[i] == f;
      assert Forms(fs)[i] == FormOf(f);
    }
  }

  lemma RfcFormsAccepted(fs: seq<Form>, ks: seq<Kind>)
    requires ks != [] && AllFit(fs, ks)
    ensures Rfc(fs) <==> ReadParts(ks).Some? && !ColonAtEnd(fs) && Long !in fs && !StandsForNothing(fs)
  {
    RfcForms(fs, ks);
    KindForms(ks);
    FaultKinds(fs, ks);
    if ReadParts(ks).Some? {
      AcceptedNoJunk(ks);
      SizeIs(fs, ks);
    }
  }

  lemma ShortMeans(fs: seq<Form>, ks: seq<Kind>, l: nat)
    requires AllFit(fs, ks) && RfcShort(fs, l)
    ensures var a, b := Given(ks[..l]), Given(ks[Behind(l)..]);
      |a| + |b| < 16 && ReadParts(ks) == Some(a + Zeros(16 - |a| - |b|) + b)
  {
    ShortKinds(fs, ks, l);
    ShortensRead(ks, l);
    GivenAround(ks, l);
    FillInIff(Given(ks[..l]), Given(ks[Behind(l)..]));
  }

  /** A text of eight groups stands for its bytes. */
  lemma PlainMeaning(s: string)
    requires RfcPlain(Look(s))
    ensures Parse6(s) == Some(Given(Parts(s)))
  {
    FieldsFit(Fields(s, ':'));
    PlainKinds(Look(s), Parts(s));
    PlainAccepted(Parts(s));
    NoGap(Parts(s));
    Parse6Parts(s);
  }

  /** A text with `::` stands for the bytes around it and zeros between them. */
  lemma ShortMeaning(s: string, l: nat)
    requires RfcShort(Look(s), l)
    ensures var a, b := Given(Parts(s)[..l]), Given(Parts(s)[Behind(l)..]);
      |a| + |b| < 16 && Parse6(s) == Some(a + Zeros(16 - |a| - |b|) + b)
  {
    FieldsFit(Fields(s, ':'));
    ShortMeans(Look(s), Parts(s), l);
    Parse6Parts(s);
  }

  lemma LastOfTwo(f: string, fs: seq<string>)
    requires fs != [] && fs[|fs| - 1] != ""
    ensures var gs := [f] + fs; gs[|gs| - 1] != ""
  {
  }

  lemma {:induction false} LastField(s: string, fs: seq<string>)
    requires s != "" && s[|s| - 1] != ':' && fs == Fields(s, ':')
    ensures fs[|fs| - 1] != ""
    decreases |s|
  {
    var k := Cut(s, ':');
    if k == |s| {
      FieldsEnd(s, ':');
    } else {
      FieldsStep(s, ':', k);
      var t := s[k + 1..];
      assert t[|t| - 1] == s[|s| - 1];
      LastField(t, Fields(t, ':'));
      LastOfTwo(s[..k], Fields(t, ':'));
    }
  }

  lemma FormEmpty(f: string)
    ensures FormOf(f) == Empty <==> f == ""
  {
  }

  lemma LooksAppended(fs: seq<string>)
    requires |fs| >= 2 && fs[|fs| - 1] == "" && fs[|fs| - 2] != ""
    ensures ColonAtEnd(Forms(fs))
  {
    FormEmpty(fs[|fs| - 1]);
    FormEmpty(fs[|fs| - 2]);
  }

  lemma FieldsAppended(s: string)
    requires s != "" && s[|s| - 1] != ':'
    ensures var fs := Fields(s + [':'], ':'); |fs| >= 2 && fs[|fs| - 1] == "" && fs[|fs| - 2] != ""
  {
    LastField(s, Fields(s, ':'));
    FieldsAppend(s, ':');
  }

  /** No text of the RFC comes from another character with a colon behind it. */
  lemma ColonAppended(s: string)
    requires s != "" && s[|s| - 1] != ':'
    ensures !Rfc(Look(s + [':']))
  {
    FieldsAppended(s);
    LooksAppended(Fields(s + [':'], ':'));
    RfcTexts(s + [':']);
  }

  lemma ScanExample(tail: string, rest: string)
    requires rest == Hex(1) + (":" + "") && tail == ":" + rest
    ensures Scan(tail, tail, [], -1, false, 0) == Some(Zeros(14) + [0, 1])
  {
    ScanDouble(rest, tail, []);
    ScanHex(1, ":" + "", rest, [], 0);
    ScanColon("", rest, [], 0, 1);
    assert [] + WordBytes(1) == [0, 1] && [] + [0, 1] == [0, 1];
    FillInIff([], [0, 1]);
    assert [] + Zeros(14) + [0, 1] == Zeros(14) + [0, 1];
  }

  /** A text that is accepted and not of the RFC: the address ::1 with a colon behind it. */
  lemma AcceptedBeyondRfc()
    ensures Parse6("::1:") == Some(Zeros(14) + [0, 1]) && !Rfc(Look("::1:"))
  {
    ScanExample(":1:", "1:");
    assert "::1:"[1..] == ":1:";
    ColonAppended("::1");
    assert "::1" + [':'] == "::1:";
  }
}
