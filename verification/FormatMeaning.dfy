/** What the fields of a formatted output say, read character by character. */
module FormatMeaning {
  import opened Formatting
  import opened Numerals

  // ----- the parts of a number field

  predicate AllAre(s: string, c: char) {
    forall i :: 0 <= i < |s| ==> s[i] == c
  }

  /** Padding, sign, padding zeros, digits, padding. */
  datatype Parts = Parts(left: string, sign: string, zeros: string, body: string, right: string)

  function Joined(p: Parts): string {
    p.left + p.sign + p.zeros + p.body + p.right
  }

  /** A minus for a negative number, and for others what the flags ask for, the plus before the space. */
  predicate SignOk(sign: string, negative: bool, f: Flags) {
    && |sign| <= 1
    && (sign == "-" <==> negative)
    && (sign == "+" <==> !negative && f.plus)
    && (sign == " " <==> !negative && !f.plus && f.space)
  }

  /** Spaces stand on the right with the minus flag and else on the left; zeros stand behind the sign, to reach
      a precision that is given, or else to reach the width with the zero flag. */
  predicate WellPlaced(d: Spec, p: Parts) {
    && AllAre(p.left, ' ') && AllAre(p.zeros, '0') && AllAre(p.right, ' ')
    && (p.left != "" ==> !d.flags.minus && (d.prgiven || !d.flags.zeropad))
    && (p.right != "" ==> d.flags.minus)
    && (!d.prgiven && p.zeros != "" ==> d.flags.zeropad && !d.flags.minus)
    && (d.prgiven ==> |p.zeros| == if d.precision > |p.body| && p.body != "" then d.precision - |p.body| else 0)
    && |Joined(p)| == Max(d.minw, |p.sign| + |p.body| + if d.prgiven then |p.zeros| else 0)
  }

  /** Without a precision it is 1. */
  predicate Parsed(d: Spec) {
    !d.prgiven ==> d.precision == 1
  }

  lemma SignIsOk(negative: bool, f: Flags)
    ensures SignOk(Sign(negative, f), negative, f)
  {
  }

  /** The digits that are shown, and the zeros that bring them to the precision. */
  function Shown(d: Spec, zero: bool, digits: string): string {
    if d.prgiven && d.precision == 0 && zero then "" else digits
  }

  function Lead(d: Spec, zero: bool, digits: string): string {
    if d.prgiven && d.precision == 0 && zero then "" else Fill('0', d.precision - |digits|)
  }

  lemma DigitsAre(d: Spec, zero: bool, digits: string)
    requires Parsed(d) && digits != ""
    ensures Digits(d, zero, digits) == Lead(d, zero, digits) + Shown(d, zero, digits)
    ensures !d.prgiven ==> Lead(d, zero, digits) == ""
  {
  }

  lemma PartsLeft(d: Spec, sign: string, zero: bool, digits: string) returns (p: Parts)
    requires Parsed(d) && digits != "" && d.flags.minus
    ensures p.sign == sign && p.body == Shown(d, zero, digits) && WellPlaced(d, p)
    ensures var body := Digits(d, zero, digits); Joined(p) == sign + body + Fill(' ', d.minw - |sign| - |body|)
  {
    var zeros, shown := Lead(d, zero, digits), Shown(d, zero, digits);
    DigitsAre(d, zero, digits);
    var fill := Fill(' ', d.minw - |sign| - |zeros + shown|);
    p := Parts("", sign, zeros, shown, fill);
    assert "" + sign + zeros + shown + fill == sign + (zeros + shown) + fill;
  }

  lemma PartsZero(d: Spec, sign: string, zero: bool, digits: string) returns (p: Parts)
    requires Parsed(d) && digits != "" && !d.flags.minus && d.flags.zeropad && !d.prgiven
    ensures p.sign == sign && p.body == Shown(d, zero, digits) && WellPlaced(d, p)
    ensures var body := Digits(d, zero, digits); Joined(p) == sign + Fill('0', d.minw - |sign| - |body|) + body
  {
    var shown := Shown(d, zero, digits);
    DigitsAre(d, zero, digits);
    assert "" + shown == shown;
    var fill := Fill('0', d.minw - |sign| - |shown|);
    p := Parts("", sign, fill, shown, "");
    assert "" + sign + fill + shown + "" == sign + fill + shown;
  }

  lemma PartsRight(d: Spec, sign: string, zero: bool, digits: string) returns (p: Parts)
    requires Parsed(d) && digits != "" && !d.flags.minus && (d.prgiven || !d.flags.zeropad)
    ensures p.sign == sign && p.body == Shown(d, zero, digits) && WellPlaced(d, p)
    ensures var body := Digits(d, zero, digits); Joined(p) == Fill(' ', d.minw - |sign| - |body|) + sign + body
  {
    var zeros, shown := Lead(d, zero, digits), Shown(d, zero, digits);
    DigitsAre(d, zero, digits);
    var fill := Fill(' ', d.minw - |sign| - |zeros + shown|);
    p := Parts(fill, sign, zeros, shown, "");
    assert fill + sign + zeros + shown + "" == fill + sign + (zeros + shown);
  }

  lemma NumParts(d: Spec, negative: bool, zero: bool, digits: string) returns (p: Parts)
    requires Parsed(d) && digits != ""
    ensures Joined(p) == NumField(d, negative, zero, digits) && WellPlaced(d, p) && SignOk(p.sign, negative, d.flags)
    ensures p.body == if d.prgiven && d.precision == 0 && zero then "" else digits
  {
    var sign := Sign(negative, d.flags);
    SignIsOk(negative, d.flags);
    if d.flags.minus {
      p := PartsLeft(d, sign, zero, digits);
    } else if d.flags.zeropad && !d.prgiven {
      p := PartsZero(d, sign, zero, digits);
    } else {
      p := PartsRight(d, sign, zero, digits);
    }
  }

  // ----- digits

  predicate IsDigit(c: char, base: nat) {
    if base == 10 then '0' <= c <= '9' else '0' <= c <= '9' || 'a' <= c <= 'f'
  }

  predicate AllDigits(s: string, base: nat) {
    forall i :: 0 <= i < |s| ==> IsDigit(s[i], base)
  }

  lemma {:induction false} DecDigits(n: nat)
    ensures AllDigits(Dec(n), 10)
  {
    if n >= 10 { DecDigits(n / 10); }
  }

  lemma {:induction false} HexDigits(n: nat)
    ensures AllDigits(Hex(n), 16)
  {
    if n >= 16 { HexDigits(n / 16); }
  }

  /** Zeros in front do not change a number. */
  lemma {:induction false} ZerosMean(zeros: string, s: string, base: nat)
    requires AllAre(zeros, '0')
    ensures Value(zeros + s, base) == Value(s, base)
    decreases |zeros| + |s|
  {
    if s != "" {
      var n := |s| - 1;
      ZerosMean(zeros, s[..n], base);
      assert zeros + s == (zeros + s[..n]) + [s[n]];
      ValueNext(zeros + s[..n], s[n], base);
    } else if zeros != "" {
      var n := |zeros| - 1;
      ZerosMean(zeros[..n], "", base);
      assert zeros[..n] + "" == zeros[..n] && zeros + "" == zeros;
    }
  }

  /** The digits mean the number and have no leading zero, and there are none only for zero at precision 0. */
  predicate Says(d: Spec, p: Parts, n: int, base: nat) {
    && AllDigits(p.body, base) && Value(p.zeros + p.body, base) == Value(p.body, base) == n
    && (p.body == "" <==> d.prgiven && d.precision == 0 && n == 0)
    && (p.body != "" ==> (p.body[0] == '0' <==> n == 0))
  }

  lemma DecSays(d: Spec, p: Parts, n: nat)
    requires WellPlaced(d, p) && p.body == if d.prgiven && d.precision == 0 && n == 0 then "" else Dec(n)
    ensures Says(d, p, n, 10)
  {
    DecDigits(n);
    DecMeans(n);
    ZerosMean(p.zeros, p.body, 10);
  }

  lemma HexSays(d: Spec, p: Parts, n: nat)
    requires WellPlaced(d, p) && p.body == if d.prgiven && d.precision == 0 && n == 0 then "" else Hex(n)
    ensures Says(d, p, n, 16)
  {
    HexDigits(n);
    HexMeans(n);
    ZerosMean(p.zeros, p.body, 16);
  }

  // ----- arguments

  /** The modulus of an int, and of a long or long long. */
  function TypeSize(length: nat): int {
    if length == 0 then 0x1_0000_0000 else 0x1_0000_0000_0000_0000
  }

  /** The number of the type that an argument is, up to multiples of the modulus. */
  predicate IsSigned(r: int, x: int, length: nat) {
    -TypeSize(length) <= 2 * r < TypeSize(length) && (r - x) % TypeSize(length) == 0
  }

  predicate IsUnsigned(r: int, x: int, length: nat) {
    0 <= r < TypeSize(length) && (r - x) % TypeSize(length) == 0
  }

  lemma ModMultiple32(x: int, q: int)
    ensures (x % 0x1_0000_0000 - q * 0x1_0000_0000 - x) % 0x1_0000_0000 == 0
  {
    var k := -(x / 0x1_0000_0000) - q;
    assert x % 0x1_0000_0000 - q * 0x1_0000_0000 - x == k * 0x1_0000_0000;
    assert (k * 0x1_0000_0000) % 0x1_0000_0000 == 0;
  }

  lemma ModMultiple64(x: int, q: int)
    ensures (x % 0x1_0000_0000_0000_0000 - q * 0x1_0000_0000_0000_0000 - x) % 0x1_0000_0000_0000_0000 == 0
  {
    var k := -(x / 0x1_0000_0000_0000_0000) - q;
    assert x % 0x1_0000_0000_0000_0000 - q * 0x1_0000_0000_0000_0000 - x == k * 0x1_0000_0000_0000_0000;
    assert (k * 0x1_0000_0000_0000_0000) % 0x1_0000_0000_0000_0000 == 0;
  }

  lemma ArgIs(x: int, length: nat)
    ensures IsSigned(AsSigned(x, length), x, length) && IsUnsigned(AsUnsigned(x, length), x, length)
  {
    if length == 0 {
      ModMultiple32(x, 0);
      ModMultiple32(x, 1);
    } else {
      ModMultiple64(x, 0);
      ModMultiple64(x, 1);
    }
  }

  lemma DesignationParsed(s: string, args: seq<Arg>)
    ensures Parsed(Designation(s, args))
  {
  }

  // ----- conversions

  /** `%d` and `%i`: sign and decimal digits of the argument, read as a number of the type. */
  lemma SignedMeaning(d: Spec, x: int, error: string, float: Float) returns (p: Parts, r: int)
    requires Parsed(d) && (d.conv == 'd' || d.conv == 'i') && d.args != [] && d.args[0] == Num(x)
    ensures IsSigned(r, x, d.length) && Field(d, error, float) == Joined(p)
    ensures WellPlaced(d, p) && SignOk(p.sign, r < 0, d.flags) && Says(d, p, if r < 0 then -r else r, 10)
  {
    r := AsSigned(x, d.length);
    var n := if r < 0 then -r else r;
    ArgIs(x, d.length);
    p := NumParts(d, r < 0, r == 0, Dec(n));
    DecSays(d, p, n);
  }

  /** `%u`: the same for a number without a sign. */
  lemma UnsignedMeaning(d: Spec, x: int, error: string, float: Float) returns (p: Parts, r: int)
    requires Parsed(d) && d.conv == 'u' && d.args != [] && d.args[0] == Num(x)
    ensures IsUnsigned(r, x, d.length) && Field(d, error, float) == Joined(p)
    ensures WellPlaced(d, p) && SignOk(p.sign, false, d.flags) && Says(d, p, r, 10)
  {
    r := AsUnsigned(x, d.length);
    ArgIs(x, d.length);
    p := NumParts(d, false, r == 0, Dec(r));
    DecSays(d, p, r);
  }

  lemma HexParts(d: Spec, r: nat) returns (p: Parts)
    requires Parsed(d)
    ensures Joined(p) == NumField(d, false, r == 0, Hex(r))
    ensures WellPlaced(d, p) && SignOk(p.sign, false, d.flags) && Says(d, p, r, 16)
  {
    p := NumParts(d, false, r == 0, Hex(r));
    HexSays(d, p, r);
  }

  lemma HexField(d: Spec, x: int, error: string, float: Float)
    requires d.conv == 'x' && d.args != [] && d.args[0] == Num(x)
    ensures var r := AsUnsigned(x, d.length); Field(d, error, float) == NumField(d, false, r == 0, Hex(r))
  {
  }

  /** `%x`: the same in hexadecimal digits. */
  lemma HexMeaning(d: Spec, x: int, error: string, float: Float) returns (p: Parts, r: int)
    requires Parsed(d) && d.conv == 'x' && d.args != [] && d.args[0] == Num(x)
    ensures IsUnsigned(r, x, d.length) && Field(d, error, float) == Joined(p)
    ensures WellPlaced(d, p) && SignOk(p.sign, false, d.flags) && Says(d, p, r, 16)
  {
    r := AsUnsigned(x, d.length);
    ArgIs(x, d.length);
    HexField(d, x, error, float);
    p := HexParts(d, r);
  }

  /** `%p`: hexadecimal digits behind 0x, or (nil). */
  lemma PointerMeaning(d: Spec, x: int, error: string, float: Float) returns (p: Parts, r: int)
    requires Parsed(d) && d.conv == 'p' && d.args != [] && d.args[0] == Num(x)
    ensures IsUnsigned(r, x, 2) && Field(d, error, float) == Joined(p)
    ensures WellPlaced(d, p) && SignOk(p.sign, false, d.flags)
    ensures r == 0 ==> p.body == if d.prgiven && d.precision == 0 then "" else "(nil)"
    ensures r > 0 ==> |p.body| > 2 && p.body[..2] == "0x" && AllDigits(p.body[2..], 16) && Value(p.body[2..], 16) == r
  {
    r := AsUnsigned(x, 2);
    ArgIs(x, 2);
    HexMeans(r);
    HexDigits(r);
    p := NumParts(d, false, r == 0, PointerDigits(r));
    assert r > 0 ==> p.body[2..] == Hex(r);
  }

  /** The text, with spaces on one side up to the width. */
  predicate InWidth(text: string, shown: string, minw: nat, minus: bool) {
    && |text| == Max(minw, |shown|)
    && if minus then text[..|shown|] == shown && AllAre(text[|shown|..], ' ')
       else AllAre(text[..|text| - |shown|], ' ') && text[|text| - |shown|..] == shown
  }

  lemma StrInWidth(d: Spec, s: string)
    ensures InWidth(StrField(d, s), if d.prgiven && d.precision < |s| then s[..d.precision] else s, d.minw, d.flags.minus)
  {
  }

  /** `%s`: the text, cut to a precision that is given. */
  lemma StringMeaning(d: Spec, s: string, error: string, float: Float)
    requires d.conv == 's' && d.args != [] && d.args[0] == Str(s)
    ensures InWidth(Field(d, error, float), if d.prgiven && d.precision < |s| then s[..d.precision] else s, d.minw, d.flags.minus)
  {
    StrInWidth(d, s);
  }

  /** `%c`: the character whose code is the lowest byte of the argument, whatever the precision. */
  lemma CharMeaning(d: Spec, x: int, error: string, float: Float) returns (c: char)
    requires d.conv == 'c' && d.args != [] && d.args[0] == Num(x)
    ensures c as int < 256 && (c as int - x) % 256 == 0 && InWidth(Field(d, error, float), [c], d.minw, d.flags.minus)
  {
    c := CharOf(x);
    StrInWidth(d.(prgiven := false), [c]);
  }

  /** `%m`: the error text; `%%`: a percent sign. */
  lemma OtherMeaning(d: Spec, error: string, float: Float)
    ensures d.conv == 'm' ==>
      InWidth(Field(d, error, float), if d.prgiven && d.precision < |error| then error[..d.precision] else error, d.minw, d.flags.minus)
    ensures d.conv == '%' ==> Field(d, error, float) == "%"
  {
    StrInWidth(d, error);
  }

  /** One argument is used by each conversion that has one. */
  lemma ArgsTaken(d: Spec)
    ensures ArgsAfter(d) ==
      if d.args != [] && (d.conv == 'd' || d.conv == 'i' || d.conv == 'u' || d.conv == 'x' || d.conv == 'p'
                          || d.conv == 's' || d.conv == 'c' || d.conv == 'f' || d.conv == 'g')
      then d.args[1..] else d.args
  {
  }

  // ----- designations

  /** A width or precision that is an argument: an int, for which a negative width means left-adjusted and a
      negative precision means 0. */
  lemma StarMeaning(s: string, f: Flags, x: int, args: seq<Arg>) returns (v: int)
    requires args != [] && args[0] == Num(x)
    ensures IsSigned(v, x, 0)
    ensures WidthOf("*" + s, f, args) == (Max(v, -v), f.(minus := f.minus || v < 0), s, args[1..])
    ensures PrecisionOf(".*" + s, args) == (Max(v, 0), true, s, args[1..])
  {
    v := AsSigned(x, 0);
    assert ("*" + s)[1..] == s && (".*" + s)[2..] == s;
  }

  predicate IsFlag(c: char) {
    c == '0' || c == '-' || c == '+' || c == ' '
  }

  lemma {:induction false} FlagsFrom(s: string, f: Flags) returns (k: nat)
    ensures k <= |s| && (forall i :: 0 <= i < k ==> IsFlag(s[i])) && (k < |s| ==> !IsFlag(s[k]))
    ensures var r := FlagsOf(s, f);
      && r.1 == s[k..]
      && (r.0.zeropad <==> f.zeropad || '0' in s[..k]) && (r.0.minus <==> f.minus || '-' in s[..k])
      && (r.0.plus <==> f.plus || '+' in s[..k]) && (r.0.space <==> f.space || ' ' in s[..k])
  {
    k := 0;
    if s != "" && IsFlag(s[0]) {
      var c := s[0];
      var f' := if c == '0' then f.(zeropad := true) else if c == '-' then f.(minus := true)
                else if c == '+' then f.(plus := true) else f.(space := true);
      var j := FlagsFrom(s[1..], f');
      k := j + 1;
      assert s[..k] == [c] + s[1..][..j] && s[1..][j..] == s[k..];
    }
  }

  /** A flag is set if and only if its character occurs among the flag characters at the start. */
  lemma FlagsMeaning(s: string) returns (k: nat)
    ensures k <= |s| && (forall i :: 0 <= i < k ==> IsFlag(s[i])) && (k < |s| ==> !IsFlag(s[k]))
    ensures var r := FlagsOf(s, Flags(false, false, false, false));
      && r.1 == s[k..]
      && (r.0.zeropad <==> '0' in s[..k]) && (r.0.minus <==> '-' in s[..k])
      && (r.0.plus <==> '+' in s[..k]) && (r.0.space <==> ' ' in s[..k])
  {
    k := FlagsFrom(s, Flags(false, false, false, false));
  }

  lemma OneMore(t: string, s: string, j: nat)
    requires s != "" && j < |s|
    ensures s[..j + 1] == [s[0]] + s[1..][..j] && s[1..][j..] == s[j + 1..]
    ensures t + s[..j + 1] == t + [s[0]] + s[1..][..j]
  {
  }

  lemma DigitsNext(s: string, j: nat)
    requires s != "" && j < |s| && IsDigit(s[0], 10) && AllDigits(s[1..][..j], 10)
    ensures AllDigits(s[..j + 1], 10)
  {
    forall i | 0 <= i < j + 1
      ensures IsDigit(s[i], 10)
    {
      if i > 0 {
        assert s[i] == s[1..][..j][i - 1];
      }
    }
  }

  lemma {:induction false} NumberFrom(t: string, s: string) returns (k: nat)
    requires Value(t, 10) >= 0
    ensures k <= |s| && AllDigits(s[..k], 10) && (k < |s| ==> !IsDigit(s[k], 10))
    ensures Value(t + s[..k], 10) >= 0 && NumberOf(s, Value(t, 10)) == (Value(t + s[..k], 10), s[k..])
    decreases |s|
  {
    if s != "" && IsDigit(s[0], 10) {
      ValueNext(t, s[0], 10);
      var j := NumberFrom(t + [s[0]], s[1..]);
      k := j + 1;
      OneMore(t, s, j);
      DigitsNext(s, j);
    } else {
      k := 0;
      assert t + s[..0] == t && s[0..] == s;
    }
  }

  /** A width or precision is the number that the digits at the start mean. */
  lemma NumberMeaning(s: string) returns (k: nat)
    ensures k <= |s| && AllDigits(s[..k], 10) && (k < |s| ==> !IsDigit(s[k], 10))
    ensures Value(s[..k], 10) >= 0 && NumberOf(s, 0) == (Value(s[..k], 10), s[k..])
  {
    k := NumberFrom("", s);
    assert "" + s[..k] == s[..k];
  }
}
