/** The bounded formatting of `compat/snprintf.c`: everything is counted, what fits is written. */
module Snprintf {
  import opened Formatting
  import opened Numerals

  /** How many characters of an output of length n a buffer of the size keeps besides the NUL. */
  function Kept(size: nat, n: nat): nat {
    if size == 0 then 0 else if n < size then n else size - 1
  }

  function Reversed(s: string): (r: string)
    ensures |r| == |s|
  {
    if s == "" then "" else Reversed(s[1..]) + [s[0]]
  }

  lemma {:induction false} ReversedSnoc(s: string, c: char)
    ensures Reversed(s + [c]) == [c] + Reversed(s)
    decreases |s|
  {
    if s == "" {
      assert s + [c] == [c];
    } else {
      assert (s + [c])[1..] == s[1..] + [c];
      ReversedSnoc(s[1..], c);
    }
  }

  lemma FillNext(c: char, n: nat)
    ensures Fill(c, n + 1) == Fill(c, n) + [c]
  {
  }

  // ----- the pointers `at`, `left` and `ret`

  class Writer {
    const str: array<char>
    const size: nat
    ghost const orig: string  // the buffer before the call
    var at: nat
    var left: nat
    var ret: nat
    ghost var out: string     // the output so far, of whatever length

    ghost predicate Valid()
      reads this, str
    {
      && size <= str.Length == |orig|
      && ret == |out| && at == Kept(size, |out|) && left == size - at
      && str[..at] == out[..at] && str[at..] == orig[at..]
    }

    constructor (str: array<char>, size: nat)
      requires size <= str.Length
      ensures Valid() && out == "" && this.str == str && this.size == size && orig == str[..]
    {
      this.str, this.size, orig := str, size, str[..];
      at, left, ret, out := 0, size, 0, "";
    }

    method Put(c: char)
      requires Valid()
      modifies this, str
      ensures Valid() && out == old(out) + [c]
    {
      if left > 1 {
        str[at] := c;
        at := at + 1;
        left := left - 1;
      }
      ret := ret + 1;
      out := out + [c];
    }

    /** `print_pad`. */
    method PrintPad(p: char, num: int)
      requires Valid() && num >= 0
      modifies this, str
      ensures Valid() && out == old(out) + Fill(p, num)
    {
      var i := 0;
      while i < num
        invariant 0 <= i <= num && Valid() && out == old(out) + Fill(p, i)
      {
        Put(p);
        FillNext(p, i);
        i := i + 1;
      }
    }

    /** `spool_str`. */
    method SpoolStr(s: string)
      requires Valid()
      modifies this, str
      ensures Valid() && out == old(out) + s
    {
      var i := 0;
      while i < |s|
        invariant 0 <= i <= |s| && Valid() && out == old(out) + s[..i]
      {
        Put(s[i]);
        i := i + 1;
      }
      assert s[..i] == s;
    }

    /** `spool_str_rev`. */
    method SpoolStrRev(buf: string)
      requires Valid()
      modifies this, str
      ensures Valid() && out == old(out) + Reversed(buf)
    {
      var i := |buf|;
      assert buf[..i] == buf;
      while i > 0
        invariant 0 <= i <= |buf| && Valid() && out + Reversed(buf[..i]) == old(out) + Reversed(buf)
      {
        i := i - 1;
        assert buf[..i + 1] == buf[..i] + [buf[i]];
        ReversedSnoc(buf[..i], buf[i]);
        Put(buf[i]);
      }
    }

    /** Padding where there is room for it. */
    method PadBy(p: char, num: int)
      requires Valid()
      modifies this, str
      ensures Valid() && out == old(out) + Fill(p, num)
    {
      if num > 0 {
        PrintPad(p, num);
      } else {
        assert Fill(p, num) == "";
      }
    }

    /** `print_num`: a number given by its reversed digits. */
    method PrintNum(d: Spec, negative: bool, zero: bool, buf: string)
      requires Valid() && SpecOk(d)
      modifies this, str
      ensures Valid() && out == old(out) + NumField(d, negative, zero, Reversed(buf))
    {
      var sign := "";
      if negative {
        sign := "-";
      } else if d.flags.plus {
        sign := "+";
      } else if d.flags.space {
        sign := " ";
      }
      assert sign == Sign(negative, d.flags);
      var numw := |buf|;
      if d.precision == 0 && zero { numw := 0; }
      if numw < d.precision { numw := d.precision; }
      FieldText(d, negative, zero, Reversed(buf), numw);
      if d.flags.minus {
        PrintLeft(d, sign, zero, buf, numw);
      } else {
        PrintRight(d, sign, zero, buf, numw);
      }
    }

    method PrintLeft(d: Spec, sign: string, zero: bool, buf: string, numw: nat)
      requires Valid() && |sign| <= 1 && numw == |Digits(d, zero, Reversed(buf))|
      modifies this, str
      ensures Valid()
      ensures out == old(out) + (sign + Digits(d, zero, Reversed(buf)) + Fill(' ', d.minw - |sign| - numw))
    {
      var fieldw := if sign != "" then numw + 1 else numw;
      SpoolStr(sign);
      PrintBody(d, zero, buf);
      PadBy(' ', d.minw - fieldw);
      Associate3(old(out), sign, Digits(d, zero, Reversed(buf)), Fill(' ', d.minw - fieldw));
    }

    method PrintRight(d: Spec, sign: string, zero: bool, buf: string, numw: nat)
      requires Valid() && |sign| <= 1
      modifies this, str
      ensures Valid()
      ensures out == old(out) + RightText(d, sign, zero, Reversed(buf), RightWidth(d, sign, numw))
    {
      var w := |buf|;
      var fieldw := numw;
      if !d.prgiven && d.flags.zeropad && fieldw < d.minw {
        fieldw := d.minw;
      } else if sign != "" {
        fieldw := fieldw + 1;
      }
      assert fieldw == RightWidth(d, sign, numw) && w == |Reversed(buf)|;
      PrintPieces(d.minw - fieldw, sign, fieldw - |sign| - w, buf, d.precision == 0 && zero);
    }

    /** Spaces, sign, zeros and digits. */
    method PrintPieces(spaces: int, sign: string, zeros: int, buf: string, hidden: bool)
      requires Valid()
      modifies this, str
      ensures Valid()
      ensures out == old(out) + (Fill(' ', spaces) + sign + Fill('0', zeros) + (if hidden then "" else Reversed(buf)))
    {
      PrintFront(spaces, sign, zeros);
      ghost var front := Fill(' ', spaces) + sign + Fill('0', zeros);
      PrintShown(buf, hidden);
      Associate2(old(out), front, if hidden then "" else Reversed(buf));
    }

    method PrintFront(spaces: int, sign: string, zeros: int)
      requires Valid()
      modifies this, str
      ensures Valid() && out == old(out) + (Fill(' ', spaces) + sign + Fill('0', zeros))
    {
      PadBy(' ', spaces);
      SpoolStr(sign);
      PadBy('0', zeros);
      Associate3(old(out), Fill(' ', spaces), sign, Fill('0', zeros));
    }

    method PrintShown(buf: string, hidden: bool)
      requires Valid()
      modifies this, str
      ensures Valid() && out == old(out) + (if hidden then "" else Reversed(buf))
    {
      if !hidden {
        SpoolStrRev(buf);
      }
    }

    /** `print_str`. */
    method PrintStr(d: Spec, text: string)
      requires Valid()
      modifies this, str
      ensures Valid() && out == old(out) + StrField(d, text)
    {
      var w := if d.prgiven && d.precision < |text| then d.precision else |text|;
      if !d.flags.minus {
        PadBy(' ', d.minw - w);
      }
      SpoolStr(text[..w]);
      if d.flags.minus {
        PadBy(' ', d.minw - w);
      }
    }

    /** `print_num_d`, `print_num_ld` and `print_num_lld`. */
    method PrintSigned(d: Spec)
      requires Valid() && SpecOk(d)
      modifies this, str
      ensures var v := AsSigned(NextNum(d.args), d.length);
        Valid() && out == old(out) + NumField(d, v < 0, v == 0, Dec(if v < 0 then -v else v))
    {
      var v := AsSigned(NextNum(d.args), d.length);
      var buf := PrintDec(if v < 0 then -v else v);
      PrintNum(d, v < 0, v == 0, buf);
    }

    /** `print_num_u`, `print_num_x` and their long forms. */
    method PrintUnsigned(d: Spec, hex: bool)
      requires Valid() && SpecOk(d)
      modifies this, str
      ensures var v := AsUnsigned(NextNum(d.args), d.length);
        Valid() && out == old(out) + NumField(d, false, v == 0, if hex then Hex(v) else Dec(v))
    {
      var v := AsUnsigned(NextNum(d.args), d.length);
      var buf;
      if hex {
        buf := PrintHex(v);
      } else {
        buf := PrintDec(v);
      }
      PrintNum(d, false, v == 0, buf);
    }

    /** `print_num_llp`. */
    method PrintPointer(d: Spec)
      requires Valid() && SpecOk(d)
      modifies this, str
      ensures var v := AsUnsigned(NextNum(d.args), 2);
        Valid() && out == old(out) + NumField(d, false, v == 0, PointerDigits(v))
    {
      var v := AsUnsigned(NextNum(d.args), 2);
      var buf := PrintHex(v);
      if v == 0 {
        buf := ")lin(";
        ReversedNil();
      } else {
        ReversedSnoc(buf, 'x');
        ReversedSnoc(buf + ['x'], '0');
        assert ['0'] + (['x'] + Reversed(buf)) == "0x" + Reversed(buf);
        buf := buf + ['x'] + ['0'];
      }
      PrintNum(d, false, v == 0, buf);
    }

    /** One designation of the format. */
    method PrintField(d: Spec, error: string, float: Float)
      requires Valid() && SpecOk(d)
      modifies this, str
      ensures Valid() && out == old(out) + Field(d, error, float)
    {
      match d.conv {
        case 'd' | 'i' => PrintSigned(d);
        case 'u' => PrintUnsigned(d, false);
        case 'x' => PrintUnsigned(d, true);
        case 'p' => PrintPointer(d);
        case 's' => PrintStr(d, NextStr(d.args));
        case 'c' => PrintStr(d.(prgiven := false), [CharOf(NextNum(d.args))]);
        case 'm' => PrintStr(d, error);
        case '%' => PrintPad('%', 1);
        case 'f' | 'g' =>
          var r := float(d.conv, if d.prgiven then d.precision else 6, d.args);
          ReversedTwice(r.1);
          PrintNum(d.(precision := 1, prgiven := false), r.0, false, Reversed(r.1));
        case _ =>
      }
    }

    method PrintBody(d: Spec, zero: bool, buf: string)
      requires Valid()
      modifies this, str
      ensures Valid() && out == old(out) + Digits(d, zero, Reversed(buf))
    {
      if !(d.precision == 0 && zero) {
        PadBy('0', d.precision - |buf|);
        SpoolStrRev(buf);
      }
    }
  }

  /** Without a precision it is 1. */
  predicate SpecOk(d: Spec) {
    !d.prgiven ==> d.precision == 1
  }

  lemma Associate2(o: string, a: string, b: string)
    ensures o + a + b == o + (a + b)
  {
  }

  lemma Associate3(o: string, a: string, b: string, c: string)
    ensures o + a + b + c == o + (a + b + c)
  {
  }

  lemma FillAdd(c: char, a: int, b: int, n: int)
    requires Max(0, n) == Max(0, a) + Max(0, b)
    ensures Fill(c, n) == Fill(c, a) + Fill(c, b)
  {
  }

  function RightWidth(d: Spec, sign: string, numw: nat): int {
    if !d.prgiven && d.flags.zeropad && numw < d.minw then d.minw else numw + |sign|
  }

  /** A right-adjusted number as it is put together from its width. */
  function RightText(d: Spec, sign: string, zero: bool, digits: string, fieldw: int): string {
    Fill(' ', d.minw - fieldw) + sign + Fill('0', fieldw - |sign| - |digits|) + (if d.precision == 0 && zero then "" else digits)
  }

  /** That is the field: the width accounts for sign, zeros and digits in every case. */
  lemma RightField(d: Spec, sign: string, zero: bool, digits: string, fieldw: int, numw: nat)
    requires SpecOk(d) && |sign| <= 1
    requires numw == |Digits(d, zero, digits)| && fieldw == RightWidth(d, sign, numw)
    ensures var body := Digits(d, zero, digits); var gap := d.minw - |sign| - |body|;
      RightText(d, sign, zero, digits, fieldw)
      == if d.flags.zeropad && !d.prgiven then sign + Fill('0', gap) + body else Fill(' ', gap) + sign + body
  {
    var body := Digits(d, zero, digits);
    var gap, zeros := d.minw - |sign| - |body|, fieldw - |sign| - |digits|;
    if !d.prgiven && d.flags.zeropad {
      assert Fill(' ', d.minw - fieldw) == "";
      FillAdd('0', gap, 1 - |digits|, zeros);
      Associate3(sign, Fill('0', gap), Fill('0', 1 - |digits|), digits);
      ZeroFilled(sign, Fill('0', gap), Fill('0', 1 - |digits|), digits);
    } else {
      var shown := if d.precision == 0 && zero then "" else digits;
      assert body == Fill('0', zeros) + shown;
      Associate2(Fill(' ', gap) + sign, Fill('0', zeros), shown);
    }
  }

  lemma FieldText(d: Spec, negative: bool, zero: bool, digits: string, numw: nat)
    requires SpecOk(d) && numw == Max(d.precision, if d.precision == 0 && zero then 0 else |digits|)
    ensures numw == |Digits(d, zero, digits)|
    ensures var sign := Sign(negative, d.flags);
      NumField(d, negative, zero, digits)
      == if d.flags.minus then sign + Digits(d, zero, digits) + Fill(' ', d.minw - |sign| - numw)
         else RightText(d, sign, zero, digits, RightWidth(d, sign, numw))
  {
    var sign := Sign(negative, d.flags);
    if !d.flags.minus {
      RightField(d, sign, zero, digits, RightWidth(d, sign, numw), numw);
    }
  }

  lemma ZeroFilled(sign: string, a: string, b: string, digits: string)
    ensures "" + sign + (a + b) + digits == sign + a + (b + digits)
  {
  }

  lemma ReversedNil()
    ensures Reversed(")lin(") == "(nil)"
  {
    ReversedSnoc("", ')');
    ReversedSnoc(")", 'l');
    ReversedSnoc(")l", 'i');
    ReversedSnoc(")li", 'n');
    ReversedSnoc(")lin", '(');
  }

  lemma {:induction false} ReversedTwice(s: string)
    ensures Reversed(Reversed(s)) == s
  {
    if s != "" {
      ReversedSnoc(Reversed(s[1..]), s[0]);
      ReversedTwice(s[1..]);
    }
  }

  // ----- digits

  function Power(base: nat, k: nat): nat {
    if k == 0 then 1 else base * Power(base, k - 1)
  }

  lemma {:induction false} DecLength(n: nat, k: nat)
    requires k > 0 && n < Power(10, k)
    ensures |Dec(n)| <= k
  {
    if n >= 10 {
      DecLength(n / 10, k - 1);
    }
  }

  lemma {:induction false} HexDigits(n: nat, k: nat)
    requires k > 0 && n < Power(16, k)
    ensures |Hex(n)| <= k
  {
    if n >= 16 {
      HexDigits(n / 16, k - 1);
    }
  }

  lemma NextDigit(a: string, c: char, b: string)
    ensures a + [c] + b == a + ([c] + b)
    ensures "" + [c] == [c]
  {
  }

  lemma FourDigits(k: nat)
    ensures Power(10, k + 4) == 10000 * Power(10, k) && Power(16, k + 4) == 65536 * Power(16, k)
  {
    assert Power(10, k + 2) == 100 * Power(10, k) && Power(16, k + 2) == 256 * Power(16, k);
  }

  lemma Shorter(v: nat)
    requires v < TWO64
    ensures |Dec(v)| <= 20 && |Hex(v)| <= 16
  {
    FourDigits(0);
    FourDigits(4);
    FourDigits(8);
    FourDigits(12);
    FourDigits(16);
    DecLength(v, 20);
    HexDigits(v, 16);
  }

  const BUFSZ := 32

  /** `print_dec`, `print_dec_l` and `print_dec_ll`: the digits from the last to the first. */
  method PrintDec(v: nat) returns (buf: string)
    requires v < TWO64
    ensures Reversed(buf) == Dec(v)
  {
    if v == 0 {
      return "0";
    }
    Shorter(v);
    var value := v;
    buf := "";
    while value != 0 && |buf| < BUFSZ
      invariant Dec(v) == (if value == 0 then "" else Dec(value)) + Reversed(buf)
      invariant |Dec(v)| <= 20
    {
      ReversedSnoc(buf, Digit(value % 10));
      NextDigit(if value < 10 then "" else Dec(value / 10), Digit(value % 10), Reversed(buf));
      buf := buf + [Digit(value % 10)];
      value := value / 10;
    }
  }

  /** `print_hex`, `print_hex_l` and `print_hex_ll`. */
  method PrintHex(v: nat) returns (buf: string)
    requires v < TWO64
    ensures Reversed(buf) == Hex(v)
  {
    if v == 0 {
      return "0";
    }
    Shorter(v);
    var value := v;
    buf := "";
    while value != 0 && |buf| < BUFSZ
      invariant Hex(v) == (if value == 0 then "" else Hex(value)) + Reversed(buf)
      invariant |Hex(v)| <= 16
    {
      ReversedSnoc(buf, Digit(value % 16));
      NextDigit(if value < 16 then "" else Hex(value / 16), Digit(value % 16), Reversed(buf));
      buf := buf + [Digit(value % 16)];
      value := value / 16;
    }
  }

  // ----- the format

  const NO_FLAGS := Flags(false, false, false, false)

  method ParseFlags(s: string, p: nat) returns (f: Flags, q: nat)
    requires p <= |s|
    ensures p <= q <= |s| && FlagsOf(s[p..], NO_FLAGS) == (f, s[q..])
  {
    f, q := NO_FLAGS, p;
    while q < |s|
      invariant p <= q <= |s| && FlagsOf(s[p..], NO_FLAGS) == FlagsOf(s[q..], f)
    {
      assert s[q..][1..] == s[q + 1..];
      if s[q] == '0' {
        f := f.(zeropad := true);
      } else if s[q] == '-' {
        f := f.(minus := true);
      } else if s[q] == '+' {
        f := f.(plus := true);
      } else if s[q] == ' ' {
        f := f.(space := true);
      } else {
        break;
      }
      q := q + 1;
    }
  }

  method ParseNumber(s: string, p: nat) returns (n: nat, q: nat)
    requires p <= |s|
    ensures p <= q <= |s| && NumberOf(s[p..], 0) == (n, s[q..])
  {
    n, q := 0, p;
    while q < |s| && '0' <= s[q] <= '9'
      invariant p <= q <= |s| && NumberOf(s[p..], 0) == NumberOf(s[q..], n)
    {
      assert s[q..][1..] == s[q + 1..];
      n := n * 10 + (s[q] as int - '0' as int);
      q := q + 1;
    }
  }

  /** The field width with the flags, and the precision. */
  method ParseWidth(s: string, p: nat, f: Flags, args: seq<Arg>) returns (minw: nat, flags: Flags, q: nat, args': seq<Arg>)
    requires p <= |s|
    ensures p <= q <= |s| && WidthOf(s[p..], f, args) == (minw, flags, s[q..], args')
  {
    flags, args', q := f, args, p;
    if q < |s| && s[q] == '*' {
      q := q + 1;
      var v := AsSigned(NextNum(args), 0);
      args' := Later(args);
      if v < 0 {
        flags := flags.(minus := true);
        v := -v;
      }
      minw := v;
    } else {
      minw, q := ParseNumber(s, q);
    }
  }

  method ParsePrecision(s: string, p: nat, args: seq<Arg>) returns (precision: nat, prgiven: bool, q: nat, args': seq<Arg>)
    requires p <= |s|
    ensures p <= q <= |s| && PrecisionOf(s[p..], args) == (precision, prgiven, s[q..], args')
  {
    precision, prgiven, q, args' := 1, false, p, args;
    if q < |s| && s[q] == '.' {
      q := q + 1;
      prgiven := true;
      assert s[p..][1..] == s[q..];
      if q < |s| && s[q] == '*' {
        q := q + 1;
        var v := AsSigned(NextNum(args), 0);
        args' := Later(args);
        precision := if v < 0 then 0 else v;
      } else {
        precision, q := ParseNumber(s, q);
      }
    }
  }

  method ParseLength(s: string, p: nat) returns (length: nat, q: nat)
    requires p <= |s|
    ensures p <= q <= |s| && LengthOf(s[p..]) == (length, s[q..])
  {
    length, q := 0, p;
    if q < |s| && s[q] == 'l' {
      length, q := 1, q + 1;
      if q < |s| && s[q] == 'l' {
        length, q := 2, q + 1;
      }
    }
  }

  method ParseDesignation(s: string, p: nat, args: seq<Arg>) returns (d: Spec, q: nat)
    requires p <= |s|
    ensures p <= q <= |s| && d == Designation(s[p..], args) && d.rest == s[q..] && SpecOk(d)
  {
    var f, a := ParseFlags(s, p);
    var minw, flags, b, args1 := ParseWidth(s, a, f, args);
    var precision, prgiven, c, args2 := ParsePrecision(s, b, args1);
    var length, e := ParseLength(s, c);
    q := e;
    var conv := '\0';
    if q < |s| {
      conv := s[q];
      q := q + 1;
    }
    d := Spec(flags, minw, precision, prgiven, length, conv, s[q..], args2);
  }

  /** `vsnprintf`: it returns the length of the whole output, and the buffer holds as much of its start
      as fits before a NUL; a buffer of size 0 is not written at all. */
  method Vsnprintf(str: array<char>, size: nat, format: string, args: seq<Arg>, error: string, float: Float)
    returns (ret: nat)
    requires size <= str.Length
    modifies str
    ensures var all := Output(format, args, error, float); var k := Kept(size, |all|);
      && ret == |all|
      && str[..] == if size == 0 then old(str[..]) else all[..k] + ['\0'] + old(str[..])[k + 1..]
  {
    var w := new Writer(str, size);
    var p, rest := 0, args;
    ghost var all := Output(format, args, error, float);
    assert format[0..] == format && "" + all == all;
    while p < |format|
      invariant 0 <= p <= |format| && w.Valid() && fresh(w) && w.str == str && w.size == size && w.orig == old(str[..])
      invariant w.out + Output(format[p..], rest, error, float) == all
    {
      assert format[p..][1..] == format[p + 1..];
      if format[p] != '%' {
        NextDigit(w.out, format[p], Output(format[p + 1..], rest, error, float));
        w.Put(format[p]);
        p := p + 1;
      } else {
        var d, q := ParseDesignation(format, p + 1, rest);
        Associate2(w.out, Field(d, error, float), Output(d.rest, ArgsAfter(d), error, float));
        w.PrintField(d, error, float);
        p, rest := q, ArgsAfter(d);
      }
    }
    assert w.out + "" == w.out;
    if w.left > 0 {
      str[w.at] := '\0';
    }
    return w.ret;
  }
}
