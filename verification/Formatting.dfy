/** What the formatted output of `compat/snprintf.c` is, whatever the size of the buffer. */
module Formatting {
  import opened Numerals

  datatype Arg = Num(value: int) | Str(text: string)

  datatype Flags = Flags(zeropad: bool, minus: bool, plus: bool, space: bool)

  /** A designation: what stands between a percent sign and the conversion, and what follows. */
  datatype Spec = Spec(flags: Flags, minw: nat, precision: nat, prgiven: bool, length: nat, conv: char,
                       rest: string, args: seq<Arg>)

  // ----- arguments

  function NextNum(args: seq<Arg>): int {
    if args != [] && args[0].Num? then args[0].value else 0
  }

  function NextStr(args: seq<Arg>): string {
    if args != [] && args[0].Str? then args[0].text else ""
  }

  function Later(args: seq<Arg>): seq<Arg> {
    if args == [] then [] else args[1..]
  }

  const TWO32 := 0x1_0000_0000
  const TWO64 := 0x1_0000_0000_0000_0000

  function Modulus(length: nat): int {
    if length == 0 then TWO32 else TWO64
  }

  /** An argument read as an unsigned or a signed number of the given length: int, long or long long. */
  function AsUnsigned(v: int, length: nat): (r: int)
    ensures 0 <= r < TWO64
  {
    v % Modulus(length)
  }

  function AsSigned(v: int, length: nat): (r: int)
    ensures -TWO64 < r < TWO64
  {
    var u := v % Modulus(length);
    if 2 * u < Modulus(length) then u else u - Modulus(length)
  }

  /** Numbers of the type that a conversion reads are read as what they are. */
  lemma InRange(v: int, length: nat)
    ensures 0 <= v < Modulus(length) ==> AsUnsigned(v, length) == v
    ensures -Modulus(length) <= 2 * v < Modulus(length) ==> AsSigned(v, length) == v
  {
    if v < 0 && -Modulus(length) <= 2 * v {
      assert v % Modulus(length) == v + Modulus(length);
    }
  }

  // ----- designations

  function FlagsOf(s: string, f: Flags): (r: (Flags, string))
    ensures |r.1| <= |s|
  {
    if s == "" then (f, s)
    else if s[0] == '0' then FlagsOf(s[1..], f.(zeropad := true))
    else if s[0] == '-' then FlagsOf(s[1..], f.(minus := true))
    else if s[0] == '+' then FlagsOf(s[1..], f.(plus := true))
    else if s[0] == ' ' then FlagsOf(s[1..], f.(space := true))
    else (f, s)
  }

  function NumberOf(s: string, n: nat): (r: (nat, string))
    ensures |r.1| <= |s|
  {
    if s != "" && '0' <= s[0] <= '9' then NumberOf(s[1..], n * 10 + (s[0] as int - '0' as int)) else (n, s)
  }

  /** The field width: digits, or `*` for an argument, which left-adjusts when it is negative. */
  function WidthOf(s: string, f: Flags, args: seq<Arg>): (r: (nat, Flags, string, seq<Arg>))
    ensures |r.2| <= |s|
  {
    if s != "" && s[0] == '*' then
      var v := AsSigned(NextNum(args), 0);
      (if v < 0 then -v else v, if v < 0 then f.(minus := true) else f, s[1..], Later(args))
    else
      var r := NumberOf(s, 0);
      (r.0, f, r.1, args)
  }

  /** The precision: 1 when there is none, and 0 for a negative argument. */
  function PrecisionOf(s: string, args: seq<Arg>): (r: (nat, bool, string, seq<Arg>))
    ensures |r.2| <= |s|
  {
    if s == "" || s[0] != '.' then (1, false, s, args)
    else if |s| > 1 && s[1] == '*' then
      var v := AsSigned(NextNum(args), 0);
      (if v < 0 then 0 else v, true, s[2..], Later(args))
    else
      var r := NumberOf(s[1..], 0);
      (r.0, true, r.1, args)
  }

  function LengthOf(s: string): (r: (nat, string))
    ensures |r.1| <= |s|
  {
    if s == "" || s[0] != 'l' then (0, s)
    else if |s| > 1 && s[1] == 'l' then (2, s[2..])
    else (1, s[1..])
  }

  function Designation(s: string, args: seq<Arg>): (d: Spec)
    ensures |d.rest| <= |s|
  {
    var f := FlagsOf(s, Flags(false, false, false, false));
    var w := WidthOf(f.1, f.0, args);
    var p := PrecisionOf(w.2, w.3);
    var l := LengthOf(p.2);
    Spec(w.1, w.0, p.0, p.1, l.0, if l.1 == "" then '\0' else l.1[0], if l.1 == "" then "" else l.1[1..], p.3)
  }

  // ----- fields

  function Fill(c: char, n: int): (s: string)
    ensures |s| == if n > 0 then n else 0
    ensures forall i :: 0 <= i < |s| ==> s[i] == c
  {
    if n <= 0 then "" else seq(n, _ => c)
  }

  function Sign(negative: bool, f: Flags): (s: string)
    ensures |s| <= 1
  {
    if negative then "-" else if f.plus then "+" else if f.space then " " else ""
  }

  /** The digits brought to the precision; zero has none at precision 0. */
  function Digits(d: Spec, zero: bool, digits: string): string {
    if d.precision == 0 && zero then "" else Fill('0', d.precision - |digits|) + digits
  }

  /** A number in its field: left-adjusted, or filled with zeros behind the sign unless a precision is
      given, or right-adjusted. */
  function NumField(d: Spec, negative: bool, zero: bool, digits: string): string {
    var sign, body := Sign(negative, d.flags), Digits(d, zero, digits);
    var gap := d.minw - |sign| - |body|;
    if d.flags.minus then sign + body + Fill(' ', gap)
    else if d.flags.zeropad && !d.prgiven then sign + Fill('0', gap) + body
    else Fill(' ', gap) + sign + body
  }

  function Max(a: int, b: int): int {
    if a > b then a else b
  }

  /** The length of a number: the width, or sign and digits with the precision if that is more. */
  lemma NumFieldLength(d: Spec, negative: bool, zero: bool, digits: string)
    ensures |NumField(d, negative, zero, digits)|
      == Max(d.minw, |Sign(negative, d.flags)| + if d.precision == 0 && zero then 0 else Max(d.precision, |digits|))
  {
  }

  function StrField(d: Spec, s: string): string {
    var t := if d.prgiven && d.precision < |s| then s[..d.precision] else s;
    var gap := Fill(' ', d.minw - |t|);
    if d.flags.minus then t + gap else gap + t
  }

  lemma StrFieldLength(d: Spec, s: string)
    ensures |StrField(d, s)| == Max(d.minw, if d.prgiven && d.precision < |s| then d.precision else |s|)
  {
  }

  /** The digits of a floating point number, which are not modelled further. */
  type Float = (char, nat, seq<Arg>) -> (bool, string)

  function PointerDigits(v: nat): string {
    if v == 0 then "(nil)" else "0x" + Hex(v)
  }

  /** The text of one designation. */
  function Field(d: Spec, error: string, float: Float): string {
    match d.conv
    case 'd' | 'i' =>
      var v := AsSigned(NextNum(d.args), d.length);
      NumField(d, v < 0, v == 0, Dec(if v < 0 then -v else v))
    case 'u' => var v := AsUnsigned(NextNum(d.args), d.length); NumField(d, false, v == 0, Dec(v))
    case 'x' => var v := AsUnsigned(NextNum(d.args), d.length); NumField(d, false, v == 0, Hex(v))
    case 'p' => var v := AsUnsigned(NextNum(d.args), 2); NumField(d, false, v == 0, PointerDigits(v))
    case 's' => StrField(d, NextStr(d.args))
    case 'c' => StrField(d.(prgiven := false), [CharOf(NextNum(d.args))])
    case 'm' => StrField(d, error)
    case '%' => "%"
    case 'f' | 'g' =>
      var r := float(d.conv, if d.prgiven then d.precision else 6, d.args);
      NumField(d.(precision := 1, prgiven := false), r.0, false, r.1)
    case _ => ""
  }

  function CharOf(v: int): char {
    (v % 256) as char
  }

  function ArgsAfter(d: Spec): seq<Arg> {
    if d.conv in "diuxpscfg" then Later(d.args) else d.args
  }

  /** The whole output, of whatever length. */
  function Output(s: string, args: seq<Arg>, error: string, float: Float): string
    decreases |s|
  {
    if s == "" then ""
    else if s[0] != '%' then [s[0]] + Output(s[1..], args, error, float)
    else
      var d := Designation(s[1..], args);
      Field(d, error, float) + Output(d.rest, ArgsAfter(d), error, float)
  }

  /** `%n`, with whatever flags, width, precision and length, outputs nothing and uses no argument of its own. */
  lemma CountIgnored(s: string, args: seq<Arg>, error: string, float: Float)
    requires s != "" && s[0] == '%' && Designation(s[1..], args).conv == 'n'
    ensures var d := Designation(s[1..], args);
      && Field(d, error, float) == "" && ArgsAfter(d) == d.args
      && Output(s, args, error, float) == Output(d.rest, d.args, error, float)
  {
    var d := Designation(s[1..], args);
    assert Field(d, error, float) == "";
    assert "" + Output(d.rest, d.args, error, float) == Output(d.rest, d.args, error, float);
  }
}
