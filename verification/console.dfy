/**
 * The minimal printf of canvas/src/console.c (`console_printf` and its
 * helpers `console_out`, `console_outDgt`, `console_divOut`) as a pure
 * function from a format string and an argument list to the characters sent
 * to the UART.
 *
 * C strings are `seq<char>` without their terminator; a NUL inside one ends
 * it, as in C. The variadic arguments are a list of `Arg`; a conversion
 * whose argument is missing or of another kind is undefined behaviour in C
 * and yields `None` here. `char` is unsigned and eight bits wide, as on the
 * ARM target: the field width accumulates modulo 256, and `%c` keeps the low
 * eight bits of its `int` argument.
 */
module Console {
  import opened Base

  /** `unsigned int` on the target. */
  const U32_LIMIT: nat := 0x1_0000_0000
  type u32 = x: int | 0 <= x < 0x1_0000_0000
  /** The bit pattern of INT_MIN; patterns from here on are negative `int`s. */
  const INT_MIN_BITS: nat := 0x8000_0000

  /** A variadic argument: `unsigned int`/`int` for a number, `int` for a character, or a string. */
  datatype Arg = U(n: u32) | Chr(c: int) | Str(s: string)

  /** The cast `(char) x`: the low eight bits of `x`. */
  function CharOf(x: int): (c: char)
    ensures c as int < 256 && (c as int - x) % 256 == 0
  {
    ToByte(x) as char
  }

  /** `b` to the power `k`. */
  function Pow(b: nat, k: nat): (p: nat)
    ensures b > 0 ==> p > 0
  {
    if k == 0 then 1 else b * Pow(b, k - 1)
  }

  predicate IsDecimalDigit(c: char)
  {
    '0' <= c <= '9'
  }

  /** A digit character of either letter case, up to base 16. */
  predicate IsDigitChar(c: char)
  {
    IsDecimalDigit(c) || 'a' <= c <= 'f' || 'A' <= c <= 'F'
  }

  /**
   * `console_divOut`'s loop: subtract `div` from `num` while it fits,
   * counting the subtractions. The count and what is left are quotient and
   * remainder.
   */
  function DivSub(num: nat, div: nat): (r: (nat, nat))
    requires div > 0
    ensures r.0 * div + r.1 == num && r.1 < div
    decreases num
  {
    if num < div then (0, num)
    else
      var (q, m) := DivSub(num - div, div);
      (q + 1, m)
  }

  /** `console_outDgt`'s character for digit `d`: '0'-'9', then 'a'-'f' or, with `uc`, 'A'-'F'. */
  function DigitChar(d: nat, uc: bool): (c: char)
    requires d < 16
    ensures IsDigitChar(c)
    ensures IsDecimalDigit(c) <==> d < 10
  {
    if d < 10 then ('0' as int + d) as char
    else ((if uc then 'A' else 'a') as int + d - 10) as char
  }

  /**
   * The digits `console_divOut` and `console_outDgt` produce for `num` with
   * divisors `b^k` down to `b`, then the last digit: a digit is written once
   * one is non-zero (`zs`, the zero-suppression flag, records that), and the
   * last digit always.
   */
  function Emit(num: nat, b: nat, k: nat, zs: bool, uc: bool): (e: string)
    requires 2 <= b <= 16 && num < Pow(b, k + 1)
    ensures 1 <= |e| <= k + 1 && (zs ==> |e| == k + 1)
    ensures forall i :: 0 <= i < |e| ==> IsDigitChar(e[i])
    decreases k
  {
    if k == 0 then assert Pow(b, 1) == b; [DigitChar(num, uc)]
    else
      var (q, r) := DivSub(num, Pow(b, k));
      QuotientFits(num, b, k, q, r);
      var show := zs || q > 0;
      (if show then [DigitChar(q, uc)] else []) + Emit(r, b, k - 1, show, uc)
  }

  /** The digit `console_divOut` finds is below the base. */
  lemma QuotientFits(num: nat, b: nat, k: nat, q: nat, r: nat)
    requires 2 <= b && num < Pow(b, k + 1) && k > 0
    requires q * Pow(b, k) + r == num
    ensures q < b
  {
    if q >= b {
      assert q * Pow(b, k) >= b * Pow(b, k) by {
        MulMonotone(b, q, Pow(b, k));
      }
      assert false;
    }
  }

  lemma MulMonotone(x: nat, y: nat, z: nat)
    requires x <= y
    ensures x * z <= y * z
  {
  }

  /** `%u` (and `%d` of a non-negative value): divisors 1000000000 down to 10. */
  function Decimal(n: nat): (s: string)
    requires n < U32_LIMIT
    ensures 1 <= |s| <= 10 && forall i :: 0 <= i < |s| ==> IsDigitChar(s[i])
  {
    DecimalBound(n);
    Emit(n, 10, 9, false, false)
  }

  lemma DecimalBound(n: nat)
    requires n < U32_LIMIT
    ensures n < Pow(10, 10)
  {
  }

  /**
   * `%u` and `%d`: for `%d` a value whose `int` reading is negative gets
   * '-' and the digits of its negation; the negation is taken modulo 2^32,
   * so INT_MIN prints as -2147483648.
   */
  function DecimalField(n: u32, signed: bool): (s: string)
    ensures 1 <= |s| <= 11
    ensures s[0] == '-' <==> signed && n >= INT_MIN_BITS
  {
    if signed && n >= INT_MIN_BITS then ['-'] + Decimal(U32_LIMIT - n)
    else Decimal(n)
  }

  /** `%x` and `%X`: divisors 0x10000000 down to 0x10, letters in the requested case. */
  function HexField(n: u32, uc: bool): (s: string)
    ensures 1 <= |s| <= 8 && forall i :: 0 <= i < |s| ==> IsDigitChar(s[i])
  {
    HexBound(n);
    Emit(n, 16, 7, false, uc)
  }

  lemma HexBound(n: nat)
    requires n < U32_LIMIT
    ensures n < Pow(16, 8)
  {
  }

  /** A C string: the characters before the first NUL. */
  function CString(s: string): (t: string)
    ensures t <= s && '\0' !in t
    ensures |t| < |s| ==> s[|t|] == '\0'
  {
    if s == [] || s[0] == '\0' then [] else [s[0]] + CString(s[1..])
  }

  /**
   * The text one conversion puts in front of the padding logic, with the
   * arguments left over; `None` for a missing or mismatched argument.
   * `%%` and unknown conversions take no argument.
   */
  function Field(conv: char, args: seq<Arg>): (r: Option<(string, seq<Arg>)>)
    ensures r.None? ==> conv in {'u', 'd', 'x', 'X', 'c', 's'}
    ensures r.Some? ==>
              && |r.value.1| + (if conv in {'u', 'd', 'x', 'X', 'c', 's'} then 1 else 0) == |args|
              && r.value.1 == args[|args| - |r.value.1|..]
  {
    if conv in {'u', 'd', 'x', 'X', 'c', 's'} then
      if args == [] then None
      else
        match args[0]
        case U(n) =>
          if conv == 'u' || conv == 'd' then Some((DecimalField(n, conv == 'd'), args[1..]))
          else if conv == 'x' || conv == 'X' then Some((HexField(n, conv == 'X'), args[1..]))
          else None
        case Chr(c) => if conv == 'c' then Some((CString([CharOf(c)]), args[1..])) else None
        case Str(s) => if conv == 's' then Some((CString(s), args[1..])) else None
    else if conv == '%' then Some((['%'], args))
    else Some(([], args))
  }

  /**
   * The width loop: accumulate decimal digits into the `char` `w`
   * (arithmetic modulo 256) until a non-digit; returns the width and the
   * format from the first non-digit on.
   */
  function ScanWidth(s: string, w: byte): (r: (byte, string))
    ensures |r.1| <= |s| && r.1 == s[|s| - |r.1|..]
    decreases |s|
  {
    if s != [] && IsDecimalDigit(s[0]) then
      var r := ScanWidth(s[1..], ToByte(10 * w + (s[0] as int - '0' as int)));
      assert s[1..][|s| - 1 - |r.1|..] == s[|s| - |r.1|..];
      r
    else (w, s)
  }

  /** `n` copies of `c`. */
  function Repeat(c: char, n: nat): (s: string)
    ensures |s| == n && forall i :: 0 <= i < n ==> s[i] == c
  {
    if n == 0 then [] else [c] + Repeat(c, n - 1)
  }

  /** The padding before a field: `w - |field|` pad characters when positive, '0' with the `0` flag. */
  function Padding(zeroFlag: bool, w: byte, fieldLength: nat): (p: string)
    ensures |p| + fieldLength == if w > fieldLength then w as int else fieldLength
    ensures forall i :: 0 <= i < |p| ==> p[i] == (if zeroFlag then '0' else ' ')
  {
    Repeat(if zeroFlag then '0' else ' ', if w > fieldLength then w - fieldLength else 0)
  }

  /** Text with no '%' up to its end: nothing in it is a directive. */
  predicate Plain(fmt: string)
    decreases |fmt|
  {
    fmt == [] || (fmt[0] != '%' && Plain(fmt[1..]))
  }

  /**
   * The characters `console_printf` sends before its closing NUL. Format
   * processing ends at the format's end (its terminator) or at a NUL in it,
   * and also when the terminator follows a '%', its flag or its width.
   */
  function Render(fmt: string, args: seq<Arg>): (r: Option<string>)
    ensures Plain(fmt) ==> r.Some? && r.value <= fmt
    decreases |fmt|, 1
  {
    if fmt == [] || fmt[0] == '\0' then Some([])
    else if fmt[0] != '%' then
      match Render(fmt[1..], args)
      case None => None
      case Some(t) => Some([fmt[0]] + t)
    else
      var zeroFlag := |fmt| > 1 && fmt[1] == '0';
      var afterFlag := if zeroFlag then fmt[2..] else fmt[1..];
      var (w, rest) := ScanWidth(afterFlag, 0);
      Conversion(zeroFlag, w, rest, args)
  }

  /**
   * The `switch` on the conversion character `spec[0]` after flag and
   * width have been read, then the padding, then the rest of the format.
   */
  function Conversion(zeroFlag: bool, w: byte, spec: string, args: seq<Arg>): (r: Option<string>)
    ensures spec != [] && spec[0] != '\0' && r.Some? ==> |r.value| >= w as int
    decreases |spec|, 0
  {
    if spec == [] || spec[0] == '\0' then Some([])
    else
      match Field(spec[0], args)
      case None => None
      case Some((text, args')) =>
        match Render(spec[1..], args')
        case None => None
        case Some(t) => Some(Padding(zeroFlag, w, |text|) + text + t)
  }

  /** `console_printf(fmt, args...)`: the characters sent, ending with the one NUL every call emits. */
  function Printf(fmt: string, args: seq<Arg>): (r: Option<string>)
    ensures r.Some? ==> |r.value| >= 1 && r.value[|r.value| - 1] == '\0'
  {
    match Render(fmt, args)
    case None => None
    case Some(t) => Some(t + ['\0'])
  }
}
