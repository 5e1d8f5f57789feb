/**
 * Properties of the printf model: numbers rendered by repeated subtraction
 * read back as the value they render (a digit-string parser is the partner),
 * without leading zeros; the width is the decimal value of its digits modulo
 * 256; padding precedes the field; literal text is copied; every call ends
 * with exactly one NUL.
 */
module ConsoleProps {
  import opened Base
  import opened Console

  // ---------------------------------------------------------------- reading digits back

  /** Whether `c` is a digit of base `b` in the letter case `uc` (the case matters only above 9). */
  predicate IsDigitOf(c: char, b: nat, uc: bool)
  {
    || ('0' <= c <= '9' && (c as int) - ('0' as int) < b)
    || (!uc && 'a' <= c <= 'f' && (c as int) - ('a' as int) + 10 < b)
    || (uc && 'A' <= c <= 'F' && (c as int) - ('A' as int) + 10 < b)
  }

  /** The value of a digit character. */
  function DigitValue(c: char): nat
  {
    if '0' <= c <= '9' then (c as int) - ('0' as int)
    else if 'a' <= c <= 'f' then (c as int) - ('a' as int) + 10
    else if 'A' <= c <= 'F' then (c as int) - ('A' as int) + 10
    else 0
  }

  /** All characters are digits of base `b` in case `uc`. */
  predicate Numeral(s: string, b: nat, uc: bool)
  {
    forall i :: 0 <= i < |s| ==> IsDigitOf(s[i], b, uc)
  }

  /** The value of a digit string, most significant digit first. */
  function Value(s: string, b: nat): nat
  {
    if s == [] then 0 else DigitValue(s[0]) * Pow(b, |s| - 1) + Value(s[1..], b)
  }

  /** At least one digit and no leading zero. */
  predicate Canonical(s: string)
  {
    |s| >= 1 && (|s| == 1 || s[0] != '0')
  }

  /** A digit character reads back as its digit, in the requested case. */
  lemma DigitCharRoundTrip(d: nat, b: nat, uc: bool)
    requires d < b <= 16
    ensures DigitValue(DigitChar(d, uc)) == d
    ensures IsDigitOf(DigitChar(d, uc), b, uc)
    ensures d < 10 ==> '0' <= DigitChar(d, uc) <= '9'
    ensures d >= 10 && uc ==> 'A' <= DigitChar(d, uc) <= 'F'
    ensures d >= 10 && !uc ==> 'a' <= DigitChar(d, uc) <= 'f'
  {
  }

  /**
   * The digits produced by repeated subtraction read back as the number.
   * Once a digit has been shown every later position is shown; before that,
   * leading zeros are suppressed, and at least the last digit is shown.
   */
  lemma {:induction false} EmitRoundTrip(num: nat, b: nat, k: nat, zs: bool, uc: bool)
    requires 2 <= b <= 16 && num < Pow(b, k + 1)
    ensures var e := Emit(num, b, k, zs, uc);
      && Value(e, b) == num
      && Numeral(e, b, uc)
      && 1 <= |e| <= k + 1
      && (zs ==> |e| == k + 1)
      && (!zs ==> Canonical(e))
    decreases k
  {
    var e := Emit(num, b, k, zs, uc);
    if k == 0 {
      assert Pow(b, 1) == b;
      DigitCharRoundTrip(num, b, uc);
      assert Value(e, b) == DigitValue(e[0]) * Pow(b, 0) + Value([], b);
    } else {
      var (q, r) := DivSub(num, Pow(b, k));
      QuotientFits(num, b, k, q, r);
      var show := zs || q > 0;
      var t := Emit(r, b, k - 1, show, uc);
      EmitRoundTrip(r, b, k - 1, show, uc);
      DigitCharRoundTrip(q, b, uc);
      if show {
        var c := DigitChar(q, uc);
        assert e == [c] + t;
        PrependDigit(c, t, b, uc);
        assert !zs ==> q > 0 && e[0] != '0';
      } else {
        assert e == t;
        assert q == 0;
      }
    }
  }

  /** A digit in front of a numeral is worth its value times the base to the numeral's length. */
  lemma PrependDigit(c: char, t: string, b: nat, uc: bool)
    requires IsDigitOf(c, b, uc) && Numeral(t, b, uc)
    ensures Value([c] + t, b) == DigitValue(c) * Pow(b, |t|) + Value(t, b)
    ensures Numeral([c] + t, b, uc)
  {
    assert ([c] + t)[1..] == t;
  }

  /** `%u` and `%d` of a non-negative value: decimal digits, no leading zero, at most ten; they read back as the value. */
  lemma DecimalRoundTrip(n: nat)
    requires n < U32_LIMIT
    ensures var s := Decimal(n);
      Numeral(s, 10, false) && Canonical(s) && Value(s, 10) == n && |s| <= 10
  {
    DecimalBound(n);
    EmitRoundTrip(n, 10, 9, false, false);
  }

  /** `%u`: the decimal digits of the value, without leading zeros, at most ten of them; they read back as the value. */
  lemma UnsignedRoundTrip(n: u32)
    ensures var s := DecimalField(n, false);
      Numeral(s, 10, false) && Canonical(s) && Value(s, 10) == n && |s| <= 10
  {
    DecimalRoundTrip(n);
  }

  /** A canonical numeral of value zero is the single digit "0". */
  lemma CanonicalZero(s: string, b: nat, uc: bool)
    requires 2 <= b && Numeral(s, b, uc) && Canonical(s) && Value(s, b) == 0
    ensures s == "0"
  {
    assert IsDigitOf(s[0], b, uc);
    if |s| >= 2 {
      assert DigitValue(s[0]) >= 1;
      assert Value(s, b) >= DigitValue(s[0]) * Pow(b, |s| - 1);
      MulMonotone(1, DigitValue(s[0]), Pow(b, |s| - 1));
      assert false;
    } else {
      assert Value(s, b) == DigitValue(s[0]) * Pow(b, 0) + Value(s[1..], b);
      assert s == [s[0]];
    }
  }

  /** Zero renders as the single digit "0", in decimal and in hex. */
  lemma ZeroIsOneDigit(signed: bool, uc: bool)
    ensures DecimalField(0, signed) == "0"
    ensures HexField(0, uc) == "0"
  {
    DecimalZero();
    assert DecimalField(0, signed) == Decimal(0);
    HexZero(uc);
  }

  /** The decimal digits of zero. */
  lemma DecimalZero()
    ensures Decimal(0) == "0"
  {
    DecimalRoundTrip(0);
    CanonicalZero(Decimal(0), 10, false);
  }

  /** The hex digits of zero. */
  lemma HexZero(uc: bool)
    ensures HexField(0, uc) == "0"
  {
    HexRoundTrip(0, uc);
    CanonicalZero(HexField(0, uc), 16, uc);
  }

  /** The `int` a 32-bit pattern stands for in two's complement. */
  function Int32(n: u32): int
  {
    if n >= INT_MIN_BITS then n - U32_LIMIT else n
  }

  /** The value of an optionally signed decimal numeral. */
  function SignedValue(s: string): int
  {
    if s != [] && s[0] == '-' then 0 - Value(s[1..], 10) else Value(s, 10)
  }

  /**
   * `%d`: a negative `int` renders as '-' followed by the decimal digits of
   * its magnitude (INT_MIN included, through the two's-complement wrap); the
   * text reads back as the signed value and is at most eleven characters.
   */
  lemma SignedRoundTrip(n: u32)
    ensures var s := DecimalField(n, true);
      && SignedValue(s) == Int32(n)
      && |s| <= 11
      && (Int32(n) < 0 <==> (|s| > 0 && s[0] == '-'))
      && (Int32(n) < 0 ==> Numeral(s[1..], 10, false) && Canonical(s[1..]))
      && (Int32(n) >= 0 ==> Numeral(s, 10, false) && Canonical(s))
  {
    var s := DecimalField(n, true);
    if n >= INT_MIN_BITS {
      var t := Decimal(U32_LIMIT - n);
      assert s == ['-'] + t;
      DecimalRoundTrip(U32_LIMIT - n);
      Negated(s, t, U32_LIMIT - n);
    } else {
      var t := Decimal(n);
      assert s == t;
      DecimalRoundTrip(n);
      Unsigned(t, n);
    }
  }

  /** '-' and a numeral of value m: the text reads back as -m. */
  lemma Negated(s: string, t: string, m: nat)
    requires s == ['-'] + t && Numeral(t, 10, false) && Canonical(t) && Value(t, 10) == m
    ensures s[0] == '-' && s[1..] == t && |s| == |t| + 1 && SignedValue(s) == 0 - m
  {
    assert s[1..] == t;
  }

  /** A numeral of value m, without sign, reads back as m. */
  lemma Unsigned(t: string, m: nat)
    requires Numeral(t, 10, false) && Canonical(t) && Value(t, 10) == m
    ensures t[0] != '-' && SignedValue(t) == m
  {
    assert IsDigitOf(t[0], 10, false);
  }

  /** `%x` / `%X`: hex digits without leading zeros, at most eight, in the conversion's case; they read back as the value. */
  lemma HexRoundTrip(n: u32, uc: bool)
    ensures var s := HexField(n, uc);
      Numeral(s, 16, uc) && Canonical(s) && Value(s, 16) == n && |s| <= 8
  {
    HexBound(n);
    EmitRoundTrip(n, 16, 7, false, uc);
  }

  // ---------------------------------------------------------------- conversions

  /**
   * What each conversion takes and produces: `%c` the character with the low
   * eight bits of its `int` argument (none when those bits are zero), `%s`
   * the string up to its NUL, `%%` a '%' with no argument, an unknown
   * conversion nothing with no argument; a conversion that needs an argument
   * fails when none is left.
   */
  lemma Conversions(conv: char, c: int, s: string, rest: seq<Arg>)
    ensures Field('c', [Chr(c)] + rest) == Some((if c % 256 == 0 then [] else [(c % 256) as char], rest))
    ensures Field('s', [Str(s)] + rest) == Some((CString(s), rest))
    ensures Field('%', rest) == Some((['%'], rest))
    ensures conv !in {'u', 'd', 'x', 'X', 'c', 's', '%'} ==> Field(conv, rest) == Some(([], rest))
    ensures conv in {'u', 'd', 'x', 'X', 'c', 's'} ==> Field(conv, []).None?
  {
    assert ([Chr(c)] + rest)[1..] == rest;
    var ch := CharOf(c);
    assert ch == (c % 256) as char;
    assert [ch][1..] == [];
    assert CString([ch]) == if ch == '\0' then [] else [ch];
    assert ([Str(s)] + rest)[1..] == rest;
  }

  /**
   * The text a number or character conversion builds in the 12-byte scratch
   * buffer is at most 11 characters, leaving room for its terminator.
   */
  lemma ScratchFits(conv: char, args: seq<Arg>)
    requires conv != 's' && Field(conv, args).Some?
    ensures |Field(conv, args).value.0| <= 11
  {
    if conv in {'u', 'd', 'x', 'X'} {
      var n := args[0].n;
      UnsignedRoundTrip(n);
      SignedRoundTrip(n);
      HexRoundTrip(n, conv == 'X');
    }
  }

  /** Digit strings contain no NUL. */
  lemma NumeralNoNul(s: string, b: nat, uc: bool)
    requires Numeral(s, b, uc)
    ensures '\0' !in s
  {
  }

  /** `%u` and `%d` texts contain no NUL. */
  lemma DecimalNoNul(n: u32, signed: bool)
    ensures '\0' !in DecimalField(n, signed)
  {
    var s := DecimalField(n, signed);
    if signed && n >= INT_MIN_BITS {
      SignedRoundTrip(n);
      NumeralNoNul(s[1..], 10, false);
      assert s == [s[0]] + s[1..];
    } else {
      DecimalRoundTrip(n);
      NumeralNoNul(Decimal(n), 10, false);
    }
  }

  /** Field texts never contain NUL. */
  lemma FieldNoNul(conv: char, args: seq<Arg>)
    requires Field(conv, args).Some?
    ensures '\0' !in Field(conv, args).value.0
  {
    if conv in {'u', 'd'} {
      DecimalNoNul(args[0].n, conv == 'd');
    } else if conv in {'x', 'X'} {
      HexRoundTrip(args[0].n, conv == 'X');
      NumeralNoNul(HexField(args[0].n, conv == 'X'), 16, conv == 'X');
    }
  }

  // ---------------------------------------------------------------- width and padding

  predicate AllDecimal(s: string)
  {
    forall i :: 0 <= i < |s| ==> IsDecimalDigit(s[i])
  }

  lemma ModShift(x: int, p: nat, v: nat)
    ensures (ToByte(x) * p + v) % 256 == (x * p + v) % 256
  {
    var q := x / 256;
    assert x == 256 * q + ToByte(x);
    assert x * p + v == 256 * (q * p) + (ToByte(x) * p + v);
  }

  /**
   * The width loop reads a run of decimal digits: the width is the
   * running value times ten per digit plus the digits' value, kept modulo
   * 256 as in a `char`, and scanning stops at the first non-digit.
   */
  lemma {:induction false} ScanWidthValue(ds: string, rest: string, w: byte)
    requires AllDecimal(ds) && (rest == [] || !IsDecimalDigit(rest[0]))
    ensures ScanWidth(ds + rest, w) == (ToByte(w * Pow(10, |ds|) + Value(ds, 10)), rest)
    decreases |ds|
  {
    if ds == [] {
      assert ds + rest == rest;
    } else {
      var w' := ToByte(10 * w + ((ds[0] as int) - ('0' as int)));
      assert (ds + rest)[0] == ds[0];
      assert (ds + rest)[1..] == ds[1..] + rest;
      ScanWidthValue(ds[1..], rest, w');
      WidthDigit(w, ds);
    }
  }

  /** The width after the first of the digits `ds`, continued with the rest, is the width continued with all of them. */
  lemma WidthDigit(w: byte, ds: string)
    requires ds != [] && IsDecimalDigit(ds[0])
    ensures ToByte(ToByte(10 * w + ((ds[0] as int) - ('0' as int))) * Pow(10, |ds| - 1) + Value(ds[1..], 10))
         == ToByte(w * Pow(10, |ds|) + Value(ds, 10))
  {
    var d := (ds[0] as int) - ('0' as int);
    var p := Pow(10, |ds| - 1);
    assert Pow(10, |ds|) == 10 * p;
    assert DigitValue(ds[0]) == d;
    assert Value(ds, 10) == d * p + Value(ds[1..], 10);
    WidthStep(w, d, p, Value(ds[1..], 10));
  }

  /** One width digit: folding it in before or after the remaining digits gives the same byte. */
  lemma WidthStep(w: byte, d: nat, p: nat, v: nat)
    ensures ToByte(ToByte(10 * w + d) * p + v) == ToByte(w * (10 * p) + (d * p + v))
  {
    ModShift(10 * w + d, p, v);
    assert (10 * w + d) * p == w * (10 * p) + d * p;
  }

  /** A field and its padding: `max(w, |text|)` characters, the pad characters first, then the field. */
  lemma PaddedField(zeroFlag: bool, w: byte, text: string)
    ensures var out := Padding(zeroFlag, w, |text|) + text;
      && |out| == (if w > |text| then w as int else |text|)
      && out[|out| - |text|..] == text
      && forall i :: 0 <= i < |out| - |text| ==> out[i] == (if zeroFlag then '0' else ' ')
  {
    var out := Padding(zeroFlag, w, |text|) + text;
    assert out[|out| - |text|..] == text;
  }

  /** A directive as written: '%', the optional '0' flag, width digits, the conversion character. */
  function Directive(zeroFlag: bool, ds: string, conv: char): string
  {
    DirectiveHead(zeroFlag, ds) + [conv]
  }

  /**
   * A directive followed by more format: the output is the padding (pad
   * count from the width digits' value modulo 256, less the field length),
   * then the field, then the rest of the format's output with the arguments
   * the conversion left.
   */
  lemma DirectiveRenders(zeroFlag: bool, ds: string, conv: char, rest: string, args: seq<Arg>)
    requires AllDecimal(ds) && (!zeroFlag ==> ds == [] || ds[0] != '0')
    requires !IsDecimalDigit(conv) && conv != '\0'
    ensures var w := ToByte(Value(ds, 10));
      var f := Field(conv, args);
      Render(Directive(zeroFlag, ds, conv) + rest, args) ==
        if f.None? then None
        else
          var r := Render(rest, f.value.1);
          if r.None? then None else Some(Padding(zeroFlag, w, |f.value.0|) + f.value.0 + r.value)
  {
    var tail := [conv] + rest;
    var w := ToByte(Value(ds, 10));
    assert Render(Directive(zeroFlag, ds, conv) + rest, args) == Conversion(zeroFlag, w, tail, args) by {
      DirectiveWidth(zeroFlag, ds, tail, args);
      Assoc(DirectiveHead(zeroFlag, ds), [conv], rest);
    }
    ConversionStep(zeroFlag, w, conv, rest, args);
  }

  /** The conversion character selects the field; the padding goes before it and the rest of the format after. */
  lemma ConversionStep(zeroFlag: bool, w: byte, conv: char, rest: string, args: seq<Arg>)
    requires conv != '\0'
    ensures var f := Field(conv, args);
      Conversion(zeroFlag, w, [conv] + rest, args) ==
        if f.None? then None
        else
          var r := Render(rest, f.value.1);
          if r.None? then None else Some(Padding(zeroFlag, w, |f.value.0|) + f.value.0 + r.value)
  {
    assert ([conv] + rest)[0] == conv && ([conv] + rest)[1..] == rest;
  }

  /** '%', the optional '0' flag and the width digits. */
  function DirectiveHead(zeroFlag: bool, ds: string): string
  {
    ['%'] + (if zeroFlag then ['0'] else []) + ds
  }

  /** After '%', the flag and the width digits, the conversion starts with the width's value modulo 256. */
  lemma DirectiveWidth(zeroFlag: bool, ds: string, tail: string, args: seq<Arg>)
    requires AllDecimal(ds) && (!zeroFlag ==> ds == [] || ds[0] != '0')
    requires tail == [] || !IsDecimalDigit(tail[0])
    ensures Render(DirectiveHead(zeroFlag, ds) + tail, args) == Conversion(zeroFlag, ToByte(Value(ds, 10)), tail, args)
  {
    var fmt := DirectiveHead(zeroFlag, ds) + tail;
    FlagSkipped(zeroFlag, ds, tail);
    var after := if zeroFlag then fmt[2..] else fmt[1..];
    assert ScanWidth(after, 0) == (ToByte(Value(ds, 10)), tail) by {
      ScanWidthValue(ds, tail, 0);
      assert 0 * Pow(10, |ds|) == 0;
    }
  }

  /** The '0' flag is recognised exactly when written, and the width digits follow it. */
  lemma FlagSkipped(zeroFlag: bool, ds: string, tail: string)
    requires (!zeroFlag ==> ds == [] || ds[0] != '0') && (ds == [] ==> tail == [] || tail[0] != '0')
    ensures var fmt := DirectiveHead(zeroFlag, ds) + tail;
      && fmt != [] && fmt[0] == '%'
      && (|fmt| > 1 && fmt[1] == '0') == zeroFlag
      && (if zeroFlag then fmt[2..] else fmt[1..]) == ds + tail
  {
    var fmt := DirectiveHead(zeroFlag, ds) + tail;
    if zeroFlag {
      assert fmt == ['%', '0'] + (ds + tail);
    } else {
      assert fmt == ['%'] + (ds + tail);
    }
  }

  // ---------------------------------------------------------------- literal text, the end of the format

  /** `Plain` is the absence of '%'. */
  lemma {:induction false} PlainMeansNoPercent(fmt: string)
    ensures Plain(fmt) <==> '%' !in fmt
    decreases |fmt|
  {
    if fmt != [] {
      PlainMeansNoPercent(fmt[1..]);
      assert fmt == [fmt[0]] + fmt[1..];
    }
  }

  /** Text without '%' and NUL is copied verbatim ahead of what the rest of the format produces. */
  lemma {:induction false} LiteralCopied(lit: string, rest: string, args: seq<Arg>)
    requires '%' !in lit && '\0' !in lit
    ensures var r := Render(rest, args);
      Render(lit + rest, args) == if r.None? then None else Some(lit + r.value)
    decreases |lit|
  {
    var r := Render(rest, args);
    if lit == [] {
      assert lit + rest == rest;
      assert r.Some? ==> lit + r.value == r.value;
    } else {
      assert lit + rest == [lit[0]] + (lit[1..] + rest);
      LiteralStep(lit[0], lit[1..] + rest, args);
      LiteralCopied(lit[1..], rest, args);
      assert r.Some? ==> [lit[0]] + (lit[1..] + r.value) == lit + r.value;
    }
  }

  /** One literal character is copied ahead of what the rest of the format produces. */
  lemma LiteralStep(c: char, t: string, args: seq<Arg>)
    requires c != '%' && c != '\0'
    ensures var r := Render(t, args);
      Render([c] + t, args) == if r.None? then None else Some([c] + r.value)
  {
    assert ([c] + t)[0] == c && ([c] + t)[1..] == t;
  }

  /** A format without directives prints itself and the closing NUL. */
  lemma Verbatim(fmt: string, args: seq<Arg>)
    requires '%' !in fmt && '\0' !in fmt
    ensures Printf(fmt, args) == Some(fmt + ['\0'])
  {
    LiteralCopied(fmt, [], args);
    assert fmt + [] == fmt;
  }

  /**
   * A format that ends inside a directive (after '%', its flag or its width
   * digits) stops there: the text before it and the closing NUL are all
   * that is printed.
   */
  lemma TruncatedDirective(lit: string, zeroFlag: bool, ds: string, args: seq<Arg>)
    requires '%' !in lit && '\0' !in lit
    requires AllDecimal(ds) && (!zeroFlag ==> ds == [] || ds[0] != '0')
    ensures Printf(lit + DirectiveHead(zeroFlag, ds), args) == Some(lit + ['\0'])
  {
    var head := DirectiveHead(zeroFlag, ds);
    assert Render(head, args) == Some([]) by {
      DirectiveWidth(zeroFlag, ds, [], args);
      assert head + [] == head;
    }
    LiteralCopied(lit, head, args);
    assert lit + [] == lit;
  }

  /** Every call's output ends with its one NUL: nothing before the end is NUL. */
  lemma {:induction false} RenderNoNul(fmt: string, args: seq<Arg>)
    requires Render(fmt, args).Some?
    ensures '\0' !in Render(fmt, args).value
    decreases |fmt|
  {
    if fmt == [] || fmt[0] == '\0' {
    } else if fmt[0] != '%' {
      RenderNoNul(fmt[1..], args);
    } else {
      var zeroFlag := |fmt| > 1 && fmt[1] == '0';
      var afterFlag := if zeroFlag then fmt[2..] else fmt[1..];
      var (w, rest) := ScanWidth(afterFlag, 0);
      if rest != [] && rest[0] != '\0' {
        var f := Field(rest[0], args).value;
        FieldNoNul(rest[0], args);
        RenderNoNul(rest[1..], f.1);
        var pad := Padding(zeroFlag, w, |f.0|);
        assert '\0' !in pad;
      }
    }
  }

  /** `console_printf` always ends with exactly one NUL, its last character. */
  lemma OneTerminator(fmt: string, args: seq<Arg>)
    requires Printf(fmt, args).Some?
    ensures var out := Printf(fmt, args).value;
      |out| >= 1 && out[|out| - 1] == '\0' && '\0' !in out[..|out| - 1]
  {
    RenderNoNul(fmt, args);
    var t := Render(fmt, args).value;
    assert Printf(fmt, args).value[..|t|] == t;
  }
}
