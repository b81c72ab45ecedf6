/**
 Laws of the formats of lab8/libs/printfmt.c: ordinary and unknown text is copied, an escape spelled from
 its flags is read as those flags, and printed numbers are read back by strtol.
 */
module FormatLaws {
  import opened Common
  import opened Sink
  import opened Modular
  import opened Numbers
  import opened Printf

  // ----- copied text

  /** Text without percent signs is copied. */
  lemma {:induction false} LiteralText(fmt: CText, i: nat, j: nat, a: nat, args: Args)
    requires i <= j <= |fmt| && forall k :: i <= k < j ==> fmt[k] != '%'
    ensures Formatted(fmt, i, a, args) == fmt[i..j] + Formatted(fmt, j, a, args)
    decreases j - i
  {
    if i == j {
    } else {
      LiteralText(fmt, i + 1, j, a, args);
      assert fmt[i..j] == [fmt[i]] + fmt[i + 1..j];
      Associate([fmt[i]], fmt[i + 1..j], Formatted(fmt, j, a, args));
    }
  }

  /** An escape that ends in an unknown character is copied up to that character, although the interpreter
      has read past it and backed up; only the arguments taken by its stars stay taken. */
  lemma UnknownEscapeIsCopied(fmt: CText, i: nat, a: nat, args: Args)
    requires i < |fmt| && fmt[i] == '%'
    requires !IsConversion(At(fmt, Scanned(fmt, i + 1, PLAIN, a, args).at))
    ensures var sc := Scanned(fmt, i + 1, PLAIN, a, args);
      Formatted(fmt, i, a, args) == fmt[i..sc.at] + Formatted(fmt, sc.at, sc.arg, args)
  {
    var sc := Scanned(fmt, i + 1, PLAIN, a, args);
    LiteralText(fmt, i + 1, sc.at, sc.arg, args);
    assert fmt[i..sc.at] == ['%'] + fmt[i + 1..sc.at];
    Associate(['%'], fmt[i + 1..sc.at], Formatted(fmt, sc.at, sc.arg, args));
  }

  // ----- spelling an escape

  /** Flags that can be written down: a width is a positive number or absent, and so is a precision, which
      needs a dot before it. */
  ghost predicate Writable(f: Flags) {
    && IsPad(f.padc)
    && (f.width == -1 || f.width >= 1 || (f.width == 0 && f.precision >= 1))
    && (f.precision == -1 || (f.precision >= 1 && f.width >= 0))
  }

  function PadText(padc: char): seq<char> {
    if padc == ' ' then [] else [padc]
  }

  function AltText(alt: bool): seq<char> {
    if alt then ['#'] else []
  }

  function WidthText(width: int): seq<char> {
    if width >= 1 then Digits(width, 10) else []
  }

  function PrefixText(f: Flags): seq<char> {
    PadText(f.padc) + AltText(f.alt)
  }

  function NumbersText(f: Flags): seq<char> {
    WidthText(f.width) + PrecisionText(f.precision)
  }

  function PrecisionText(precision: int): seq<char> {
    if precision >= 1 then ['.'] + Digits(precision, 10) else []
  }

  /** The modifiers that set the flags `f`. */
  function Spelled(f: Flags): seq<char> {
    PrefixText(f) + (NumbersText(f) + Repeated('l', f.lflag))
  }

  // ----- reading the spelling

  lemma {:induction false} LeadingDigit(n: nat)
    requires n >= 1
    ensures IsDigit(Digits(n, 10)[0]) && Digits(n, 10)[0] != '0'
    decreases n
  {
    if n < 10 {
    } else {
      DivisionLaw(n, 10);
      assert Quotient(n, 10) == 1 + Quotient(n - 10, 10);
      LeadingDigit(Quotient(n, 10));
    }
  }

  lemma {:induction false} DecimalDigits(n: nat)
    ensures forall k :: 0 <= k < |Digits(n, 10)| ==> IsDigit(Digits(n, 10)[k])
    decreases n
  {
    if n < 10 {
    } else {
      DecimalDigits(Quotient(n, 10));
    }
  }

  /** Reading a run of digits accumulates its value. */
  lemma {:induction false} NumberReads(fmt: CText, i: nat, e: nat, start: nat)
    requires start < i <= e <= |fmt| && !IsDigit(At(fmt, e))
    requires forall k :: start <= k < e ==> IsDigit(fmt[k])
    ensures NumberAt(fmt, i, Value(fmt[start..i], 10)) == (Value(fmt[start..e], 10), e)
    decreases e - i
  {
    if i == e {
    } else {
      NumberReads(fmt, i + 1, e, start);
      ValueSnoc(fmt[start..i], fmt[i], 10);
      MulIsProduct(10, Value(fmt[start..i], 10));
      assert fmt[start..i + 1] == fmt[start..i] + [fmt[i]];
    }
  }

  lemma {:induction false} ScanNumber(fmt: CText, i: nat, e: nat, n: nat, f: Flags, a: nat, args: Args)
    requires n >= 1 && i <= e <= |fmt| && fmt[i..e] == Digits(n, 10) && !IsDigit(At(fmt, e))
    ensures Scanned(fmt, i, f, a, args) == Scanned(fmt, e, WithNumber(f, n), a, args)
  {
    hide Digits, Scanned, NumberAt, Value, IsDigit, DigitOf, WithNumber;
    LeadingDigit(n);
    DecimalDigits(n);
    assert forall k :: i <= k < e ==> fmt[k] == fmt[i..e][k - i];
    assert fmt[i] == fmt[i..e][0];
    NumberReads(fmt, i + 1, e, i);
    DigitsSpellValue(n, 10);
    SingleDigit(fmt[i]);
    assert fmt[i..i + 1] == [fmt[i]];
    ScanDigit(fmt, i, f, a, args);
  }

  lemma {:induction false} SingleDigit(c: char)
    ensures Value([c], 10) == DigitOf(c)
  {
    ValueSnoc([], c, 10);
    assert [] + [c] == [c];
  }

  lemma ScanDigit(fmt: CText, i: nat, f: Flags, a: nat, args: Args)
    requires i < |fmt| && IsDigit(fmt[i]) && fmt[i] != '0'
    ensures var r := NumberAt(fmt, i + 1, DigitOf(fmt[i]));
      Scanned(fmt, i, f, a, args) == Scanned(fmt, r.1, WithNumber(f, r.0), a, args)
  {
  }

  lemma {:induction false} ScanLongs(fmt: CText, i: nat, n: nat, f: Flags, a: nat, args: Args)
    requires i + n <= |fmt| && forall k :: i <= k < i + n ==> fmt[k] == 'l'
    ensures Scanned(fmt, i, f, a, args) == Scanned(fmt, i + n, f.(lflag := f.lflag + n), a, args)
    decreases n
  {
    if n == 0 {
    } else {
      ScanLongs(fmt, i + 1, n - 1, f.(lflag := f.lflag + 1), a, args);
    }
  }

  /** A slice that is a concatenation splits into the slices of its parts. */
  lemma SplitSlice(fmt: seq<char>, i: nat, e: nat, u: seq<char>, v: seq<char>) returns (j: nat)
    requires i <= e <= |fmt| && fmt[i..e] == u + v
    ensures j == i + |u| <= e && fmt[i..j] == u && fmt[j..e] == v
  {
    j := i + |u|;
    var t := fmt[i..e];
    assert t[..|u|] == u && t[|u|..] == v;
    assert fmt[i..j] == t[..|u|];
    assert fmt[j..e] == t[|u|..];
  }

  lemma {:induction false} ScanPad(fmt: CText, i: nat, e: nat, padc: char, f: Flags, a: nat, args: Args)
    requires IsPad(padc) && i <= e <= |fmt| && fmt[i..e] == PadText(padc) && f.padc == ' '
    ensures Scanned(fmt, i, f, a, args) == Scanned(fmt, e, f.(padc := padc), a, args)
  {
    if padc != ' ' {
      assert e == i + 1 && fmt[i] == fmt[i..e][0] == padc;
    } else {
      assert e == i;
    }
  }

  lemma {:induction false} ScanAlt(fmt: CText, i: nat, e: nat, alt: bool, f: Flags, a: nat, args: Args)
    requires i <= e <= |fmt| && fmt[i..e] == AltText(alt) && !f.alt
    ensures Scanned(fmt, i, f, a, args) == Scanned(fmt, e, f.(alt := alt), a, args)
  {
    if alt {
      assert e == i + 1 && fmt[i] == fmt[i..e][0] == '#';
    } else {
      assert e == i;
    }
  }

  /** The pad and alternate-form flags. */
  lemma {:induction false} ScanPrefix(fmt: CText, i: nat, e: nat, f: Flags, a: nat, args: Args)
    requires IsPad(f.padc) && i <= e <= |fmt| && fmt[i..e] == PrefixText(f)
    ensures Scanned(fmt, i, PLAIN, a, args) == Scanned(fmt, e, PLAIN.(padc := f.padc, alt := f.alt), a, args)
  {
    var j := SplitSlice(fmt, i, e, PadText(f.padc), AltText(f.alt));
    ScanPad(fmt, i, j, f.padc, PLAIN, a, args);
    ScanAlt(fmt, j, e, f.alt, PLAIN.(padc := f.padc), a, args);
  }

  lemma ScanWidth(fmt: CText, i: nat, e: nat, width: int, g: Flags, a: nat, args: Args)
    requires g.width == -1 && g.precision == -1
    requires i <= e <= |fmt| && fmt[i..e] == WidthText(width) && !IsDigit(At(fmt, e))
    ensures Scanned(fmt, i, g, a, args) == Scanned(fmt, e, if width >= 1 then g.(width := width) else g, a, args)
  {
    if width >= 1 {
      ScanNumber(fmt, i, e, width, g, a, args);
    } else {
      assert e == i;
    }
  }

  lemma ScanDot(fmt: CText, i: nat, g: Flags, a: nat, args: Args)
    requires i < |fmt| && fmt[i] == '.'
    ensures Scanned(fmt, i, g, a, args) ==
      Scanned(fmt, i + 1, if g.width < 0 then g.(width := 0) else g, a, args)
  {
  }

  lemma ScanPrecision(fmt: CText, i: nat, e: nat, precision: int, g: Flags, a: nat, args: Args)
    requires g.precision == -1 && precision >= 1
    requires i <= e <= |fmt| && fmt[i..e] == PrecisionText(precision) && !IsDigit(At(fmt, e))
    ensures Scanned(fmt, i, g, a, args) ==
      Scanned(fmt, e, g.(width := if g.width < 0 then 0 else g.width, precision := precision), a, args)
  {
    var j := SplitSlice(fmt, i, e, ['.'], Digits(precision, 10));
    assert fmt[i..j][0] == '.';
    ScanDot(fmt, i, g, a, args);
    ScanNumber(fmt, j, e, precision, if g.width < 0 then g.(width := 0) else g, a, args);
  }

  lemma DotFirst(fmt: CText, i: nat, e: nat, precision: int)
    requires i <= e <= |fmt| && fmt[i..e] == PrecisionText(precision) && !IsDigit(At(fmt, e))
    ensures !IsDigit(At(fmt, i)) && (precision < 1 ==> i == e)
  {
    if precision >= 1 {
      assert fmt[i] == fmt[i..e][0] == '.';
    } else {
      assert |fmt[i..e]| == 0;
    }
  }

  /** The width and the precision. */
  lemma {:induction false} ScanNumbers(fmt: CText, i: nat, e: nat, f: Flags, g: Flags, a: nat, args: Args)
    requires Writable(f) && g.width == -1 && g.precision == -1
    requires i <= e <= |fmt| && fmt[i..e] == NumbersText(f) && !IsDigit(At(fmt, e))
    ensures Scanned(fmt, i, g, a, args) == Scanned(fmt, e, g.(width := f.width, precision := f.precision), a, args)
  {
    var j := SplitSlice(fmt, i, e, WidthText(f.width), PrecisionText(f.precision));
    DotFirst(fmt, j, e, f.precision);
    ScanWidth(fmt, i, j, f.width, g, a, args);
    if f.precision >= 1 {
      ScanPrecision(fmt, j, e, f.precision, if f.width >= 1 then g.(width := f.width) else g, a, args);
    }
  }

  lemma {:induction false} ScanSuffix(fmt: CText, i: nat, e: nat, f: Flags, g: Flags, a: nat, args: Args)
    requires i <= e < |fmt| && fmt[i..e] == Repeated('l', f.lflag) && IsConversion(fmt[e])
    requires g == f.(lflag := 0)
    ensures Scanned(fmt, i, g, a, args) == Scan(f, e, a) && !IsDigit(At(fmt, i))
  {
    assert |fmt[i..e]| == f.lflag;
    assert forall n :: i <= n < e ==> fmt[n] == fmt[i..e][n - i];
    ScanLongs(fmt, i, f.lflag, g, a, args);
    ScanStops(fmt, e, f, a, args);
  }

  lemma {:induction false} ScanSpelled(fmt: CText, i: nat, e: nat, f: Flags, a: nat, args: Args)
    requires Writable(f) && i <= e < |fmt| && fmt[i..e] == Spelled(f) && IsConversion(fmt[e])
    ensures Scanned(fmt, i, PLAIN, a, args) == Scan(f, e, a)
  {
    var j := SplitSlice(fmt, i, e, PrefixText(f), NumbersText(f) + Repeated('l', f.lflag));
    var k := SplitSlice(fmt, j, e, NumbersText(f), Repeated('l', f.lflag));
    ScanSuffix(fmt, k, e, f, f.(lflag := 0), a, args);
    ScanNumbers(fmt, j, k, f, PLAIN.(padc := f.padc, alt := f.alt), a, args);
    ScanPrefix(fmt, i, j, f, a, args);
  }

  /** An escape spelled from its flags is read as those flags, wherever it stands in a format. */
  lemma SpelledEscape(fmt: CText, i: nat, f: Flags, c: char, a: nat, args: Args)
    requires Writable(f) && IsConversion(c)
    requires i + 2 + |Spelled(f)| <= |fmt| && fmt[i..i + 2 + |Spelled(f)|] == ['%'] + Spelled(f) + [c]
    ensures EscapeAt(fmt, i, a, args) ==
      Step(Rendered(c, f, args(a)), i + 2 + |Spelled(f)|, if c == '%' then a else a + 1)
  {
    hide Spelled, Rendered, Scanned, Writable;
    var end := i + 2 + |Spelled(f)|;
    var e := SplitSlice(fmt, i, end, ['%'] + Spelled(f), [c]);
    var j := SplitSlice(fmt, i, e, ['%'], Spelled(f));
    assert fmt[e] == fmt[e..end][0] == c;
    ScanSpelled(fmt, j, e, f, a, args);
  }

  lemma {:induction false} ScanStops(fmt: CText, i: nat, f: Flags, a: nat, args: Args)
    requires i < |fmt| && IsConversion(fmt[i])
    ensures Scanned(fmt, i, f, a, args) == Scan(f, i, a)
  {
  }

  // ----- numbers through a format and back

  /** The padding that %d puts before the digits of `v` does no harm: there is none, it consists of zeros, of
      blanks before a number without a sign, or of the one minus sign that makes 0 into -0. */
  predicate Harmless(v: int, f: Flags) {
    || f.width <= |Digits(if v < 0 then -v else v, 10)|
    || f.padc == '0'
    || (f.padc == ' ' && v >= 0)
    || (f.padc == '-' && v == 0 && f.width == 2)
  }

  /** A decimal printed by %d with any of the three pad characters is read back by strtol, to the end, exactly
      if it is a long and its padding is harmless. */
  lemma SignedReadsBackIff(v: int, f: Flags)
    requires IsPad(f.padc)
    ensures Parsed(SignedField(v, f), 10) == (v, |SignedField(v, f)|)
       <==> -LONG_MAX - 1 <= v <= LONG_MAX && Harmless(v, f)
  {
    if v >= 0 {
      PrintedReadsBackIff(v, 10, f.width, f.padc, SignedField(v, f));
    } else {
      NegativeReadsBackIff(-v, 10, f.width, f.padc, SignedField(v, f), v);
    }
  }

  /** %3d shows -7 as a sign, two blanks and a digit, which strtol does not read as -7. */
  lemma BlankAfterSign(f: Flags)
    requires f == PLAIN.(width := 3)
    ensures Parsed(SignedField(-7, f), 10) != (-7, |SignedField(-7, f)|)
  {
    assert |Digits(7, 10)| == 1;
    SignedReadsBackIff(-7, f);
  }

  /** %-2d shows 7 as "-7": the flag that is to pad on the right pads numbers on the left, with minus signs. */
  lemma MinusPadding(f: Flags)
    requires f == PLAIN.(padc := '-', width := 2)
    ensures SignedField(7, f) == "-7" && Parsed(SignedField(7, f), 10) == (-7, 2)
  {
    assert Digits(7, 10) == ['7'];
    assert Repeated('-', 1) == ['-'];
    DigitsAreDigits(7, 10);
    DigitsSpellValue(7, 10);
    MinusPaddedParses(['7'], 10, 2, SignedField(7, f));
  }

  /** The slot `bits` was filled with the int `v` or, where there is an l flag, with the long `v`. */
  predicate HoldsSigned(bits: Word, lflag: nat, v: int) {
    if lflag == 0 then -0x8000_0000 <= v < 0x8000_0000 && (bits - v) % 0x1_0000_0000 == 0
    else -0x8000_0000_0000_0000 <= v < 0x8000_0000_0000_0000 && (bits - v) % 0x1_0000_0000_0000_0000 == 0
  }

  /** The slot `bits` was filled with the unsigned int `v` or, where there is an l flag, with the unsigned long `v`. */
  predicate HoldsUnsigned(bits: Word, lflag: nat, v: nat) {
    if lflag == 0 then v < 0x1_0000_0000 && (bits - v) % 0x1_0000_0000 == 0 else v == bits
  }

  lemma SameResidue(x: int, y: int, m: int)
    requires m > 0 && (x - y) % m == 0 && 0 <= y < m
    ensures x % m == y
  {
    var q := (x - y) / m;
    assert x == q * m + y;
    ModOfMultiple(y, q, m);
    ModOfSmall(y, m);
  }

  lemma ShiftedResidue(x: int, y: int, m: int)
    requires m > 0 && (x - y) % m == 0
    ensures (x - (y + m)) % m == 0
  {
    ModOfMultiple(x - y, -1, m);
  }

  /** getint and getuint take out what was put in. */
  lemma SignedIsTakenOut(bits: Word, lflag: nat, v: int)
    requires HoldsSigned(bits, lflag, v)
    ensures SignedArg(bits, lflag) == v
  {
    var m := if lflag == 0 then WORD32 else WORD64;
    if v >= 0 {
      SameResidue(bits, v, m);
    } else {
      ShiftedResidue(bits, v, m);
      SameResidue(bits, v + m, m);
    }
  }

  lemma UnsignedIsTakenOut(bits: Word, lflag: nat, v: nat)
    requires HoldsUnsigned(bits, lflag, v)
    ensures UnsignedArg(bits, lflag) == v
  {
    if lflag == 0 {
      SameResidue(bits, v, WORD32);
    }
  }

  /** The same through a format string: the escape that spells `f` prints the number that was passed so that strtol
      recovers it, exactly if the padding is harmless. */
  lemma {:induction false} FormatReadsBack(f: Flags, args: Args, fmt: CText, v: int)
    requires Writable(f) && fmt == ['%'] + Spelled(f) + ['d'] && HoldsSigned(args(0).bits, f.lflag, v)
    ensures var text := Formatted(fmt, 0, 0, args);
      Parsed(text, 10) == (v, |text|) <==> Harmless(v, f)
  {
    SignedIsTakenOut(args(0).bits, f.lflag, v);
    assert fmt[0..] == fmt;
    SpelledEscapeLast(fmt, 0, f, 'd', args);
    SignedReadsBackIff(v, f);
  }

  /** The base of an unsigned conversion. */
  function BaseOf(c: char): nat {
    if c == 'u' then 10 else if c == 'o' then 8 else 16
  }

  /** %u, %o and %x through a format string: the number that was passed is recovered exactly if it is below 2^63
      and, where the padding is minus signs, there is none or a single one before 0. */
  lemma {:induction false} UnsignedReadsBackIff(f: Flags, c: char, args: Args, fmt: CText, v: nat)
    requires Writable(f) && c in "uox" && fmt == ['%'] + Spelled(f) + [c] && HoldsUnsigned(args(0).bits, f.lflag, v)
    ensures var text, base := Formatted(fmt, 0, 0, args), BaseOf(c);
      Parsed(text, base) == (v, |text|)
      <==> v <= LONG_MAX && (f.padc != '-' || f.width <= |Digits(v, base)| || (v == 0 && f.width == 2))
  {
    hide Parsed, Formatted, Digits, Field;
    UnsignedIsTakenOut(args(0).bits, f.lflag, v);
    var base := BaseOf(c);
    assert fmt[0..] == fmt;
    SpelledEscapeLast(fmt, 0, f, c, args);
    PrintedReadsBackIff(v, base, f.width, f.padc, Field(Digits(v, base), f.width, f.padc));
  }

  /** The head of a text that starts with 0x, in base 16 or with the base left open. */
  lemma HeadOfPointer(text: seq<char>, base: int)
    requires |text| >= 2 && text[0] == '0' && text[1] == 'x' && (base == 0 || base == 16)
    ensures HeadOf(text, base) == Head(2, 16, false)
  {
    assert BlanksEnd(text, 0) == 0;
    assert SignEnd(text) == 0;
  }

  /** A blank or a minus sign behind 0x stops strtol there. */
  lemma PointerStops(text: seq<char>, base: int)
    requires |text| >= 3 && text[0] == '0' && text[1] == 'x' && (base == 0 || base == 16)
    requires text[2] == ' ' || text[2] == '-'
    ensures Parsed(text, base) == (0, 2)
  {
    HeadOfPointer(text, base);
    assert DigitsEnd(text, 2, 16) == 2;
    assert text[2..2] == [];
  }

  lemma {:induction false} PointerFieldParses(d: seq<char>, f: Flags, base: int, text: seq<char>)
    requires d != [] && AllDigits(d, 16) && IsPad(f.padc) && (base == 0 || base == 16)
    requires text == ['0', 'x'] + Field(d, f.width, f.padc)
    ensures Parsed(text, base) ==
      if f.padc == '0' || f.width <= |d| then (Signed(false, Value(d, 16)), |text|) else (0, 2)
  {
    hide Parsed;
    var t := Field(d, f.width, f.padc);
    HeadOfPointer(text, base);
    assert text[2..] == t;
    if f.padc == '0' || f.width <= |d| {
      LeadingZeros(f.width - |d|, d, 16);
      assert f.width <= |d| ==> t == d;
      ParsesTail(text, base, 2, 16, false);
    } else {
      assert t[0] == f.padc && text[2] == t[0];
      PointerStops(text, base);
    }
  }

  /** %p: the padding comes between 0x and the digits, so the pointer is recovered exactly if it is below 2^63 and
      the padding is zeros or there is none. */
  lemma {:induction false} PointerReadsBackIff(f: Flags, args: Args, fmt: CText, base: int)
    requires Writable(f) && fmt == ['%'] + Spelled(f) + ['p'] && (base == 0 || base == 16)
    ensures var text, v := Formatted(fmt, 0, 0, args), args(0).bits;
      Parsed(text, base) == (v, |text|) <==> v <= LONG_MAX && (f.padc == '0' || f.width <= |Digits(v, 16)|)
  {
    hide Parsed, Formatted, Digits, Value, Field;
    var v := args(0).bits;
    var d := Digits(v, 16);
    assert fmt[0..] == fmt;
    SpelledEscapeLast(fmt, 0, f, 'p', args);
    DigitsAreDigits(v, 16);
    DigitsSpellValue(v, 16);
    FieldIsLong(d, f.width, f.padc);
    PointerFieldParses(d, f, base, ['0', 'x'] + Field(d, f.width, f.padc));
  }

  lemma {:induction false} SpelledEscapeLast(fmt: CText, i: nat, f: Flags, c: char, args: Args)
    requires Writable(f) && IsConversion(c) && i + 2 + |Spelled(f)| == |fmt|
    requires fmt[i..] == ['%'] + Spelled(f) + [c]
    ensures Formatted(fmt, i, 0, args) == Rendered(c, f, args(0))
  {
    assert fmt[i..|fmt|] == fmt[i..];
    SpelledEscape(fmt, i, f, c, 0, args);
    var text := Rendered(c, f, args(0));
    assert fmt[i] == fmt[i..][0] == '%';
    assert text + [] == text;
  }

  /** Text followed by %d, as in the message for an unknown error code: the text and the number. */
  lemma {:induction false} TextThenDecimal(pre: CText, fmt: CText, args: Args)
    requires '%' !in pre && fmt == pre + ['%', 'd']
    ensures Formatted(fmt, 0, 0, args) == pre + SignedField(AsInt(args(0).bits), PLAIN)
  {
    var n := |pre|;
    assert forall k :: 0 <= k < n ==> fmt[k] == pre[k];
    LiteralText(fmt, 0, n, 0, args);
    assert fmt[0..n] == pre;
    assert Spelled(PLAIN) == [];
    assert fmt[n..] == ['%'] + Spelled(PLAIN) + ['d'];
    SpelledEscapeLast(fmt, n, PLAIN, 'd', args);
  }
}
