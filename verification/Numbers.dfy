/**
 Printing and reading numbers: printnum of lab8/libs/printfmt.c and strtol of lab8/libs/string.c.

 The two are proved against the positional value of a digit string, and then to undo each other.
 */
module Numbers {
  import opened Common
  import opened Modular
  import opened Sink

  // ----- digit strings

  function DigitChar(d: nat): char
    requires d < 16
  {
    "0123456789abcdef"[d]
  }

  /** The value of `c` as a digit, 36 and above meaning that it is none. */
  function DigitOf(c: char): nat {
    if '0' <= c <= '9' then c as int - '0' as int
    else if 'a' <= c <= 'z' then c as int - 'a' as int + 10
    else if 'A' <= c <= 'Z' then c as int - 'A' as int + 10
    else 36
  }

  /** The digits that printnum emits.  In base 1 only 0 has any: for every other number the C function does
      not come to an end. */
  function Digits(n: nat, base: nat): (r: seq<char>)
    requires 1 <= base <= 16 && (base == 1 ==> n == 0)
    ensures |r| >= 1
    decreases n
  {
    if n < base then [DigitChar(n)]
    else Digits(Quotient(n, base), base) + [DigitChar(Remainder(n, base))]
  }

  /** The number a digit string stands for. */
  function Value(s: seq<char>, base: nat): nat {
    if s == [] then 0 else Mul(base, Value(s[..|s| - 1], base)) + DigitOf(s[|s| - 1])
  }

  ghost predicate AllDigits(s: seq<char>, base: nat) {
    forall i :: 0 <= i < |s| ==> DigitOf(s[i]) < base
  }

  /** A field of at least `width` characters, padded on the left. */
  function Field(text: seq<char>, width: int, padc: char): (r: seq<char>)
    ensures |r| == if width > |text| then width else |text|
  {
    Repeated(padc, width - |text|) + text
  }

  lemma FieldExtends(text: seq<char>, width: int, padc: char, c: char)
    ensures Field(text, width, padc) + [c] == Field(text + [c], width + 1, padc)
  {
  }

  lemma {:induction false} OneDigitField(width: int, padc: char, c: char)
    ensures Repeated(padc, width - 1) + [c] == Field([c], width, padc)
  {
  }

  // ----- printing

  /** The number that the k-th nested call of printnum is given. */
  function Rest(num: nat, base: nat, k: nat): nat
    requires base >= 1
  {
    if k == 0 then num else Quotient(Rest(num, base, k - 1), base)
  }

  lemma {:induction false} RestShifts(num: nat, base: nat, k: nat)
    requires base >= 1
    ensures Rest(Quotient(num, base), base, k) == Rest(num, base, k + 1)
  {
    if k == 0 {
      assert Rest(num, base, 0) == num;
    } else {
      RestShifts(num, base, k - 1);
    }
  }

  lemma {:induction false} RestEnds(num: nat, base: nat) returns (k: nat)
    requires base >= 2
    ensures Rest(num, base, k) < base
  {
    if num < base {
      k := 0;
    } else {
      k := RestEnds(Quotient(num, base), base);
      RestShifts(num, base, k);
      k := k + 1;
    }
  }

  lemma {:induction false} RestInBaseOne(num: nat, k: nat)
    ensures Rest(num, 1, k) == num
  {
    if k == 0 {
    } else {
      RestInBaseOne(num, k - 1);
      QuotientByOne(num);
    }
  }

  /** The recursion of printnum comes to an end, some nested call being given less than the base, if and only
      if the base is 2 or more or the number is 0. */
  lemma PrintNumEndsIff(num: nat, base: nat)
    requires base >= 1
    ensures (exists k :: Rest(num, base, k) < base) <==> base >= 2 || num == 0
  {
    if base >= 2 {
      var k := RestEnds(num, base);
    } else if num == 0 {
      assert Rest(num, base, 0) < base;
    } else {
      forall k: nat
        ensures Rest(num, base, k) >= base
      {
        RestInBaseOne(num, k);
      }
    }
  }

  /** In base 1, which the comment on printnum admits, 1 is never printed. */
  lemma {:induction false} OneInBaseOne(k: nat)
    ensures Rest(1, 1, k) == 1
  {
    RestInBaseOne(1, k);
  }

  /** printnum, for exactly the bases and numbers for which it ends. */
  method PrintNum(sink: SprintBuf, num: nat, base: nat, width: int, padc: char)
    requires sink.Valid() && 1 <= base <= 16 && (base == 1 ==> num == 0)
    modifies sink, sink.mem
    ensures sink.Valid() && sink.out == old(sink.out) + Field(Digits(num, base), width, padc)
    decreases num
  {
    hide Field, DigitChar;
    var result, mod := num / base, num % base;
    DivisionIs(num, base);
    ghost var pending: seq<char>;
    if num >= base {
      PrintNum(sink, result, base, width - 1, padc);
      FieldExtends(Digits(result, base), width - 1, padc, DigitChar(mod));
      pending := Field(Digits(result, base), width - 1, padc);
    } else {
      var w := width - 1;
      while w > 0
        invariant sink.Valid()
        invariant sink.out + Repeated(padc, w) == old(sink.out) + Repeated(padc, width - 1)
      {
        assert Repeated(padc, w) == [padc] + Repeated(padc, w - 1);
        sink.Put(padc);
        w := w - 1;
      }
      pending := Repeated(padc, width - 1);
      assert Repeated(padc, w) == [];
      OneDigitField(width, padc, DigitChar(mod));
    }
    assert sink.out == old(sink.out) + pending;
    sink.Put(DigitChar(mod));
    assert sink.out == old(sink.out) + (pending + [DigitChar(mod)]);
  }

  // ----- reading

  const LONG_MAX: int := 0x7fff_ffff_ffff_ffff

  /** The value of a 64-bit long after wrap-around. */
  function Wrap(v: int): (w: int)
    ensures -LONG_MAX - 1 <= w <= LONG_MAX
    ensures -LONG_MAX - 1 <= v <= LONG_MAX ==> w == v
  {
    (v + LONG_MAX + 1) % WORD64 - LONG_MAX - 1
  }

  lemma WrapIgnoresMultiples(v: int, k: int)
    ensures Wrap(k * WORD64 + v) == Wrap(v)
  {
    ModOfMultiple(v + LONG_MAX + 1, k, WORD64);
  }

  /** Wrapping at every step of a multiplication and addition is wrapping at the end. */
  lemma WrapStep(v: int, base: int, d: int)
    ensures Wrap(Wrap(v) * base + d) == Wrap(v * base + d)
  {
    var k := (v + LONG_MAX + 1) / WORD64;
    assert v == k * WORD64 + Wrap(v);
    var kb := k * base;
    assert v * base == kb * WORD64 + Wrap(v) * base;
    WrapIgnoresMultiples(Wrap(v) * base + d, kb);
  }

  lemma NegateWrapped(v: int)
    ensures Wrap(-Wrap(v)) == Wrap(-v)
  {
    WrapStep(v, -1, 0);
  }

  /** The character at `i` of a NUL-terminated string. */
  function At(s: seq<char>, i: nat): char
    requires i <= |s|
  {
    if i == |s| then NUL else s[i]
  }

  function BlanksEnd(s: seq<char>, i: nat): (e: nat)
    requires i <= |s|
    ensures i <= e <= |s|
    decreases |s| - i
  {
    if At(s, i) == ' ' || At(s, i) == '\t' then BlanksEnd(s, i + 1) else i
  }

  predicate IsDigitIn(c: char, base: int) {
    ('0' <= c <= '9' || 'a' <= c <= 'z' || 'A' <= c <= 'Z') && DigitOf(c) < base
  }

  function DigitsEnd(s: seq<char>, i: nat, base: int): (e: nat)
    requires i <= |s|
    ensures i <= e <= |s| && (base <= 0 ==> e == i)
    decreases |s| - i
  {
    if IsDigitIn(At(s, i), base) then DigitsEnd(s, i + 1, base) else i
  }

  /** What precedes the digits: where they begin, in which base they are, and the sign. */
  datatype Head = Head(first: nat, base: int, neg: bool)

  /** Where the blanks and the sign end. */
  function SignEnd(s: seq<char>): (i: nat)
    ensures i <= |s|
  {
    var b := BlanksEnd(s, 0);
    if At(s, b) == '-' || At(s, b) == '+' then b + 1 else b
  }

  /** The text at `i` starts with a zero and then `x`. */
  predicate PrefixAt(s: seq<char>, i: nat, x: char)
    requires i <= |s|
  {
    At(s, i) == '0' && At(s, i + 1) == x
  }

  function HeadOf(s: seq<char>, base: int): (h: Head)
    ensures h.first <= |s|
  {
    var neg, i := At(s, BlanksEnd(s, 0)) == '-', SignEnd(s);
    if (base == 0 || base == 16) && PrefixAt(s, i, 'x') then Head(i + 2, 16, neg)
    else if base == 0 && At(s, i) == '0' then Head(i + 1, 8, neg)
    else Head(i, if base == 0 then 10 else base, neg)
  }

  function Signed(neg: bool, v: int): int {
    Wrap(if neg then -v else v)
  }

  /** The value of the longest run of digits behind a head, and where it ends. */
  function ParsedFrom(s: seq<char>, h: Head): (int, nat)
    requires h.first <= |s|
  {
    var e := DigitsEnd(s, h.first, h.base);
    (Signed(h.neg, Value(s[h.first..e], Radix(h.base))), e)
  }

  /** What strtol answers. */
  function Parsed(s: seq<char>, base: int): (int, nat) {
    ParsedFrom(s, HeadOf(s, base))
  }

  /** The base as a factor; a negative one has no digits that it could multiply. */
  function Radix(base: int): nat {
    if base < 0 then 0 else base
  }

  /** Blanks, sign and base prefix. */
  method ReadHead(s: seq<char>, base: int) returns (i: nat, b: int, neg: bool)
    ensures Head(i, b, neg) == HeadOf(s, base)
  {
    i, b, neg := 0, base, false;
    while At(s, i) == ' ' || At(s, i) == '\t'
      invariant i <= |s| && BlanksEnd(s, i) == BlanksEnd(s, 0)
      decreases |s| - i
    {
      i := i + 1;
    }
    if At(s, i) == '+' {
      i := i + 1;
    } else if At(s, i) == '-' {
      i, neg := i + 1, true;
    }
    if (b == 0 || b == 16) && At(s, i) == '0' && At(s, i + 1) == 'x' {
      i, b := i + 2, 16;
    } else if b == 0 && At(s, i) == '0' {
      i, b := i + 1, 8;
    } else if b == 0 {
      b := 10;
    }
  }

  lemma {:induction false} NothingRead(s: seq<char>, base: nat)
    requires s == []
    ensures Wrap(Value(s, base)) == 0
  {
  }

  lemma {:induction false} ValueOfOneMore(s: seq<char>, first: nat, i: nat, base: nat)
    requires first <= i < |s|
    ensures Wrap(Wrap(Value(s[first..i], base)) * base + DigitOf(s[i])) == Wrap(Value(s[first..i + 1], base))
  {
    var v := Value(s[first..i], base);
    assert s[first..i + 1] == s[first..i] + [s[i]];
    ValueSnoc(s[first..i], s[i], base);
    MulIsProduct(base, v);
    WrapStep(v, base, DigitOf(s[i]));
  }

  /** The digit loop of strtol. */
  method ReadDigits(s: seq<char>, first: nat, base: int) returns (val: int, i: nat)
    requires first <= |s|
    ensures i == DigitsEnd(s, first, base) && val == Wrap(Value(s[first..i], Radix(base)))
  {
    hide Wrap, Value;
    i, val := first, 0;
    NothingRead(s[first..first], Radix(base));
    while true
      invariant first <= i <= |s| && DigitsEnd(s, i, base) == DigitsEnd(s, first, base)
      invariant val == Wrap(Value(s[first..i], Radix(base)))
      decreases |s| - i
    {
      var c := At(s, i);
      var dig;
      if '0' <= c <= '9' {
        dig := c as int - '0' as int;
      } else if 'a' <= c <= 'z' {
        dig := c as int - 'a' as int + 10;
      } else if 'A' <= c <= 'Z' {
        dig := c as int - 'A' as int + 10;
      } else {
        break;
      }
      if dig >= base {
        break;
      }
      ValueOfOneMore(s, first, i, base);
      i, val := i + 1, Wrap(val * base + dig);
    }
  }

  /** strtol, on a string that ends at the first NUL.  The base may be any number. */
  method Strtol(s: seq<char>, base: int) returns (val: int, end: nat)
    requires NUL !in s
    ensures (val, end) == Parsed(s, base)
  {
    var i, b, neg := ReadHead(s, base);
    val, end := ReadDigits(s, i, b);
    NegateWrapped(Value(s[i..end], Radix(b)));
    if neg {
      val := Wrap(-val);
    }
  }

  // ----- what the comment on strtol says

  /** Whitespace: blank, tab, newline, vertical tab, form feed, carriage return. */
  predicate IsSpace(c: char) {
    c == ' ' || 9 <= c as int <= 13
  }

  function SpacesEnd(s: seq<char>, i: nat): (e: nat)
    requires i <= |s|
    ensures i <= e <= |s|
    decreases |s| - i
  {
    if i < |s| && IsSpace(s[i]) then SpacesEnd(s, i + 1) else i
  }

  /** As many whitespace characters as there are, a sign, and the prefix 0x, or in base 16 either 0x or 0X. */
  function DocumentedHead(s: seq<char>, base: int): (h: Head)
    ensures SpacesEnd(s, 0) <= h.first <= |s|
  {
    var b := SpacesEnd(s, 0);
    var neg := At(s, b) == '-';
    var i := if neg || At(s, b) == '+' then b + 1 else b;
    if (base == 0 || base == 16) && PrefixAt(s, i, 'x') then Head(i + 2, 16, neg)
    else if base == 16 && PrefixAt(s, i, 'X') then Head(i + 2, 16, neg)
    else if base == 0 then (if At(s, i) == '0' then Head(i + 1, 8, neg) else Head(i, 10, neg))
    else Head(i, base, neg)
  }

  /** Behind the blanks and tabs there is whitespace of another kind. */
  predicate OtherSpace(s: seq<char>) {
    var b := BlanksEnd(s, 0);
    b < |s| && IsSpace(s[b])
  }

  lemma {:induction false} SpacesBehindBlanks(s: seq<char>, i: nat)
    requires i <= |s|
    ensures BlanksEnd(s, i) <= SpacesEnd(s, i)
    ensures var b := BlanksEnd(s, i);
      SpacesEnd(s, i) == b <==> !(b < |s| && IsSpace(s[b]))
    decreases |s| - i
  {
    if i == |s| {
    } else if s[i] == ' ' || s[i] == '\t' {
      SpacesBehindBlanks(s, i + 1);
    } else {
      assert BlanksEnd(s, i) == i;
    }
  }

  /** Where other whitespace stops it, strtol reads nothing. */
  lemma {:induction false} StopsAtSpace(s: seq<char>, base: int)
    requires OtherSpace(s)
    ensures HeadOf(s, base).first == BlanksEnd(s, 0) == Parsed(s, base).1
  {
    var b := BlanksEnd(s, 0);
    assert At(s, b) == s[b];
    assert SignEnd(s) == b;
    assert DigitsEnd(s, b, HeadOf(s, base).base) == b;
  }

  /** A capital X stops it behind the zero. */
  lemma StopsAtCapital(s: seq<char>)
    requires PrefixAt(s, SignEnd(s), 'X')
    ensures HeadOf(s, 16).first == SignEnd(s) && Parsed(s, 16).1 == SignEnd(s) + 1
  {
    var i := SignEnd(s);
    assert HeadOf(s, 16) == Head(i, 16, HeadOf(s, 16).neg);
    assert DigitOf(At(s, i)) == 0 && DigitOf(At(s, i + 1)) == 33;
    assert DigitsEnd(s, i + 1, 16) == i + 1;
  }

  /** The head of a number is found as documented if and only if there is no whitespace but blanks and tabs
      before it, and no 0X in base 16. */
  lemma HeadAsDocumentedIff(s: seq<char>, base: int)
    ensures HeadOf(s, base) == DocumentedHead(s, base)
       <==> !OtherSpace(s) && !(base == 16 && PrefixAt(s, SignEnd(s), 'X'))
  {
    SpacesBehindBlanks(s, 0);
    if OtherSpace(s) {
      StopsAtSpace(s, base);
    } else if base == 16 && PrefixAt(s, SignEnd(s), 'X') {
      StopsAtCapital(s);
    }
  }

  /** strtol answers what its comment promises if and only if the same holds: otherwise it always stops too
      early. */
  lemma ParsedAsDocumentedIff(s: seq<char>, base: int)
    ensures Parsed(s, base) == ParsedFrom(s, DocumentedHead(s, base))
       <==> !OtherSpace(s) && !(base == 16 && PrefixAt(s, SignEnd(s), 'X'))
  {
    HeadAsDocumentedIff(s, base);
    SpacesBehindBlanks(s, 0);
    if OtherSpace(s) {
      StopsAtSpace(s, base);
    } else if base == 16 && PrefixAt(s, SignEnd(s), 'X') {
      StopsAtCapital(s);
    }
  }

  /** A newline stops strtol at once. */
  lemma NewlineIsNotSkipped(s: seq<char>)
    requires s == "\n7"
    ensures Parsed(s, 10) == (0, 0) && ParsedFrom(s, DocumentedHead(s, 10)) == (7, 2)
  {
    assert BlanksEnd(s, 0) == 0;
    StopsAtSpace(s, 10);
    assert SpacesEnd(s, 1) == 1 && SpacesEnd(s, 0) == 1;
    assert DocumentedHead(s, 10) == Head(1, 10, false);
    assert DigitsEnd(s, 2, 10) == 2 && DigitsEnd(s, 1, 10) == 2;
    assert s[1..2] == [] + ['7'];
    ValueSnoc([], '7', 10);
    assert s[0..0] == [];
  }

  /** "0X1f" in base 16 is read as the 0 in front of the X. */
  lemma CapitalPrefix(s: seq<char>)
    requires s == "0X1f"
    ensures Parsed(s, 16) == (0, 1) && DocumentedHead(s, 16) == Head(2, 16, false)
  {
    assert BlanksEnd(s, 0) == 0 && SpacesEnd(s, 0) == 0 && SignEnd(s) == 0;
    StopsAtCapital(s);
    assert s[0..1] == [] + ['0'];
    ValueSnoc([], '0', 16);
  }

  // ----- round trips

  lemma DigitCharIsDigit(d: nat)
    requires d < 16
    ensures DigitOf(DigitChar(d)) == d && DigitChar(d) != ' ' && DigitChar(d) != '\t'
  {
  }

  lemma {:induction false} ValueSnoc(t: seq<char>, c: char, base: nat)
    ensures Value(t + [c], base) == Mul(base, Value(t, base)) + DigitOf(c)
  {
    assert (t + [c])[..|t|] == t;
  }

  lemma {:induction false} DigitsAreDigits(n: nat, base: nat)
    requires 2 <= base <= 16
    ensures AllDigits(Digits(n, base), base)
    decreases n
  {
    if n < base {
      DigitCharIsDigit(n);
    } else {
      DigitsAreDigits(Quotient(n, base), base);
      DigitCharIsDigit(Remainder(n, base));
    }
  }

  /** The digits of a number spell its value. */
  lemma {:induction false} DigitsSpellValue(n: nat, base: nat)
    requires 2 <= base <= 16
    ensures Value(Digits(n, base), base) == n
    decreases n
  {
    if n < base {
      DigitCharIsDigit(n);
      ValueSnoc([], DigitChar(n), base);
      assert [] + [DigitChar(n)] == [DigitChar(n)];
    } else {
      var q, r := Quotient(n, base), Remainder(n, base);
      DivisionLaw(n, base);
      DigitsSpellValue(q, base);
      DigitCharIsDigit(r);
      ValueSnoc(Digits(q, base), DigitChar(r), base);
    }
  }

  lemma {:induction false} LeadingZeros(k: int, t: seq<char>, base: nat)
    requires AllDigits(t, base) && base >= 2
    ensures AllDigits(Repeated('0', k) + t, base) && Value(Repeated('0', k) + t, base) == Value(t, base)
    decreases |t|
  {
    var z := Repeated('0', k);
    if t == [] {
      assert z + t == z;
      ZerosAreZero(k, base);
    } else {
      LeadingZeros(k, t[..|t| - 1], base);
      assert (z + t)[..|z + t| - 1] == z + t[..|t| - 1];
    }
  }

  lemma {:induction false} ZerosAreZero(k: int, base: nat)
    ensures Value(Repeated('0', k), base) == 0
    decreases k
  {
    if k <= 0 {
    } else {
      ZerosAreZero(k - 1, base);
      assert Repeated('0', k)[..k - 1] == Repeated('0', k - 1);
    }
  }

  lemma {:induction false} SkipsBlanks(k: nat, t: seq<char>, i: nat)
    requires i <= k && At(t, 0) != ' ' && At(t, 0) != '\t'
    ensures BlanksEnd(Repeated(' ', k) + t, i) == k
    decreases k - i
  {
    var s := Repeated(' ', k) + t;
    if i == k {
      assert At(s, k) == At(t, 0);
    } else {
      SkipsBlanks(k, t, i + 1);
      assert At(s, i) == ' ';
    }
  }

  lemma {:induction false} ReadsAllDigits(s: seq<char>, i: nat, base: nat)
    requires i <= |s| && base <= 36 && forall j :: i <= j < |s| ==> DigitOf(s[j]) < base
    ensures DigitsEnd(s, i, base) == |s|
    decreases |s| - i
  {
    if i == |s| {
    } else {
      ReadsAllDigits(s, i + 1, base);
    }
  }

  lemma {:induction false} HeadOfDigits(k: nat, t: seq<char>, base: nat)
    requires 2 <= base <= 16 && t != [] && AllDigits(t, base)
    ensures HeadOf(Repeated(' ', k) + t, base) == Head(k, base, false)
  {
    var s := Repeated(' ', k) + t;
    assert DigitOf(t[0]) < base;
    SkipsBlanks(k, t, 0);
    assert At(s, k) == t[0];
    if |t| > 1 {
      assert At(s, k + 1) == t[1] && DigitOf(t[1]) < base;
    }
  }

  /** Digits from `k` to the end are read to the end. */
  lemma {:induction false} ParsesTail(s: seq<char>, base: int, k: nat, b: nat, neg: bool)
    requires 2 <= b <= 16 && HeadOf(s, base) == Head(k, b, neg) && AllDigits(s[k..], b)
    ensures Parsed(s, base) == (Signed(neg, Value(s[k..], b)), |s|)
  {
    assert forall j :: k <= j < |s| ==> s[j] == s[k..][j - k];
    ReadsAllDigits(s, k, b);
    assert s[k..|s|] == s[k..];
  }

  /** Blanks followed by digits read as the value of the digits, to the end. */
  lemma {:induction false} ParsesDigits(k: nat, t: seq<char>, base: nat, s: seq<char>)
    requires 2 <= base <= 16 && t != [] && AllDigits(t, base) && s == Repeated(' ', k) + t
    ensures Parsed(s, base) == (Signed(false, Value(t, base)), |s|)
  {
    HeadOfDigits(k, t, base);
    assert s[k..] == t;
    ParsesTail(s, base, k, base, false);
  }

  lemma HeadOfNegated(t: seq<char>, base: nat)
    requires 2 <= base <= 16 && t != [] && (DigitOf(t[0]) < base || t[0] == ' ' || t[0] == '-')
    requires |t| > 1 ==> t[1] != 'x'
    ensures HeadOf(['-'] + t, base) == Head(1, base, true)
  {
    var s := ['-'] + t;
    assert At(s, 0) == '-' && At(s, 1) == t[0];
    if |t| > 1 {
      assert At(s, 2) == t[1];
    }
  }

  /** A minus sign followed by digits reads as the negated value, to the end. */
  lemma {:induction false} ParsesNegated(t: seq<char>, base: nat, s: seq<char>)
    requires 2 <= base <= 16 && t != [] && AllDigits(t, base) && s == ['-'] + t
    ensures Parsed(s, base) == (Signed(true, Value(t, base)), |s|)
  {
    assert DigitOf(t[0]) < base && (|t| > 1 ==> DigitOf(t[1]) < base);
    HeadOfNegated(t, base);
    assert s[1..] == t;
    ParsesTail(s, base, 1, base, true);
  }

  /** A minus sign followed by a blank or another one stops strtol after the sign. */
  lemma ParsesNothing(t: seq<char>, base: nat)
    requires 2 <= base <= 16 && t != [] && (t[0] == ' ' || t[0] == '-') && (|t| > 1 ==> t[1] != 'x')
    ensures Parsed(['-'] + t, base) == (0, 1)
  {
    var s := ['-'] + t;
    HeadOfNegated(t, base);
    assert At(s, 1) == t[0];
    assert s[1..1] == [];
  }

  lemma {:induction false} FieldParses(d: seq<char>, base: nat, width: int, padc: char, text: seq<char>)
    requires 2 <= base <= 16 && d != [] && AllDigits(d, base) && (padc == ' ' || padc == '0')
    requires text == Field(d, width, padc)
    ensures Parsed(text, base) == (Signed(false, Value(d, base)), |text|)
  {
    if padc == ' ' {
      var k := if width > |d| then width - |d| else 0;
      assert Repeated(' ', width - |d|) == Repeated(' ', k);
      ParsesDigits(k, d, base, text);
    } else {
      LeadingZeros(width - |d|, d, base);
      assert Repeated(' ', 0) + text == text;
      ParsesDigits(0, text, base, text);
    }
  }

  /** Digits padded on the left with minus signs: one of them negates the number, more than one hide it. */
  lemma {:induction false} MinusPaddedParses(d: seq<char>, base: nat, width: int, text: seq<char>)
    requires 2 <= base <= 16 && d != [] && AllDigits(d, base) && text == Field(d, width, '-')
    ensures Parsed(text, base) ==
      if width <= |d| then (Signed(false, Value(d, base)), |text|)
      else if width == |d| + 1 then (Signed(true, Value(d, base)), |text|) else (0, 1)
  {
    assert DigitOf(d[0]) < base;
    if width <= |d| {
      assert Repeated('-', width - |d|) == [] == Repeated(' ', 0);
      ParsesDigits(0, d, base, text);
    } else {
      var t := Field(d, width - 1, '-');
      assert text == ['-'] + t;
      if width == |d| + 1 {
        assert t == d;
        ParsesNegated(d, base, text);
      } else {
        assert t[0] == '-' && (t[1] == '-' || t[1] == d[0]);
        ParsesNothing(t, base);
      }
    }
  }

  /** The pad characters of the formatter. */
  predicate IsPad(c: char) {
    c == ' ' || c == '0' || c == '-'
  }

  lemma FieldIsLong(text: seq<char>, width: int, padc: char)
    ensures |Field(text, width, padc)| >= |text| && |Field(text, width, padc)| >= width
  {
  }

  lemma {:induction false} ZeroIsOneDigit(n: nat, base: nat)
    requires 2 <= base <= 16
    ensures n == 0 ==> |Digits(n, base)| == 1
  {
  }

  /** strtol reads back what printnum prints, and stops at the end, exactly if the number is a long and, where
      the padding consists of minus signs, there is none of it, or a single one in front of 0. */
  lemma {:induction false} PrintedReadsBackIff(n: nat, base: nat, width: int, padc: char, text: seq<char>)
    requires 2 <= base <= 16 && IsPad(padc) && text == Field(Digits(n, base), width, padc)
    ensures Parsed(text, base) == (n, |text|)
       <==> n <= LONG_MAX && (padc != '-' || width <= |Digits(n, base)| || (n == 0 && width == 2))
  {
    hide Digits, Field, Parsed, Value;
    var d := Digits(n, base);
    DigitsAreDigits(n, base);
    DigitsSpellValue(n, base);
    ZeroIsOneDigit(n, base);
    FieldIsLong(d, width, padc);
    if padc == '-' {
      MinusPaddedParses(d, base, width, text);
    } else {
      FieldParses(d, base, width, padc, text);
    }
  }

  /** A negative number is printed with its sign before the padding, so it reads back exactly when it is a long
      and the padding consists of zeros or there is none. */
  lemma {:induction false} NegativeReadsBackIff(n: nat, base: nat, width: int, padc: char, text: seq<char>, minus: int)
    requires 2 <= base <= 16 && 1 <= n && minus == 0 - n && IsPad(padc)
    requires text == ['-'] + Field(Digits(n, base), width, padc)
    ensures Parsed(text, base) == (minus, |text|)
       <==> n <= LONG_MAX + 1 && (padc == '0' || width <= |Digits(n, base)|)
  {
    var d := Digits(n, base);
    DigitsAreDigits(n, base);
    DigitsSpellValue(n, base);
    NegatedFieldParses(d, base, width, padc, text);
  }

  lemma {:induction false} NegatedFieldParses(d: seq<char>, base: nat, width: int, padc: char, text: seq<char>)
    requires 2 <= base <= 16 && d != [] && AllDigits(d, base) && IsPad(padc)
    requires text == ['-'] + Field(d, width, padc)
    ensures Parsed(text, base) == if padc == '0' || width <= |d| then (Signed(true, Value(d, base)), |text|) else (0, 1)
  {
    var t := Field(d, width, padc);
    if padc == '0' || width <= |d| {
      LeadingZeros(width - |d|, d, base);
      assert width <= |d| ==> t == d;
      ParsesNegated(t, base, text);
    } else {
      assert DigitOf(d[0]) < base;
      assert t[1] == padc || t[1] == d[0];
      ParsesNothing(t, base);
    }
  }
}
