/**
 Laws of the conversions of lab8/libs/printfmt.c that print text, of widths and precisions taken from the arguments,
 and of the characters that stand for digits there and in lab8/libs/string.c.
 */
module TextLaws {
  import opened Common
  import opened Sink
  import opened Modular
  import opened Numbers
  import opened Printf
  import opened FormatLaws

  // ----- strings and characters

  /** `out` shows the first `n` characters of `t`, from `at` on. */
  ghost predicate ShownAt(out: seq<char>, t: seq<char>, n: nat, at: nat, alt: bool) {
    && n <= |t| && at + n <= |out|
    && forall j :: 0 <= j < n ==> out[at + j] == if alt && (t[j] < ' ' || t[j] > '~') then '?' else t[j]
  }

  lemma StringFieldIs(t: seq<char>, f: Flags, n: nat, at: int, out: seq<char>)
    requires out == StringField(t, f) && n == (if 0 <= f.precision < |t| then f.precision else |t|)
    requires at == if f.padc == '-' then 0 else |out| - n
    ensures |out| == (if f.width > n then f.width else n) && ShownAt(out, t, n, at, f.alt)
    ensures (forall j :: 0 <= j < at ==> out[j] == f.padc) && (forall j :: at + n <= j < |out| ==> out[j] == ' ')
  {
  }

  /** %s prints the string, "(null)" for a null pointer, cut to the precision, with '?' for what cannot be printed if
      there is a '#': on the left behind nothing and before blanks if there is a '-', else on the right behind the pad
      characters. */
  lemma {:induction false} StringIsPrinted(f: Flags, args: Args, fmt: CText)
    requires Writable(f) && fmt == ['%'] + Spelled(f) + ['s']
    ensures var out, t := Formatted(fmt, 0, 0, args), if args(0).bits == 0 then "(null)" else args(0).text;
      var n := if 0 <= f.precision < |t| then f.precision else |t|;
      var at := if f.padc == '-' then 0 else |out| - n;
      && |out| == (if f.width > n then f.width else n) && ShownAt(out, t, n, at, f.alt)
      && (forall j :: 0 <= j < at ==> out[j] == f.padc) && (forall j :: at + n <= j < |out| ==> out[j] == ' ')
  {
    hide Formatted, Spelled, StringField, ShownAt;
    assert fmt[0..] == fmt;
    SpelledEscapeLast(fmt, 0, f, 's', args);
    var out, t := Formatted(fmt, 0, 0, args), if args(0).bits == 0 then "(null)" else args(0).text;
    var n := if 0 <= f.precision < |t| then f.precision else |t|;
    StringFieldIs(t, f, n, if f.padc == '-' then 0 else |out| - n, out);
  }

  /** %c prints one byte. */
  lemma {:induction false} CharIsPrinted(f: Flags, args: Args, fmt: CText)
    requires Writable(f) && fmt == ['%'] + Spelled(f) + ['c']
    ensures var out := Formatted(fmt, 0, 0, args);
      |out| == 1 && out[0] as int == args(0).bits % 256
  {
    hide Formatted, Spelled;
    assert fmt[0..] == fmt;
    SpelledEscapeLast(fmt, 0, f, 'c', args);
  }

  /** %% prints a percent sign and takes no argument. */
  lemma PercentIsPrinted(args: Args, fmt: CText, a: nat)
    requires fmt == "%%"
    ensures EscapeAt(fmt, 0, a, args) == Step("%", 2, a)
  {
    assert Scanned(fmt, 1, PLAIN, a, args) == Scan(PLAIN, 1, a);
  }

  // ----- error codes

  /** The messages by their codes; there are none for 0, 7, 11 and 12. */
  function Messages(): (r: seq<seq<char>>)
    ensures |r| == 25
  {
    ["", "unspecified error", "bad process", "invalid parameter", "out of memory", "out of processes",
     "segmentation fault", "", "invalid elf file", "process is killed", "panic failure", "", "", "no such device",
     "device not available", "device/file is busy", "no such file or directory", "is a directory", "not a directory",
     "cross device link", "unimplemented feature", "illegal seek", "too many files are open",
     "file or directory already exists", "directory is not empty"]
  }

  lemma MessageOf(e: nat)
    requires e < 25
    ensures ErrorString(e) == Messages()[e]
  {
  }

  /** %e prints the message of a code of either sign, and for a code without one the word error and the absolute value,
      which reads back. */
  lemma {:induction false} ErrorIsPrinted(f: Flags, args: Args, fmt: CText, code: int)
    requires Writable(f) && fmt == ['%'] + Spelled(f) + ['e'] && HoldsSigned(args(0).bits, 0, code)
    ensures var out, e := Formatted(fmt, 0, 0, args), if code < 0 then -code else code;
      if e < 25 && Messages()[e] != "" then out == Messages()[e]
      else |out| > 6 && out[..6] == "error " && Parsed(out[6..], 10) == (e, |out| - 6)
  {
    hide Formatted, Spelled, Messages, ErrorString, Parsed;
    SignedIsTakenOut(args(0).bits, 0, code);
    assert fmt[0..] == fmt;
    SpelledEscapeLast(fmt, 0, f, 'e', args);
    var e := if code < 0 then -code else code;
    if e < 25 {
      MessageOf(e);
    }
    var text := SignedField(e, PLAIN);
    SignedReadsBackIff(e, PLAIN);
    assert ("error " + text)[6..] == text && ("error " + text)[..6] == "error ";
  }

  // ----- widths and precisions from the arguments

  /** %*d takes the width from one argument and the number from the next. */
  lemma {:induction false} StarIsWidth(args: Args, fmt: CText, w: int, v: int)
    requires fmt == "%*d" && HoldsSigned(args(0).bits, 0, w) && HoldsSigned(args(1).bits, 0, v)
    ensures Formatted(fmt, 0, 0, args) == SignedField(v, PLAIN.(width := w))
  {
    SignedIsTakenOut(args(0).bits, 0, w);
    SignedIsTakenOut(args(1).bits, 0, v);
    var f := PLAIN.(width := w);
    assert Scanned(fmt, 2, f, 1, args) == Scan(f, 2, 1);
    assert Scanned(fmt, 1, PLAIN, 0, args) == Scan(f, 2, 1);
    assert Formatted(fmt, 3, 2, args) == [];
    assert SignedField(v, f) + [] == SignedField(v, f);
  }

  /** %.*s takes from one argument how much of the string in the next it prints. */
  lemma {:induction false} StarIsPrecision(args: Args, fmt: CText, n: int)
    requires fmt == "%.*s" && HoldsSigned(args(0).bits, 0, n) && n >= 0 && args(1).bits != 0
    ensures var t := args(1).text;
      Formatted(fmt, 0, 0, args) == if n <= |t| then t[..n] else t
  {
    hide StringField, NumberAt;
    SignedIsTakenOut(args(0).bits, 0, n);
    var f, t := PLAIN.(width := 0, precision := n), args(1).text;
    assert Scanned(fmt, 3, f, 1, args) == Scan(f, 3, 1);
    assert Scanned(fmt, 2, PLAIN.(width := 0), 0, args) == Scan(f, 3, 1);
    assert Scanned(fmt, 1, PLAIN, 0, args) == Scan(f, 3, 1);
    assert Formatted(fmt, 4, 2, args) == [];
    CutString(t, f);
    assert StringField(t, f) + [] == StringField(t, f);
  }

  lemma CutString(t: seq<char>, f: Flags)
    requires f == PLAIN.(width := 0, precision := f.precision) && f.precision >= 0
    ensures StringField(t, f) == if f.precision <= |t| then t[..f.precision] else t
  {
    var cut := if f.precision <= |t| then t[..f.precision] else t;
    assert Cut(t, f.precision) == cut && Shown(cut, false) == cut;
    assert Repeated(' ', 0 - |cut|) == [];
    assert [] + cut == cut;
  }

  // ----- digits

  const LOWER: seq<char> := "0123456789abcdefghijklmnopqrstuvwxyz"
  const UPPER: seq<char> := "0123456789ABCDEFGHIJKLMNOPQRSTUVWXYZ"

  ghost predicate AllSmall(r: seq<char>) {
    forall j :: 0 <= j < |r| ==> '0' <= r[j] <= '9' || 'a' <= r[j] <= 'f'
  }

  /** Numbers are printed with decimal digits and small letters. */
  lemma {:induction false} DigitsAreSmall(n: nat, base: nat)
    requires 2 <= base <= 16
    ensures AllSmall(Digits(n, base))
    decreases n
  {
    if n < base {
      DigitIsSmall(n);
    } else {
      DigitsAreSmall(Quotient(n, base), base);
      DigitIsSmall(Remainder(n, base));
    }
  }

  lemma DigitIsSmall(d: nat)
    requires d < 16
    ensures '0' <= DigitChar(d) <= '9' || 'a' <= DigitChar(d) <= 'f'
  {
  }

  /** strtol takes small and capital letters for the same digits. */
  lemma OneDigit(d: nat, base: int)
    requires d < base <= 36
    ensures Parsed([LOWER[d]], base) == (d, 1) && Parsed([UPPER[d]], base) == (d, 1)
  {
    hide Parsed, DigitOf;
    SmallLetter(d);
    CapitalLetter(d);
    DigitReads(LOWER[d], d, base);
    DigitReads(UPPER[d], d, base);
  }

  lemma SmallLetter(d: nat)
    requires d < 36
    ensures DigitOf(LOWER[d]) == d
  {
  }

  lemma CapitalLetter(d: nat)
    requires d < 36
    ensures DigitOf(UPPER[d]) == d
  {
  }

  lemma {:induction false} DigitReads(c: char, d: nat, base: int)
    requires d < base <= 36 && DigitOf(c) == d
    ensures Parsed([c], base) == (d, 1)
  {
    var s := [c];
    assert BlanksEnd(s, 0) == 0 && SignEnd(s) == 0 && At(s, 0) == c && At(s, 1) == NUL;
    assert HeadOf(s, base) == Head(0, base, false);
    assert DigitsEnd(s, 1, base) == 1 && DigitsEnd(s, 0, base) == 1;
    assert s[0..1] == [] + [c];
    ValueSnoc([], c, base);
  }
}
