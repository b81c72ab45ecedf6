/**
 The format interpreter of lab8/libs/printfmt.c: vprintfmt and vsnprintf.

 `Formatted` gives the meaning of a format string; the interpreter, which moves a cursor forwards over
 the escape and back again when it meets an escape it does not know, is proved to produce it.
 */
module Printf {
  import opened Common
  import opened Sink
  import opened Numbers

  const E_INVAL: int := 3
  const MAXERROR: int := 24

  type Word = w: int | 0 <= w < WORD64
  type CText = s: seq<char> | NUL !in s

  /** One slot of a va_list: its 64 bits and, if they are a pointer to a string, the string. */
  datatype Arg = Arg(bits: Word, text: CText)

  /** The slots of a va_list in order.  Slots beyond those passed hold something arbitrary. */
  type Args = nat -> Arg

  // ----- reading arguments

  function AsInt(bits: Word): int {
    var w := bits % WORD32;
    if w >= 0x8000_0000 then w - WORD32 else w
  }

  /** getint */
  function SignedArg(bits: Word, lflag: nat): int {
    if lflag == 0 then AsInt(bits) else Wrap(bits)
  }

  /** getuint */
  function UnsignedArg(bits: Word, lflag: nat): nat {
    if lflag == 0 then bits % WORD32 else bits
  }

  // ----- the escapes

  /** What the modifiers of an escape have set so far. */
  datatype Flags = Flags(padc: char, width: int, precision: int, lflag: nat, alt: bool)

  const PLAIN: Flags := Flags(' ', -1, -1, 0, false)

  /** A number among the modifiers is the width, or the precision once there is a width. */
  function WithNumber(f: Flags, n: int): Flags {
    if f.width < 0 then f.(width := n, precision := -1) else f.(precision := n)
  }

  predicate IsDigit(c: char) {
    '0' <= c <= '9'
  }

  /** The decimal number at `i` continued from `n`, and where it ends. */
  function NumberAt(fmt: CText, i: nat, n: nat): (r: (nat, nat))
    requires i <= |fmt|
    ensures i <= r.1 <= |fmt| && forall k :: i <= k < r.1 ==> IsDigit(fmt[k])
    decreases |fmt| - i
  {
    if IsDigit(At(fmt, i)) then NumberAt(fmt, i + 1, n * 10 + DigitOf(fmt[i])) else (n, i)
  }

  predicate IsModifier(c: char) {
    c == '-' || IsDigit(c) || c == '*' || c == '.' || c == '#' || c == 'l'
  }

  /** The end of the modifiers: what they set, the position behind them and the next argument. */
  datatype Scan = Scan(flags: Flags, at: nat, arg: nat)

  function Scanned(fmt: CText, i: nat, f: Flags, a: nat, args: Args): (r: Scan)
    requires i <= |fmt|
    ensures i <= r.at <= |fmt| && !IsModifier(At(fmt, r.at))
    ensures forall k :: i <= k < r.at ==> fmt[k] != '%'
    decreases |fmt| - i
  {
    var c := At(fmt, i);
    if c == '-' then Scanned(fmt, i + 1, f.(padc := '-'), a, args)
    else if c == '0' then Scanned(fmt, i + 1, f.(padc := '0'), a, args)
    else if IsDigit(c) then
      var (n, e) := NumberAt(fmt, i + 1, DigitOf(c));
      Scanned(fmt, e, WithNumber(f, n), a, args)
    else if c == '*' then Scanned(fmt, i + 1, WithNumber(f, AsInt(args(a).bits)), a + 1, args)
    else if c == '.' then Scanned(fmt, i + 1, if f.width < 0 then f.(width := 0) else f, a, args)
    else if c == '#' then Scanned(fmt, i + 1, f.(alt := true), a, args)
    else if c == 'l' then Scanned(fmt, i + 1, f.(lflag := f.lflag + 1), a, args)
    else Scan(f, i, a)
  }

  predicate IsConversion(c: char) {
    c in "cesduopx%"
  }

  // ----- what a conversion prints

  function Min(a: int, b: int): int {
    if a <= b then a else b
  }

  function Shown(text: seq<char>, alt: bool): (r: seq<char>)
    ensures |r| == |text|
    ensures forall i :: 0 <= i < |r| ==> r[i] == if alt && !(' ' <= text[i] <= '~') then '?' else text[i]
  {
    seq(|text|, i requires 0 <= i < |text| => if alt && !(' ' <= text[i] <= '~') then '?' else text[i])
  }

  function Cut(text: seq<char>, precision: int): seq<char> {
    if precision < 0 then text else text[..Min(precision, |text|)]
  }

  /** A string, cut to the precision and padded to the width; padding with '-' means blanks on the
      right. */
  function StringField(text: seq<char>, f: Flags): seq<char> {
    var cut := Cut(text, f.precision);
    var shown := Shown(cut, f.alt);
    if f.padc == '-' then shown + Repeated(' ', f.width - |cut|)
    else Repeated(f.padc, f.width - |cut|) + shown
  }

  function SignedField(v: int, f: Flags): seq<char> {
    if v < 0 then ['-'] + Field(Digits(-v, 10), f.width, f.padc) else Field(Digits(v, 10), f.width, f.padc)
  }

  /** The table of error messages, "" standing for a missing one. */
  function ErrorString(e: nat): seq<char> {
    if e == 1 then "unspecified error" else if e == 2 then "bad process"
    else if e == 3 then "invalid parameter" else if e == 4 then "out of memory"
    else if e == 5 then "out of processes" else if e == 6 then "segmentation fault"
    else if e == 8 then "invalid elf file" else if e == 9 then "process is killed"
    else if e == 10 then "panic failure" else if e == 13 then "no such device"
    else if e == 14 then "device not available" else if e == 15 then "device/file is busy"
    else if e == 16 then "no such file or directory" else if e == 17 then "is a directory"
    else if e == 18 then "not a directory" else if e == 19 then "cross device link"
    else if e == 20 then "unimplemented feature" else if e == 21 then "illegal seek"
    else if e == 22 then "too many files are open" else if e == 23 then "file or directory already exists"
    else if e == 24 then "directory is not empty" else ""
  }

  function ErrorText(err: int): seq<char> {
    var e := if err < 0 then -err else err;
    if e > MAXERROR || ErrorString(e) == "" then "error " + SignedField(e, PLAIN) else ErrorString(e)
  }

  function Rendered(c: char, f: Flags, arg: Arg): seq<char>
    requires IsConversion(c)
  {
    match c
    case 'c' => [(arg.bits % 256) as char]
    case 'e' => ErrorText(AsInt(arg.bits))
    case 's' => StringField(if arg.bits == 0 then "(null)" else arg.text, f)
    case 'd' => SignedField(SignedArg(arg.bits, f.lflag), f)
    case 'u' => Field(Digits(UnsignedArg(arg.bits, f.lflag), 10), f.width, f.padc)
    case 'o' => Field(Digits(UnsignedArg(arg.bits, f.lflag), 8), f.width, f.padc)
    case 'p' => ['0', 'x'] + Field(Digits(arg.bits, 16), f.width, f.padc)
    case 'x' => Field(Digits(UnsignedArg(arg.bits, f.lflag), 16), f.width, f.padc)
    case _ => "%"
  }

  /** The effect of one escape: its text, the position to go on from and the next argument.  After an
      unknown escape the percent sign is printed and the rest is read again as ordinary text. */
  datatype Step = Step(text: seq<char>, at: nat, arg: nat)

  function EscapeAt(fmt: CText, i: nat, a: nat, args: Args): (st: Step)
    requires i < |fmt|
    ensures i < st.at <= |fmt|
  {
    var sc := Scanned(fmt, i + 1, PLAIN, a, args);
    var c := At(fmt, sc.at);
    if IsConversion(c) then
      Step(Rendered(c, sc.flags, args(sc.arg)), sc.at + 1, if c == '%' then sc.arg else sc.arg + 1)
    else Step(['%'], i + 1, sc.arg)
  }

  /** The text that the format from position `i` on stands for, arguments being taken from `a` on. */
  function Formatted(fmt: CText, i: nat, a: nat, args: Args): seq<char>
    requires i <= |fmt|
    decreases |fmt| - i
  {
    if i == |fmt| then []
    else if fmt[i] != '%' then [fmt[i]] + Formatted(fmt, i + 1, a, args)
    else
      var st := EscapeAt(fmt, i, a, args);
      st.text + Formatted(fmt, st.at, st.arg, args)
  }

  // ----- the interpreter

  /** strnlen; a negative bound is a huge one once converted to size_t. */
  method Strnlen(text: seq<char>, len: int) returns (cnt: nat)
    ensures cnt == if len < 0 then |text| else Min(len, |text|)
  {
    cnt := 0;
    while (len < 0 || cnt < len) && cnt < |text|
      invariant cnt <= |text| && (len >= 0 ==> cnt <= len)
    {
      cnt := cnt + 1;
    }
  }

  /** The loop of %s that prints the characters, counting the width down as it goes. */
  method PutShown(sink: SprintBuf, p: seq<char>, f: Flags, width: int) returns (left: int)
    requires sink.Valid()
    modifies sink, sink.mem
    ensures sink.Valid() && sink.out == old(sink.out) + Shown(Cut(p, f.precision), f.alt)
    ensures left == width - |Cut(p, f.precision)|
  {
    ghost var shown := Shown(Cut(p, f.precision), f.alt);
    var precision, i := f.precision, 0;
    left := width;
    while i < |p| && (precision < 0 || precision - 1 >= 0)
      invariant 0 <= i <= |shown| && sink.Valid() && left == width - i
      invariant precision == if f.precision < 0 then f.precision else f.precision - i
      invariant sink.out == old(sink.out) + shown[..i]
      decreases |p| - i
    {
      if precision >= 0 {
        precision := precision - 1;
      }
      var ch := p[i];
      if f.alt && (ch < ' ' || ch > '~') {
        sink.Put('?');
      } else {
        sink.Put(ch);
      }
      i, left := i + 1, left - 1;
      assert shown[..i] == shown[..i - 1] + [shown[i - 1]];
    }
    assert shown[..i] == shown;
  }

  lemma {:induction false} StringFieldParts(p: seq<char>, f: Flags, left: int, right: int, o: seq<char>)
    requires var n := |Cut(p, f.precision)|;
      if f.padc == '-' then left <= 0 && right == f.width - n else left == f.width - n && right <= 0
    ensures o + Repeated(f.padc, left) + Shown(Cut(p, f.precision), f.alt) + Repeated(' ', right)
         == o + StringField(p, f)
  {
  }

  /** The padding before the characters of %s; the width that is left is returned. */
  method PutLeftPad(sink: SprintBuf, p: seq<char>, f: Flags) returns (width: int, ghost left: int)
    requires sink.Valid()
    modifies sink, sink.mem
    ensures sink.Valid() && sink.out == old(sink.out) + Repeated(f.padc, left)
    ensures var n := |Cut(p, f.precision)|;
      if f.padc == '-' then left <= 0 && width == f.width else left == f.width - n && width <= n
  {
    width, left := f.width, f.width - |Cut(p, f.precision)|;
    if width > 0 && f.padc != '-' {
      var n := Strnlen(p, f.precision);
      width := width - n;
      sink.PutMany(f.padc, width);
      if width > 0 {
        width := 0;
      }
    } else {
      left := if f.padc == '-' then 0 else left;
      assert Repeated(f.padc, left) == [];
    }
  }

  /** The case for %s. */
  method PutString(sink: SprintBuf, p: seq<char>, f: Flags)
    requires sink.Valid()
    modifies sink, sink.mem
    ensures sink.Valid() && sink.out == old(sink.out) + StringField(p, f)
  {
    var width;
    ghost var left;
    width, left := PutLeftPad(sink, p, f);
    width := PutShown(sink, p, f, width);
    sink.PutMany(' ', width);
    StringFieldParts(p, f, left, width, old(sink.out));
  }

  /** The case for %e. */
  method PutError(sink: SprintBuf, code: int)
    requires sink.Valid()
    modifies sink, sink.mem
    ensures sink.Valid() && sink.out == old(sink.out) + ErrorText(code)
  {
    var err := if code < 0 then -code else code;
    if err > MAXERROR || ErrorString(err) == "" {
      PutText(sink, "error ");
      PutSigned(sink, err, PLAIN);
    } else {
      PutText(sink, ErrorString(err));
    }
  }

  method PutText(sink: SprintBuf, text: seq<char>)
    requires sink.Valid()
    modifies sink, sink.mem
    ensures sink.Valid() && sink.out == old(sink.out) + text
  {
    for i := 0 to |text|
      invariant sink.Valid() && sink.out == old(sink.out) + text[..i]
    {
      sink.Put(text[i]);
      assert text[..i + 1] == text[..i] + [text[i]];
    }
    assert text[..|text|] == text;
  }

  lemma Associate(a: seq<char>, b: seq<char>, c: seq<char>)
    ensures a + b + c == a + (b + c)
  {
  }

  /** The case for %d. */
  method PutSigned(sink: SprintBuf, v: int, f: Flags)
    requires sink.Valid()
    modifies sink, sink.mem
    ensures sink.Valid() && sink.out == old(sink.out) + SignedField(v, f)
  {
    var num := v;
    if num < 0 {
      sink.Put('-');
      num := -num;
      Associate(old(sink.out), ['-'], Field(Digits(num, 10), f.width, f.padc));
    }
    PrintNum(sink, num, 10, f.width, f.padc);
  }

  /** The conversions, once the modifiers have been read. */
  method PutConversion(sink: SprintBuf, c: char, f: Flags, arg: Arg)
    requires sink.Valid() && IsConversion(c)
    modifies sink, sink.mem
    ensures sink.Valid() && sink.out == old(sink.out) + Rendered(c, f, arg)
  {
    match c {
      case 'c' => sink.Put((arg.bits % 256) as char);
      case 'e' => PutError(sink, AsInt(arg.bits));
      case 's' => PutString(sink, if arg.bits == 0 then "(null)" else arg.text, f);
      case 'd' => PutSigned(sink, SignedArg(arg.bits, f.lflag), f);
      case 'u' => PrintNum(sink, UnsignedArg(arg.bits, f.lflag), 10, f.width, f.padc);
      case 'o' => PrintNum(sink, UnsignedArg(arg.bits, f.lflag), 8, f.width, f.padc);
      case 'p' =>
        sink.Put('0');
        sink.Put('x');
        PrintNum(sink, arg.bits, 16, f.width, f.padc);
      case 'x' => PrintNum(sink, UnsignedArg(arg.bits, f.lflag), 16, f.width, f.padc);
      case _ => sink.Put('%');
    }
  }

  /** The width loop: `ch` is the first digit, already read. */
  method ReadNumber(fmt: CText, i: nat, ch: char) returns (n: nat, e: nat)
    requires i <= |fmt| && IsDigit(ch)
    ensures (n, e) == NumberAt(fmt, i, DigitOf(ch))
  {
    n, e := 0, i;
    var c := ch;
    while true
      invariant i <= e <= |fmt| && IsDigit(c)
      invariant NumberAt(fmt, e, n * 10 + DigitOf(c)) == NumberAt(fmt, i, DigitOf(ch))
      decreases |fmt| - e
    {
      n := n * 10 + DigitOf(c);
      c := At(fmt, e);
      if c < '0' || c > '9' {
        break;
      }
      e := e + 1;
    }
  }

  /** The turns of the escape switch that jump back to its head; `ch` is the first character that is no
      modifier. */
  method ReadModifiers(fmt: CText, start: nat, arg: nat, args: Args)
    returns (ch: char, sc: Scan)
    requires start <= |fmt|
    ensures sc == Scanned(fmt, start, PLAIN, arg, args) && ch == At(fmt, sc.at)
  {
    var p, a, f := start, arg, PLAIN;
    while true
      invariant p <= |fmt| && Scanned(fmt, p, f, a, args) == Scanned(fmt, start, PLAIN, arg, args)
      decreases |fmt| - p
    {
      ch := At(fmt, p);
      p := p + 1;
      match ch {
        case '-' => f := f.(padc := '-');
        case '0' => f := f.(padc := '0');
        case '*' => f, a := WithNumber(f, AsInt(args(a).bits)), a + 1;
        case '.' => if f.width < 0 { f := f.(width := 0); }
        case '#' => f := f.(alt := true);
        case 'l' => f := f.(lflag := f.lflag + 1);
        case _ =>
          if !IsDigit(ch) {
            return ch, Scan(f, p - 1, a);
          }
          var n, e := ReadNumber(fmt, p, ch);
          f, p := WithNumber(f, n), e;
      }
    }
  }

  /** The backward scan after an unknown escape: to just behind the nearest percent sign. */
  method BackUp(fmt: CText, from: nat, ghost escape: nat) returns (p: nat)
    requires escape < from <= |fmt| && fmt[escape] == '%' && forall k :: escape < k < from ==> fmt[k] != '%'
    ensures p == escape + 1
  {
    p := from;
    while fmt[p - 1] != '%'
      invariant escape < p <= from
      decreases p
    {
      p := p - 1;
    }
  }

  /** One escape, entered with the cursor behind its percent sign. */
  method PutEscape(sink: SprintBuf, fmt: CText, start: nat, arg: nat, args: Args) returns (p: nat, a: nat)
    requires sink.Valid() && 1 <= start <= |fmt| && fmt[start - 1] == '%'
    modifies sink, sink.mem
    ensures sink.Valid()
    ensures var st := EscapeAt(fmt, start - 1, arg, args);
      sink.out == old(sink.out) + st.text && p == st.at && a == st.arg
  {
    var ch, sc := ReadModifiers(fmt, start, arg, args);
    if IsConversion(ch) {
      PutConversion(sink, ch, sc.flags, args(sc.arg));
      p, a := sc.at + 1, if ch == '%' then sc.arg else sc.arg + 1;
    } else {
      sink.Put('%');
      p := BackUp(fmt, sc.at, start - 1);
      a := sc.arg;
    }
  }

  /** One character or one escape; nothing at the end of the format. */
  method PutStep(sink: SprintBuf, fmt: CText, p: nat, a: nat, args: Args)
    returns (more: bool, p': nat, a': nat, ghost text: seq<char>)
    requires sink.Valid() && p <= |fmt|
    modifies sink, sink.mem
    ensures sink.Valid() && sink.out == old(sink.out) + text
    ensures more == (p < |fmt|) && (more ==> p < p' <= |fmt|)
    ensures Formatted(fmt, p, a, args) == if more then text + Formatted(fmt, p', a', args) else text
  {
    var ch := At(fmt, p);
    more, p', a', text := ch != NUL, p + 1, a, [];
    if !more {
      return;
    }
    if ch != '%' {
      sink.Put(ch);
      text := [ch];
    } else {
      text := EscapeAt(fmt, p, a, args).text;
      p', a' := PutEscape(sink, fmt, p', a, args);
    }
  }

  /** vprintfmt.  The cursor `p` never passes the terminating NUL: every read is of a position that is at
      most the length of the format. */
  method VPrintFmt(sink: SprintBuf, fmt: CText, args: Args)
    requires sink.Valid()
    modifies sink, sink.mem
    ensures sink.Valid() && sink.out == old(sink.out) + Formatted(fmt, 0, 0, args)
  {
    var p, a, more := 0, 0, true;
    ghost var text;
    while more
      invariant p <= |fmt| && sink.Valid()
      invariant old(sink.out) + Formatted(fmt, 0, 0, args) ==
                if more then sink.out + Formatted(fmt, p, a, args) else sink.out
      decreases more, |fmt| - p
    {
      ghost var before := sink.out;
      var p', a';
      more, p', a', text := PutStep(sink, fmt, p, a, args);
      if more {
        Associate(before, text, Formatted(fmt, p', a', args));
        p, a := p', a';
      }
    }
  }

  /** The memory `before` with as much of `full` at `s` as `size` bytes hold, and a NUL behind it. */
  function Truncated(before: seq<char>, s: nat, size: nat, full: seq<char>): seq<char>
    requires 1 <= size && s + size <= |before|
  {
    var kept := full[..Min(|full|, size - 1)];
    before[..s] + kept + [NUL] + before[s + |kept| + 1..]
  }

  lemma StoredText(before: seq<char>, after: seq<char>, s: nat, size: nat, full: seq<char>)
    requires 1 <= size && s + size <= |before| == |after|
    requires var n := Min(|full|, size - 1);
      forall i :: 0 <= i < |after| ==>
        after[i] == if s <= i < s + n then full[i - s] else if i == s + n then NUL else before[i]
    ensures after == Truncated(before, s, size, full)
  {
  }

  lemma TruncatedIs(before: seq<char>, after: seq<char>, s: nat, size: nat, full: seq<char>)
    requires 1 <= size && s + size <= |before| && after == Truncated(before, s, size, full)
    ensures var n := if |full| < size then |full| else size - 1;
      && |after| == |before| && after[s..s + n] == full[..n] && after[s + n] == NUL
      && forall i :: 0 <= i < |after| && !(s <= i <= s + n) ==> after[i] == before[i]
  {
  }

  /** Terminating the text in a sink. */
  method Terminate(b: SprintBuf)
    requires b.Valid()
    modifies b.mem
    ensures b.mem[..] == Truncated(b.before, b.start, b.ebuf - b.start + 1, b.out)
  {
    b.mem[b.buf] := NUL;
    StoredText(b.before, b.mem[..], b.start, b.ebuf - b.start + 1, b.out);
  }

  /** vsnprintf.  A null `str` is None. */
  method VSNPrintF(mem: array<char>, str: Option<nat>, size: nat, fmt: CText, args: Args) returns (r: int)
    requires str.Some? ==> str.value + size <= mem.Length
    modifies mem
    ensures str == None || size == 0 ==> r == -E_INVAL && mem[..] == old(mem[..])
    ensures str.Some? && size >= 1 ==>
      var full, s := Formatted(fmt, 0, 0, args), str.value;
      var n := if |full| < size then |full| else size - 1;
      && r == |full| && mem[s..s + n] == full[..n] && mem[s + n] == NUL
      && (forall i :: 0 <= i < mem.Length && !(s <= i <= s + n) ==> mem[i] == old(mem[i]))
  {
    hide Formatted, Truncated;
    if str == None || str.value > str.value + size - 1 {
      return -E_INVAL;
    }
    var b := new SprintBuf(mem, str.value, str.value + size - 1);
    VPrintFmt(b, fmt, args);
    Terminate(b);
    r := b.cnt;
    assert b.out == Formatted(fmt, 0, 0, args);
    TruncatedIs(old(mem[..]), mem[..], str.value, size, b.out);
  }
}
