/**
 The tokenizer of lab8/user/sh.c.

 `gettoken` works destructively on the command buffer: it overwrites separators with NUL and quotes with
 blanks, and it terminates a word only when the following call reaches the separator behind it.  What
 it promises is therefore stated for a whole run, against definitions that look at one position of the
 command text at a time.
 */
module Shell {
  import opened Common

  const WHITESPACE: seq<char> := " \t\r\n"
  const SYMBOLS: seq<char> := "<|>&;"
  const QUOTE: char := '\"'

  /** A command line as the user typed it. */
  type Text = s: seq<char> | NUL !in s

  /** Whether the library's strchr finds `c`; it never finds NUL. */
  predicate Strchr(s: seq<char>, c: char) {
    c != NUL && c in s
  }

  // ----- what the command text means, position by position

  /** Position `i` lies inside quotes: an odd number of quotes precedes it. */
  predicate Quoted(s: seq<char>, i: nat)
    requires i <= |s|
  {
    if i == 0 then false else (s[i - 1] == QUOTE) != Quoted(s, i - 1)
  }

  predicate Separator(s: seq<char>, i: nat)
    requires i < |s|
  {
    !Quoted(s, i) && (s[i] in WHITESPACE || s[i] in SYMBOLS)
  }

  /** A token starts at `i`: an unquoted symbol, or a position of a word with no word before it. */
  predicate Starts(s: seq<char>, i: nat)
    requires i < |s|
  {
    if Separator(s, i) then s[i] in SYMBOLS else i == 0 || Separator(s, i - 1)
  }

  datatype Token = Token(kind: char, at: nat)

  /** The tokens that start at or after `i`. */
  function TokensFrom(s: seq<char>, i: nat): seq<Token>
    requires i <= |s|
    decreases |s| - i
  {
    if i == |s| then []
    else if Starts(s, i) then [Token(if Separator(s, i) then s[i] else 'w', i)] + TokensFrom(s, i + 1)
    else TokensFrom(s, i + 1)
  }

  /** What the buffer holds at `i` in the end. */
  function Cleaned(s: seq<char>, i: nat): char
    requires i < |s|
  {
    if Separator(s, i) then NUL else if s[i] == QUOTE then ' ' else s[i]
  }

  /** The first separator at or after `i`, or the end of the text. */
  function WordEnd(s: seq<char>, i: nat): (e: nat)
    requires i <= |s|
    ensures i <= e <= |s| && (e < |s| ==> Separator(s, e))
    ensures forall j :: i <= j < e ==> !Separator(s, j)
    decreases |s| - i
  {
    if i == |s| || Separator(s, i) then i else WordEnd(s, i + 1)
  }

  /** The word that starts at `i`, with its quotes turned into blanks. */
  function Word(s: seq<char>, i: nat): seq<char>
    requires i <= |s|
  {
    seq(WordEnd(s, i) - i, k requires 0 <= k < WordEnd(s, i) - i => Cleaned(s, i + k))
  }

  /** The C string at `i`. */
  function CString(b: seq<char>, i: nat): seq<char>
    requires i <= |b|
    decreases |b| - i
  {
    if i == |b| || b[i] == NUL then [] else [b[i]] + CString(b, i + 1)
  }

  // ----- the buffer during a run

  /** The buffer holds the command `s`: the part before `i` has been dealt with, the rest is as typed. */
  ghost predicate Processed(b: seq<char>, s: Text, i: nat) {
    && i <= |s| < |b| && b[|s|] == NUL
    && (forall j :: 0 <= j < i ==> b[j] == Cleaned(s, j))
    && (forall j :: i <= j < |s| ==> b[j] == s[j])
  }

  /** A position where `gettoken` may be called: outside quotes, next to a separator or at an end. */
  ghost predicate Boundary(s: Text, i: nat) {
    i <= |s| && (i < |s| ==> !Quoted(s, i) && (i == 0 || Separator(s, i - 1) || Separator(s, i)))
  }

  ghost function Cursor(s: Text, p: Option<nat>): nat {
    match p
    case None => |s|
    case Some(i) => i
  }

  lemma {:induction false} NoTokenIn(s: Text, i: nat, e: nat)
    requires i <= e <= |s| && forall j :: i <= j < e ==> !Starts(s, j)
    ensures TokensFrom(s, i) == TokensFrom(s, e)
    decreases e - i
  {
    if i == e {
    } else {
      NoTokenIn(s, i + 1, e);
    }
  }

  /** The scan over a word from its first position: flag tells whether it is inside quotes. */
  method ScanWord(buf: array<char>, start: nat, ghost s: Text) returns (i: nat)
    requires Processed(buf[..], s, start) && start < |s| && !Quoted(s, start) && !Separator(s, start)
    modifies buf
    ensures i == WordEnd(s, start) && i > start && Processed(buf[..], s, i)
    ensures forall j :: |s| <= j < buf.Length ==> buf[j] == old(buf[j])
    ensures i < |s| ==> !Quoted(s, i)
  {
    var flag := false;
    i := start;
    while buf[i] != NUL && (flag || !Strchr(WHITESPACE + SYMBOLS, buf[i]))
      invariant start <= i <= |s| && Processed(buf[..], s, i)
      invariant flag == Quoted(s, i)
      invariant forall j :: start <= j < i ==> !Separator(s, j)
      invariant forall j :: |s| <= j < buf.Length ==> buf[j] == old(buf[j])
      decreases |s| - i
    {
      assert buf[..][i] == s[i];
      if buf[i] == QUOTE {
        buf[i] := ' ';
        flag := !flag;
      }
      i := i + 1;
    }
    assert buf[..][i] == buf[i];
    WordEndIs(s, start, i);
  }

  lemma {:induction false} WordEndIs(s: Text, i: nat, e: nat)
    requires i <= e <= |s| && (e < |s| ==> Separator(s, e)) && forall j :: i <= j < e ==> !Separator(s, j)
    ensures WordEnd(s, i) == e
    decreases e - i
  {
    if i == e {
    } else {
      WordEndIs(s, i + 1, e);
    }
  }

  method SkipWhitespace(buf: array<char>, start: nat, ghost s: Text) returns (i: nat)
    requires Processed(buf[..], s, start) && Boundary(s, start)
    modifies buf
    ensures start <= i && Processed(buf[..], s, i) && Boundary(s, i)
    ensures i < |s| ==> s[i] !in WHITESPACE && Starts(s, i)
    ensures TokensFrom(s, start) == TokensFrom(s, i)
    ensures forall j :: |s| <= j < buf.Length ==> buf[j] == old(buf[j])
  {
    i := start;
    while Strchr(WHITESPACE, buf[i])
      invariant start <= i && Processed(buf[..], s, i) && Boundary(s, i)
      invariant forall j :: start <= j < i ==> !Starts(s, j)
      invariant forall j :: |s| <= j < buf.Length ==> buf[j] == old(buf[j])
      decreases |s| - i
    {
      assert buf[..][i] == s[i];
      buf[i] := NUL;
      i := i + 1;
    }
    NoTokenIn(s, start, i);
    if i < |s| {
      assert buf[..][i] == s[i];
    }
  }

  /** gettoken.  `p1` is the caller's cursor, NULL being None; `p2` receives the start of the token.
      The result 0 is NUL here. */
  method GetToken(buf: array<char>, p1: Option<nat>, ghost s: Text)
    returns (token: char, p1': Option<nat>, p2: nat)
    requires Processed(buf[..], s, Cursor(s, p1)) && Boundary(s, Cursor(s, p1))
    modifies buf
    ensures forall j :: |s| <= j < buf.Length ==> buf[j] == old(buf[j])
    ensures token == NUL ==> TokensFrom(s, Cursor(s, p1)) == [] && Processed(buf[..], s, |s|)
    ensures token != NUL ==>
      && Processed(buf[..], s, Cursor(s, p1')) && Boundary(s, Cursor(s, p1'))
      && Cursor(s, p1) < Cursor(s, p1')
      && TokensFrom(s, Cursor(s, p1)) == [Token(token, p2)] + TokensFrom(s, Cursor(s, p1'))
      && (p1' == None <==> Cursor(s, p1') == |s|)
      && (token == 'w' ==> p2 < |s| && WordEnd(s, p2) == Cursor(s, p1'))
  {
    p1', p2 := p1, 0;
    if p1 == None {
      return NUL, p1', p2;
    }
    var i := SkipWhitespace(buf, p1.value, s);
    assert buf[i] == buf[..][i];
    if buf[i] == NUL {
      return NUL, p1', p2;
    }
    p2 := i;
    token := 'w';
    if Strchr(SYMBOLS, buf[i]) {
      token := buf[i];
      buf[i] := NUL;
      i := i + 1;
    } else {
      i := ScanWord(buf, i, s);
      NoTokenIn(s, p2 + 1, i);
    }
    assert buf[i] == buf[..][i];
    p1' := if buf[i] != NUL then Some(i) else None;
  }

  // ----- whole runs

  /** Calling gettoken until it answers 0, as the command interpreter does. */
  method Tokenize(buf: array<char>, ghost s: Text) returns (tokens: seq<Token>)
    requires Processed(buf[..], s, 0)
    modifies buf
    ensures tokens == TokensFrom(s, 0)
    ensures Processed(buf[..], s, |s|)
    ensures forall j :: 0 <= j < |s| && buf[j] != s[j] ==> s[j] in WHITESPACE || s[j] in SYMBOLS || s[j] == QUOTE
    ensures forall j :: |s| <= j < buf.Length ==> buf[j] == old(buf[j])
  {
    tokens := [];
    var p, t, at := Some(0), 'w', 0;
    while t != NUL
      invariant t != NUL ==> Processed(buf[..], s, Cursor(s, p)) && Boundary(s, Cursor(s, p))
      invariant t != NUL ==> TokensFrom(s, 0) == tokens + TokensFrom(s, Cursor(s, p))
      invariant t == NUL ==> TokensFrom(s, 0) == tokens && Processed(buf[..], s, |s|)
      invariant forall j :: |s| <= j < buf.Length ==> buf[j] == old(buf[j])
      decreases t != NUL, |s| - Cursor(s, p)
    {
      t, p, at := GetToken(buf, p, s);
      if t != NUL {
        tokens := tokens + [Token(t, at)];
      }
    }
  }

  /** After a run, the C string at the start of a word is that word. */
  lemma {:induction false} WordsAreTerminated(b: seq<char>, s: Text, i: nat)
    requires Processed(b, s, |s|) && i <= |s|
    ensures CString(b, i) == Word(s, i)
    decreases |s| - i
  {
    if i == |s| || Separator(s, i) {
    } else {
      WordsAreTerminated(b, s, i + 1);
      assert Word(s, i) == [Cleaned(s, i)] + Word(s, i + 1);
    }
  }

  lemma {:induction false} RestAsTyped(b: seq<char>, s: Text, e: nat)
    requires e <= |s| < |b| && b[|s|] == NUL && forall j :: e <= j < |s| ==> b[j] == s[j]
    ensures CString(b, e) == s[e..]
    decreases |s| - e
  {
    if e == |s| {
    } else {
      RestAsTyped(b, s, e + 1);
      assert b[e] == s[e] && s[e] in s;
      assert s[e..] == [s[e]] + s[e + 1..];
    }
  }

  /** In the state in which a word is returned, the C string at its start is the word followed by
      everything typed behind it. */
  lemma {:induction false} WordWhenReturned(b: seq<char>, s: Text, i: nat, e: nat)
    requires i <= |s| && e == WordEnd(s, i) && Processed(b, s, e)
    ensures CString(b, i) == Word(s, i) + s[e..]
    decreases e - i
  {
    if i == e {
      RestAsTyped(b, s, e);
      assert Word(s, i) == [];
    } else {
      WordWhenReturned(b, s, i + 1, e);
      assert Word(s, i) == [Cleaned(s, i)] + Word(s, i + 1);
      assert s[i] in s;
      assert b[i] == Cleaned(s, i);
    }
  }

  /** A caller that uses a word at once, as the redirections do, sees exactly that word if and only if
      the command ends with it. */
  lemma {:induction false} TerminatedWhenReturnedIffLast(b: seq<char>, s: Text, i: nat)
    requires i < |s| && !Separator(s, i) && Processed(b, s, WordEnd(s, i))
    ensures CString(b, i) == Word(s, i) <==> WordEnd(s, i) == |s|
  {
    WordWhenReturned(b, s, i, WordEnd(s, i));
    var rest := s[WordEnd(s, i)..];
    assert |Word(s, i) + rest| == |Word(s, i)| + |rest|;
    if rest == [] {
      assert Word(s, i) + rest == Word(s, i);
    }
  }

  /** In the command "a b" the first word runs on into the second when it is returned. */
  lemma {:induction false} UnterminatedWord(b: seq<char>)
    requires Processed(b, "a b", 1)
    ensures CString(b, 0) != Word("a b", 0)
  {
    var s := "a b";
    assert Separator(s, 1);
    assert WordEnd(s, 0) == 1;
    TerminatedWhenReturnedIffLast(b, s, 0);
  }

  /** The tokens of the reference definition, described by membership: only positions where a token
      starts, in order of position, each with its kind ... */
  lemma {:induction false} TokensAreStarts(s: Text, i: nat)
    requires i <= |s|
    ensures var ts := TokensFrom(s, i);
      && (forall a, b :: 0 <= a < b < |ts| ==> ts[a].at < ts[b].at)
      && (forall t :: t in ts ==> i <= t.at < |s| && Starts(s, t.at)
                                  && t.kind == if Separator(s, t.at) then s[t.at] else 'w')
    decreases |s| - i
  {
    hide Quoted, Separator, Starts;
    if i == |s| {
    } else {
      TokensAreStarts(s, i + 1);
      var rest := TokensFrom(s, i + 1);
      assert forall k :: 0 <= k < |rest| ==> rest[k] in rest;
    }
  }

  /** ... and every such position. */
  lemma {:induction false} StartsAreTokens(s: Text, i: nat, p: nat)
    requires i <= p < |s| && Starts(s, p)
    ensures Token(if Separator(s, p) then s[p] else 'w', p) in TokensFrom(s, i)
    decreases p - i
  {
    if i == p {
    } else {
      StartsAreTokens(s, i + 1, p);
    }
  }
}
