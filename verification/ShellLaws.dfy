/**
 What the tokens of lab8/user/sh.c are, said of the characters of the command: where words break, what quotes do,
 and what a run leaves in the buffer.
 */
module ShellLaws {
  import opened Common
  import opened Shell

  const SPACES_AND_SYMBOLS: seq<char> := " \t\r\n<|>&;"

  /** The command breaks at `i`: there is a blank, tab, line end or one of < | > & ; there, behind an even number of
      quotes. */
  predicate Breaks(s: seq<char>, i: nat)
    requires i < |s|
  {
    s[i] in SPACES_AND_SYMBOLS && multiset(s[..i])['\"'] % 2 == 0
  }

  lemma {:induction false} QuotedIsOdd(s: seq<char>, i: nat)
    requires i <= |s|
    ensures Quoted(s, i) <==> multiset(s[..i])['\"'] % 2 == 1
  {
    if i == 0 {
    } else {
      QuotedIsOdd(s, i - 1);
      assert s[..i] == s[..i - 1] + [s[i - 1]];
    }
  }

  lemma SeparatorBreaks(s: seq<char>, i: nat)
    requires i < |s|
    ensures Separator(s, i) <==> Breaks(s, i)
  {
    QuotedIsOdd(s, i);
  }

  /** There is a token at `i` exactly if the command breaks there at a symbol, which is then its kind, or does not
      break there but did just before; then it is a word. */
  lemma {:induction false} TokenAtIff(s: Text, i: nat, kind: char)
    requires i < |s|
    ensures Token(kind, i) in TokensFrom(s, 0) <==>
      if Breaks(s, i) then s[i] in "<|>&;" && kind == s[i] else kind == 'w' && (i == 0 || Breaks(s, i - 1))
  {
    hide Breaks;
    SeparatorBreaks(s, i);
    if i > 0 {
      SeparatorBreaks(s, i - 1);
    }
    TokensAreStarts(s, 0);
    if Starts(s, i) {
      StartsAreTokens(s, 0, i);
    }
  }

  /** A word goes on exactly until the command breaks. */
  lemma {:induction false} WordGoesOn(s: Text, i: nat)
    requires i <= |s|
    ensures i <= WordEnd(s, i) <= |s| && (WordEnd(s, i) < |s| ==> Breaks(s, WordEnd(s, i)))
    ensures forall j :: i <= j < WordEnd(s, i) ==> !Breaks(s, j)
    decreases |s| - i
  {
    hide Breaks;
    if i == |s| {
    } else {
      SeparatorBreaks(s, i);
      WordGoesOn(s, i + 1);
    }
  }

  /** The buffer after a run: a NUL where the command breaks, a blank for each quote, all else as typed. */
  lemma AfterRun(b: seq<char>, s: Text, i: nat)
    requires Processed(b, s, |s|) && i < |s|
    ensures b[i] == if Breaks(s, i) then NUL else if s[i] == '\"' then ' ' else s[i]
  {
    SeparatorBreaks(s, i);
  }

  lemma {:induction false} CStringEndsAtNul(b: seq<char>, i: nat, e: nat)
    requires i <= e < |b| && b[e] == NUL && forall j :: i <= j < e ==> b[j] != NUL
    ensures CString(b, i) == b[i..e]
    decreases e - i
  {
    if i == e {
    } else {
      CStringEndsAtNul(b, i + 1, e);
      assert b[i..e] == [b[i]] + b[i + 1..e];
    }
  }

  /** After a run, the C string at the start of a word is what the buffer holds up to where the word breaks. */
  lemma {:induction false} WordInBuffer(b: seq<char>, s: Text, i: nat)
    requires Processed(b, s, |s|) && i <= |s|
    ensures CString(b, i) == b[i..WordEnd(s, i)]
  {
    hide Breaks, CString, WordEnd;
    var e := WordEnd(s, i);
    WordGoesOn(s, i);
    if e < |s| {
      AfterRun(b, s, e);
    }
    forall j | i <= j < e
      ensures b[j] != NUL
    {
      AfterRun(b, s, j);
      assert s[j] in s;
    }
    CStringEndsAtNul(b, i, e);
  }

  // ----- quotes

  lemma NoQuotes(t: seq<char>)
    requires '\"' !in t
    ensures multiset(t)['\"'] == 0
  {
  }

  /** Between two quotes, the first of the command, nothing breaks. */
  lemma InsideQuotes(s: seq<char>, u: seq<char>, w: seq<char>, v: seq<char>, i: nat)
    requires s == u + ['\"'] + w + ['\"'] + v && '\"' !in u && '\"' !in w && |u| <= i <= |u| + 1 + |w|
    ensures !Breaks(s, i)
  {
    if i == |u| || i == |u| + 1 + |w| {
      assert s[i] == '\"';
    } else {
      var t := w[..i - |u| - 1];
      assert s[..i] == u + ['\"'] + t;
      assert '\"' !in t;
      NoQuotes(u);
      NoQuotes(t);
      assert multiset(s[..i]) == multiset(u) + multiset{'\"'} + multiset(t);
    }
  }

  /** So no token starts behind the opening quote up to the closing one, whatever stands between them; a word that
      reaches the opening quote ends behind the closing one; and after a run it holds what was quoted, unchanged,
      between two blanks. */
  lemma {:induction false} QuotedText(s: Text, u: seq<char>, w: seq<char>, v: seq<char>, b: seq<char>, i: nat)
    requires s == u + ['\"'] + w + ['\"'] + v && '\"' !in u && '\"' !in w && Processed(b, s, |s|)
    ensures forall t :: t in TokensFrom(s, 0) ==> !(|u| < t.at <= |u| + 1 + |w|)
    ensures i <= |u| <= WordEnd(s, i) ==> WordEnd(s, i) >= |u| + |w| + 2
    ensures b[|u|..|u| + |w| + 2] == [' '] + w + [' ']
  {
    hide Breaks, TokensFrom;
    forall t | t in TokensFrom(s, 0)
      ensures !(|u| < t.at <= |u| + 1 + |w|)
    {
      QuotedToken(s, u, w, v, t);
    }
    if i <= |u| <= WordEnd(s, i) {
      WordGoesOn(s, i);
      if WordEnd(s, i) < |u| + |w| + 2 {
        InsideQuotes(s, u, w, v, WordEnd(s, i));
      }
    }
    forall k | 0 <= k < |w| + 2
      ensures b[|u| + k] == ([' '] + w + [' '])[k]
    {
      InsideQuotes(s, u, w, v, |u| + k);
      AfterRun(b, s, |u| + k);
      assert s[|u| + k] == (['\"'] + w + ['\"'])[k];
    }
  }

  lemma {:induction false} QuotedToken(s: Text, u: seq<char>, w: seq<char>, v: seq<char>, t: Token)
    requires s == u + ['\"'] + w + ['\"'] + v && '\"' !in u && '\"' !in w && t in TokensFrom(s, 0)
    ensures !(|u| < t.at <= |u| + 1 + |w|)
  {
    hide Breaks;
    TokensAreStarts(s, 0);
    if |u| < t.at <= |u| + 1 + |w| {
      InsideQuotes(s, u, w, v, t.at);
      InsideQuotes(s, u, w, v, t.at - 1);
      TokenAtIff(s, t.at, t.kind);
    }
  }

  /** A command in quotes is one word. */
  lemma {:induction false} OneQuotedWord(s: Text, w: seq<char>)
    requires s == ['\"'] + w + ['\"'] && '\"' !in w
    ensures TokensFrom(s, 0) == [Token('w', 0)]
  {
    hide Breaks;
    assert s == [] + ['\"'] + w + ['\"'] + [];
    forall i | 0 <= i < |s|
      ensures !Separator(s, i)
    {
      InsideQuotes(s, [], w, [], i);
      SeparatorBreaks(s, i);
    }
    assert Starts(s, 0) && forall i :: 1 <= i < |s| ==> !Starts(s, i);
    NoTokenIn(s, 1, |s|);
  }
}
