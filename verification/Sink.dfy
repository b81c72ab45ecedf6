/**
 The truncating character sink of lab8/libs/printfmt.c (struct sprintbuf and sprintputch).
 */
module Sink {

  /** A window of memory that accepts any number of characters and keeps those that fit. */
  class SprintBuf {
    const mem: array<char>
    const ebuf: nat            // one past the last place a character may go
    var buf: nat               // the next free place
    var cnt: nat               // characters offered so far

    ghost const start: nat
    ghost const before: seq<char>
    ghost var out: seq<char>   // everything offered so far

    ghost predicate Valid()
      reads this, mem
    {
      && start <= ebuf < mem.Length == |before|
      && cnt == |out|
      && buf == start + (if |out| <= ebuf - start then |out| else ebuf - start)
      && forall i :: 0 <= i < mem.Length ==> mem[i] == if start <= i < buf then out[i - start] else before[i]
    }

    constructor (mem: array<char>, str: nat, ebuf: nat)
      requires str <= ebuf < mem.Length
      ensures Valid() && out == [] && this.mem == mem && this.ebuf == ebuf && start == str
      ensures before == mem[..]
    {
      this.mem, this.ebuf, buf, cnt := mem, ebuf, str, 0;
      start, before, out := str, mem[..], [];
    }

    /** sprintputch */
    method Put(ch: char)
      requires Valid()
      modifies this, mem
      ensures Valid() && out == old(out) + [ch]
    {
      cnt := cnt + 1;
      out := out + [ch];
      if buf < ebuf {
        mem[buf] := ch;
        buf := buf + 1;
      }
    }

    /** Offering the same character `n` times. */
    method PutMany(ch: char, n: int)
      requires Valid()
      modifies this, mem
      ensures Valid() && out == old(out) + Repeated(ch, n)
    {
      var left := n;
      while left > 0
        invariant Valid()
        invariant out + Repeated(ch, left) == old(out) + Repeated(ch, n)
      {
        assert Repeated(ch, left) == [ch] + Repeated(ch, left - 1);
        Put(ch);
        left := left - 1;
      }
    }
  }

  /** `n` copies of `ch`, none if `n` is negative. */
  function Repeated(ch: char, n: int): (r: seq<char>)
    ensures |r| == if n > 0 then n else 0
    ensures forall i :: 0 <= i < |r| ==> r[i] == ch
  {
    if n <= 0 then [] else [ch] + Repeated(ch, n - 1)
  }
}
