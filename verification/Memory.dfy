/**
 The copying functions of lab8/libs/string.c on one shared memory.

 Addresses index a single array, so the two ranges may overlap in any way.
 */
module Memory {
  import opened Common
  import opened Modular

  /** The memory after `n` bytes at `src` have been moved to `dst`. */
  ghost function Moved(mem: seq<Byte>, dst: nat, src: nat, n: nat): (r: seq<Byte>)
    requires dst + n <= |mem| && src + n <= |mem|
    ensures |r| == |mem|
    ensures r[dst..dst + n] == mem[src..src + n] && r[..dst] == mem[..dst] && r[dst + n..] == mem[dst + n..]
  {
    mem[..dst] + mem[src..src + n] + mem[dst + n..]
  }

  /** Where the forward copy finds its `i`-th byte: once it has caught up with its own output, it
      repeats the bytes between the two addresses. */
  function SmearedFrom(dst: nat, src: nat, i: nat): (a: nat)
    ensures src <= a <= src + i
  {
    if src < dst then src + Remainder(i, dst - src) else src + i
  }

  /** The upward loop shared by memmove and memcpy, with its result on overlapping ranges stated
      exactly. */
  method CopyUpwards(mem: array<Byte>, dst: nat, src: nat, n: nat)
    requires dst + n <= mem.Length && src + n <= mem.Length
    modifies mem
    ensures forall i :: 0 <= i < mem.Length && !(dst <= i < dst + n) ==> mem[i] == old(mem[i])
    ensures forall i :: dst <= i < dst + n ==> mem[i] == old(mem[SmearedFrom(dst, src, i - dst)])
  {
    var s, d, left := src, dst, n;
    while left > 0
      invariant 0 <= left <= n && s == src + (n - left) && d == dst + (n - left)
      invariant forall i :: 0 <= i < mem.Length && !(dst <= i < d) ==> mem[i] == old(mem[i])
      invariant forall i :: dst <= i < d ==> mem[i] == old(mem[SmearedFrom(dst, src, i - dst)])
    {
      ghost var k := n - left;
      left := left - 1;
      if dst <= s < d {
        assert SmearedFrom(dst, src, k) == SmearedFrom(dst, src, s - dst);
      }
      mem[d] := mem[s];
      d, s := d + 1, s + 1;
    }
  }

  /** The downward loop of memmove, entered with both pointers past the end of their ranges. */
  method CopyDownwards(mem: array<Byte>, dst: nat, src: nat, n: nat)
    requires dst + n <= mem.Length && src <= dst
    modifies mem
    ensures forall i :: 0 <= i < mem.Length && !(dst <= i < dst + n) ==> mem[i] == old(mem[i])
    ensures forall i :: dst <= i < dst + n ==> mem[i] == old(mem[i - dst + src])
  {
    var s, d, left := src + n, dst + n, n;
    while left > 0
      invariant 0 <= left <= n && s == src + left && d == dst + left
      invariant forall i :: 0 <= i < mem.Length && !(d <= i < dst + n) ==> mem[i] == old(mem[i])
      invariant forall i :: d <= i < dst + n ==> mem[i] == old(mem[i - dst + src])
    {
      left := left - 1;
      d, s := d - 1, s - 1;
      mem[d] := mem[s];
    }
  }

  lemma MovedPointwise(mem: seq<Byte>, mem': seq<Byte>, dst: nat, src: nat, n: nat)
    requires dst + n <= |mem| && src + n <= |mem| && |mem'| == |mem|
    requires forall i :: 0 <= i < |mem| && !(dst <= i < dst + n) ==> mem'[i] == mem[i]
    requires forall i :: dst <= i < dst + n ==> mem'[i] == mem[i - dst + src]
    ensures mem' == Moved(mem, dst, src, n)
  {
    var m := Moved(mem, dst, src, n);
    assert forall i :: dst <= i < dst + n ==> m[i] == mem[i - dst + src];
  }

  /** memmove: the direction of the copy is chosen by the overlap test. */
  method Memmove(mem: array<Byte>, dst: nat, src: nat, n: nat) returns (r: nat)
    requires dst + n <= mem.Length && src + n <= mem.Length
    modifies mem
    ensures r == dst
    ensures mem[..] == Moved(old(mem[..]), dst, src, n)
  {
    if src < dst && src + n > dst {
      CopyDownwards(mem, dst, src, n);
    } else {
      CopyUpwards(mem, dst, src, n);
      assert forall i :: 0 <= i < n ==> SmearedFrom(dst, src, i) == src + i;
    }
    MovedPointwise(old(mem[..]), mem[..], dst, src, n);
    r := dst;
  }

  /** memcpy: always upwards. */
  method Memcpy(mem: array<Byte>, dst: nat, src: nat, n: nat) returns (r: nat)
    requires dst + n <= mem.Length && src + n <= mem.Length
    modifies mem
    ensures r == dst
    ensures forall i :: 0 <= i < mem.Length && !(dst <= i < dst + n) ==> mem[i] == old(mem[i])
    ensures forall i :: dst <= i < dst + n ==> mem[i] == old(mem[SmearedFrom(dst, src, i - dst)])
  {
    CopyUpwards(mem, dst, src, n);
    r := dst;
  }

  /** The bytes of `s` repeat at distance `g`. */
  ghost predicate Periodic(s: seq<Byte>, g: nat) {
    forall i, j :: 0 <= i < j < |s| && j == i + g ==> s[i] == s[j]
  }

  /** memcpy leaves at `dst` what memmove would leave there. */
  ghost predicate CopiesFaithfully(mem: seq<Byte>, dst: nat, src: nat, n: nat)
    requires dst + n <= |mem| && src + n <= |mem|
  {
    forall i :: 0 <= i < n ==> mem[SmearedFrom(dst, src, i)] == mem[src..src + n][i]
  }

  /** memcpy does the work of memmove exactly when the destination does not start inside the source, or
      the source repeats with the distance between the two. */
  lemma MemcpyAgrees(mem: seq<Byte>, dst: nat, src: nat, n: nat)
    requires dst + n <= |mem| && src + n <= |mem|
    ensures CopiesFaithfully(mem, dst, src, n)
       <==> (src < dst < src + n ==> Periodic(mem[src..src + n], dst - src))
  {
    if src < dst < src + n {
      var s, g := mem[src..src + n], dst - src;
      if Periodic(s, g) {
        forall i | 0 <= i < n
          ensures mem[SmearedFrom(dst, src, i)] == s[i]
        {
          PeriodicReaches(s, g, i);
        }
      }
      if CopiesFaithfully(mem, dst, src, n) {
        forall i, j | 0 <= i < j < n && j == i + g
          ensures s[i] == s[j]
        {
          assert mem[SmearedFrom(dst, src, i)] == s[i] && mem[SmearedFrom(dst, src, j)] == s[j];
          assert Remainder(j, g) == Remainder(i, g);
        }
      }
    }
  }

  lemma {:induction false} PeriodicReaches(s: seq<Byte>, g: nat, i: nat)
    requires Periodic(s, g) && 0 < g && i < |s|
    ensures s[Remainder(i, g)] == s[i]
    decreases i
  {
    if i < g {
    } else {
      PeriodicReaches(s, g, i - g);
    }
  }
}
