/**
 What close_sfs of lab8/tools/mksfs.c writes: the free map, the super block and the cached inodes and index
 blocks, each of them once.
 */
module SfsClose {
  import opened Common
  import opened SfsLayout
  import opened SfsState
  import opened Modular

  // ----- bits

  /** Bit `k` of a word. */
  function Bit(w: nat, k: nat): (r: nat)
    ensures r < 2
  {
    if k == 0 then w % 2 else Bit(w / 2, k - 1)
  }

  /** The word with bit `k` switched on: w | 1 << k. */
  function SetBit(w: nat, k: nat): nat {
    if k == 0 then w / 2 * 2 + 1 else w % 2 + 2 * SetBit(w / 2, k - 1)
  }

  lemma {:induction false} SetBitReads(w: nat, k: nat, j: nat)
    ensures Bit(SetBit(w, k), j) == if j == k then 1 else Bit(w, j)
  {
    if k == 0 || j == 0 {
    } else {
      SetBitReads(w / 2, k - 1, j - 1);
      assert SetBit(w, k) / 2 == SetBit(w / 2, k - 1);
    }
  }

  /** Switching a bit on adds its weight if it was off. */
  lemma {:induction false} SetBitAdds(w: nat, k: nat)
    ensures SetBit(w, k) == w + if Bit(w, k) == 1 then 0 else Pow2(k)
  {
    if k == 0 {
    } else {
      SetBitAdds(w / 2, k - 1);
    }
  }

  lemma DoubleFits(w: nat, x: nat, p: nat)
    requires w < 2 * p && x < p
    ensures w / 2 < p && w % 2 + 2 * x < 2 * p && w / 2 * 2 + 1 < 2 * p
  {
  }

  lemma {:induction false} SetBitFits(w: nat, k: nat, n: nat)
    requires w < Pow2(n) && k < n
    ensures SetBit(w, k) < Pow2(n)
  {
    var p := Pow2(n - 1);
    assert Pow2(n) == 2 * p;
    DoubleFits(w, 0, p);
    if k == 0 {
      assert SetBit(w, k) == w / 2 * 2 + 1;
    } else {
      SetBitFits(w / 2, k - 1, n - 1);
      var x := SetBit(w / 2, k - 1);
      assert SetBit(w, k) == w % 2 + 2 * x;
      DoubleFits(w, x, p);
    }
  }

  lemma WordIsPow2()
    ensures Pow2(32) == WORD32
  {
    assert Pow2(8) == 256;
    assert Pow2(16) == 65536;
    assert Pow2(24) == 16777216;
  }

  lemma {:induction false} ZeroBits(k: nat)
    ensures Bit(0, k) == 0
  {
    if k == 0 {
    } else {
      ZeroBits(k - 1);
    }
  }

  // ----- the free map

  /** A word array has exactly the bits `lo` up to, not including, `hi`. */
  ghost predicate BitsSet(ws: seq<nat>, lo: int, hi: int) {
    forall q, r :: 0 <= q < |ws| && 0 <= r < 32 ==> (Bit(ws[q], r) == 1 <==> lo <= 32 * q + r < hi)
  }

  lemma NoBits(ws: seq<nat>, lo: int)
    requires forall q :: 0 <= q < |ws| ==> ws[q] == 0
    ensures BitsSet(ws, lo, lo)
  {
    forall q, r | 0 <= q < |ws| && 0 <= r < 32
      ensures Bit(ws[q], r) == 0
    {
      ZeroBits(r);
    }
  }

  lemma {:induction false} OneBitMore(ws: seq<nat>, lo: int, j: nat)
    requires BitsSet(ws, lo, j) && j < 32 * |ws| && lo <= j
    ensures BitsSet(ws[j / 32 := SetBit(ws[j / 32], j % 32)], lo, j + 1)
  {
    var q0, r0 := j / 32, j % 32;
    var ws' := ws[q0 := SetBit(ws[q0], r0)];
    forall q, r | 0 <= q < |ws'| && 0 <= r < 32
      ensures Bit(ws'[q], r) == 1 <==> lo <= 32 * q + r < j + 1
    {
      SetBitReads(ws[q0], r0, r);
      assert 32 * q + r == j <==> q == q0 && r == r0;
    }
  }

  /** The free-map block `b`: bit by bit, is the block with that number unused? */
  ghost predicate FreeMapAt(s: State, b: nat, bytes: Bytes)
    requires b >= BLKN_FREEMAP
  {
    && |bytes| == BLKSIZE
    && forall q, r :: 0 <= q < NENTRY && 0 <= r < 32 ==>
         (Bit(IndexEntry(bytes, q), r) == 1 <==> s.nextIno <= BLKBITS * (b - BLKN_FREEMAP) + 32 * q + r < s.ninos)
  }

  /** The part of the free-map block for the numbers from `i` that close_sfs fills. */
  function From(s: State, i: nat): nat {
    if i + BLKBITS <= s.nextIno then BLKBITS else if i < s.nextIno then s.nextIno - i else 0
  }

  function Upto(s: State, i: nat): int {
    if i + BLKBITS > s.ninos then s.ninos - i else BLKBITS
  }

  lemma MapBlock(s: State, b: nat, ws: seq<nat>, i: nat)
    requires b >= BLKN_FREEMAP && |ws| == NENTRY && (forall q :: 0 <= q < NENTRY ==> ws[q] < WORD32)
    requires i == BLKBITS * (b - BLKN_FREEMAP) && BitsSet(ws, From(s, i), Upto(s, i))
    ensures FreeMapAt(s, b, Padded(EncodeWords(ws)))
  {
    hide EncodeWords, Padded, WordAt, Bit;
    var bytes := Padded(EncodeWords(ws));
    forall q, r | 0 <= q < NENTRY && 0 <= r < 32
      ensures Bit(IndexEntry(bytes, q), r) == 1 <==> s.nextIno <= BLKBITS * (b - BLKN_FREEMAP) + 32 * q + r < s.ninos
    {
      PaddedWords(ws, q);
    }
  }

  // ----- the super block

  const INFO_SIZE: nat := 32

  function SuperBlock(s: State, info: Bytes): Bytes
    requires |info| == INFO_SIZE
  {
    Padded(EncodeWords([MAGIC, s.ninos, s.unused]) + info)
  }

  // ----- the flush

  /** What block `b` is to hold in the end, if close_sfs writes it. */
  ghost predicate Final(s: State, info: Bytes, b: nat, bytes: Bytes) {
    && |bytes| == BLKSIZE
    && (b == BLKN_SUPER ==> |info| == INFO_SIZE && bytes == SuperBlock(s, info))
    && (BLKN_FREEMAP <= b < Start(s.ninos) ==> FreeMapAt(s, b, bytes))
    && (b in s.cache ==> |s.cache[b]| == NENTRY && bytes == EncodeIndex(s.cache[b]))
    && (b in s.inodes ==> |s.inodes[b].inode.direct| == NDIRECT && bytes == EncodeInode(s.inodes[b].inode))
  }

  /** The blocks `done` have been flushed since `s`. */
  ghost predicate Flushing(s: State, info: Bytes, u: State, done: set<nat>) {
    && u == s.(image := u.image, writes := u.writes)
    && (forall b :: b in u.image <==> b in s.image || b in done)
    && (forall b :: b in done ==> b !in s.image)
    && (forall b :: u.writes[b] == if b in u.image then 1 else 0)
    && (forall b :: b in s.image ==> u.image[b] == s.image[b])
    && (forall b :: b in done ==> Final(s, info, b, u.image[b]))
  }

  lemma FlushStart(s: State, info: Bytes)
    requires Inv(s)
    ensures Flushing(s, info, s, {})
  {
  }

  lemma FlushOne(s: State, info: Bytes, u: State, done: set<nat>, b: nat, data: Bytes)
    requires Flushing(s, info, u, done) && b !in done && b !in s.image && Final(s, info, b, data)
    requires b in s.role ==> !s.role[b].Taken?
    ensures Flushing(s, info, WithWrite(u, b, data), done + {b})
  {
    hide Final;
    OneMoreWrite(u.writes, b);
  }

  /** The chains up to chain `h`, and the first `k` members of that one. */
  ghost function FlushedTo(chains: seq<seq<nat>>, h: nat, k: nat): set<nat>
    requires h < |chains| ==> k <= |chains[h]|
  {
    (set g: nat, x | g < h && g < |chains| && x in chains[g] :: x) +
    (if h < |chains| then set x | x in chains[h][..k] else {})
  }

  /** No number is in two places. */
  ghost predicate Separate(chains: seq<seq<nat>>) {
    && (forall h :: 0 <= h < |chains| ==> NoDuplicates(chains[h]))
    && (forall g, h, x :: 0 <= g < |chains| && 0 <= h < |chains| && x in chains[g] && x in chains[h] ==> g == h)
  }

  lemma FlushedNext(chains: seq<seq<nat>>, h: nat, k: nat)
    requires Separate(chains) && h < |chains| && k < |chains[h]|
    ensures FlushedTo(chains, h, k + 1) == FlushedTo(chains, h, k) + {chains[h][k]}
    ensures chains[h][k] !in FlushedTo(chains, h, k)
  {
    assert chains[h][..k + 1] == chains[h][..k] + [chains[h][k]];
  }

  lemma FlushedChain(chains: seq<seq<nat>>, h: nat)
    requires h < |chains|
    ensures FlushedTo(chains, h, |chains[h]|) == FlushedTo(chains, h + 1, 0)
  {
    assert chains[h][..|chains[h]|] == chains[h];
  }

  lemma FlushedMember(chains: seq<seq<nat>>, h: nat, k: nat, x: nat)
    requires h < |chains| ==> k <= |chains[h]|
    ensures x in FlushedTo(chains, h, k) ==> exists g :: 0 <= g < |chains| && x in chains[g]
  {
  }

  lemma ChainsSeparate(s: State)
    requires ChainsOk(s)
    ensures Separate(s.inodeChains) && Separate(s.blockChains)
  {
    forall h | 0 <= h < HASH_LIST_SIZE
      ensures NoDuplicates(s.blockChains[h])
    {
      assert h > 0 ==> s.blockChains[h] == [];
    }
    forall g, h, x |
      0 <= g < HASH_LIST_SIZE && 0 <= h < HASH_LIST_SIZE && x in s.blockChains[g] && x in s.blockChains[h]
      ensures g == h
    {
    }
    forall g, h, x |
      0 <= g < HASH_LIST_SIZE && 0 <= h < HASH_LIST_SIZE && x in s.inodeChains[g] && x in s.inodeChains[h]
      ensures g == h
    {
      assert Hash32(s.inodes[x].host % WORD32) == g && Hash32(s.inodes[x].host % WORD32) == h;
    }
  }

  /** The super block and the free map. */
  ghost function Head(ino: nat): set<nat> {
    set x: nat | x < ino && InMap(x)
  }

  predicate InMap(b: nat) {
    b >= BLKN_FREEMAP
  }

  ghost function Done(s: State, hb: nat, kb: nat, hi: nat, ki: nat): set<nat>
    requires (hb < |s.blockChains| ==> kb <= |s.blockChains[hb]|)
    requires (hi < |s.inodeChains| ==> ki <= |s.inodeChains[hi]|)
  {
    Head(Start(s.ninos)) + {BLKN_SUPER} + FlushedTo(s.blockChains, hb, kb) + FlushedTo(s.inodeChains, hi, ki)
  }

  /** What is in the chains is none of the first blocks and not in the image yet. */
  lemma CachedBlock(s: State, x: nat, h: nat)
    requires Inv(s) && h < HASH_LIST_SIZE && x in s.blockChains[h]
    ensures x in s.cache && x in s.role && x !in s.inodes && x !in s.image && Start(s.ninos) <= x < s.ninos
    ensures |s.cache[x]| == NENTRY
    ensures s.role[x].IndexOf?
  {
  }

  lemma CachedInode(s: State, x: nat, h: nat)
    requires Inv(s) && h < HASH_LIST_SIZE && x in s.inodeChains[h]
    ensures x in s.inodes && x !in s.cache && x !in s.image && (Start(s.ninos) <= x || x == BLKN_ROOT) && x < s.ninos
    ensures |s.inodes[x].inode.direct| == NDIRECT && (x in s.role ==> !s.role[x].Taken?)
  {
    assert FileOk(s, x);
  }

  lemma NextBlock(s: State, h: nat, k: nat, hi: nat)
    requires Inv(s) && h < HASH_LIST_SIZE && k < |s.blockChains[h]| && hi < HASH_LIST_SIZE
    ensures var x := s.blockChains[h][k];
      x !in Done(s, h, k, hi, 0) && Done(s, h, k + 1, hi, 0) == Done(s, h, k, hi, 0) + {x}
  {
    hide Inv, FlushedTo;
    InvChains(s);
    ChainsSeparate(s);
    var x := s.blockChains[h][k];
    CachedBlock(s, x, h);
    FlushedNext(s.blockChains, h, k);
    FlushedMember(s.inodeChains, hi, 0, x);
    if x in FlushedTo(s.inodeChains, hi, 0) {
      var g :| 0 <= g < |s.inodeChains| && x in s.inodeChains[g];
      CachedInode(s, x, g);
    }
  }

  lemma NextInode(s: State, hb: nat, h: nat, k: nat)
    requires Inv(s) && h < HASH_LIST_SIZE && k < |s.inodeChains[h]| && hb <= HASH_LIST_SIZE
    ensures var x := s.inodeChains[h][k];
      x !in Done(s, hb, 0, h, k) && Done(s, hb, 0, h, k + 1) == Done(s, hb, 0, h, k) + {x}
  {
    hide Inv, FlushedTo;
    InvChains(s);
    ChainsSeparate(s);
    var x := s.inodeChains[h][k];
    CachedInode(s, x, h);
    FlushedNext(s.inodeChains, h, k);
    FlushedMember(s.blockChains, hb, 0, x);
    if x in FlushedTo(s.blockChains, hb, 0) {
      var g :| 0 <= g < |s.blockChains| && x in s.blockChains[g];
      CachedBlock(s, x, g);
    }
  }

  lemma BlocksDone(s: State, h: nat)
    requires h < |s.blockChains| && h < |s.inodeChains|
    ensures Done(s, h, |s.blockChains[h]|, h, 0) == Done(s, h + 1, 0, h, 0)
  {
    FlushedChain(s.blockChains, h);
  }

  lemma InodesDone(s: State, h: nat)
    requires h < |s.blockChains| && h < |s.inodeChains|
    ensures Done(s, h + 1, 0, h, |s.inodeChains[h]|) == Done(s, h + 1, 0, h + 1, 0)
  {
    FlushedChain(s.inodeChains, h);
  }

  /** The super block comes after the free map and before the caches. */
  lemma SuperFinal(s: State, info: Bytes)
    requires Inv(s) && |info| == INFO_SIZE && |s.blockChains| == |s.inodeChains| == HASH_LIST_SIZE
    ensures Final(s, info, BLKN_SUPER, SuperBlock(s, info)) && BLKN_SUPER !in s.image && BLKN_SUPER !in s.role
    ensures BLKN_SUPER < s.ninos
    ensures Done(s, 0, 0, 0, 0) == Head(Start(s.ninos)) + {BLKN_SUPER} && BLKN_SUPER !in Head(Start(s.ninos))
  {
    hide Inv;
    HeadBlock(s, BLKN_SUPER);
    assert FlushedTo(s.blockChains, 0, 0) == {} && FlushedTo(s.inodeChains, 0, 0) == {};
  }

  lemma BlockFinal(s: State, info: Bytes, x: nat, h: nat)
    requires Inv(s) && h < HASH_LIST_SIZE && x in s.blockChains[h]
    ensures x in s.cache && |s.cache[x]| == NENTRY && Final(s, info, x, EncodeIndex(s.cache[x]))
  {
    hide Inv;
    CachedBlock(s, x, h);
  }

  lemma InodeFinal(s: State, info: Bytes, x: nat, h: nat)
    requires Inv(s) && h < HASH_LIST_SIZE && x in s.inodeChains[h]
    ensures x in s.inodes && |s.inodes[x].inode.direct| == NDIRECT && Final(s, info, x, EncodeInode(s.inodes[x].inode))
  {
    hide Inv;
    CachedInode(s, x, h);
  }

  /** A super or free-map block is neither cached nor in the image yet. */
  lemma HeadBlock(s: State, b: nat)
    requires Inv(s) && b < Start(s.ninos) && b != BLKN_ROOT
    ensures b !in s.cache && b !in s.inodes && b !in s.image && b !in s.role && b < s.ninos
  {
  }

  // ----- the image

  /** The finished image: every number below `nextIno` has been written exactly once, with what belongs
      there, and no other. */
  ghost predicate Complete(s: State, info: Bytes, image: map<nat, Bytes>, writes: multiset<nat>) {
    && (forall b: nat :: b in image <==> b < s.nextIno)
    && (forall b: nat :: writes[b] == if b < s.nextIno then 1 else 0)
    && (forall b :: b in s.image ==> b in image && image[b] == s.image[b])
    && (forall b :: b in image && b !in s.image ==> Final(s, info, b, image[b]))
  }

  lemma AllOfChain(chains: seq<seq<nat>>, x: nat, g: nat)
    requires g < |chains| && x in chains[g]
    ensures x in FlushedTo(chains, |chains|, 0)
  {
  }

  lemma AllCached(s: State, b: nat)
    requires Inv(s)
    ensures b in FlushedTo(s.blockChains, HASH_LIST_SIZE, 0) <==> b in s.cache
    ensures b in FlushedTo(s.inodeChains, HASH_LIST_SIZE, 0) <==> b in s.inodes
  {
    hide FlushedTo, Hash32, RolesOk, FilesOk;
    FlushedMember(s.blockChains, HASH_LIST_SIZE, 0, b);
    FlushedMember(s.inodeChains, HASH_LIST_SIZE, 0, b);
    if b in s.cache {
      AllOfChain(s.blockChains, b, 0);
    }
    if b in s.inodes {
      AllOfChain(s.inodeChains, b, Hash32(s.inodes[b].host % WORD32));
    }
  }

  lemma AllFlushed(s: State, b: nat)
    requires Inv(s) && Settled(s)
    ensures (b in Done(s, HASH_LIST_SIZE, 0, HASH_LIST_SIZE, 0) || b in s.image) <==> b < s.nextIno
  {
    hide Conserved, FilesOk, FlushedTo;
    AllCached(s, b);
  }

  lemma FlushComplete(s: State, info: Bytes, u: State)
    requires Inv(s) && Settled(s) && Flushing(s, info, u, Done(s, HASH_LIST_SIZE, 0, HASH_LIST_SIZE, 0))
    ensures Complete(s, info, u.image, u.writes) && u == s.(image := u.image, writes := u.writes)
  {
    hide Inv, Settled, Final, Done;
    forall b: nat
      ensures b in u.image <==> b < s.nextIno
    {
      AllFlushed(s, b);
    }
  }
}
