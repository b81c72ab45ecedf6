/**
 The state of lab8/tools/mksfs.c (struct sfs_fs with its two caches and the image file) as a value, what
 its elementary operations make of it, and the invariant they keep.
 */
module SfsState {
  import opened Common
  import opened SfsLayout
  import opened SfsIndex

  /** `inodes` and `cache` are the cached inodes and index blocks by block number, filed in `inodeChains` and
      `blockChains`; `image` is what has been written to the image file.  The last three components are
      bookkeeping: the block numbers of every file in order, the use of every allocated number, and how
      often each block was written. */
  datatype State = State(
    ninos: nat, nextIno: nat, unused: nat,
    inodes: map<nat, CacheInode>, inodeChains: seq<seq<nat>>,
    cache: Cache, blockChains: seq<seq<nat>>,
    image: map<nat, Bytes>,
    blks: map<nat, seq<nat>>, role: Roles, writes: multiset<nat>)

  const HASH_LIST_SIZE: nat := 1024

  function Hash32(v: nat): (h: nat)
    ensures h < HASH_LIST_SIZE
  {
    v * 0x9e370001 % WORD32 / 0x400000
  }

  /** The first number that create_sfs leaves for allocation: super block, root inode and free map come
      before it. */
  function Start(ninos: nat): nat {
    BLKN_FREEMAP + (ninos + BLKBITS - 1) / BLKBITS
  }

  // ----- the invariant

  ghost predicate Geometry(s: State) {
    && Start(s.ninos) <= s.nextIno <= s.ninos <= MAX_NBLKS
    && s.unused == s.ninos - s.nextIno
  }

  /** Every allocated number has one use, and the caches and the image hold exactly what the uses say. */
  ghost predicate RolesOk(s: State) {
    && (forall b :: b in s.role <==> Start(s.ninos) <= b < s.nextIno)
    && (forall i :: i in s.inodes <==> i == BLKN_ROOT || (i in s.role && s.role[i] == InodeOf))
    && (forall i :: i in s.blks <==> i in s.inodes)
    && (forall c :: c in s.cache <==> c in s.role && s.role[c].IndexOf?)
    && (forall c :: c in s.cache ==> |s.cache[c]| == NENTRY)
    && (forall b :: b in s.image <==> b in s.role && (s.role[b].DataOf? || s.role[b].Written?))
    && (forall b :: s.writes[b] == if b in s.image then 1 else 0)
    && (forall b :: b in s.image ==> |s.image[b]| == BLKSIZE)
  }

  /** The index of inode `i` spells out its blocks, which belong to it alone. */
  ghost predicate FileOk(s: State, i: nat)
    requires i in s.inodes && i in s.blks
  {
    var ci, b := s.inodes[i], s.blks[i];
    && IndexAt(i, ci, b, |b|, s.cache, s.role)
    && (forall k :: 0 <= k < |b| ==> b[k] in s.role && s.role[b[k]] == DataOf(i, k))
    && (forall k :: 0 <= k < NDIRECT ==> ci.inode.direct[k] < s.ninos)
    && ci.inode.size <= BLKSIZE * ci.nblks && ci.inode.nlinks < 65536 && 1 <= ci.inode.kind <= 3
  }

  ghost predicate NoDuplicates(xs: seq<nat>) {
    forall a, b :: 0 <= a < b < |xs| ==> xs[a] != xs[b]
  }

  /** Every cached inode is in the chain of its host number, once; every cached index block is in chain 0,
      whatever its number hashes to. */
  ghost predicate ChainsOk(s: State) {
    && |s.inodeChains| == |s.blockChains| == HASH_LIST_SIZE
    && InodeChainsOk(s.inodeChains, s.inodes) && BlockChainsOk(s.blockChains, s.cache)
  }

  ghost predicate InodeChainsOk(chains: seq<seq<nat>>, inodes: map<nat, CacheInode>)
    requires |chains| == HASH_LIST_SIZE
  {
    && (forall h :: 0 <= h < HASH_LIST_SIZE ==> NoDuplicates(chains[h]))
    && (forall h, x :: 0 <= h < HASH_LIST_SIZE && x in chains[h] ==>
          x in inodes && Hash32(inodes[x].host % WORD32) == h)
    && (forall i :: i in inodes ==> i in chains[Hash32(inodes[i].host % WORD32)])
  }

  ghost predicate BlockChainsOk(chains: seq<seq<nat>>, cache: Cache)
    requires |chains| == HASH_LIST_SIZE
  {
    && NoDuplicates(chains[0]) && (forall c :: c in chains[0] <==> c in cache)
    && (forall h :: 1 <= h < HASH_LIST_SIZE ==> chains[h] == [])
  }

  ghost predicate FilesOk(s: State)
    requires RolesOk(s)
  {
    forall i :: i in s.inodes ==> FileOk(s, i)
  }

  ghost predicate Inv(s: State) {
    Geometry(s) && RolesOk(s) && FilesOk(s) && ChainsOk(s)
  }

  /** The blocks that belong to inode `i`: itself, its contents and its index. */
  function Own(inodes: map<nat, CacheInode>, i: nat): nat {
    if i in inodes then 1 + Occupied(inodes[i].nblks) else 0
  }

  /** The blocks of all inodes below `n`. */
  function Handed(inodes: map<nat, CacheInode>, n: nat): nat {
    if n == 0 then 0 else Handed(inodes, n - 1) + Own(inodes, n - 1)
  }

  /** The numbers that have been handed out are the blocks of the inodes; the root's own was not. */
  ghost predicate Conserved(s: State) {
    s.nextIno - Start(s.ninos) == Handed(s.inodes, s.ninos) - 1
  }

  /** Everything allocated has been put to its use, and nothing has been lost. */
  ghost predicate Settled(s: State) {
    (forall b :: b in s.role ==> !s.role[b].Taken? && !s.role[b].Written?) && Conserved(s)
  }

  lemma {:induction false} HandedChange(m: map<nat, CacheInode>, m': map<nat, CacheInode>, f: nat, n: nat)
    requires forall i :: i != f ==> Own(m', i) == Own(m, i)
    ensures Handed(m', n) == Handed(m, n) + if f < n then Own(m', f) - Own(m, f) else 0
    decreases n
  {
    if n == 0 {
    } else {
      HandedChange(m, m', f, n - 1);
      assert n - 1 != f ==> Own(m', n - 1) == Own(m, n - 1);
    }
  }

  lemma InvChains(s: State)
    requires Inv(s)
    ensures ChainsOk(s) && |s.inodeChains| == HASH_LIST_SIZE && |s.blockChains| == HASH_LIST_SIZE
  {
  }

  // ----- elementary operations

  /** sfs_alloc_ino */
  function Allocated(s: State, use: Role): State
    requires s.unused >= 1
  {
    s.(nextIno := s.nextIno + 1, unused := s.unused - 1, role := s.role[s.nextIno := use])
  }

  const NO_BLOCKS: seq<nat> := [0, 0, 0, 0, 0, 0, 0, 0, 0, 0, 0, 0]

  function FreshInode(host: nat, kind: nat): CacheInode {
    CacheInode(Inode(0, kind, 0, 0, NO_BLOCKS, 0, 0), host, 0, None, None)
  }

  /** A chain list with `x` prepended to chain `h`. */
  function Filed(chains: seq<seq<nat>>, h: nat, x: nat): (r: seq<seq<nat>>)
    requires h < |chains|
    ensures |r| == |chains| && r[h] == [x] + chains[h] && forall g :: 0 <= g < |chains| && g != h ==> r[g] == chains[g]
  {
    chains[h := [x] + chains[h]]
  }

  /** alloc_cache_inode with a newly allocated number */
  function WithInode(s: State, host: nat, kind: nat): State
    requires s.unused >= 1 && |s.inodeChains| == HASH_LIST_SIZE
  {
    State(s.ninos, s.nextIno + 1, s.unused - 1,
          s.inodes[s.nextIno := FreshInode(host, kind)], Filed(s.inodeChains, Hash32(host % WORD32), s.nextIno),
          s.cache, s.blockChains, s.image,
          s.blks[s.nextIno := []], s.role[s.nextIno := InodeOf], s.writes)
  }

  /** alloc_cache_inode with a number that is given */
  function WithInodeAt(s: State, i: nat, host: nat, kind: nat): State
    requires |s.inodeChains| == HASH_LIST_SIZE
  {
    s.(inodes := s.inodes[i := FreshInode(host, kind)],
       inodeChains := Filed(s.inodeChains, Hash32(host % WORD32), i), blks := s.blks[i := []])
  }

  /** alloc_cache_block with argument 0: the new block is filed under the hash of 0. */
  function WithIndexBlock(s: State, owner: nat, slot: nat): State
    requires s.unused >= 1 && |s.blockChains| == HASH_LIST_SIZE
  {
    State(s.ninos, s.nextIno + 1, s.unused - 1, s.inodes, s.inodeChains,
          s.cache[s.nextIno := EmptyIndex()], Filed(s.blockChains, Hash32(0), s.nextIno), s.image,
          s.blks, s.role[s.nextIno := IndexOf(owner, slot)], s.writes)
  }

  /** write_block */
  function WithWrite(s: State, b: nat, data: Bytes): State {
    s.(image := s.image[b := data], writes := s.writes + multiset{b},
       role := if b in s.role && s.role[b] == Taken then s.role[b := Written] else s.role)
  }

  function WithLink(s: State, i: nat): State
    requires i in s.inodes
  {
    var ci := s.inodes[i];
    s.(inodes := s.inodes[i := ci.(inode := ci.inode.(nlinks := (ci.inode.nlinks + 1) % 65536))])
  }

  // ----- what they preserve

  /** A file that keeps its inode, its blocks and their uses is still in order. */
  lemma FileFrame(s: State, s': State, i: nat)
    requires i in s.inodes && i in s.blks && FileOk(s, i) && s'.ninos == s.ninos && 0 !in s'.cache
    requires i in s'.inodes && i in s'.blks && s'.inodes[i] == s.inodes[i] && s'.blks[i] == s.blks[i]
    requires forall c :: c in s.role && s.role[c].IndexOf? && s.role[c].owner == i && c in s.cache ==>
               c in s'.role && s'.role[c] == s.role[c] && c in s'.cache && s'.cache[c] == s.cache[c]
    requires forall c :: c in s.role && s.role[c].DataOf? && s.role[c].owner == i ==>
               c in s'.role && s'.role[c] == s.role[c]
    ensures FileOk(s', i)
  {
    IndexFrame(i, s.inodes[i], s.blks[i], |s.blks[i]|, s.cache, s.role, s'.cache, s'.role);
  }

  /** Nothing that belongs to a file other than `f` has changed. */
  ghost predicate OthersKept(s: State, s': State, f: nat) {
    && s'.ninos == s.ninos
    && (forall i :: i in s'.inodes && i != f ==> i in s.inodes && s'.inodes[i] == s.inodes[i])
    && (forall i :: i in s'.blks && i in s.blks && i != f ==> s'.blks[i] == s.blks[i])
    && (forall c :: c in s.role && s.role[c].IndexOf? && s.role[c].owner != f && c in s.cache ==>
          c in s'.role && s'.role[c] == s.role[c] && c in s'.cache && s'.cache[c] == s.cache[c])
    && (forall c :: c in s.role && s.role[c].DataOf? && s.role[c].owner != f ==>
          c in s'.role && s'.role[c] == s.role[c])
  }

  lemma FilesFrame(s: State, s': State, f: nat)
    requires RolesOk(s) && FilesOk(s) && RolesOk(s') && OthersKept(s, s', f)
    requires f in s'.inodes ==> FileOk(s', f)
    ensures FilesOk(s')
  {
    forall i | i in s'.inodes
      ensures FileOk(s', i)
    {
      if i != f {
        FileFrame(s, s', i);
      }
    }
  }

  lemma ChainsFrame(s: State, s': State)
    requires ChainsOk(s) && s'.inodeChains == s.inodeChains && s'.blockChains == s.blockChains
    requires forall i :: i in s'.inodes <==> i in s.inodes
    requires forall i :: i in s.inodes ==> s'.inodes[i].host == s.inodes[i].host
    requires forall c :: c in s'.cache <==> c in s.cache
    ensures ChainsOk(s')
  {
  }

  // ----- allocation

  lemma AllocatedRoles(s: State, use: Role)
    requires Geometry(s) && RolesOk(s) && s.unused >= 1 && use == Taken
    ensures Geometry(Allocated(s, use)) && RolesOk(Allocated(s, use))
  {
  }

  lemma AllocatedKept(s: State)
    requires RolesOk(s) && s.unused >= 1
    ensures OthersKept(s, Allocated(s, Taken), 0)
  {
  }

  lemma AllocatedInv(s: State)
    requires Inv(s) && s.unused >= 1
    ensures Inv(Allocated(s, Taken))
  {
    AllocatedRoles(s, Taken);
    AllocatedKept(s);
    FilesFrame(s, Allocated(s, Taken), 0);
    ChainsFrame(s, Allocated(s, Taken));
  }

  // ----- new inodes

  lemma WithInodeRoles(s: State, host: nat, kind: nat)
    requires Geometry(s) && RolesOk(s) && s.unused >= 1 && |s.inodeChains| == HASH_LIST_SIZE
    ensures Geometry(WithInode(s, host, kind)) && RolesOk(WithInode(s, host, kind))
  {
  }

  lemma PrependedChain(xs: seq<nat>, x: nat)
    requires NoDuplicates(xs) && x !in xs
    ensures NoDuplicates([x] + xs) && forall y :: y in [x] + xs <==> y == x || y in xs
  {
  }

  lemma WithInodeChains(s: State, host: nat, kind: nat)
    requires ChainsOk(s) && s.unused >= 1 && s.nextIno !in s.inodes
    ensures ChainsOk(WithInode(s, host, kind))
  {
    hide BlockChainsOk, Hash32;
    PrependedChain(s.inodeChains[Hash32(host % WORD32)], s.nextIno);
  }

  lemma FreshFileOk(s: State, i: nat, host: nat, kind: nat)
    requires i in s.inodes && i in s.blks && s.inodes[i] == FreshInode(host, kind) && s.blks[i] == []
    requires 0 !in s.cache && 1 <= kind <= 3 && s.ninos >= 1
    ensures FileOk(s, i)
  {
  }

  lemma WithInodeKept(s: State, host: nat, kind: nat)
    requires RolesOk(s) && s.unused >= 1 && |s.inodeChains| == HASH_LIST_SIZE
    ensures OthersKept(s, WithInode(s, host, kind), s.nextIno)
  {
  }

  lemma WithInodeInv(s: State, host: nat, kind: nat)
    requires Inv(s) && s.unused >= 1 && 1 <= kind <= 3
    ensures Inv(WithInode(s, host, kind))
  {
    var s' := WithInode(s, host, kind);
    WithInodeRoles(s, host, kind);
    FreshFileOk(s', s.nextIno, host, kind);
    WithInodeKept(s, host, kind);
    FilesFrame(s, s', s.nextIno);
    WithInodeChains(s, host, kind);
  }

  // ----- writes

  lemma WithWriteRoles(s: State, b: nat, data: Bytes)
    requires Geometry(s) && RolesOk(s) && b in s.role && s.role[b] == Taken && |data| == BLKSIZE
    ensures Geometry(WithWrite(s, b, data)) && RolesOk(WithWrite(s, b, data))
  {
    assert b !in s.image && s.writes[b] == 0;
    OneMoreWrite(s.writes, b);
  }

  lemma OneMoreWrite(w: multiset<nat>, b: nat)
    ensures forall c :: (w + multiset{b})[c] == w[c] + if c == b then 1 else 0
  {
  }

  lemma WithWriteKept(s: State, b: nat, data: Bytes)
    requires b in s.role && s.role[b] == Taken
    ensures OthersKept(s, WithWrite(s, b, data), 0)
  {
  }

  lemma WithWriteInv(s: State, b: nat, data: Bytes)
    requires Inv(s) && b in s.role && s.role[b] == Taken && |data| == BLKSIZE
    ensures Inv(WithWrite(s, b, data))
  {
    var s' := WithWrite(s, b, data);
    WithWriteRoles(s, b, data);
    WithWriteKept(s, b, data);
    FilesFrame(s, s', 0);
    ChainsFrame(s, s');
  }

  // ----- link counts

  lemma WithLinkRoles(s: State, i: nat)
    requires Geometry(s) && RolesOk(s) && i in s.inodes
    ensures Geometry(WithLink(s, i)) && RolesOk(WithLink(s, i))
  {
  }

  lemma WithLinkKept(s: State, i: nat)
    requires i in s.inodes
    ensures OthersKept(s, WithLink(s, i), i)
  {
  }

  lemma WithLinkInv(s: State, i: nat)
    requires Inv(s) && i in s.inodes
    ensures Inv(WithLink(s, i))
  {
    hide FileOk, OthersKept, InodeChainsOk, BlockChainsOk;
    var s' := WithLink(s, i);
    WithLinkRoles(s, i);
    LinkedFileOk(s, i);
    WithLinkKept(s, i);
    FilesFrame(s, s', i);
    ChainsFrame(s, s');
  }

  lemma LinkedFileOk(s: State, i: nat)
    requires i in s.inodes && i in s.blks && FileOk(s, i)
    ensures FileOk(WithLink(s, i), i)
  {
    var ci, ci', b := s.inodes[i], WithLink(s, i).inodes[i], s.blks[i];
    var n := |b|;
    forall slot | 0 <= slot < NENTRY + 2
      ensures SlotOk(i, ci', n, s.cache, s.role, slot)
    {
      assert SlotOk(i, ci, n, s.cache, s.role, slot);
    }
    assert forall k :: 0 <= k < |b| ==> Lookup(ci', s.cache, k) == Lookup(ci, s.cache, k);
  }
}
