/**
 The image builder of lab8/tools/mksfs.c: the structure sfs_fs, the caches and the block operations.

 `Sfs` has the fields of struct sfs_fs; its methods are proved against the functions on `State`.  A method
 that would print a message and exit answers false instead.
 */
module Mksfs {
  import opened Modular
  import opened Common
  import opened SfsLayout
  import opened SfsIndex
  import opened SfsState
  import opened SfsAppend
  import opened SfsTree
  import opened SfsGrowth
  import opened SfsWalk
  import opened SfsClose

  /** Each slot that the next block needs is empty exactly if it is about to be allocated, and each cached
      pointer that is needed is already current. */
  ghost predicate Current(ci: CacheInode, cache: Cache) {
    var n := ci.nblks;
    && (L0 <= n < L1 ==> (ci.inode.indirect == 0 <==> Growth(n) == 1))
    && (L0 <= n < L1 && Growth(n) == 0 ==> ci.l1 == Some(ci.inode.indirect))
    && (L1 <= n ==> (ci.inode.dbIndirect == 0 <==> n == L1))
    && (L1 < n ==> ci.l2 == Some(ci.inode.dbIndirect))
    && (L1 < n ==> (SlotBlock(ci, cache, SlotOf(n)) == 0 <==> Growth(n) == 1))
    && (L1 < n && Growth(n) == 0 ==> ci.l1 == Some(SlotBlock(ci, cache, SlotOf(n))))
  }

  lemma IndexIsCurrent(f: nat, ci: CacheInode, b: seq<nat>, cache: Cache, role: Roles)
    requires IndexAt(f, ci, b, |b|, cache, role) && |b| < LN_NBLKS
    ensures Current(ci, cache)
  {
    var n := |b|;
    assert SlotOk(f, ci, n, cache, role, 0);
    assert SlotOk(f, ci, n, cache, role, 1);
    if L1 <= n {
      SlotGeometry(n);
      assert SlotOk(f, ci, n, cache, role, SlotOf(n));
    }
  }

  /** The stale-pointer branch of update_cache is dead: in every state that keeps the invariant, the pointers
      of every inode are current. */
  lemma PointersCurrent(s: State, f: nat)
    requires Inv(s) && f in s.inodes && s.inodes[f].nblks < LN_NBLKS
    ensures Current(s.inodes[f], s.cache)
  {
    InvIndex(s, f);
    IndexIsCurrent(f, s.inodes[f], s.blks[f], s.cache, s.role);
  }

  lemma DoubleExists(s: State, f: nat)
    requires Inv(s) && f in s.inodes
    ensures s.inodes[f].nblks > L1 ==>
      var db := s.inodes[f].inode.dbIndirect;
      db in s.cache && |s.cache[db]| == NENTRY && db in s.role && s.role[db] == IndexOf(f, 1)
  {
    InvIndex(s, f);
    assert SlotOk(f, s.inodes[f], |s.blks[f]|, s.cache, s.role, 1);
  }

  lemma AppendStart(s: State, f: nat)
    requires Inv(s) && f in s.inodes && s.inodes[f].nblks < LN_NBLKS
    ensures Current(s.inodes[f], s.cache) && Geometry(s) && |s.blockChains| == HASH_LIST_SIZE
    ensures s.nextIno !in s.cache && s.nextIno + 1 !in s.cache
    ensures s.inodes[f].nblks > L1 ==>
      var db := s.inodes[f].inode.dbIndirect;
      db in s.cache && |s.cache[db]| == NENTRY && db in s.role && s.role[db] == IndexOf(f, 1)
  {
    PointersCurrent(s, f);
    NextUnused(s, 0);
    NextUnused(s, 1);
    DoubleExists(s, f);
  }

  lemma InvGeometry(s: State)
    requires Inv(s)
    ensures Geometry(s)
  {
  }

  /** If there is a number left, a new inode keeps the invariant. */
  lemma InodePossible(s: State, host: nat, kind: nat)
    requires Inv(s) && 1 <= kind <= 3
    ensures s.nextIno < s.ninos ==> |s.inodeChains| == HASH_LIST_SIZE && s.unused >= 1 && s.nextIno > 0
    ensures s.nextIno < s.ninos ==>
      var b := WithInode(s, host, kind);
      Inv(b) && InodeAdded(s, b, s.nextIno, host, kind) && (Settled(s) ==> Settled(b))
  {
    if s.nextIno < s.ninos {
      WithInodeInv(s, host, kind);
      InodeAddedBy(s, host, kind);
      NextUnused(s, 0);
    }
  }

  lemma FillingTakes(a: State, b: State, f: nat, data: Bytes)
    requires Geometry(b) && a.unused == a.ninos - a.nextIno && Filling(a, b, f, data, Chunks(|data|))
    ensures b.unused == a.unused - Occupied(Chunks(|data|))
  {
  }

  lemma EntryTakes(a: State, b: State, cur: nat, file: nat, name: Bytes)
    requires Inv(a) && Inv(b) && EntryAdded(a, b, cur, file, name)
    ensures b.unused == a.unused - 1 - Growth(a.inodes[cur].nblks)
    ensures cur in b.inodes && b.inodes[cur].inode.kind == a.inodes[cur].inode.kind
  {
    hide Inv, EntryAt;
    InvGeometry(a);
    InvGeometry(b);
    assert EntryInode(a.inodes[cur], b.inodes[cur], true, cur == file);
  }

  lemma PutTakesOne(a: State, b: State, f: nat, bytes: Bytes)
    requires Geometry(b) && a.unused == a.ninos - a.nextIno && PutEffect(a, b, f, bytes, |bytes|)
    requires a.inodes[f].nblks == 0
    ensures b.unused == a.unused - 1
  {
  }

  /** Although every index block is filed in chain 0, a search for it looks in the chain of its own number;
      so it would be found only if that happened to be chain 0. */
  lemma SearchFindsIff(s: State, c: nat)
    requires Inv(s) && c in s.cache
    ensures c in s.blockChains[Hash32(c)] <==> Hash32(c) == 0
  {
  }

  /** The double-indirect block is new and still empty. */
  function DoubleAdded(s: State, f: nat): State
    requires f in s.inodes && s.unused >= 1 && |s.blockChains| == HASH_LIST_SIZE
  {
    var ci := s.inodes[f];
    SetInode(WithIndexBlock(s, f, 1), f, ci.(inode := ci.inode.(dbIndirect := s.nextIno), l2 := Some(s.nextIno)))
  }

  /** Its first child is new as well. */
  lemma DoubleInTwoSteps(s: State, f: nat)
    requires f in s.inodes && s.unused >= 2 && |s.blockChains| == HASH_LIST_SIZE
    ensures var t, db := DoubleAdded(s, f), s.nextIno;
      SetInode(SetCache(WithIndexBlock(t, f, 2), db, Poked(EmptyIndex(), 0, t.nextIno)), f,
               t.inodes[f].(l1 := Some(t.nextIno))) == GrownDouble(s, f)
  {
    var t := DoubleAdded(s, f);
    var ci' := WithDouble(s.inodes[f], s.nextIno, s.nextIno + 1);
    assert t.inodes[f := ci'] == s.inodes[f := ci'];
  }

  lemma InodeBelow(s: State, i: nat)
    requires Inv(s) && i in s.inodes
    ensures i < s.nextIno
  {
  }

  /** After the entry of a directory for itself. */
  lemma FirstEntry(a: State, m: State, cur: nat, par: nat)
    requires Blank(a, cur) && par in a.inodes && a.inodes[par].inode.kind == TYPE_DIR
    requires EntryAdded(a, m, cur, cur, [DOT])
    ensures cur in m.inodes && m.inodes[cur].inode.kind == TYPE_DIR && m.inodes[cur].nblks == 1
    ensures par in m.inodes && m.inodes[par].inode.kind == TYPE_DIR
  {
    hide EntryAt;
    assert EntryInode(a.inodes[cur], m.inodes[cur], true, true);
    assert EntryInode(a.inodes[par], m.inodes[par], par == cur, par == cur);
  }

  lemma CannotWalk(a: State, es: seq<Entry>, k: nat)
    requires k <= |es|
    ensures !CanWalk(a, es, k) ==> !CanWalk(a, es, |es|)
  {
    if CanWalk(a, es, |es|) {
      CanWalkBefore(a, es, k, |es|);
    }
  }

  /** The directory has room for the kid that its next kept entry becomes. */
  lemma {:induction false} RoomForKid(a: State, es: seq<Entry>, k: nat)
    requires k < |es| && Kept(es[k]) && CanWalk(a, es, k + 1)
    ensures KeptCount(es, k) < LN_NBLKS
  {
  }

  lemma {:induction false} NeverVisited(s: State, n: Node, t: Hosts)
    requires HostsOk(s, t) && n.Dir? && WellFormed(n, t) && Unvisited(s, DirHosts(n))
    ensures forall i :: i in s.inodes ==> s.inodes[i].host != n.host
  {
  }

  lemma {:induction false} NewDirectory(a: State, b: State, i: nat, cur: nat, n: Node, t: Hosts)
    requires Ready(a, t, cur) && n.Dir? && WellFormed(n, t) && Unvisited(a, DirHosts(n))
    requires InodeAdded(a, b, i, n.host, TYPE_DIR) && Inv(b) && Settled(b) && i != 0
    ensures Ready(b, t, i) && Blank(b, i) && Unvisited(b, KidDirHosts(n.entries, |n.entries|))
    ensures cur in b.inodes && b.inodes[cur] == a.inodes[cur] && CachedFiles(b) == CachedFiles(a)
    ensures cur < a.nextIno && cur != i
  {
    hide Inv, Settled, HostsOk, FilesHold, FileCountsFit, CachedFiles;
    InvCounts(a);
    InodeBelow(a, cur);
    InodePreserves(a, b, i, n.host, TYPE_DIR);
    InodeHosts(a, b, i, n.host, TYPE_DIR, t);
    FilesHoldFrame(a, b, t, {}, {}, {});
    InodeAdds(a, b, i, n.host, TYPE_DIR);
    AddedNoFile(a, b, Added([], [i], {n.host}, {}));
  }

  lemma AddedNoFile(a: State, b: State, d: Added)
    requires Adds(a, b, d) && d.hosts == {}
    ensures CachedFiles(b) == CachedFiles(a)
  {
    hide CachedFiles;
  }

  /** The parent after open_dir on a new directory. */
  lemma StillParent(a: State, b: State, c: State, i: nat, cur: nat, n: Node, kids: seq<Kid>)
    requires n.Dir? && cur in a.inodes && cur in b.inodes && b.inodes[cur] == a.inodes[cur] && cur != i
    requires Walked(b, c, i, cur, n.entries, |n.entries|, kids)
    ensures cur in c.inodes && c.inodes[cur].inode.kind == a.inodes[cur].inode.kind
    ensures c.inodes[cur].nblks == a.inodes[cur].nblks
    ensures i in c.inodes && |kids| == KeptCount(n.entries, |n.entries|)
  {
    hide PlacedAt, DirAt, Adds, Labelled, KidsPlaced, Gathered;
    assert InodeKept(b, c, cur, false, true);
  }

  // ----- create_sfs

  /** The number of blocks used: the quotient is stored in 32 bits before it is capped. */
  function Ninos(size: nat): (n: nat)
    ensures n <= MAX_NBLKS
  {
    var n := size / BLKSIZE % WORD32;
    if n > MAX_NBLKS then MAX_NBLKS else n
  }

  /** The number that the cap is meant to leave. */
  function Capped(q: nat): nat {
    if q > MAX_NBLKS then MAX_NBLKS else q
  }

  /** The cap works exactly if the number of blocks fits into 32 bits, or what is left of it there is no less
      than the cap. */
  lemma CapWorksIff(size: nat, q: nat)
    requires q == size / BLKSIZE
    ensures Ninos(size) == Capped(q) <==> q < WORD32 || q % WORD32 >= MAX_NBLKS
  {
    if q < WORD32 {
      assert q % WORD32 == q;
    }
  }

  /** create_sfs goes on exactly if four blocks are left of the size in 32 bits. */
  lemma BigEnoughIff(size: nat)
    ensures Start(Ninos(size)) < Ninos(size) <==> size / BLKSIZE % WORD32 >= 4
  {
    StartBelowIff(Ninos(size));
  }

  lemma StartBelowIff(n: nat)
    ensures Start(n) < n <==> n >= 4
  {
  }

  /** An image file of 16 TiB counts as one without any block, and is refused as too small. */
  lemma HugeFileIsTooSmall(size: nat)
    requires size == 0x1000_0000_0000
    ensures Ninos(size) == 0 && Capped(size / BLKSIZE) == MAX_NBLKS && Start(Ninos(size)) >= Ninos(size)
  {
    assert size / BLKSIZE == WORD32;
  }

  function NoChains(): (c: seq<seq<nat>>)
    ensures |c| == HASH_LIST_SIZE && forall h :: 0 <= h < |c| ==> c[h] == []
  {
    seq(HASH_LIST_SIZE, h => [])
  }

  const INFO_TEXT: Bytes := [115, 105, 109, 112, 108, 101, 32, 102, 105, 108, 101, 32, 115, 121, 115, 116, 101, 109]

  /** The info field: the text, a NUL, and what malloc left behind it. */
  function Info(heap: Bytes): (r: Bytes)
    requires |heap| == INFO_SIZE
    ensures |r| == INFO_SIZE
  {
    INFO_TEXT + [0] + heap[|INFO_TEXT| + 1..]
  }

  function Initial(n: nat): State
    requires Start(n) <= n
  {
    State(n, Start(n), n - Start(n), map[BLKN_ROOT := FreshInode(0, TYPE_DIR)],
          Filed(NoChains(), Hash32(0), BLKN_ROOT), map[], NoChains(), map[], map[BLKN_ROOT := []], map[], multiset{})
  }

  lemma {:induction false} NothingHanded(n: nat)
    ensures Handed(map[], n) == 0
  {
    if n == 0 {
    } else {
      NothingHanded(n - 1);
    }
  }

  lemma InitialInv(n: nat)
    requires Start(n) < n <= MAX_NBLKS
    ensures Inv(Initial(n)) && Settled(Initial(n))
  {
    hide ChainsOk, Conserved;
    var s := Initial(n);
    FreshFileOk(s, BLKN_ROOT, 0, TYPE_DIR);
    InitialChains(n);
    InitialConserved(n);
  }

  lemma InitialChains(n: nat)
    requires Start(n) <= n
    ensures ChainsOk(Initial(n))
  {
    assert Hash32(0) == 0;
    PrependedChain([], BLKN_ROOT);
  }

  lemma InitialConserved(n: nat)
    requires Start(n) < n
    ensures Conserved(Initial(n))
  {
    hide Handed;
    RootHanded(n);
  }

  lemma {:induction false} RootHanded(n: nat)
    requires n > BLKN_ROOT
    ensures Handed(map[BLKN_ROOT := FreshInode(0, TYPE_DIR)], n) == 1
  {
    hide Handed, Occupied;
    NothingHanded(n);
    NothingOccupied();
    HandedChange(map[], map[BLKN_ROOT := FreshInode(0, TYPE_DIR)], BLKN_ROOT, n);
  }

  lemma InitialReady(n: nat, t: Hosts)
    requires Start(n) < n <= MAX_NBLKS && 0 !in t
    ensures Ready(Initial(n), t, BLKN_ROOT) && Blank(Initial(n), BLKN_ROOT) && CachedFiles(Initial(n)) == {}
  {
    hide Inv, Settled;
    InitialInv(n);
  }

  class Sfs {
    var ninos: nat
    var nextIno: nat
    var unused: nat                       // super.unused_blocks
    var inodes: map<nat, CacheInode>
    var inodeChains: seq<seq<nat>>        // inodes[HASH_LIST_SIZE]
    var cache: Cache
    var blockChains: seq<seq<nat>>        // blocks[HASH_LIST_SIZE]
    var image: map<nat, Bytes>            // what pwrite has put into the image file
    var entryName: Bytes                  // the static name buffer of add_entry
    const info: Bytes                     // super.info

    ghost var blks: map<nat, seq<nat>>
    ghost var role: Roles
    ghost var writes: multiset<nat>

    ghost function S(): State
      reads this
    {
      State(ninos, nextIno, unused, inodes, inodeChains, cache, blockChains, image, blks, role, writes)
    }

    ghost predicate Valid()
      reads this
    {
      Inv(S()) && |entryName| == MAX_FNAME + 1
    }

    /** The allocation and the assignments of create_sfs, which come after its checks.  `heap` is what malloc
        left in the field super.info. */
    constructor (ninos: nat, heap: Bytes)
      requires Start(ninos) < ninos <= MAX_NBLKS && |heap| == INFO_SIZE
      ensures S() == Initial(ninos) && info == Info(heap) && |entryName| == MAX_FNAME + 1
    {
      this.ninos, nextIno, unused := ninos, Start(ninos), ninos - Start(ninos);
      info := Info(heap);
      inodes, inodeChains, cache, blockChains, image := map[], NoChains(), map[], NoChains(), map[];
      entryName := Zeros(MAX_FNAME + 1);
      blks, role, writes := map[], map[], multiset{};
      new;
      var ok, root := AllocCacheInode(0, BLKN_ROOT, TYPE_DIR);
    }

    /** sfs_alloc_ino */
    method AllocIno() returns (ok: bool, ino: nat)
      requires Geometry(S())
      modifies this`nextIno, this`unused, this`role
      ensures ok == (old(nextIno) < ninos)
      ensures ok ==> ino == old(nextIno) && S() == Allocated(old(S()), Taken)
    {
      if nextIno < ninos {
        unused := unused - 1;
        ino := nextIno;
        nextIno := nextIno + 1;
        role := role[ino := Taken];
        ok := true;
      } else {
        ok, ino := false, 0;
      }
    }

    /** alloc_cache_block.  It is called with 0 only; the block is filed under the hash of that argument. */
    method AllocCacheBlock(arg: nat, ghost owner: nat, ghost slot: nat) returns (ok: bool, cb: nat)
      requires Geometry(S()) && |blockChains| == HASH_LIST_SIZE
      modifies this`nextIno, this`unused, this`role, this`cache, this`blockChains
      ensures arg == 0 ==> ok == (old(nextIno) < ninos)
      ensures arg == 0 && ok ==> cb == old(nextIno) && S() == WithIndexBlock(old(S()), owner, slot)
      ensures arg != 0 ==> ok && cb == arg && cache == old(cache)[arg := EmptyIndex()] &&
                           blockChains == Filed(old(blockChains), Hash32(arg), arg)
    {
      if arg != 0 {
        cb, ok := arg, true;
      } else {
        ok, cb := AllocIno();
        if !ok {
          return;
        }
        role := role[cb := IndexOf(owner, slot)];
      }
      cache := cache[cb := EmptyIndex()];
      blockChains := Filed(blockChains, Hash32(arg), cb);
    }

    /** search_cache_block */
    method SearchCacheBlock(ino: nat) returns (r: Option<nat>)
      requires |blockChains| == HASH_LIST_SIZE
      ensures r == if ino in blockChains[Hash32(ino)] then Some(ino) else None
    {
      var chain := blockChains[Hash32(ino)];
      var i := 0;
      while i < |chain| && chain[i] != ino
        invariant i <= |chain| && ino !in chain[..i]
      {
        i := i + 1;
      }
      r := if i < |chain| then Some(chain[i]) else None;
    }

    /** search_cache_inode */
    method SearchCacheInode(host: nat) returns (r: Option<nat>)
      requires ChainsOk(S())
      ensures r.Some? ==> r.value in inodes && inodes[r.value].host == host
      ensures r.None? ==> forall i :: i in inodes ==> inodes[i].host != host
    {
      var chain := inodeChains[Hash32(host % WORD32)];
      var i := 0;
      while i < |chain| && inodes[chain[i]].host != host
        invariant i <= |chain| && forall k :: 0 <= k < i ==> inodes[chain[k]].host != host
      {
        i := i + 1;
      }
      r := if i < |chain| then Some(chain[i]) else None;
      assert r == None ==> forall j :: j in chain ==> inodes[j].host != host;
    }

    /** alloc_cache_inode.  The argument is a number, as for the root, or 0 for the next one. */
    method AllocCacheInode(host: nat, arg: nat, kind: nat) returns (ok: bool, i: nat)
      requires Geometry(S()) && |inodeChains| == HASH_LIST_SIZE
      modifies this`nextIno, this`unused, this`role, this`inodes, this`inodeChains, this`blks
      ensures arg == 0 ==> ok == (old(nextIno) < ninos)
      ensures arg == 0 && ok ==> i == old(nextIno) && S() == WithInode(old(S()), host, kind)
      ensures arg != 0 ==> ok && i == arg && S() == WithInodeAt(old(S()), arg, host, kind)
    {
      hide Hash32, FreshInode, Start;
      if arg != 0 {
        ok, i := true, arg;
      } else {
        ok, i := AllocIno();
        if !ok {
          return;
        }
        role := role[i := InodeOf];
        assert role == old(role)[i := InodeOf];
      }
      inodes := inodes[i := FreshInode(host, kind)];
      inodeChains := Filed(inodeChains, Hash32(host % WORD32), i);
      blks := blks[i := []];
    }

    /** write_block; the lengths and numbers that its assertion rejects make it fail. */
    method WriteBlock(data: Bytes, ino: nat) returns (ok: bool)
      modifies this`image, this`writes, this`role
      ensures ok == (|data| <= BLKSIZE && ino < ninos)
      ensures ok ==> S() == WithWrite(old(S()), ino, Padded(data))
    {
      ok := |data| <= BLKSIZE && ino < ninos;
      if ok {
        var buffer := if |data| != BLKSIZE then data + Zeros(BLKSIZE - |data|) else data;
        assert buffer == Padded(data);
        image := image[ino := buffer];
        writes := writes + multiset{ino};
        role := if ino in role && role[ino] == Taken then role[ino := Written] else role;
      }
    }

    /** update_cache: allocate, keep the current block, or search for another one. */
    method UpdateCache(cb: Option<nat>, ino: nat, ghost owner: nat, ghost slot: nat)
      returns (ok: bool, cb': Option<nat>, ino': nat)
      requires Geometry(S()) && |blockChains| == HASH_LIST_SIZE
      modifies this`nextIno, this`unused, this`role, this`cache, this`blockChains
      ensures ino == 0 ==> ok == (old(nextIno) < ninos)
      ensures ino == 0 && ok ==>
        cb' == Some(old(nextIno)) && ino' == old(nextIno) && S() == WithIndexBlock(old(S()), owner, slot)
      ensures ino != 0 ==> S() == old(S()) && cb' == Some(ino) && ino' == ino
      ensures ino != 0 && cb == Some(ino) ==> ok
      ensures ino != 0 && cb != Some(ino) ==> ok == (ino in blockChains[Hash32(ino)])
    {
      ok, cb', ino' := true, cb, ino;
      if ino == 0 {
        var c;
        ok, c := AllocCacheBlock(0, owner, slot);
        cb', ino' := Some(c), c;
      } else if cb == None || cb.value != ino {
        var r := SearchCacheBlock(ino);
        ok := r != None;
        cb' := Some(ino);
      }
    }
  
    /** The call of update_cache for the indirect block. */
    method LocateIndirect(f: nat) returns (ok: bool)
      requires f in inodes && L0 <= inodes[f].nblks < L1 && Current(inodes[f], cache)
      requires Geometry(S()) && |blockChains| == HASH_LIST_SIZE
      modifies this`nextIno, this`unused, this`role, this`cache, this`blockChains, this`inodes
      ensures ok == (old(unused) >= Growth(old(inodes[f].nblks)))
      ensures ok ==> S() == if Growth(old(inodes[f].nblks)) == 0 then old(S()) else GrownIndirect(old(S()), f)
    {
      var ci := inodes[f];
      var l1, indirect;
      ok, l1, indirect := UpdateCache(ci.l1, ci.inode.indirect, f, 0);
      if ok {
        assert Growth(ci.nblks) == 0 ==> old(inodes)[f := ci] == old(inodes);
        inodes := inodes[f := ci.(l1 := l1, inode := ci.inode.(indirect := indirect))];
      }
    }

    /** The call of update_cache for the double-indirect block. */
    method LocateDouble(f: nat) returns (ok: bool)
      requires f in inodes && L1 <= inodes[f].nblks && Current(inodes[f], cache)
      requires Geometry(S()) && |blockChains| == HASH_LIST_SIZE
      modifies this`nextIno, this`unused, this`role, this`cache, this`blockChains, this`inodes
      ensures ok == (old(inodes[f].nblks) == L1 ==> old(unused) >= 1)
      ensures ok && old(inodes[f].nblks) == L1 ==> S() == DoubleAdded(old(S()), f)
      ensures ok && old(inodes[f].nblks) != L1 ==> S() == old(S())
    {
      var ci := inodes[f];
      var l2, db;
      ok, l2, db := UpdateCache(ci.l2, ci.inode.dbIndirect, f, 1);
      if ok {
        assert ci.nblks != L1 ==> old(inodes)[f := ci] == old(inodes);
        inodes := inodes[f := ci.(l2 := l2, inode := ci.inode.(dbIndirect := db))];
      }
    }

    /** The call of update_cache for the child of the double-indirect block that block `n` falls into. */
    method LocateChild(f: nat) returns (ok: bool)
      requires f in inodes && L1 <= inodes[f].nblks < LN_NBLKS
      requires Geometry(S()) && |blockChains| == HASH_LIST_SIZE
      requires inodes[f].inode.dbIndirect in cache && |cache[inodes[f].inode.dbIndirect]| == NENTRY
      requires inodes[f].l2 == Some(inodes[f].inode.dbIndirect) && nextIno !in cache
      requires var b := cache[inodes[f].inode.dbIndirect][SlotOf(inodes[f].nblks) - 2];
        b == 0 || inodes[f].l1 == Some(b)
      modifies this`nextIno, this`unused, this`role, this`cache, this`blockChains, this`inodes
      ensures var db := old(inodes[f].inode.dbIndirect);
        var j := SlotOf(old(inodes[f].nblks)) - 2;
        if old(cache[db][j]) == 0 then
          && ok == (old(unused) >= 1)
          && (ok ==>
                var t := SetCache(WithIndexBlock(old(S()), f, j + 2), db, Poked(old(cache)[db], j, old(nextIno)));
                S() == SetInode(t, f, old(inodes[f]).(l1 := Some(old(nextIno)))))
        else ok && S() == old(S())
    {
      var ci := inodes[f];
      var db, j := ci.l2.value, (ci.nblks - L1) / NENTRY;
      var l1, ino;
      ok, l1, ino := UpdateCache(ci.l1, cache[db][j], f, j + 2);
      if ok {
        assert old(cache)[db][j] != 0 ==> Poked(old(cache)[db], j, ino) == old(cache)[db];
        assert old(cache)[db][j] != 0 ==> old(cache)[db := old(cache)[db]] == old(cache);
        assert old(cache)[db][j] != 0 ==> old(inodes)[f := ci] == old(inodes);
        cache := cache[db := Poked(cache[db], j, ino)];
        inodes := inodes[f := ci.(l1 := l1)];
      }
    }

    /** The assignments of append_block once the slot is at hand. */
    method StoreBlock(f: nat, x: nat, size: nat)
      requires CanFill(S(), f)
      modifies this`inodes, this`cache, this`role, this`blks
      ensures S() == Filled(old(S()), f, x, size)
    {
      var ci := inodes[f];
      var n := ci.nblks;
      if n < L0 {
        inodes := inodes[f := WithDirect(ci, n, x)];
      } else {
        var c := ci.l1.value;
        cache := cache[c := Poked(cache[c], OffsetOf(n), x)];
      }
      role, blks := role[x := DataOf(f, n)], blks[f := blks[f] + [x]];
      inodes := inodes[f := Counted(inodes[f], size)];
    }
  
    /** The calls of update_cache that append_block makes for block `n` of a file. */
    method Locate(f: nat) returns (ok: bool)
      requires f in inodes && inodes[f].nblks < LN_NBLKS && Current(inodes[f], cache)
      requires Geometry(S()) && |blockChains| == HASH_LIST_SIZE && nextIno !in cache && nextIno + 1 !in cache
      requires inodes[f].nblks > L1 ==>
        var db := inodes[f].inode.dbIndirect;
        db in cache && |cache[db]| == NENTRY && db in role && role[db] == IndexOf(f, 1)
      modifies this`nextIno, this`unused, this`role, this`cache, this`blockChains, this`inodes
      ensures ok == (old(unused) >= Growth(old(inodes[f].nblks)))
      ensures ok ==> old(CanGrow(S(), f)) && S() == Grown(old(S()), f)
    {
      var n := inodes[f].nblks;
      if n < L0 {
        ok := true;
      } else if n < L1 {
        ok := LocateIndirect(f);
      } else {
        ok := LocateDouble(f);
        if ok {
          if n == L1 && unused >= 1 {
            DoubleInTwoSteps(old(S()), f);
          }
          ok := LocateChild(f);
        }
      }
    }

    /** append_block.  It fails if the file is too big or the numbers for its index run out. */
    method AppendBlock(f: nat, x: nat, size: nat) returns (ok: bool)
      requires Inv(S()) && f in inodes && size <= BLKSIZE
      modifies this`nextIno, this`unused, this`role, this`cache, this`blockChains, this`inodes, this`blks
      ensures ok == (old(inodes[f].nblks) < LN_NBLKS && old(unused) >= Growth(old(inodes[f].nblks)))
      ensures ok ==> old(CanAppend(S(), f)) && S() == Appended(old(S()), f, x, size)
    {
      hide Inv, Current, Grown, Filled, Growth;
      if inodes[f].nblks >= LN_NBLKS {
        return false;
      }
      ghost var s := S();
      AppendStart(s, f);
      ok := Locate(f);
      if ok {
        AppendReady(s, f);
        StoreBlock(f, x, size);
      }
    }
  
    /** A newly allocated block with these contents. */
    method PrepareBlock(bytes: Bytes) returns (ok: bool, x: nat)
      requires Geometry(S()) && |bytes| <= BLKSIZE
      modifies this`nextIno, this`unused, this`role, this`image, this`writes
      ensures ok == (old(unused) >= 1)
      ensures ok ==> x == old(nextIno) && S() == Prepared(old(S()), bytes)
    {
      ok, x := AllocIno();
      if ok {
        ok := WriteBlock(bytes, x);
      }
    }

    /** A block for file `f`: allocated, written and appended. */
    method PutBlock(f: nat, bytes: Bytes, size: nat) returns (ok: bool)
      requires Inv(S()) && f in inodes && |bytes| <= BLKSIZE && size <= BLKSIZE
      modifies this`nextIno, this`unused, this`role, this`cache, this`blockChains, this`inodes,
               this`blks, this`image, this`writes
      ensures ok == (old(inodes[f].nblks) < LN_NBLKS && old(unused) >= 1 + Growth(old(inodes[f].nblks)))
      ensures ok ==> Inv(S()) && PutEffect(old(S()), S(), f, bytes, size) && (old(Settled(S())) ==> Settled(S()))
    {
      ghost var s := S();
      var x;
      ok, x := PrepareBlock(bytes);
      if !ok {
        return;
      }
      PreparedInv(s, bytes);
      ok := AppendBlock(f, x, size);
      if ok {
        PutResult(s, f, bytes, size);
      }
    }

    /** The contents of an entry, in the static buffer and as the bytes that are written. */
    method FillEntry(file: nat, name: Bytes) returns (bytes: Bytes)
      requires |entryName| == MAX_FNAME + 1 && |name| <= MAX_FNAME && 0 !in name && file < WORD32
      modifies this`entryName
      ensures |entryName| == MAX_FNAME + 1 && |bytes| == MAX_FNAME + 1
      ensures EntryIno(Padded(bytes)) == file && EntryName(Padded(bytes)) == Clipped(name)
    {
      EntryReadsBack(file, entryName, name);
      entryName := Strcpy(entryName, name);
      bytes := EncodeWords([file]) + entryName[..NAME_SPACE];
    }

    /** The increment of nlinks, a 16-bit number. */
    method CountLink(file: nat)
      requires file in inodes
      modifies this`inodes
      ensures S() == WithLink(old(S()), file)
    {
      var ci := inodes[file];
      inodes := inodes[file := ci.(inode := ci.inode.(nlinks := (ci.inode.nlinks + 1) % 65536))];
    }

    /** add_entry: an entry for `file` in the directory `cur`. */
    method AddEntry(cur: nat, file: nat, name: Bytes) returns (ok: bool)
      requires Valid() && cur in inodes && file in inodes && 0 !in name
      modifies this
      ensures ok == (old(inodes[cur].inode.kind) == TYPE_DIR && |name| <= MAX_FNAME &&
                     old(inodes[cur].nblks) < LN_NBLKS && old(unused) >= 1 + Growth(old(inodes[cur].nblks)))
      ensures ok ==> Valid() && EntryAdded(old(S()), S(), cur, file, name) && (old(Settled(S())) ==> Settled(S()))
    {
      if inodes[cur].inode.kind != TYPE_DIR || |name| > MAX_FNAME {
        return false;
      }
      ghost var s := S();
      SmallIno(s, file);
      var bytes := FillEntry(file, name);
      ok := PutBlock(cur, bytes, MAX_FNAME + 1);
      if ok {
        ghost var t := S();
        CountLink(file);
        WithLinkInv(t, file);
        LinkConserved(t, file);
        EntryResult(s, t, cur, file, name, bytes);
      }
    }
  
    /** One turn of the read loop. */
    method PutChunk(f: nat, data: Bytes, k: nat, ghost a: State) returns (ok: bool)
      requires Valid() && Settled(S()) && f in inodes && Filling(a, S(), f, data, k) && k < Chunks(|data|)
      modifies this
      ensures ok == (k < LN_NBLKS && old(unused) >= 1 + Growth(k))
      ensures ok ==> Valid() && Settled(S()) && Filling(a, S(), f, data, k + 1)
      ensures ok ==> unused == old(unused) - 1 - Growth(k)
    {
      hide Inv;
      ghost var s := S();
      InvGeometry(s);
      var buffer := Chunk(data, k);
      ok := PutBlock(f, buffer, |buffer|);
      if ok {
        InvGeometry(S());
        FillingStep(a, s, S(), f, data, k);
      }
    }

    /** open_file: the contents of a regular file, one read after the other.  Successive reads are the
        chunks of the contents. */
    method OpenFile(f: nat, data: Bytes) returns (ok: bool)
      requires Valid() && Settled(S()) && f in inodes && f in blks
      requires inodes[f].nblks == 0 && blks[f] == [] && inodes[f].inode.size == 0
      modifies this
      ensures ok == (Chunks(|data|) <= LN_NBLKS && old(unused) >= Occupied(Chunks(|data|)))
      ensures ok ==> Valid() && Settled(S()) && Filling(old(S()), S(), f, data, Chunks(|data|))
    {
      hide Inv, Settled, IndexBlocks, Occupied, Growth, Chunk, Filling;
      NothingOccupied();
      ghost var a := S();
      InvCounts(a);
      FillingStart(a, f, data);
      var last, k := BLKSIZE, 0;
      while k < Chunks(|data|)
        invariant Valid() && Settled(S()) && Filling(a, S(), f, data, k)
        invariant k <= Chunks(|data|) && k <= LN_NBLKS && unused == a.unused - Occupied(k)
        invariant last == if k == 0 then BLKSIZE else |Chunk(data, k - 1)|
      {
        ChunkSize(data, k);
        OccupiedGrows(k);
        FillingSize(a, S(), f, data, k);
        OccupiedMonotone(k + 1, Chunks(|data|));
        if last != BLKSIZE {
          return false;
        }
        ok := PutChunk(f, data, k, a);
        if !ok {
          return;
        }
        last, k := |Chunk(data, k)|, k + 1;
      }
      ok := true;
    }
  
    /** The new file of add_file: an inode and its contents. */
    method MakeFile(n: Node, ghost t: Hosts) returns (ok: bool, f: nat)
      requires |entryName| == MAX_FNAME + 1 && Tidy(S(), t) && n.File? && n.host in t && t[n.host] == AFile(n.data)
      requires n.host !in CachedFiles(S())
      modifies this
      ensures ok == (Fits(n) && old(unused) >= 1 + Occupied(Chunks(|n.data|)))
      ensures ok ==> |entryName| == MAX_FNAME + 1 && Tidy(S(), t)
      ensures ok ==> unused == old(unused) - 1 - Occupied(Chunks(|n.data|))
      ensures ok ==> Preserves(old(S()), S(), {}, {}) && FileAt(S(), f, n.data) && inodes[f].host == n.host
      ensures ok ==> Adds(old(S()), S(), Added([], [], {}, {n.host}))
    {
      hide Inv, Settled, HostsOk, FilesHold, FileAt, Preserves, Adds, Filling, FileCountsFit;
      hide Occupied, CachedFiles, Chunks;
      ghost var a := S();
      InvCounts(a);
      InvChains(a);
      InvGeometry(a);
      InodePossible(a, n.host, TYPE_FILE);
      ok, f := AllocCacheInode(n.host, 0, TYPE_FILE);
      if !ok {
        return;
      }
      ghost var b := S();
      ok := OpenFile(f, n.data);
      if ok {
        InvGeometry(S());
        FillingTakes(b, S(), f, n.data);
        FileMade(a, b, S(), f, n.host, n.data);
        FileHostsAndData(a, b, S(), f, n.host, n.data, t);
      }
    }
  
    /** The file that add_file links to: a cached one, or a new one. */
    method FindFile(n: Node, ghost t: Hosts) returns (ok: bool, f: nat)
      requires |entryName| == MAX_FNAME + 1 && Tidy(S(), t) && n.File? && n.host in t && t[n.host] == AFile(n.data)
      modifies this
      ensures ok == (Fits(n) && old(unused) >= Need(n, CachedFiles(old(S()))))
      ensures ok ==> |entryName| == MAX_FNAME + 1 && Tidy(S(), t)
      ensures ok ==> unused == old(unused) - Need(n, CachedFiles(old(S())))
      ensures ok ==> Preserves(old(S()), S(), {}, {}) && FileAt(S(), f, n.data) && inodes[f].host == n.host
      ensures ok ==> Adds(old(S()), S(), Added([], [], {}, {n.host}))
    {
      hide Inv, Settled, HostsOk, FilesHold, FileAt, Preserves, Adds, FileCountsFit, Occupied;
      hide CachedFiles, Chunks, ChainsOk;
      ghost var a := S();
      InvChains(a);
      var r := SearchCacheInode(n.host);
      if r == None {
        NotCached(a, n.host);
        ok, f := MakeFile(n, t);
      } else {
        ok, f := true, r.value;
        CachedFile(a, f, n, t);
        InvCounts(a);
        AddsNothing(a, n.host);
        PreservesSelf(a);
      }
    }

    /** add_file */
    method AddFile(cur: nat, name: Bytes, n: Node, ghost t: Hosts) returns (ok: bool, ghost p: Placed)
      requires |entryName| == MAX_FNAME + 1 && Ready(S(), t, cur) && 0 !in name
      requires n.File? && n.host in t && t[n.host] == AFile(n.data)
      modifies this
      ensures ok == old(CanVisit(S(), cur, name, n))
      ensures ok ==> |entryName| == MAX_FNAME + 1 && Ready(S(), t, cur) && Visited(old(S()), S(), cur, name, n, p)
      ensures ok ==> unused == old(unused) - old(Cost(S(), cur, n))
    {
      hide Inv, Settled, HostsOk, FilesHold, FileAt, Preserves, Adds, FileCountsFit, CachedFiles;
      hide EntryAdded, Visited, Fits, Need, Growth;
      ghost var a := S();
      var f;
      p := PlacedFile(0, []);
      ok, f := FindFile(n, t);
      if !ok {
        return;
      }
      ghost var c := S();
      InodeUntouched(a, c, cur);
      FileIsFile(c, f, n.data);
      ok := AddEntry(cur, f, name);
      if ok {
        p := PlacedFile(f, n.data);
        InvCounts(c);
        FileVisited(a, c, S(), cur, f, name, n);
        EntryTidy(c, S(), cur, f, name, t);
        EntryTakes(c, S(), cur, f, name);
      }
    }
  
    /** open_link: the target of a symbolic link, which must be shorter than a block. */
    method OpenLink(f: nat, target: Bytes) returns (ok: bool)
      requires Inv(S()) && f in inodes && inodes[f].nblks == 0
      modifies this`nextIno, this`unused, this`role, this`cache, this`blockChains, this`inodes,
               this`blks, this`image, this`writes
      ensures ok == (|target| < BLKSIZE && old(unused) >= 1)
      ensures ok ==> Inv(S()) && PutEffect(old(S()), S(), f, target, |target|) && (old(Settled(S())) ==> Settled(S()))
    {
      hide Inv, Settled, PutEffect;
      if |target| >= BLKSIZE {
        return false;
      }
      ok := PutBlock(f, target, |target|);
    }

    /** The new symbolic link of add_link: an inode and its target. */
    method MakeLink(n: Node, ghost t: Hosts) returns (ok: bool, i: nat)
      requires |entryName| == MAX_FNAME + 1 && Tidy(S(), t) && n.Link? && n.host in t && t[n.host] == ALink(n.target)
      modifies this
      ensures ok == (Fits(n) && old(unused) >= 2)
      ensures ok ==> |entryName| == MAX_FNAME + 1 && Tidy(S(), t) && unused == old(unused) - 2
      ensures ok ==> Preserves(old(S()), S(), {}, {}) && LinkAt(S(), i, n.target) && inodes[i].inode.nlinks == 0
      ensures ok ==> Adds(old(S()), S(), Added([], [i], {}, {})) && i !in old(inodes)
    {
      hide Inv, Settled, HostsOk, FilesHold, LinkAt, Preserves, Adds, FileCountsFit, PutEffect;
      ghost var a := S();
      InvCounts(a);
      InvChains(a);
      InvGeometry(a);
      InodePossible(a, n.host, TYPE_LINK);
      ok, i := AllocCacheInode(n.host, 0, TYPE_LINK);
      if !ok {
        return;
      }
      ghost var b := S();
      ok := OpenLink(i, n.target);
      if ok {
        InvGeometry(S());
        PutTakesOne(b, S(), i, n.target);
        LinkMade(a, b, S(), i, n.host, n.target);
        LinkHosts(a, b, S(), i, n.host, n.target, t);
      }
    }

    /** add_link */
    method AddLink(cur: nat, name: Bytes, n: Node, ghost t: Hosts) returns (ok: bool, ghost p: Placed)
      requires |entryName| == MAX_FNAME + 1 && Ready(S(), t, cur) && 0 !in name
      requires n.Link? && n.host in t && t[n.host] == ALink(n.target)
      modifies this
      ensures ok == old(CanVisit(S(), cur, name, n))
      ensures ok ==> |entryName| == MAX_FNAME + 1 && Ready(S(), t, cur) && Visited(old(S()), S(), cur, name, n, p)
      ensures ok ==> unused == old(unused) - old(Cost(S(), cur, n))
    {
      hide Inv, Settled, HostsOk, FilesHold, LinkAt, Preserves, Adds, FileCountsFit, CachedFiles;
      hide EntryAdded, Visited, Fits, Growth;
      ghost var a := S();
      var i;
      p := PlacedFile(0, []);
      ok, i := MakeLink(n, t);
      if !ok {
        return;
      }
      ghost var c := S();
      InodeUntouched(a, c, cur);
      LinkIsThere(c, i, n.target);
      ok := AddEntry(cur, i, name);
      if ok {
        p := PlacedLink(i, n.target);
        InvCounts(c);
        LinkVisited(a, c, S(), cur, i, name, n);
        EntryTidy(c, S(), cur, i, name, t);
        EntryTakes(c, S(), cur, i, name);
      }
    }

    /** The first two entries of a directory, for itself and for its parent. */
    method OpenEmpty(cur: nat, par: nat, es: seq<Entry>, ghost t: Hosts) returns (ok: bool)
      requires |entryName| == MAX_FNAME + 1 && Ready(S(), t, cur) && Blank(S(), cur)
      requires par in inodes && inodes[par].inode.kind == TYPE_DIR
      modifies this
      ensures ok == (old(unused) >= 2)
      ensures ok ==> |entryName| == MAX_FNAME + 1 && Ready(S(), t, cur) && unused == old(unused) - 2
      ensures ok ==> Walked(old(S()), S(), cur, par, es, 0, [])
    {
      hide Inv, Settled, HostsOk, FilesHold, FileCountsFit, EntryAdded, Walked;
      ghost var a := S();
      InvCounts(a);
      InodeBelow(a, cur);
      ok := AddEntry(cur, cur, [DOT]);
      if !ok {
        return;
      }
      ghost var m := S();
      InvCounts(m);
      EntryTidy(a, m, cur, cur, [DOT], t);
      EntryTakes(a, m, cur, cur, [DOT]);
      FirstEntry(a, m, cur, par);
      ok := AddEntry(cur, par, [DOT, DOT]);
      if ok {
        EntryTidy(m, S(), cur, par, [DOT, DOT], t);
        EntryTakes(m, S(), cur, par, [DOT, DOT]);
        Opened(a, m, S(), cur, par, es);
      }
    }

    /** The entries of a directory that open_dir does not skip. */
    method VisitEntry(cur: nat, e: Entry, ghost t: Hosts) returns (ok: bool, ghost p: Placed)
      requires |entryName| == MAX_FNAME + 1 && Ready(S(), t, cur) && 0 !in e.name
      requires Kept(e) && WellFormed(e.node, t) && Unvisited(S(), DirHosts(e.node))
      modifies this
      ensures ok == old(CanVisit(S(), cur, e.name, e.node))
      ensures ok ==> |entryName| == MAX_FNAME + 1 && Ready(S(), t, cur)
      ensures ok ==> Visited(old(S()), S(), cur, e.name, e.node, p)
      ensures ok ==> unused == old(unused) - old(Cost(S(), cur, e.node))
      decreases e
    {
      hide Ready, Visited, CanVisit, Cost;
      match e.node
      case Link(_, _) => ok, p := AddLink(cur, e.name, e.node, t);
      case Dir(_, _) => ok, p := AddDir(cur, e.name, e.node, t);
      case File(_, _) => ok, p := AddFile(cur, e.name, e.node, t);
    }

    /** open_dir: directory `cur` is filled with the entries `es` of the host directory. */
    method OpenDir(cur: nat, par: nat, es: seq<Entry>, ghost t: Hosts) returns (ok: bool, ghost kids: seq<Kid>)
      requires |entryName| == MAX_FNAME + 1 && Ready(S(), t, cur) && Blank(S(), cur)
      requires par in inodes && inodes[par].inode.kind == TYPE_DIR
      requires KidsWellFormed(es, |es|, t) && Unvisited(S(), KidDirHosts(es, |es|))
      modifies this
      ensures ok == old(CanWalk(S(), es, |es|))
      ensures ok ==> |entryName| == MAX_FNAME + 1 && Ready(S(), t, cur)
      ensures ok ==> Walked(old(S()), S(), cur, par, es, |es|, kids) && unused == old(unused) - old(Walk(S(), es, |es|))
      decreases es
    {
      hide Ready, Walked, Walk, CanWalk, Visited, CanVisit, Cost, WellFormed, KidsWellFormed, Blank;
      hide CachedFiles, KeptCount, KidFileSet;
      hide Unvisited;
      ghost var a := S();
      kids := [];
      WalkStart(a, es);
      ok := OpenEmpty(cur, par, es, t);
      if !ok {
        CannotWalk(a, es, 0);
        return;
      }
      var k := 0;
      while k < |es|
        invariant k <= |es| && |entryName| == MAX_FNAME + 1 && Ready(S(), t, cur)
        invariant Walked(a, S(), cur, par, es, k, kids) && CanWalk(a, es, k) && unused == a.unused - Walk(a, es, k)
      {
        ghost var s := S();
        Progress(a, s, cur, par, es, k, kids);
        WalkStep(a, s, cur, es, k);
        CannotWalk(a, es, k + 1);
        var e := es[k];
        if Hidden(e) {
          WalkedOver(a, s, cur, par, es, k, kids);
        } else if |e.name| > MAX_FNAME {
          return false, [];
        } else if e.node.Special? {
          WalkedOver(a, s, cur, par, es, k, kids);
        } else {
          KidWellFormed(es, k, |es|, t);
          NextUnvisited(a, s, cur, par, es, k, kids, t);
          ghost var p;
          ok, p := VisitEntry(cur, e, t);
          if !ok {
            return;
          }
          RoomForKid(a, es, k);
          WalkedMore(a, s, S(), cur, par, es, k, kids, p);
          kids := kids + [Kid(Clipped(e.name), p)];
        }
        k := k + 1;
      }
      ok := true;
    }

    /** add_dir.  The assertion of the source that the directory is not cached yet holds. */
    method AddDir(cur: nat, name: Bytes, n: Node, ghost t: Hosts) returns (ok: bool, ghost p: Placed)
      requires |entryName| == MAX_FNAME + 1 && Ready(S(), t, cur) && 0 !in name
      requires n.Dir? && WellFormed(n, t) && Unvisited(S(), DirHosts(n))
      modifies this
      ensures ok == old(CanVisit(S(), cur, name, n))
      ensures ok ==> |entryName| == MAX_FNAME + 1 && Ready(S(), t, cur) && Visited(old(S()), S(), cur, name, n, p)
      ensures ok ==> unused == old(unused) - old(Cost(S(), cur, n))
      decreases n
    {
      hide Inv, Settled, HostsOk, FilesHold, FileCountsFit, EntryAdded, Visited, Walked, Blank;
      hide InodeAdded, CachedFiles, ChainsOk;
      hide Unvisited, Growth, Occupied, KidsFit, KidsNeed, KidsWellFormed, KidDirHosts, KeptCount;
      ghost var a := S();
      p := PlacedFile(0, []);
      InvCounts(a);
      InvChains(a);
      InvGeometry(a);
      NeverVisited(a, n, t);
      var r := SearchCacheInode(n.host);
      assert r == None;
      InodePossible(a, n.host, TYPE_DIR);
      var i;
      ok, i := AllocCacheInode(n.host, 0, TYPE_DIR);
      if !ok {
        return;
      }
      ghost var b := S();
      NewDirectory(a, b, i, cur, n, t);
      ghost var kids;
      ok, kids := OpenDir(i, cur, n.entries, t);
      if !ok {
        return;
      }
      ghost var c := S();
      InvCounts(c);
      StillParent(a, b, c, i, cur, n, kids);
      ok := AddEntry(cur, i, name);
      if ok {
        p := PlacedDir(i, kids);
        DirVisited(a, b, c, S(), cur, i, name, n, kids);
        EntryTidy(c, S(), cur, i, name, t);
        EntryTakes(c, S(), cur, i, name);
      }
    }

    /** The words of the free-map block for the numbers from `i`. */
    method FreeMapWords(i: nat) returns (ws: seq<nat>)
      requires Geometry(S()) && i < ninos
      ensures |ws| == NENTRY && (forall q :: 0 <= q < NENTRY ==> ws[q] < WORD32)
      ensures BitsSet(ws, From(S(), i), Upto(S(), i))
    {
      hide SetBit, Pow2, BitsSet;
      var data := new nat[NENTRY](_ => 0);
      NoBits(data[..], From(S(), i));
      WordIsPow2();
      if i + BLKBITS > nextIno {
        var start, end := 0, BLKBITS;
        if i < nextIno {
          start := nextIno - i;
        }
        if i + BLKBITS > ninos {
          end := ninos - i;
        }
        var j := start;
        while j < end
          invariant start <= j <= end <= BLKBITS && BitsSet(data[..], start, j)
          invariant forall q :: 0 <= q < NENTRY ==> data[q] < WORD32
        {
          OneBitMore(data[..], start, j);
          SetBitFits(data[j / 32], j % 32, 32);
          ghost var before := data[..];
          data[j / 32] := SetBit(data[j / 32], j % 32);
          assert data[..] == before[j / 32 := SetBit(before[j / 32], j % 32)];
          j := j + 1;
        }
      }
      ws := data[..];
    }

    /** The free map, one block after the other. */
    method WriteFreeMap(ghost s: State)
      requires Inv(s) && S() == s
      modifies this`image, this`writes, this`role
      ensures Flushing(s, info, S(), Head(Start(s.ninos)))
    {
      hide Inv, Flushing, FreeMapAt;
      FlushStart(s, info);
      InvGeometry(s);
      assert Head(BLKN_FREEMAP) == {};
      var i, ino := 0, BLKN_FREEMAP;
      while i < ninos
        invariant i == BLKBITS * (ino - BLKN_FREEMAP) && BLKN_FREEMAP <= ino <= Start(s.ninos)
        invariant Flushing(s, info, S(), Head(ino)) && ninos == s.ninos && nextIno == s.nextIno && unused == s.unused
      {
        var ws := FreeMapWords(i);
        HeadBlock(s, ino);
        MapBlock(s, ino, ws, i);
        FlushOne(s, info, S(), Head(ino), ino, Padded(EncodeWords(ws)));
        var ok := WriteBlock(EncodeWords(ws), ino);
        assert ok;
        assert Head(ino + 1) == Head(ino) + {ino};
        i, ino := i + BLKBITS, ino + 1;
      }
    }

    /** The index blocks of chain `h`. */
    method FlushBlockChain(h: nat, ghost s: State)
      requires Inv(s) && h < HASH_LIST_SIZE && |s.blockChains| == |s.inodeChains| == HASH_LIST_SIZE
      requires Flushing(s, info, S(), Done(s, h, 0, h, 0))
      modifies this`image, this`writes, this`role
      ensures Flushing(s, info, S(), Done(s, h + 1, 0, h, 0))
    {
      hide Inv, Final, Done;
      var chain, k := blockChains[h], 0;
      while k < |chain|
        invariant k <= |chain| && chain == s.blockChains[h] && Flushing(s, info, S(), Done(s, h, k, h, 0))
      {
        var x := chain[k];
        CachedBlock(s, x, h);
        BlockFinal(s, info, x, h);
        NextBlock(s, h, k, h);
        FlushOne(s, info, S(), Done(s, h, k, h, 0), x, EncodeIndex(cache[x]));
        var ok := WriteBlock(EncodeWords(cache[x]), x);
        assert ok;
        k := k + 1;
      }
      BlocksDone(s, h);
    }

    /** The inodes of chain `h`. */
    method FlushInodeChain(h: nat, ghost s: State)
      requires Inv(s) && h < HASH_LIST_SIZE && |s.blockChains| == |s.inodeChains| == HASH_LIST_SIZE
      requires Flushing(s, info, S(), Done(s, h + 1, 0, h, 0))
      modifies this`image, this`writes, this`role
      ensures Flushing(s, info, S(), Done(s, h + 1, 0, h + 1, 0))
    {
      hide Inv, Final, Done;
      var chain, k := inodeChains[h], 0;
      while k < |chain|
        invariant k <= |chain| && chain == s.inodeChains[h] && Flushing(s, info, S(), Done(s, h + 1, 0, h, k))
      {
        var x := chain[k];
        CachedInode(s, x, h);
        InodeFinal(s, info, x, h);
        NextInode(s, h + 1, h, k);
        FlushOne(s, info, S(), Done(s, h + 1, 0, h, k), x, EncodeInode(inodes[x].inode));
        var ok := WriteBlock(EncodeWords(InodeWords(inodes[x].inode)), x);
        assert ok;
        k := k + 1;
      }
      InodesDone(s, h);
    }

    /** The super block, after the free map. */
    method WriteSuper(ghost s: State)
      requires Inv(s) && |info| == INFO_SIZE && |s.blockChains| == |s.inodeChains| == HASH_LIST_SIZE
      requires Flushing(s, info, S(), Head(Start(s.ninos)))
      modifies this`image, this`writes, this`role
      ensures Flushing(s, info, S(), Done(s, 0, 0, 0, 0))
    {
      hide Inv, Final, Done, Head, Start;
      SuperFinal(s, info);
      FlushOne(s, info, S(), Head(Start(s.ninos)), BLKN_SUPER, SuperBlock(s, info));
      var ok := WriteBlock(EncodeWords([MAGIC, ninos, unused]) + info, BLKN_SUPER);
      assert ok;
    }

    /** close_sfs: the free map, the super block and the caches are written. */
    method Close()
      requires Inv(S()) && Settled(S()) && |info| == INFO_SIZE
      modifies this`image, this`writes, this`role
      ensures S() == old(S()).(image := image, writes := writes)
      ensures Complete(old(S()), info, image, writes)
    {
      hide Inv, Settled, Flushing, Complete, Done, Head;
      ghost var s := S();
      InvChains(s);
      WriteFreeMap(s);
      WriteSuper(s);
      var h := 0;
      while h < HASH_LIST_SIZE
        invariant h <= HASH_LIST_SIZE && Flushing(s, info, S(), Done(s, h, 0, h, 0))
      {
        FlushBlockChain(h, s);
        FlushInodeChain(h, s);
        h := h + 1;
      }
      FlushComplete(s, info, S());
    }
  }
}
