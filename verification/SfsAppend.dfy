/**
 append_block of lab8/tools/mksfs.c as a function on states, and what it preserves.
 */
module SfsAppend {
  import opened Common
  import opened SfsLayout
  import opened SfsIndex
  import opened SfsState

  function SetInode(s: State, f: nat, ci: CacheInode): State {
    s.(inodes := s.inodes[f := ci])
  }

  function SetCache(s: State, c: nat, ws: seq<nat>): State {
    s.(cache := s.cache[c := ws])
  }

  // ----- what the steps preserve

  lemma WithIndexBlockRoles(s: State, owner: nat, slot: nat)
    requires Geometry(s) && RolesOk(s) && s.unused >= 1 && |s.blockChains| == HASH_LIST_SIZE
    ensures Geometry(WithIndexBlock(s, owner, slot)) && RolesOk(WithIndexBlock(s, owner, slot))
  {
  }

  lemma SetInodeRoles(s: State, f: nat, ci: CacheInode)
    requires Geometry(s) && RolesOk(s) && f in s.inodes
    ensures Geometry(SetInode(s, f, ci)) && RolesOk(SetInode(s, f, ci))
  {
  }

  lemma SetCacheRoles(s: State, c: nat, ws: seq<nat>)
    requires Geometry(s) && RolesOk(s) && c in s.cache && |ws| == NENTRY
    ensures Geometry(SetCache(s, c, ws)) && RolesOk(SetCache(s, c, ws))
  {
  }

  lemma WithIndexBlockKept(s: State, owner: nat, slot: nat)
    requires RolesOk(s) && s.unused >= 1 && |s.blockChains| == HASH_LIST_SIZE
    ensures OthersKept(s, WithIndexBlock(s, owner, slot), owner)
  {
  }

  lemma SetInodeKept(s: State, f: nat, ci: CacheInode)
    ensures OthersKept(s, SetInode(s, f, ci), f)
  {
  }

  lemma SetCacheKept(s: State, c: nat, ws: seq<nat>, f: nat)
    requires c in s.role && s.role[c].IndexOf? && s.role[c].owner == f
    ensures OthersKept(s, SetCache(s, c, ws), f)
  {
  }

  lemma KeptTrans(a: State, b: State, c: State, f: nat)
    requires OthersKept(a, b, f) && OthersKept(b, c, f)
    requires forall i :: i in a.blks ==> i in b.blks
    ensures OthersKept(a, c, f)
  {
  }

  lemma WithIndexBlockChains(s: State, owner: nat, slot: nat)
    requires ChainsOk(s) && s.unused >= 1 && s.nextIno !in s.cache
    ensures ChainsOk(WithIndexBlock(s, owner, slot))
  {
    hide InodeChainsOk;
    assert Hash32(0) == 0;
    PrependedChain(s.blockChains[0], s.nextIno);
  }

  // ----- growing the index

  /** File `f` can take one more block: its size allows it, and there are numbers left for the index. */
  ghost predicate CanGrow(s: State, f: nat) {
    && f in s.inodes && s.inodes[f].nblks < LN_NBLKS && s.unused >= Growth(s.inodes[f].nblks)
    && |s.blockChains| == HASH_LIST_SIZE
    && (s.inodes[f].nblks > L1 ==>
          var db := s.inodes[f].inode.dbIndirect;
          db in s.cache && |s.cache[db]| == NENTRY && db in s.role && s.role[db] == IndexOf(f, 1))
  }

  lemma InvCanGrow(s: State, f: nat)
    requires Inv(s) && f in s.inodes && s.inodes[f].nblks < LN_NBLKS && s.unused >= Growth(s.inodes[f].nblks)
    ensures CanGrow(s, f)
  {
    assert FileOk(s, f);
    assert SlotOk(f, s.inodes[f], |s.blks[f]|, s.cache, s.role, 1);
  }

  function GrownIndirect(s: State, f: nat): State
    requires f in s.inodes && s.unused >= 1 && |s.blockChains| == HASH_LIST_SIZE
  {
    SetInode(WithIndexBlock(s, f, 0), f, WithIndirect(s.inodes[f], s.nextIno))
  }

  function GrownDouble(s: State, f: nat): State
    requires f in s.inodes && s.unused >= 2 && |s.blockChains| == HASH_LIST_SIZE
  {
    SetInode(SetCache(WithIndexBlock(WithIndexBlock(s, f, 1), f, 2), s.nextIno, Poked(EmptyIndex(), 0, s.nextIno + 1)),
             f, WithDouble(s.inodes[f], s.nextIno, s.nextIno + 1))
  }

  function GrownChild(s: State, f: nat): State
    requires CanGrow(s, f) && L1 < s.inodes[f].nblks && s.unused >= 1
  {
    var ci := s.inodes[f];
    var db := ci.inode.dbIndirect;
    SetInode(SetCache(WithIndexBlock(s, f, SlotOf(ci.nblks)), db, Poked(s.cache[db], SlotOf(ci.nblks) - 2, s.nextIno)),
             f, ci.(l1 := Some(s.nextIno)))
  }

  /** The state after the calls of update_cache: the index has room for one more block. */
  function Grown(s: State, f: nat): State
    requires CanGrow(s, f)
  {
    var n := s.inodes[f].nblks;
    if Growth(n) == 0 then s
    else if n == L0 then GrownIndirect(s, f)
    else if n == L1 then GrownDouble(s, f)
    else GrownChild(s, f)
  }

  lemma GrownRoles(s: State, f: nat)
    requires Geometry(s) && RolesOk(s) && CanGrow(s, f)
    ensures Geometry(Grown(s, f)) && RolesOk(Grown(s, f))
  {
    var ci, n := s.inodes[f], s.inodes[f].nblks;
    if Growth(n) == 0 {
    } else if n == L0 {
      WithIndexBlockRoles(s, f, 0);
      SetInodeRoles(WithIndexBlock(s, f, 0), f, WithIndirect(ci, s.nextIno));
    } else if n == L1 {
      GrownDoubleRoles(s, f);
    } else {
      var db, t := ci.inode.dbIndirect, WithIndexBlock(s, f, SlotOf(n));
      var ws := Poked(s.cache[db], SlotOf(n) - 2, s.nextIno);
      WithIndexBlockRoles(s, f, SlotOf(n));
      SetCacheRoles(t, db, ws);
      SetInodeRoles(SetCache(t, db, ws), f, ci.(l1 := Some(s.nextIno)));
    }
  }

  lemma GrownDoubleRoles(s: State, f: nat)
    requires Geometry(s) && RolesOk(s) && f in s.inodes && s.unused >= 2 && |s.blockChains| == HASH_LIST_SIZE
    ensures Geometry(GrownDouble(s, f)) && RolesOk(GrownDouble(s, f))
  {
    hide Geometry, RolesOk;
    var s1 := WithIndexBlock(s, f, 1);
    var s2 := WithIndexBlock(s1, f, 2);
    var ws := Poked(EmptyIndex(), 0, s.nextIno + 1);
    WithIndexBlockRoles(s, f, 1);
    WithIndexBlockRoles(s1, f, 2);
    SetCacheRoles(s2, s.nextIno, ws);
    SetInodeRoles(SetCache(s2, s.nextIno, ws), f, WithDouble(s.inodes[f], s.nextIno, s.nextIno + 1));
  }

  lemma GrownKept(s: State, f: nat)
    requires Geometry(s) && RolesOk(s) && CanGrow(s, f)
    ensures OthersKept(s, Grown(s, f), f)
  {
    var ci, n := s.inodes[f], s.inodes[f].nblks;
    if Growth(n) == 0 {
    } else if n == L0 {
      var t, ci' := WithIndexBlock(s, f, 0), WithIndirect(ci, s.nextIno);
      WithIndexBlockKept(s, f, 0);
      SetInodeKept(t, f, ci');
      KeptTrans(s, t, SetInode(t, f, ci'), f);
    } else if n == L1 {
      TwoBlocksKept(s, f);
      GrownDoubleKept(s, f);
    } else {
      WithIndexBlockKept(s, f, SlotOf(n));
      GrownChildKept(s, f);
    }
  }

  lemma GrownChildKept(s: State, f: nat)
    requires CanGrow(s, f) && L1 < s.inodes[f].nblks && s.unused >= 1
    requires OthersKept(s, WithIndexBlock(s, f, SlotOf(s.inodes[f].nblks)), f)
    requires s.nextIno != s.inodes[f].inode.dbIndirect
    ensures OthersKept(s, GrownChild(s, f), f)
  {
    var ci, n := s.inodes[f], s.inodes[f].nblks;
    var db, t := ci.inode.dbIndirect, WithIndexBlock(s, f, SlotOf(n));
    SlotFilledKept(s, t, db, Poked(s.cache[db], SlotOf(n) - 2, s.nextIno), f, ci.(l1 := Some(s.nextIno)));
  }

  lemma TwoBlocksKept(s: State, f: nat)
    requires Geometry(s) && RolesOk(s) && s.unused >= 2 && |s.blockChains| == HASH_LIST_SIZE
    ensures OthersKept(s, WithIndexBlock(WithIndexBlock(s, f, 1), f, 2), f)
  {
    var s1 := WithIndexBlock(s, f, 1);
    WithIndexBlockRoles(s, f, 1);
    WithIndexBlockKept(s, f, 1);
    WithIndexBlockKept(s1, f, 2);
    KeptTrans(s, s1, WithIndexBlock(s1, f, 2), f);
  }

  lemma GrownDoubleKept(s: State, f: nat)
    requires f in s.inodes && s.unused >= 2 && |s.blockChains| == HASH_LIST_SIZE
    requires OthersKept(s, WithIndexBlock(WithIndexBlock(s, f, 1), f, 2), f)
    ensures OthersKept(s, GrownDouble(s, f), f)
  {
    var s2 := WithIndexBlock(WithIndexBlock(s, f, 1), f, 2);
    var ws, ci' := Poked(EmptyIndex(), 0, s.nextIno + 1), WithDouble(s.inodes[f], s.nextIno, s.nextIno + 1);
    SlotFilledKept(s, s2, s.nextIno, ws, f, ci');
  }

  lemma SlotFilledKept(s: State, t: State, c: nat, ws: seq<nat>, f: nat, ci: CacheInode)
    requires OthersKept(s, t, f) && t.blks == s.blks && c in t.role && t.role[c].IndexOf? && t.role[c].owner == f
    ensures OthersKept(s, SetInode(SetCache(t, c, ws), f, ci), f)
  {
    SetCacheKept(t, c, ws, f);
    KeptTrans(s, t, SetCache(t, c, ws), f);
    SetInodeKept(SetCache(t, c, ws), f, ci);
    KeptTrans(s, SetCache(t, c, ws), SetInode(SetCache(t, c, ws), f, ci), f);
  }

  lemma GrownDoubleIndex(s: State, f: nat)
    requires f in s.inodes && f in s.blks && s.unused >= 2 && |s.blockChains| == HASH_LIST_SIZE && |s.blks[f]| == L1
    requires IndexAt(f, s.inodes[f], s.blks[f], |s.blks[f]|, s.cache, s.role) && s.nextIno > 0
    requires s.nextIno !in s.role && s.nextIno + 1 !in s.role && s.nextIno !in s.cache && s.nextIno + 1 !in s.cache
    ensures var g := GrownDouble(s, f); IndexAt(f, g.inodes[f], s.blks[f], |s.blks[f]| + 1, g.cache, g.role)
  {
    var db, c := s.nextIno, s.nextIno + 1;
    GrowDouble(f, s.inodes[f], s.blks[f], s.cache, s.role, db, c);
    assert GrownDouble(s, f).cache == s.cache[db := Poked(EmptyIndex(), 0, c)][c := EmptyIndex()];
  }

  /** The numbers that come next are in no use. */
  lemma NextUnused(s: State, k: nat)
    requires Geometry(s) && RolesOk(s)
    ensures s.nextIno > 2 && s.nextIno + k !in s.role && s.nextIno + k !in s.cache && s.nextIno + k !in s.inodes
  {
  }

  /** The index of `f` has room for one more block. */
  lemma GrownIndex(s: State, f: nat)
    requires CanGrow(s, f) && f in s.blks && s.nextIno > 0
    requires IndexAt(f, s.inodes[f], s.blks[f], |s.blks[f]|, s.cache, s.role)
    requires s.nextIno !in s.role && s.nextIno + 1 !in s.role && s.nextIno !in s.cache && s.nextIno + 1 !in s.cache
    ensures f in Grown(s, f).inodes
    ensures IndexAt(f, Grown(s, f).inodes[f], s.blks[f], |s.blks[f]| + 1, Grown(s, f).cache, Grown(s, f).role)
  {
    var ci, b, n := s.inodes[f], s.blks[f], s.inodes[f].nblks;
    if Growth(n) == 0 {
      NoGrowth(f, ci, b, s.cache, s.role);
    } else if n == L0 {
      GrowIndirect(f, ci, b, s.cache, s.role, s.nextIno);
    } else if n == L1 {
      GrownDoubleIndex(s, f);
    } else {
      GrowChild(f, ci, b, s.cache, s.role, s.nextIno);
    }
  }

  lemma GrownDoubleChains(s: State, f: nat)
    requires ChainsOk(s) && f in s.inodes && s.unused >= 2 && s.nextIno !in s.cache && s.nextIno + 1 !in s.cache
    ensures ChainsOk(GrownDouble(s, f))
  {
    var s1 := WithIndexBlock(s, f, 1);
    WithIndexBlockChains(s, f, 1);
    WithIndexBlockChains(s1, f, 2);
    ChainsFrame(WithIndexBlock(s1, f, 2), GrownDouble(s, f));
  }

  lemma GrownChains(s: State, f: nat)
    requires CanGrow(s, f) && ChainsOk(s) && s.nextIno !in s.cache && s.nextIno + 1 !in s.cache
    ensures ChainsOk(Grown(s, f))
  {
    var ci, n := s.inodes[f], s.inodes[f].nblks;
    if Growth(n) == 0 {
    } else if n == L1 {
      GrownDoubleChains(s, f);
    } else {
      var slot := if n == L0 then 0 else SlotOf(n);
      WithIndexBlockChains(s, f, slot);
      ChainsFrame(WithIndexBlock(s, f, slot), Grown(s, f));
    }
  }

  /** The rest of what growing does: it takes numbers, and the inode changes only in its pointers. */
  ghost predicate OnlyIndexGrew(s: State, g: State, f: nat) {
    && g.ninos == s.ninos && g.blks == s.blks
    && g.image == s.image && g.writes == s.writes && g.inodeChains == s.inodeChains
    && f in s.inodes && (forall i :: i in g.inodes <==> i in s.inodes)
    && g.nextIno == s.nextIno + Growth(s.inodes[f].nblks)
    && g.inodes[f].inode.(indirect := 0, dbIndirect := 0) == s.inodes[f].inode.(indirect := 0, dbIndirect := 0)
    && g.inodes[f].host == s.inodes[f].host && g.inodes[f].nblks == s.inodes[f].nblks
  }

  lemma GrownRest(s: State, f: nat)
    requires CanGrow(s, f)
    ensures OnlyIndexGrew(s, Grown(s, f), f)
  {
  }

  lemma GrownRoleMap(s: State, f: nat)
    requires CanGrow(s, f) && s.nextIno !in s.role && s.nextIno + 1 !in s.role
    ensures var g := Grown(s, f);
      && (forall b :: b in s.role ==> b in g.role && g.role[b] == s.role[b])
      && (forall b :: b in g.role ==> b in s.role || g.role[b].IndexOf?)
  {
  }

  // ----- filling the slot

  /** The slot for block `n` of file `f` is at hand. */
  ghost predicate CanFill(s: State, f: nat) {
    && f in s.inodes && f in s.blks && |s.inodes[f].inode.direct| == NDIRECT
    && (s.inodes[f].nblks >= L0 ==>
          var l1 := s.inodes[f].l1;
          l1.Some? && l1.value in s.cache && |s.cache[l1.value]| == NENTRY &&
          l1.value in s.role && s.role[l1.value].IndexOf? && s.role[l1.value].owner == f)
  }

  lemma IndexCanFill(s: State, f: nat)
    requires f in s.inodes && f in s.blks && IndexAt(f, s.inodes[f], s.blks[f], |s.blks[f]| + 1, s.cache, s.role)
    ensures CanFill(s, f)
  {
    var n := |s.blks[f]|;
    if n >= L0 {
      SlotGeometry(n);
      assert SlotOk(f, s.inodes[f], n + 1, s.cache, s.role, SlotOf(n));
    }
  }

  /** The cached index after the number has been stored in its slot. */
  function Stored(s: State, f: nat, x: nat): Cache
    requires CanFill(s, f)
  {
    var ci := s.inodes[f];
    if ci.nblks < L0 then s.cache
    else s.cache[ci.l1.value := Poked(s.cache[ci.l1.value], OffsetOf(ci.nblks), x)]
  }

  function Enlarged(s: State, f: nat, x: nat, size: nat): CacheInode
    requires CanFill(s, f)
  {
    var ci := s.inodes[f];
    Counted(if ci.nblks < L0 then WithDirect(ci, ci.nblks, x) else ci, size)
  }

  /** The number of the new block is stored and the inode is brought up to date. */
  function Filled(s: State, f: nat, x: nat, size: nat): State
    requires CanFill(s, f)
  {
    State(s.ninos, s.nextIno, s.unused, s.inodes[f := Enlarged(s, f, x, size)], s.inodeChains,
          Stored(s, f, x), s.blockChains, s.image,
          s.blks[f := s.blks[f] + [x]], s.role[x := DataOf(f, s.inodes[f].nblks)], s.writes)
  }

  lemma FilledRoles(s: State, f: nat, x: nat, size: nat)
    requires Geometry(s) && RolesOk(s) && CanFill(s, f) && x in s.role && s.role[x] == Written
    ensures Geometry(Filled(s, f, x, size)) && RolesOk(Filled(s, f, x, size))
  {
  }

  lemma FilledKept(s: State, f: nat, x: nat, size: nat)
    requires CanFill(s, f) && x in s.role && s.role[x] == Written
    ensures OthersKept(s, Filled(s, f, x, size), f)
  {
  }

  lemma FilledIndex(s: State, f: nat, x: nat, size: nat)
    requires CanFill(s, f) && IndexAt(f, s.inodes[f], s.blks[f], |s.blks[f]| + 1, s.cache, s.role)
    requires x in s.role && s.role[x] == Written
    ensures IndexAt(f, Enlarged(s, f, x, size), s.blks[f] + [x], |s.blks[f]| + 1, Stored(s, f, x),
                    s.role[x := DataOf(f, s.inodes[f].nblks)])
  {
    var ci, b := s.inodes[f], s.blks[f];
    if |b| < L0 {
      FillDirect(f, ci, b, s.cache, s.role, x, size);
    } else {
      FillSlot(f, ci, b, s.cache, s.role, x, size);
    }
    IndexFrame(f, Enlarged(s, f, x, size), b + [x], |b| + 1, Stored(s, f, x), s.role,
               Stored(s, f, x), s.role[x := DataOf(f, ci.nblks)]);
  }

  /** Facts about a file that growing its index leaves alone. */
  ghost predicate FileBounds(s: State, f: nat)
    requires f in s.inodes && f in s.blks && |s.inodes[f].inode.direct| == NDIRECT
  {
    var ci, b := s.inodes[f], s.blks[f];
    && (forall k :: 0 <= k < |b| ==> b[k] in s.role && s.role[b[k]] == DataOf(f, k))
    && (forall k :: 0 <= k < NDIRECT ==> ci.inode.direct[k] < s.ninos)
    && ci.inode.size <= BLKSIZE * ci.nblks && ci.inode.nlinks < 65536 && 1 <= ci.inode.kind <= 3
  }

  lemma FilledFileOk(s: State, f: nat, x: nat, size: nat)
    requires CanFill(s, f) && IndexAt(f, s.inodes[f], s.blks[f], |s.blks[f]| + 1, s.cache, s.role) && FileBounds(s, f)
    requires x in s.role && s.role[x] == Written && x < s.ninos && size <= BLKSIZE
    ensures FileOk(Filled(s, f, x, size), f)
  {
    FilledIndex(s, f, x, size);
  }

  // ----- append_block

  /** append_block succeeds: the file is not too big and the index can grow. */
  ghost predicate CanAppend(s: State, f: nat) {
    Inv(s) && f in s.inodes && s.inodes[f].nblks < LN_NBLKS && s.unused >= Growth(s.inodes[f].nblks)
  }

  lemma AppendReady(s: State, f: nat)
    requires CanAppend(s, f)
    ensures CanGrow(s, f) && CanFill(Grown(s, f), f)
    ensures var g := Grown(s, f); IndexAt(f, g.inodes[f], g.blks[f], |g.blks[f]| + 1, g.cache, g.role)
  {
    InvCanGrow(s, f);
    NextUnused(s, 0);
    NextUnused(s, 1);
    InvIndex(s, f);
    GrownReady(s, f);
  }

  lemma InvIndex(s: State, f: nat)
    requires Inv(s) && f in s.inodes
    ensures f in s.blks && IndexAt(f, s.inodes[f], s.blks[f], |s.blks[f]|, s.cache, s.role)
  {
    assert FileOk(s, f);
  }

  lemma GrownReady(s: State, f: nat)
    requires CanGrow(s, f) && f in s.blks && s.nextIno > 0
    requires IndexAt(f, s.inodes[f], s.blks[f], |s.blks[f]|, s.cache, s.role)
    requires s.nextIno !in s.role && s.nextIno + 1 !in s.role && s.nextIno !in s.cache && s.nextIno + 1 !in s.cache
    ensures CanFill(Grown(s, f), f)
    ensures var g := Grown(s, f); IndexAt(f, g.inodes[f], g.blks[f], |g.blks[f]| + 1, g.cache, g.role)
  {
    GrownIndex(s, f);
    GrownRest(s, f);
    IndexCanFill(Grown(s, f), f);
  }

  /** append_block: file `f` gains block `x`, which holds `size` bytes. */
  function Appended(s: State, f: nat, x: nat, size: nat): State
    requires CanAppend(s, f)
  {
    AppendReady(s, f);
    Filled(Grown(s, f), f, x, size)
  }

  lemma GrownBounds(s: State, f: nat)
    requires Inv(s) && CanGrow(s, f) && CanFill(Grown(s, f), f)
    ensures FileBounds(Grown(s, f), f)
  {
    assert FileOk(s, f);
    NextUnused(s, 0);
    NextUnused(s, 1);
    GrownRest(s, f);
    GrownRoleMap(s, f);
    var g := Grown(s, f);
    assert g.inodes[f].inode.direct == s.inodes[f].inode.direct;
  }

  lemma AppendedRoles(s: State, f: nat, x: nat, size: nat)
    requires CanAppend(s, f) && x in s.role && s.role[x] == Written && size <= BLKSIZE
    ensures Geometry(Appended(s, f, x, size)) && RolesOk(Appended(s, f, x, size))
    ensures FileOk(Appended(s, f, x, size), f)
  {
    AppendReady(s, f);
    NextUnused(s, 0);
    NextUnused(s, 1);
    GrownRoles(s, f);
    GrownRoleMap(s, f);
    GrownBounds(s, f);
    FilledRoles(Grown(s, f), f, x, size);
    FilledFileOk(Grown(s, f), f, x, size);
  }

  lemma AppendedKept(s: State, f: nat, x: nat, size: nat)
    requires CanAppend(s, f) && x in s.role && s.role[x] == Written
    ensures OthersKept(s, Appended(s, f, x, size), f)
  {
    AppendReady(s, f);
    NextUnused(s, 0);
    NextUnused(s, 1);
    GrownRoleMap(s, f);
    GrownRest(s, f);
    GrownKept(s, f);
    FilledKept(Grown(s, f), f, x, size);
    KeptTrans(s, Grown(s, f), Appended(s, f, x, size), f);
  }

  lemma AppendedChains(s: State, f: nat, x: nat, size: nat)
    requires CanAppend(s, f)
    ensures ChainsOk(Appended(s, f, x, size))
  {
    AppendReady(s, f);
    NextUnused(s, 0);
    NextUnused(s, 1);
    GrownChains(s, f);
    FilledChains(Grown(s, f), f, x, size);
  }

  lemma FilledChains(s: State, f: nat, x: nat, size: nat)
    requires ChainsOk(s) && CanFill(s, f)
    ensures ChainsOk(Filled(s, f, x, size))
  {
    ChainsFrame(s, Filled(s, f, x, size));
  }

  /** Appending keeps the invariant: in particular the index of `f` spells out the longer sequence, and
      no other file is disturbed. */
  lemma AppendedInv(s: State, f: nat, x: nat, size: nat)
    requires CanAppend(s, f) && x in s.role && s.role[x] == Written && size <= BLKSIZE
    ensures Inv(Appended(s, f, x, size))
  {
    AppendedRoles(s, f, x, size);
    AppendedKept(s, f, x, size);
    AppendedChains(s, f, x, size);
    FilesFrame(s, Appended(s, f, x, size), f);
  }

  /** What callers see of an append. */
  ghost predicate AppendEffect(s: State, s': State, f: nat, x: nat, size: nat) {
    && f in s.inodes && f in s.blks
    && s'.ninos == s.ninos && s'.nextIno == s.nextIno + Growth(s.inodes[f].nblks)
    && s'.image == s.image && s'.writes == s.writes
    && (forall i :: i in s'.inodes <==> i in s.inodes)
    && (forall i :: i in s.inodes && i != f ==> s'.inodes[i] == s.inodes[i])
    && s'.blks == s.blks[f := s.blks[f] + [x]]
    && f in s'.inodes && s'.inodes[f].host == s.inodes[f].host && s'.inodes[f].nblks == s.inodes[f].nblks + 1
    && s'.inodes[f].inode.kind == s.inodes[f].inode.kind && s'.inodes[f].inode.nlinks == s.inodes[f].inode.nlinks
    && s'.inodes[f].inode.size == s.inodes[f].inode.size + size
    && (forall b :: b in s.role && b != x ==> b in s'.role && s'.role[b] == s.role[b])
    && (forall b :: b in s'.role && b != x ==> b in s.role || s'.role[b].IndexOf?)
    && x in s'.role && s'.role[x].DataOf?
  }

  lemma FilledEffect(s: State, g: State, f: nat, x: nat, size: nat)
    requires OnlyIndexGrew(s, g, f) && CanFill(g, f)
    requires forall i :: i in s.inodes && i != f ==> g.inodes[i] == s.inodes[i]
    requires forall b :: b in s.role ==> b in g.role && g.role[b] == s.role[b]
    requires forall b :: b in g.role ==> b in s.role || g.role[b].IndexOf?
    ensures AppendEffect(s, Filled(g, f, x, size), f, x, size)
  {
    var m, n := g.inodes[f].inode, s.inodes[f].inode;
    assert m.(indirect := 0, dbIndirect := 0) == n.(indirect := 0, dbIndirect := 0);
    assert m.kind == n.kind && m.nlinks == n.nlinks && m.size == n.size;
  }

  lemma AppendedEffect(s: State, f: nat, x: nat, size: nat)
    requires CanAppend(s, f)
    ensures AppendEffect(s, Appended(s, f, x, size), f, x, size)
  {
    AppendReady(s, f);
    NextUnused(s, 0);
    NextUnused(s, 1);
    GrownRoleMap(s, f);
    GrownRest(s, f);
    GrownKept(s, f);
    FilledEffect(s, Grown(s, f), f, x, size);
  }

  /** In every state that keeps the invariant, looking up block `k` of a file gives the k-th number appended. */
  lemma IndexSpellsBlocks(s: State, i: nat, k: nat)
    requires Inv(s) && i in s.inodes && i in s.blks && k < |s.blks[i]|
    ensures Lookup(s.inodes[i], s.cache, k) == s.blks[i][k]
  {
    InvIndex(s, i);
  }

  /** An append puts the new number at the end of its file, and every other lookup gives what it gave before. */
  lemma AppendKeepsLookups(s: State, f: nat, x: nat, size: nat, i: nat, k: nat)
    requires CanAppend(s, f) && x in s.role && s.role[x] == Written && size <= BLKSIZE && i in s.inodes
    requires k < s.inodes[i].nblks || (i == f && k == s.inodes[f].nblks)
    ensures var s' := Appended(s, f, x, size);
      i in s'.inodes &&
      Lookup(s'.inodes[i], s'.cache, k) == if k < s.inodes[i].nblks then Lookup(s.inodes[i], s.cache, k) else x
  {
    hide Inv, Appended, Lookup;
    var s' := Appended(s, f, x, size);
    AppendedInv(s, f, x, size);
    AppendedEffect(s, f, x, size);
    BlocksCount(s, i);
    if k < s.inodes[i].nblks {
      IndexSpellsBlocks(s, i, k);
    }
    BlocksCount(s', i);
    IndexSpellsBlocks(s', i, k);
  }

  lemma BlocksCount(s: State, i: nat)
    requires Inv(s) && i in s.inodes
    ensures i in s.blks && |s.blks[i]| == s.inodes[i].nblks
  {
    InvIndex(s, i);
  }

  // ----- allocating, writing and appending a block

  /** File `f` has gained a newly allocated block with these contents. */
  ghost predicate PutEffect(a: State, b: State, f: nat, bytes: Bytes, size: nat) {
    && |bytes| <= BLKSIZE && f in a.inodes && f in a.blks && a.nextIno !in a.image
    && b.ninos == a.ninos && b.nextIno == a.nextIno + 1 + Growth(a.inodes[f].nblks)
    && b.image == a.image[a.nextIno := Padded(bytes)]
    && (forall i :: i in b.inodes <==> i in a.inodes)
    && (forall i :: i in a.inodes && i != f ==> b.inodes[i] == a.inodes[i])
    && b.blks == a.blks[f := a.blks[f] + [a.nextIno]]
    && b.inodes[f].host == a.inodes[f].host && b.inodes[f].nblks == a.inodes[f].nblks + 1
    && b.inodes[f].inode.kind == a.inodes[f].inode.kind && b.inodes[f].inode.nlinks == a.inodes[f].inode.nlinks
    && b.inodes[f].inode.size == a.inodes[f].inode.size + size
  }

  /** The state in which append_block is called. */
  function Prepared(s: State, bytes: Bytes): State
    requires s.unused >= 1 && |bytes| <= BLKSIZE
  {
    WithWrite(Allocated(s, Taken), s.nextIno, Padded(bytes))
  }

  lemma PreparedInv(s: State, bytes: Bytes)
    requires Inv(s) && s.unused >= 1 && |bytes| <= BLKSIZE
    ensures Inv(Prepared(s, bytes))
  {
    AllocatedInv(s);
    WithWriteInv(Allocated(s, Taken), s.nextIno, Padded(bytes));
  }

  lemma PutIsAppend(s: State, t: State, u: State, f: nat, bytes: Bytes, size: nat)
    requires s.unused >= 1 && |bytes| <= BLKSIZE && f in s.inodes
    requires t == Prepared(s, bytes) && AppendEffect(t, u, f, s.nextIno, size) && s.nextIno !in s.image
    ensures PutEffect(s, u, f, bytes, size)
    ensures f < s.ninos && Settled(s) ==> Settled(u)
  {
    if f < s.ninos && Settled(s) {
      PutConserved(s, u, f, bytes, size);
    }
  }

  lemma PutConserved(s: State, u: State, f: nat, bytes: Bytes, size: nat)
    requires PutEffect(s, u, f, bytes, size) && Conserved(s) && f < s.ninos
    ensures Conserved(u)
  {
    forall i | i != f
      ensures Own(u.inodes, i) == Own(s.inodes, i)
    {
    }
    HandedChange(s.inodes, u.inodes, f, s.ninos);
    OccupiedGrows(s.inodes[f].nblks);
  }

  lemma NextUnwritten(s: State)
    requires Inv(s)
    ensures s.nextIno !in s.image
  {
    NextUnused(s, 0);
  }

  lemma PutResult(s: State, f: nat, bytes: Bytes, size: nat)
    requires Inv(s) && s.unused >= 1 && |bytes| <= BLKSIZE && size <= BLKSIZE && CanAppend(Prepared(s, bytes), f)
    ensures var u := Appended(Prepared(s, bytes), f, s.nextIno, size);
      Inv(u) && PutEffect(s, u, f, bytes, size) && (Settled(s) ==> Settled(u))
  {
    var t := Prepared(s, bytes);
    AppendedInv(t, f, s.nextIno, size);
    AppendedEffect(t, f, s.nextIno, size);
    NextUnwritten(s);
    PutIsAppend(s, t, Appended(t, f, s.nextIno, size), f, bytes, size);
  }
}
