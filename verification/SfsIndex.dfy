/**
 The three-level block index of an inode in lab8/tools/mksfs.c: 12 direct numbers, one indirect block of 1024
 numbers and a double-indirect block of 1024 indirect blocks.

 `IndexAt` says that the index spells out a sequence of block numbers; the lemmas show what growing and
 filling the index preserve, for the inode itself and for every other one.
 */
module SfsIndex {
  import opened Common
  import opened SfsLayout

  const L0: nat := NDIRECT
  const L1: nat := NENTRY + L0

  /** struct cache_inode.  A cached block is identified by its block number, so `l1` and `l2` hold the
      numbers of the blocks they point to. */
  datatype CacheInode = CacheInode(inode: Inode, host: nat, nblks: nat, l1: Option<nat>, l2: Option<nat>)

  /** What an allocated block number is used for: nothing yet, written but not yet part of a file, an inode,
      slot `slot` of the index of an inode, or block `k` of a file. */
  datatype Role = Taken | Written | InodeOf | IndexOf(owner: nat, slot: nat) | DataOf(owner: nat, k: nat)

  type Cache = map<nat, seq<nat>>
  type Roles = map<nat, Role>

  // ----- geometry: slot 0 is the indirect block, 1 the double-indirect one, 2 + j its j-th child

  function SlotOf(k: nat): nat
    requires k >= L0
  {
    if k < L1 then 0 else 2 + (k - L1) / NENTRY
  }

  function OffsetOf(k: nat): (r: nat)
    requires k >= L0
    ensures r < NENTRY
  {
    if k < L1 then k - L0 else (k - L1) % NENTRY
  }

  /** The first block of the file that needs the slot. */
  function SlotStart(slot: nat): nat {
    if slot == 0 then L0 else if slot == 1 then L1 else L1 + NENTRY * (slot - 2)
  }

  lemma SlotGeometry(k: nat)
    requires L0 <= k < LN_NBLKS
    ensures SlotStart(SlotOf(k)) + OffsetOf(k) == k && SlotOf(k) < NENTRY + 2
    ensures SlotOf(k) != 1 && (SlotOf(k) == 0 <==> k < L1)
  {
  }

  /** The number of index blocks of a file of `n` blocks. */
  function IndexBlocks(n: nat): nat {
    if n <= L0 then 0 else if n <= L1 then 1 else 2 + (n - L1 + NENTRY - 1) / NENTRY
  }

  /** Index blocks that block `n` of a file newly needs. */
  function Growth(n: nat): nat {
    if n == L0 then 1 else if n == L1 then 2 else if n > L1 && (n - L1) % NENTRY == 0 then 1 else 0
  }

  lemma IndexBlocksGrow(n: nat)
    ensures IndexBlocks(n + 1) == IndexBlocks(n) + Growth(n)
  {
  }

  /** Blocks for `n` blocks of contents and their index. */
  function Occupied(n: nat): nat {
    n + IndexBlocks(n)
  }

  lemma NothingOccupied()
    ensures Occupied(0) == 0
  {
  }

  lemma OccupiedGrows(n: nat)
    ensures Occupied(n + 1) == Occupied(n) + 1 + Growth(n)
  {
    IndexBlocksGrow(n);
  }

  lemma {:induction false} OccupiedMonotone(m: nat, n: nat)
    requires m <= n
    ensures Occupied(m) <= Occupied(n)
    decreases n - m
  {
    if m == n {
    } else {
      OccupiedMonotone(m, n - 1);
      IndexBlocksGrow(n - 1);
    }
  }

  // ----- the index of one inode

  function SlotBlock(ci: CacheInode, cache: Cache, slot: nat): nat {
    if slot == 0 then ci.inode.indirect
    else if slot == 1 then ci.inode.dbIndirect
    else
      var db := ci.inode.dbIndirect;
      if db in cache && slot - 2 < |cache[db]| then cache[db][slot - 2] else 0
  }

  /** Block `k` of the file according to the index, 0 if the index does not reach it. */
  function Lookup(ci: CacheInode, cache: Cache, k: nat): nat {
    if k < L0 then (if k < |ci.inode.direct| then ci.inode.direct[k] else 0)
    else
      var c := SlotBlock(ci, cache, SlotOf(k));
      if c in cache && OffsetOf(k) < |cache[c]| then cache[c][OffsetOf(k)] else 0
  }

  /** The slot is in use and belongs to `id`, or it is empty. */
  ghost predicate SlotOk(id: nat, ci: CacheInode, m: nat, cache: Cache, role: Roles, slot: nat) {
    var c := SlotBlock(ci, cache, slot);
    if m > SlotStart(slot) then c in cache && |cache[c]| == NENTRY && c in role && role[c] == IndexOf(id, slot)
    else c == 0
  }

  /** The index of inode `id` has its slots ready for `m` blocks and spells out the numbers `b`. */
  ghost predicate IndexAt(id: nat, ci: CacheInode, b: seq<nat>, m: nat, cache: Cache, role: Roles) {
    && |b| == ci.nblks == ci.inode.blocks <= m <= LN_NBLKS && |ci.inode.direct| == NDIRECT && 0 !in cache
    && (forall slot :: 0 <= slot < NENTRY + 2 ==> SlotOk(id, ci, m, cache, role, slot))
    && (forall k :: 0 <= k < |b| ==> Lookup(ci, cache, k) == b[k])
    && ci.l1 == (if m <= L0 then None else Some(SlotBlock(ci, cache, SlotOf(m - 1))))
    && ci.l2 == (if m <= L1 then None else Some(ci.inode.dbIndirect))
  }

  /** What another inode's operations leave alone keeps its index intact. */
  lemma IndexFrame(id: nat, ci: CacheInode, b: seq<nat>, m: nat, cache: Cache, role: Roles, cache': Cache, role': Roles)
    requires IndexAt(id, ci, b, m, cache, role) && 0 !in cache'
    requires forall c :: c in cache && c in role && role[c].IndexOf? && role[c].owner == id ==>
               c in cache' && cache'[c] == cache[c] && c in role' && role'[c] == role[c]
    ensures IndexAt(id, ci, b, m, cache', role')
  {
    forall slot | 0 <= slot < NENTRY + 2
      ensures SlotBlock(ci, cache', slot) == SlotBlock(ci, cache, slot) && SlotOk(id, ci, m, cache', role', slot)
    {
      assert SlotOk(id, ci, m, cache, role, slot);
      assert SlotOk(id, ci, m, cache, role, 1);
    }
    forall k | 0 <= k < |b|
      ensures Lookup(ci, cache', k) == b[k]
    {
      if k >= L0 {
        SlotGeometry(k);
        assert SlotOk(id, ci, m, cache, role, SlotOf(k));
      }
    }
    if m > L0 {
      SlotGeometry(m - 1);
    }
  }

  // ----- growing and filling the index

  /** A fresh index block. */
  function EmptyIndex(): (r: seq<nat>)
    ensures |r| == NENTRY && forall k :: 0 <= k < NENTRY ==> r[k] == 0
  {
    seq(NENTRY, k => 0)
  }

  /** An index block with entry `k` overwritten. */
  function Poked(ws: seq<nat>, k: nat, x: nat): (r: seq<nat>)
    requires k < |ws|
    ensures |r| == |ws| && r[k] == x && forall i :: 0 <= i < |ws| && i != k ==> r[i] == ws[i]
  {
    ws[..k] + [x] + ws[k + 1..]
  }

  /** Between two slot boundaries nothing needs to grow. */
  lemma NoGrowth(id: nat, ci: CacheInode, b: seq<nat>, cache: Cache, role: Roles)
    requires IndexAt(id, ci, b, |b|, cache, role) && |b| < LN_NBLKS && Growth(|b|) == 0
    ensures IndexAt(id, ci, b, |b| + 1, cache, role)
  {
    var n, m := |b|, |b| + 1;
    forall slot | 0 <= slot < NENTRY + 2
      ensures SlotOk(id, ci, m, cache, role, slot)
    {
      assert SlotOk(id, ci, n, cache, role, slot);
      assert SlotStart(slot) != n;
    }
    if n >= L0 {
      assert n > L0;
    }
  }

  function WithIndirect(ci: CacheInode, c: nat): CacheInode {
    ci.(inode := ci.inode.(indirect := c), l1 := Some(c))
  }

  /** The first block behind the direct ones: the indirect block `c` is new. */
  lemma GrowIndirect(id: nat, ci: CacheInode, b: seq<nat>, cache: Cache, role: Roles, c: nat)
    requires IndexAt(id, ci, b, |b|, cache, role) && |b| == L0 && c != 0 && c !in cache
    ensures IndexAt(id, WithIndirect(ci, c), b, |b| + 1, cache[c := EmptyIndex()], role[c := IndexOf(id, 0)])
  {
    var m := |b| + 1;
    var ci', cache', role' := WithIndirect(ci, c), cache[c := EmptyIndex()], role[c := IndexOf(id, 0)];
    forall slot | 0 <= slot < NENTRY + 2
      ensures SlotOk(id, ci', m, cache', role', slot)
    {
      assert SlotOk(id, ci, |b|, cache, role, slot);
      assert SlotOk(id, ci, |b|, cache, role, 1);
    }
    assert forall k :: 0 <= k < |b| ==> Lookup(ci', cache', k) == Lookup(ci, cache, k);
  }

  function WithDouble(ci: CacheInode, db: nat, c: nat): CacheInode {
    ci.(inode := ci.inode.(dbIndirect := db), l1 := Some(c), l2 := Some(db))
  }

  /** The first block behind the indirect block: the double-indirect block and its first child are new. */
  lemma GrowDouble(id: nat, ci: CacheInode, b: seq<nat>, cache: Cache, role: Roles, db: nat, c: nat)
    requires IndexAt(id, ci, b, |b|, cache, role) && |b| == L1
    requires db != 0 && c != 0 && db != c && db !in cache && c !in cache && db !in role && c !in role
    ensures IndexAt(id, WithDouble(ci, db, c), b, |b| + 1,
                    cache[db := Poked(EmptyIndex(), 0, c)][c := EmptyIndex()],
                    role[db := IndexOf(id, 1)][c := IndexOf(id, 2)])
  {
    var m := |b| + 1;
    var ci' := WithDouble(ci, db, c);
    var cache' := cache[db := Poked(EmptyIndex(), 0, c)][c := EmptyIndex()];
    var role' := role[db := IndexOf(id, 1)][c := IndexOf(id, 2)];
    assert SlotOk(id, ci, |b|, cache, role, 0);
    forall slot | 0 <= slot < NENTRY + 2
      ensures SlotOk(id, ci', m, cache', role', slot)
    {
      assert SlotOk(id, ci, |b|, cache, role, slot);
    }
    assert forall k :: 0 <= k < |b| ==> Lookup(ci', cache', k) == Lookup(ci, cache, k);
  }

  /** The first block of a further child of the double-indirect block: that child is new. */
  lemma GrowChild(id: nat, ci: CacheInode, b: seq<nat>, cache: Cache, role: Roles, c: nat)
    requires IndexAt(id, ci, b, |b|, cache, role) && L1 < |b| < LN_NBLKS && Growth(|b|) == 1
    requires c != 0 && c !in cache && c !in role
    ensures ci.inode.dbIndirect in cache && |cache[ci.inode.dbIndirect]| == NENTRY && SlotOf(|b|) - 2 < NENTRY
    ensures var db := ci.inode.dbIndirect;
      IndexAt(id, ci.(l1 := Some(c)), b, |b| + 1,
              cache[c := EmptyIndex()][db := Poked(cache[db], SlotOf(|b|) - 2, c)],
              role[c := IndexOf(id, SlotOf(|b|))])
  {
    var db, s, m := ci.inode.dbIndirect, SlotOf(|b|), |b| + 1;
    assert SlotOk(id, ci, |b|, cache, role, 1);
    var ci' := ci.(l1 := Some(c));
    var cache' := cache[c := EmptyIndex()][db := Poked(cache[db], s - 2, c)];
    var role' := role[c := IndexOf(id, s)];
    forall slot | 0 <= slot < NENTRY + 2
      ensures SlotOk(id, ci', m, cache', role', slot)
    {
      assert SlotOk(id, ci, |b|, cache, role, slot);
    }
    forall k | 0 <= k < |b|
      ensures Lookup(ci', cache', k) == Lookup(ci, cache, k)
    {
      if k >= L0 {
        SlotGeometry(k);
        assert SlotOk(id, ci, |b|, cache, role, SlotOf(k));
      }
    }
  }

  /** The inode after one more block of `size` bytes. */
  function Counted(ci: CacheInode, size: nat): CacheInode {
    ci.(nblks := ci.nblks + 1, inode := ci.inode.(size := ci.inode.size + size, blocks := ci.inode.blocks + 1))
  }

  function WithDirect(ci: CacheInode, k: nat, x: nat): CacheInode
    requires k < |ci.inode.direct|
  {
    ci.(inode := ci.inode.(direct := ci.inode.direct[k := x]))
  }

  lemma FillDirect(id: nat, ci: CacheInode, b: seq<nat>, cache: Cache, role: Roles, x: nat, size: nat)
    requires IndexAt(id, ci, b, |b| + 1, cache, role) && |b| < L0
    ensures IndexAt(id, Counted(WithDirect(ci, |b|, x), size), b + [x], |b| + 1, cache, role)
  {
    var m := |b| + 1;
    var ci' := Counted(WithDirect(ci, |b|, x), size);
    forall slot | 0 <= slot < NENTRY + 2
      ensures SlotOk(id, ci', m, cache, role, slot)
    {
      assert SlotOk(id, ci, |b| + 1, cache, role, slot);
    }
    forall k | 0 <= k < |b|
      ensures Lookup(ci', cache, k) == b[k]
    {
      assert Lookup(ci, cache, k) == b[k];
    }
  }

  lemma FillSlot(id: nat, ci: CacheInode, b: seq<nat>, cache: Cache, role: Roles, x: nat, size: nat)
    requires IndexAt(id, ci, b, |b| + 1, cache, role) && L0 <= |b|
    ensures ci.l1.Some? && ci.l1.value in cache && |cache[ci.l1.value]| == NENTRY
    ensures var c := ci.l1.value;
      IndexAt(id, Counted(ci, size), b + [x], |b| + 1, cache[c := Poked(cache[c], OffsetOf(|b|), x)], role)
  {
    var n, s, m := |b|, SlotOf(|b|), |b| + 1;
    SlotGeometry(n);
    assert SlotOk(id, ci, m, cache, role, s);
    var c := ci.l1.value;
    var ci', cache' := Counted(ci, size), cache[c := Poked(cache[c], OffsetOf(n), x)];
    forall slot | 0 <= slot < NENTRY + 2
      ensures SlotBlock(ci', cache', slot) == SlotBlock(ci, cache, slot) && SlotOk(id, ci', m, cache', role, slot)
    {
      assert SlotOk(id, ci, m, cache, role, slot);
      assert SlotOk(id, ci, m, cache, role, 1);
    }
    forall k | 0 <= k < n + 1
      ensures Lookup(ci', cache', k) == (b + [x])[k]
    {
      FilledLookup(id, ci, b, cache, role, k);
    }
  }

  /** Different blocks of a file are looked up in different slots or at different offsets. */
  lemma FilledLookup(id: nat, ci: CacheInode, b: seq<nat>, cache: Cache, role: Roles, k: nat)
    requires IndexAt(id, ci, b, |b| + 1, cache, role) && L0 <= |b| && k <= |b|
    ensures k < |b| ==> Lookup(ci, cache, k) == b[k]
    ensures L0 <= k ==> SlotOf(k) < NENTRY + 2 && SlotOk(id, ci, |b| + 1, cache, role, SlotOf(k))
    ensures L0 <= k < |b| && SlotOf(k) == SlotOf(|b|) ==> OffsetOf(k) != OffsetOf(|b|)
  {
    if L0 <= k {
      SlotGeometry(k);
      SlotGeometry(|b|);
    }
  }
}
