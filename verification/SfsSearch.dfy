/**
 search_cache_block of lab8/tools/mksfs.c would miss blocks: runs in which a cached index block is not in the chain
 that the search looks at.
 */
module SfsSearch {
  import opened Common
  import opened SfsLayout
  import opened SfsIndex
  import opened SfsState
  import opened SfsTree
  import opened SfsGrowth
  import opened SfsWalk
  import opened SfsClose
  import opened Mksfs
  import opened SfsImage

  /** The index block of a file of 13 blocks. */
  lemma IndirectBlock(s: State, f: nat)
    requires Inv(s) && f in s.inodes && f in s.blks && |s.blks[f]| == L0 + 1
    ensures var c := s.inodes[f].inode.indirect;
      c in s.cache && c in s.role && s.role[c] == IndexOf(f, 0) && Start(s.ninos) <= c < s.nextIno
  {
    assert FileOk(s, f);
    assert SlotOk(f, s.inodes[f], L0 + 1, s.cache, s.role, 0);
  }

  // ----- every run on a directory with one such file

  lemma SmallNumbersHash(c: nat)
    requires 3 <= c <= 20
    ensures Hash32(c) != 0
  {
  }

  /** After open_dir on a directory that holds just a file of 13 blocks, in an image of one free-map block, the
      index block of the file is cached and would not be found. */
  lemma SearchMisses(n: nat, s: State, t: Hosts, es: seq<Entry>, kids: seq<Kid>)
    requires Start(n) == 3 && n > 3 && Ready(s, t, BLKN_ROOT)
    requires |es| == 1 && Kept(es[0]) && es[0].node.File? && Chunks(|es[0].node.data|) == L0 + 1
    requires Walked(Initial(n), s, BLKN_ROOT, BLKN_ROOT, es, 1, kids) && s.unused == n - 3 - Demand(es)
    ensures exists c :: c in s.cache && c !in s.blockChains[Hash32(c)]
  {
    hide Inv, Settled, HostsOk, FilesHold, Adds, DirAt, Labelled, Hash32;
    OneKid(s, es, kids);
    OneFileDemand(es);
    InvGeometry(s);
    GrowthKept(n, s);
    var f := kids[0].node.ino;
    IndirectBlock(s, f);
    var c := s.inodes[f].inode.indirect;
    SmallNumbersHash(c);
    SearchFindsIff(s, c);
    InvChains(s);
    assert c in s.cache && c !in s.blockChains[Hash32(c)];
  }

  lemma {:induction false} OneKid(s: State, es: seq<Entry>, kids: seq<Kid>)
    requires |es| == 1 && Kept(es[0]) && es[0].node.File? && ErasedKids(kids) == PlainKids(es, 1)
    requires |kids| == KeptCount(es, 1) && KidsPlaced(s, kids, BLKN_ROOT)
    ensures |kids| == 1 && kids[0].node.PlacedFile? && FileAt(s, kids[0].node.ino, es[0].node.data)
  {
    assert KeptCount(es, 1) == KeptCount(es, 0) + 1;
    assert PlainKids(es, 1) == [] + [PlainKid(Clipped(es[0].name), PlainOf(es[0].node))];
    assert ErasedKids(kids)[0].node == Erased(kids[0].node);
    assert PlacedAt(s, kids[0].node, BLKN_ROOT);
  }

  lemma OneFileDemand(es: seq<Entry>)
    requires |es| == 1 && Kept(es[0]) && es[0].node.File? && Chunks(|es[0].node.data|) == L0 + 1
    ensures Demand(es) == 18
  {
    assert KeptCount(es, 1) == KeptCount(es, 0) + 1;
    assert KidFileSet(es, 0) == {};
    assert KidsNeed(es, 1, {}) == KidsNeed(es, 0, {}) + Need(es[0].node, {} + KidFileSet(es, 0));
    assert Occupied(13) == 14 && Occupied(3) == 3;
  }

  // ----- one such run, number by number

  /** The states of the run: the two first entries, the inode, its 13 blocks, the entry. */
  ghost predicate Run(n: nat, a: State, b: State, c: State, d: State, s: State, host: nat, data: Bytes, name: Bytes) {
    && Start(n) == 3 && n > 3 && Chunks(|data|) == L0 + 1
    && EntryAdded(Initial(n), a, BLKN_ROOT, BLKN_ROOT, [DOT]) && EntryAdded(a, b, BLKN_ROOT, BLKN_ROOT, [DOT, DOT])
    && InodeAdded(b, c, 5, host, TYPE_FILE) && Filling(c, d, 5, data, L0 + 1)
    && EntryAdded(d, s, BLKN_ROOT, 5, name)
  }

  lemma RunStarts(n: nat, a: State, b: State)
    requires Start(n) == 3 && n > 3
    requires EntryAdded(Initial(n), a, BLKN_ROOT, BLKN_ROOT, [DOT])
    requires EntryAdded(a, b, BLKN_ROOT, BLKN_ROOT, [DOT, DOT])
    ensures b.ninos == n && b.nextIno == 5 && b.blks == map[BLKN_ROOT := [3, 4]]
    ensures BLKN_ROOT in a.inodes && a.inodes[BLKN_ROOT].nblks == 1 && a.inodes[BLKN_ROOT].inode.kind == TYPE_DIR
    ensures BLKN_ROOT in b.inodes && b.inodes[BLKN_ROOT].nblks == 2 && b.inodes[BLKN_ROOT].inode.kind == TYPE_DIR
  {
    hide EntryAt;
    var s := Initial(n);
    assert EntryInode(s.inodes[BLKN_ROOT], a.inodes[BLKN_ROOT], true, true);
    assert EntryInode(a.inodes[BLKN_ROOT], b.inodes[BLKN_ROOT], true, true);
    assert [] + [3] == [3];
    assert a.blks == map[BLKN_ROOT := [3]];
    assert [3] + [4] == [3, 4];
  }

  /** Where everything is: 3, 4 and 20 are the entries, 5 is the inode and 6 to 18 are its blocks. */
  lemma RunNumbers(n: nat, a: State, b: State, c: State, d: State, s: State, host: nat, data: Bytes, name: Bytes)
    requires Run(n, a, b, c, d, s, host, data, name)
    ensures s.ninos == n && s.nextIno == 21 && BLKN_ROOT in s.inodes && 5 in s.inodes
    ensures BLKN_ROOT in s.blks && s.blks[BLKN_ROOT] == [3, 4, 20]
    ensures 5 in s.blks && |s.blks[5]| == L0 + 1 && forall j :: 0 <= j < L0 + 1 ==> s.blks[5][j] == 6 + j
  {
    hide EntryAt, Padded, Chunk;
    RunStarts(n, a, b);
    assert Occupied(13) == 14;
    assert d.blks[BLKN_ROOT] == [3, 4];
    assert [3, 4] + [20] == [3, 4, 20];
    assert forall j :: 0 <= j < L0 + 1 ==> Occupied(j) == j;
  }

  lemma RoleOf(s: State, i: nat, k: nat)
    requires Inv(s) && i in s.inodes && i in s.blks && k < |s.blks[i]|
    ensures s.blks[i][k] in s.role && s.role[s.blks[i][k]] == DataOf(i, k)
  {
    assert FileOk(s, i);
  }

  lemma InodeRole(s: State, i: nat)
    requires Inv(s) && i in s.inodes && i != BLKN_ROOT
    ensures i in s.role && s.role[i] == InodeOf
  {
  }

  /** So the index block is number 19. */
  lemma IndexNumber(s: State)
    requires Inv(s) && Start(s.ninos) == 3 && s.nextIno == 21 && BLKN_ROOT in s.inodes && 5 in s.inodes
    requires BLKN_ROOT in s.blks && s.blks[BLKN_ROOT] == [3, 4, 20]
    requires 5 in s.blks && |s.blks[5]| == L0 + 1 && forall j :: 0 <= j < L0 + 1 ==> s.blks[5][j] == 6 + j
    ensures 19 in s.cache
  {
    hide Inv, Start;
    IndirectBlock(s, 5);
    var x := s.inodes[5].inode.indirect;
    RoleOf(s, BLKN_ROOT, 0);
    RoleOf(s, BLKN_ROOT, 1);
    RoleOf(s, BLKN_ROOT, 2);
    InodeRole(s, 5);
    if 6 <= x < 19 {
      RoleOf(s, 5, x - 6);
    }
  }

  lemma HashOf19()
    ensures Hash32(19) == 760
  {
  }

  /** It is in chain 0 and not in chain 760. */
  lemma MissedNumber(n: nat, a: State, b: State, c: State, d: State, s: State, host: nat, data: Bytes, name: Bytes)
    requires Run(n, a, b, c, d, s, host, data, name) && Inv(s)
    ensures 19 in s.cache && Hash32(19) == 760 && |s.blockChains| == HASH_LIST_SIZE && 19 !in s.blockChains[Hash32(19)]
  {
    hide Inv, Hash32, Filling, EntryAdded, Start;
    RunNumbers(n, a, b, c, d, s, host, data, name);
    IndexNumber(s);
    HashOf19();
    InvChains(s);
    SearchFindsIff(s, 19);
  }

  lemma FirstOfRun(n: nat, a: State)
    requires Start(n) == 3 && n > 3 && EntryAdded(Initial(n), a, BLKN_ROOT, BLKN_ROOT, [DOT])
    ensures BLKN_ROOT in a.inodes && a.inodes[BLKN_ROOT].nblks == 1 && a.inodes[BLKN_ROOT].inode.kind == TYPE_DIR
  {
    hide EntryAt;
    assert EntryInode(Initial(n).inodes[BLKN_ROOT], a.inodes[BLKN_ROOT], true, true);
  }

  lemma FilledOfRun(b: State, c: State, d: State, host: nat, data: Bytes)
    requires InodeAdded(b, c, 5, host, TYPE_FILE) && Filling(c, d, 5, data, L0 + 1) && BLKN_ROOT in b.inodes
    ensures 5 in d.inodes && BLKN_ROOT in d.inodes && d.inodes[BLKN_ROOT] == b.inodes[BLKN_ROOT]
    ensures d.ninos == b.ninos && d.nextIno == b.nextIno + 1 + Occupied(L0 + 1)
  {
  }

  /** The run as far as the two first entries. */
  method StartRun(size: nat, heap: Bytes) returns (sfs: Sfs, ghost a: State)
    requires |heap| == INFO_SIZE && 21 <= Ninos(size) <= BLKBITS
    ensures fresh(sfs) && sfs.Valid() && Settled(sfs.S()) && Start(Ninos(size)) == 3
    ensures EntryAdded(Initial(Ninos(size)), a, BLKN_ROOT, BLKN_ROOT, [DOT])
    ensures EntryAdded(a, sfs.S(), BLKN_ROOT, BLKN_ROOT, [DOT, DOT])
  {
    hide Inv, Settled, EntryAdded;
    ghost var n := Ninos(size);
    assert Start(n) == 3;
    var created := CreateSfs(size, heap);
    sfs := created.value;
    var ok := sfs.AddEntry(BLKN_ROOT, BLKN_ROOT, [DOT]);
    assert ok;
    a := sfs.S();
    FirstOfRun(n, a);
    EntryTakes(Initial(n), a, BLKN_ROOT, BLKN_ROOT, [DOT]);
    ok := sfs.AddEntry(BLKN_ROOT, BLKN_ROOT, [DOT, DOT]);
    assert ok;
  }

  /** The whole run, by the calls that create_img makes before it closes the image, and the search for number 19
      in its last state. */
  method SearchAfterRun(size: nat, heap: Bytes, host: nat, name: Bytes, data: Bytes)
    returns (r: Option<nat>, sfs: Sfs)
    requires |heap| == INFO_SIZE && 21 <= Ninos(size) <= BLKBITS && Chunks(|data|) == L0 + 1
    requires |name| <= MAX_FNAME && 0 !in name
    ensures Inv(sfs.S()) && 19 in sfs.cache && r == None
  {
    hide Inv, Settled, EntryAdded, Filling, InodeAdded, Hash32, Start, Occupied, Ninos;
    ghost var n := Ninos(size);
    ghost var a;
    sfs, a := StartRun(size, heap);
    ghost var b := sfs.S();
    RunStarts(n, a, b);
    InvGeometry(b);
    InvChains(b);
    InodePossible(b, host, TYPE_FILE);
    var ok, f := sfs.AllocCacheInode(host, 0, TYPE_FILE);
    ghost var c := sfs.S();
    ThirteenBlocks();
    ok := sfs.OpenFile(f, data);
    assert ok;
    ghost var d := sfs.S();
    InvGeometry(d);
    FilledOfRun(b, c, d, host, data);
    ok := sfs.AddEntry(BLKN_ROOT, f, name);
    assert ok;
    MissedNumber(n, a, b, c, d, sfs.S(), host, data, name);
    r := sfs.SearchCacheBlock(19);
  }

  lemma ThirteenBlocks()
    ensures Occupied(L0 + 1) == 14
  {
  }
}
