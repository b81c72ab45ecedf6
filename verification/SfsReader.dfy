/**
 A reader of the images that lab8/tools/mksfs.c makes.  It knows nothing but the bytes of the image: it decodes
 inodes, follows direct, indirect and double-indirect numbers, and reads directory entries.  The lemmas show that
 it gets back what was put in place.
 */
module SfsReader {
  import opened Common
  import opened SfsLayout
  import opened SfsIndex
  import opened SfsState
  import opened SfsAppend
  import opened SfsTree
  import opened SfsGrowth
  import opened SfsClose

  type Image = map<nat, Bytes>

  // ----- the reader

  /** A block of the image; one that was never written reads as zeros. */
  function BlockAt(image: Image, b: nat): (r: Bytes)
    ensures |r| == BLKSIZE
  {
    if b in image && |image[b]| == BLKSIZE then image[b] else Zeros(BLKSIZE)
  }

  function InodeAt(image: Image, i: nat): (n: Inode)
    ensures n.Fits()
  {
    DecodeInode(BlockAt(image, i))
  }

  /** The number of block `k` of a file. */
  function NumberOf(image: Image, n: Inode, k: nat): nat
    requires n.Fits()
  {
    if k < L0 then n.direct[k]
    else if k < L1 then IndexEntry(BlockAt(image, n.indirect), k - L0)
    else
      var j := (k - L1) / NENTRY;
      if j >= NENTRY then 0
      else
        var c := IndexEntry(BlockAt(image, n.dbIndirect), j);
        IndexEntry(BlockAt(image, c), (k - L1) % NENTRY)
  }

  /** Block `k` of a file, as far as the size of the file goes. */
  function Piece(image: Image, n: Inode, k: nat): Bytes
    requires n.Fits()
  {
    var b, left := BlockAt(image, NumberOf(image, n, k)), n.size - BLKSIZE * k;
    if left >= BLKSIZE then b else if left > 0 then b[..left] else []
  }

  /** What the first `k` blocks of a file hold. */
  function Contents(image: Image, n: Inode, k: nat): Bytes
    requires n.Fits()
  {
    if k == 0 then [] else Contents(image, n, k - 1) + Piece(image, n, k - 1)
  }

  /** Entry `k` of a directory. */
  function EntryBlock(image: Image, n: Inode, k: nat): (b: Bytes)
    requires n.Fits()
    ensures |b| == BLKSIZE
  {
    BlockAt(image, NumberOf(image, n, k))
  }

  predicate IsEntry(b: Bytes, ino: nat, name: Bytes)
    requires |b| == BLKSIZE
  {
    EntryIno(b) == ino && EntryName(b) == name
  }

  /** The object at inode `i`, with directories down to the given depth.  A directory has to name itself and its
      parent in its first two entries. */
  function ReadTree(image: Image, i: nat, parent: nat, depth: nat): Option<Placed>
    decreases depth, 0
  {
    var n := InodeAt(image, i);
    if n.kind == TYPE_FILE then Some(PlacedFile(i, Contents(image, n, n.blocks)))
    else if n.kind == TYPE_LINK then Some(PlacedLink(i, Contents(image, n, n.blocks)))
    else if n.kind == TYPE_DIR && depth > 0 && n.blocks >= 2 &&
            IsEntry(EntryBlock(image, n, 0), i, [DOT]) && IsEntry(EntryBlock(image, n, 1), parent, [DOT, DOT]) then
      var kids := ReadKids(image, i, n, n.blocks - 2, depth - 1);
      if kids.Some? then Some(PlacedDir(i, kids.value)) else None
    else None
  }

  /** The first `m` entries behind those two. */
  function ReadKids(image: Image, i: nat, n: Inode, m: nat, depth: nat): Option<seq<Kid>>
    requires n.Fits()
    decreases depth, m
  {
    if m == 0 then Some([])
    else
      var b := EntryBlock(image, n, 1 + m);
      var kids, kid := ReadKids(image, i, n, m - 1, depth), ReadTree(image, EntryIno(b), i, depth);
      if kids.Some? && kid.Some? then Some(kids.value + [Kid(EntryName(b), kid.value)]) else None
  }

  // ----- what is on the disk

  /** The image holds what the state holds. */
  ghost predicate OnDisk(s: State, image: Image) {
    && (forall i :: i in s.inodes ==> s.inodes[i].inode.Fits() && BlockAt(image, i) == EncodeInode(s.inodes[i].inode))
    && (forall c :: c in s.cache ==> |s.cache[c]| == NENTRY && BlockAt(image, c) == EncodeIndex(s.cache[c]))
    && (forall b :: b in s.image ==> BlockAt(image, b) == s.image[b])
  }

  lemma InodeFits(s: State, i: nat)
    requires Inv(s) && i in s.inodes
    ensures s.inodes[i].inode.Fits()
  {
    assert FileOk(s, i);
    var ci, b := s.inodes[i], s.blks[i];
    assert SlotOk(i, ci, |b|, s.cache, s.role, 0);
    assert SlotOk(i, ci, |b|, s.cache, s.role, 1);
  }

  lemma CompleteOnDisk(s: State, info: Bytes, image: Image, writes: multiset<nat>)
    requires Inv(s) && Complete(s, info, image, writes)
    ensures OnDisk(s, image)
  {
    hide FilesOk, ChainsOk, FreeMapAt, SuperBlock, EncodeInode, EncodeIndex;
    forall i | i in s.inodes
      ensures s.inodes[i].inode.Fits() && BlockAt(image, i) == EncodeInode(s.inodes[i].inode)
    {
      InodeFits(s, i);
      assert i in image && i !in s.image;
      assert Final(s, info, i, image[i]);
    }
    forall c | c in s.cache
      ensures |s.cache[c]| == NENTRY && BlockAt(image, c) == EncodeIndex(s.cache[c])
    {
      assert c in image && c !in s.image;
      assert Final(s, info, c, image[c]);
    }
  }

  lemma InodeOnDisk(s: State, image: Image, i: nat)
    requires OnDisk(s, image) && i in s.inodes
    ensures InodeAt(image, i) == s.inodes[i].inode
  {
    hide EncodeInode, DecodeInode;
    InodeReadsBack(s.inodes[i].inode);
  }

  lemma IndexOnDisk(s: State, image: Image, c: nat, k: nat)
    requires OnDisk(s, image) && c in s.cache && k < NENTRY && |s.cache[c]| == NENTRY && s.cache[c][k] < WORD32
    ensures IndexEntry(BlockAt(image, c), k) == s.cache[c][k]
  {
    hide EncodeWords, Padded, WordAt;
    PaddedWords(s.cache[c], k);
  }

  /** The numbers that the reader finds are those of the blocks of the file. */
  lemma NumberOnDisk(s: State, image: Image, i: nat, k: nat)
    requires Inv(s) && OnDisk(s, image) && i in s.inodes && i in s.blks && k < |s.blks[i]|
    ensures s.inodes[i].inode.Fits() && NumberOf(image, s.inodes[i].inode, k) == s.blks[i][k]
  {
    hide Inv, OnDisk, BlockAt, IndexEntry, SlotBlock;
    InodeFits(s, i);
    NumbersSmall(s, i, k);
    InvIndex(s, i);
    IndexPath(i, s.inodes[i], s.blks[i], s.cache, s.role, k);
    if k >= L0 {
      var c := SlotBlock(s.inodes[i], s.cache, SlotOf(k));
      NumbersInUse(s, c);
      IndexOnDisk(s, image, c, OffsetOf(k));
      if k >= L1 {
        IndexOnDisk(s, image, s.inodes[i].inode.dbIndirect, (k - L1) / NENTRY);
      }
    }
  }

  /** How the index leads to block `k`. */
  lemma IndexPath(id: nat, ci: CacheInode, b: seq<nat>, cache: Cache, role: Roles, k: nat)
    requires IndexAt(id, ci, b, |b|, cache, role) && k < |b|
    ensures k < L0 ==> k < |ci.inode.direct| && ci.inode.direct[k] == b[k]
    ensures L0 <= k < L1 ==> SlotBlock(ci, cache, SlotOf(k)) == ci.inode.indirect
    ensures L0 <= k ==>
      var c := SlotBlock(ci, cache, SlotOf(k));
      c in cache && |cache[c]| == NENTRY && c in role && cache[c][OffsetOf(k)] == b[k]
    ensures L1 <= k ==>
      var db, j := ci.inode.dbIndirect, (k - L1) / NENTRY;
      db in cache && |cache[db]| == NENTRY && j < NENTRY && cache[db][j] == SlotBlock(ci, cache, SlotOf(k))
  {
    assert Lookup(ci, cache, k) == b[k];
    if k >= L0 {
      SlotGeometry(k);
      assert SlotOk(id, ci, |b|, cache, role, SlotOf(k));
      assert SlotOk(id, ci, |b|, cache, role, 1);
    }
  }

  lemma NumbersInUse(s: State, b: nat)
    requires Inv(s) && b in s.role
    ensures b < WORD32
  {
  }

  lemma NumbersSmall(s: State, i: nat, k: nat)
    requires Inv(s) && i in s.inodes && i in s.blks && k < |s.blks[i]|
    ensures s.blks[i][k] < WORD32
  {
    assert FileOk(s, i);
    NumbersInUse(s, s.blks[i][k]);
  }

  lemma BlocksCounted(s: State, i: nat)
    requires Inv(s) && i in s.inodes
    ensures i in s.blks && s.inodes[i].inode.blocks == |s.blks[i]|
  {
    assert FileOk(s, i);
  }

  lemma BlockOnDisk(s: State, image: Image, i: nat, k: nat)
    requires Inv(s) && OnDisk(s, image) && i in s.inodes && i in s.blks && k < |s.blks[i]| && s.blks[i][k] in s.image
    ensures s.inodes[i].inode.Fits() && EntryBlock(image, s.inodes[i].inode, k) == s.image[s.blks[i][k]]
  {
    hide Inv, NumberOf;
    NumberOnDisk(s, image, i, k);
  }

  // ----- contents

  lemma PieceOnDisk(s: State, image: Image, i: nat, data: Bytes, k: nat)
    requires Inv(s) && OnDisk(s, image) && FileAt(s, i, data) && k < Chunks(|data|)
    ensures s.inodes[i].inode.Fits() && Piece(image, s.inodes[i].inode, k) == Chunk(data, k)
  {
    hide Inv, OnDisk, NumberOf;
    BlockOnDisk(s, image, i, k);
    ChunkSize(data, k);
    PaddedPrefix(Chunk(data, k));
  }

  lemma PaddedPrefix(c: Bytes)
    requires |c| <= BLKSIZE
    ensures Padded(c)[..|c|] == c && (|c| == BLKSIZE ==> Padded(c) == c)
  {
    if |c| == BLKSIZE {
      assert Padded(c)[..BLKSIZE] == Padded(c);
    }
  }

  lemma {:induction false} ContentsOnDisk(s: State, image: Image, i: nat, data: Bytes, k: nat)
    requires Inv(s) && OnDisk(s, image) && FileAt(s, i, data) && k <= Chunks(|data|)
    ensures s.inodes[i].inode.Fits() && Contents(image, s.inodes[i].inode, k) == data[..Copied(data, k)]
  {
    hide Inv, OnDisk, FileAt, Piece;
    FileIsFile(s, i, data);
    InodeFits(s, i);
    if k == 0 {
    } else {
      ContentsOnDisk(s, image, i, data, k - 1);
      PieceOnDisk(s, image, i, data, k - 1);
      ChunkSize(data, k - 1);
      assert data[..Copied(data, k)] == data[..Copied(data, k - 1)] + Chunk(data, k - 1);
    }
  }

  lemma {:induction false} FileReads(s: State, image: Image, i: nat, data: Bytes, parent: nat, depth: nat)
    requires Inv(s) && OnDisk(s, image) && FileAt(s, i, data)
    ensures ReadTree(image, i, parent, depth) == Some(PlacedFile(i, data))
  {
    hide Inv, OnDisk, Contents, ReadTree, Chunk, Padded, Chunks;
    InodeOnDisk(s, image, i);
    BlocksCounted(s, i);
    ContentsOnDisk(s, image, i, data, Chunks(|data|));
    AllCopied(data);
    FileDecodes(image, i, s.inodes[i].inode, parent, depth);
  }

  lemma AllCopied(data: Bytes)
    ensures data[..Copied(data, Chunks(|data|))] == data
  {
  }

  lemma {:induction false} FileDecodes(image: Image, i: nat, n: Inode, parent: nat, depth: nat)
    requires InodeAt(image, i) == n && n.kind == TYPE_FILE
    ensures ReadTree(image, i, parent, depth) == Some(PlacedFile(i, Contents(image, n, n.blocks)))
  {
    hide Contents, InodeAt;
  }

  lemma {:induction false} LinkReads(s: State, image: Image, i: nat, target: Bytes, parent: nat, depth: nat)
    requires Inv(s) && OnDisk(s, image) && LinkAt(s, i, target)
    ensures ReadTree(image, i, parent, depth) == Some(PlacedLink(i, target))
  {
    hide Inv, OnDisk, NumberOf;
    InodeOnDisk(s, image, i);
    BlocksCounted(s, i);
    BlockOnDisk(s, image, i, 0);
    PaddedPrefix(target);
    var n := s.inodes[i].inode;
    assert Contents(image, n, 0) == [];
    assert Piece(image, n, 0) == target;
    assert [] + target == target;
    assert Contents(image, n, 1) == target;
  }

  // ----- directories

  /** The number of directory levels of a tree. */
  function Height(q: Plain): nat {
    match q
    case PlainDir(kids) => 1 + KidsHeight(kids)
    case _ => 0
  }

  function KidsHeight(kids: seq<PlainKid>): nat {
    if kids == [] then 0
    else
      var h, k := Height(kids[|kids| - 1].node), KidsHeight(kids[..|kids| - 1]);
      if h > k then h else k
  }

  lemma {:induction false} KidHeight(kids: seq<Kid>, j: nat)
    requires j < |kids|
    ensures Height(Erased(kids[j].node)) <= KidsHeight(ErasedKids(kids))
    decreases |kids|
  {
    var r := ErasedKids(kids);
    var front := kids[..|kids| - 1];
    assert r[..|r| - 1] == ErasedKids(front);
    if j == |kids| - 1 {
    } else {
      KidHeight(front, j);
    }
  }

  lemma EntryOnDisk(s: State, image: Image, i: nat, k: nat, ino: nat, name: Bytes)
    requires Inv(s) && OnDisk(s, image) && i in s.inodes && i in s.blks && k < |s.blks[i]|
    requires EntryAt(s.image, s.blks[i][k], ino, name)
    ensures s.inodes[i].inode.Fits() && IsEntry(EntryBlock(image, s.inodes[i].inode, k), ino, name)
  {
    hide Inv, OnDisk, EntryIno, EntryName, EntryBlock;
    BlockOnDisk(s, image, i, k);
  }

  /** The reader gets back every placement. */
  lemma {:induction false} TreeReads(s: State, image: Image, p: Placed, parent: nat, depth: nat)
    requires Inv(s) && OnDisk(s, image) && PlacedAt(s, p, parent) && depth >= Height(Erased(p))
    ensures ReadTree(image, p.ino, parent, depth) == Some(p)
    decreases p, 0
  {
    hide Inv, OnDisk, ReadTree, ReadKids, FileAt, LinkAt, DirAt, InodeAt, IsEntry, EntryBlock;
    hide KidsHeight, ErasedKids, DirKids;
    match p
    case PlacedFile(i, data) => FileReads(s, image, i, data, parent, depth);
    case PlacedLink(i, target) => LinkReads(s, image, i, target, parent, depth);
    case PlacedDir(i, kids) =>
      DirHeadReads(s, image, i, kids, parent);
      KidsRead(s, image, i, kids, parent, |kids|, depth - 1);
      assert kids[..|kids|] == kids;
      DirReads(image, i, kids, parent, depth);
  }

  lemma {:induction false} DirReads(image: Image, i: nat, kids: seq<Kid>, parent: nat, depth: nat)
    requires var n := InodeAt(image, i); n.kind == TYPE_DIR && n.blocks == 2 + |kids| && depth > 0
    requires IsEntry(EntryBlock(image, InodeAt(image, i), 0), i, [DOT])
    requires IsEntry(EntryBlock(image, InodeAt(image, i), 1), parent, [DOT, DOT])
    requires ReadKids(image, i, InodeAt(image, i), |kids|, depth - 1) == Some(kids)
    ensures ReadTree(image, i, parent, depth) == Some(PlacedDir(i, kids))
  {
    hide InodeAt, IsEntry, EntryBlock, ReadKids;
  }

  lemma DirHeadReads(s: State, image: Image, i: nat, kids: seq<Kid>, parent: nat)
    requires Inv(s) && OnDisk(s, image) && DirAt(s, i, kids, parent)
    ensures i in s.inodes && InodeAt(image, i) == s.inodes[i].inode && s.inodes[i].inode.Fits()
    ensures s.inodes[i].inode.kind == TYPE_DIR && s.inodes[i].inode.blocks == 2 + |kids|
    ensures IsEntry(EntryBlock(image, s.inodes[i].inode, 0), i, [DOT])
    ensures IsEntry(EntryBlock(image, s.inodes[i].inode, 1), parent, [DOT, DOT])
  {
    hide Inv, OnDisk, EntryAt, EntryBlock;
    InodeOnDisk(s, image, i);
    BlocksCounted(s, i);
    EntryOnDisk(s, image, i, 0, i, [DOT]);
    EntryOnDisk(s, image, i, 1, parent, [DOT, DOT]);
  }

  lemma KidEntryReads(s: State, image: Image, i: nat, kids: seq<Kid>, parent: nat, k: nat)
    requires Inv(s) && OnDisk(s, image) && DirAt(s, i, kids, parent) && k < |kids|
    ensures s.inodes[i].inode.Fits()
    ensures IsEntry(EntryBlock(image, s.inodes[i].inode, 2 + k), kids[k].node.ino, kids[k].name)
  {
    hide Inv, OnDisk, EntryAt, EntryBlock;
    EntryOnDisk(s, image, i, 2 + k, kids[k].node.ino, kids[k].name);
  }

  lemma {:induction false} KidsRead(s: State, image: Image, i: nat, kids: seq<Kid>, parent: nat, m: nat, depth: nat)
    requires Inv(s) && OnDisk(s, image) && DirAt(s, i, kids, parent) && m <= |kids|
    requires (forall k :: 0 <= k < |kids| ==> PlacedAt(s, kids[k].node, i)) && depth >= KidsHeight(ErasedKids(kids))
    requires i in s.inodes && s.inodes[i].inode.Fits()
    ensures ReadKids(image, i, s.inodes[i].inode, m, depth) == Some(kids[..m])
    decreases kids, m
  {
    hide Inv, OnDisk, ReadTree, ReadKids, DirAt, EntryBlock, PlacedAt, IsEntry;
    if m == 0 {
      NoKids(image, i, s.inodes[i].inode, depth);
    } else {
      KidsRead(s, image, i, kids, parent, m - 1, depth);
      KidEntryReads(s, image, i, kids, parent, m - 1);
      KidHeight(kids, m - 1);
      TreeReads(s, image, kids[m - 1].node, i, depth);
      KidReads(image, i, s.inodes[i].inode, kids, m, depth);
    }
  }

  lemma {:induction false} NoKids(image: Image, i: nat, n: Inode, depth: nat)
    requires n.Fits()
    ensures ReadKids(image, i, n, 0, depth) == Some([])
  {
  }

  lemma KidReads(image: Image, i: nat, n: Inode, kids: seq<Kid>, m: nat, depth: nat)
    requires n.Fits() && 0 < m <= |kids| && ReadKids(image, i, n, m - 1, depth) == Some(kids[..m - 1])
    requires IsEntry(EntryBlock(image, n, 1 + m), kids[m - 1].node.ino, kids[m - 1].name)
    requires ReadTree(image, kids[m - 1].node.ino, i, depth) == Some(kids[m - 1].node)
    ensures ReadKids(image, i, n, m, depth) == Some(kids[..m])
  {
    hide ReadTree, EntryBlock, EntryIno, EntryName;
    assert kids[..m] == kids[..m - 1] + [kids[m - 1]];
    assert kids[m - 1] == Kid(kids[m - 1].name, kids[m - 1].node);
  }
}
