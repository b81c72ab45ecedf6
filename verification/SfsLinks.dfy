/**
 A host directory on which the 16-bit link counts of lab8/tools/mksfs.c go wrong: three directories with 21846 hard
 links each to one empty file.  It is accepted, and the image says that the file has two links.
 */
module SfsLinks {
  import opened Common
  import opened SfsLayout
  import opened SfsIndex
  import opened SfsState
  import opened SfsTree
  import opened SfsClose
  import opened SfsReader
  import opened SfsImage
  import opened Mksfs

  const FILE_HOST: nat := 7
  const LINKS: nat := 21846
  const SIZE: nat := 0x8000_0000        // bytes of the image file

  /** The name of the j-th link. */
  function LinkName(j: nat): Bytes {
    if j < LINKS then [97, 1 + j / 200, 1 + j % 200] else [97]
  }

  lemma NamesDiffer(i: nat, j: nat)
    requires i < LINKS && j < LINKS && LinkName(i) == LinkName(j)
    ensures i == j
  {
    assert LinkName(i)[1] == LinkName(j)[1] && LinkName(i)[2] == LinkName(j)[2];
  }

  function LinkEntry(j: nat): Entry {
    Entry(LinkName(j), File(FILE_HOST, []))
  }

  function Links(m: nat): (es: seq<Entry>)
    ensures |es| == m && forall j :: 0 <= j < m ==> es[j] == LinkEntry(j)
  {
    seq(m, j requires 0 <= j < m => LinkEntry(j))
  }

  function Sevens(n: nat): (r: seq<nat>)
    ensures |r| == n && forall j :: 0 <= j < n ==> r[j] == FILE_HOST
  {
    seq(n, j => FILE_HOST)
  }

  function Objects(): Hosts {
    map[1 := ADir, 2 := ADir, 3 := ADir, FILE_HOST := AFile([])]
  }

  lemma LinkIsKept(j: nat)
    ensures Kept(LinkEntry(j)) && |LinkName(j)| <= MAX_FNAME && 0 !in LinkName(j)
  {
  }

  // ----- one of the directories

  lemma {:induction false} LinksFit(m: nat, k: nat)
    requires k <= m
    ensures KeptCount(Links(m), k) == k && KidsFit(Links(m), k)
    ensures KidDirHosts(Links(m), k) == {} && KidsWellFormed(Links(m), k, Objects())
    decreases k
  {
    hide LinkName;
    if k == 0 {
    } else {
      LinksFit(m, k - 1);
      LinkIsKept(k - 1);
    }
  }

  lemma {:induction false} LinksHosts(m: nat, k: nat)
    requires k <= m
    ensures KidFileHosts(Links(m), k) == Sevens(k)
    decreases k
  {
    hide LinkName;
    if k == 0 {
    } else {
      LinksHosts(m, k - 1);
      LinkIsKept(k - 1);
      assert FileHosts(Links(m)[k - 1].node) == [FILE_HOST];
      assert Sevens(k) == Sevens(k - 1) + [FILE_HOST];
    }
  }

  lemma {:induction false} SeenLink(m: nat, k: nat)
    requires k <= m && KidFileHosts(Links(m), k) == Sevens(k)
    ensures FILE_HOST in KidFileSet(Links(m), k) <==> k > 0
  {
    assert k > 0 ==> Sevens(k)[0] == FILE_HOST;
  }

  /** Only the first link to the file costs a block, if no earlier directory had one. */
  lemma {:induction false} LinksNeed(m: nat, k: nat, seen: set<nat>)
    requires k <= m
    ensures KidsNeed(Links(m), k, seen) == if k == 0 || FILE_HOST in seen then 0 else 1
    decreases k
  {
    hide LinkName, KidFileHosts, KidFileSet, Occupied, Sevens;
    if k == 0 {
    } else {
      LinksNeed(m, k - 1, seen);
      LinkIsKept(k - 1);
      LinksHosts(m, k - 1);
      NothingOccupied();
      SeenLink(m, k - 1);
    }
  }

  function Folder(host: nat): Node {
    Dir(host, Links(LINKS))
  }

  lemma FolderOccupies()
    ensures Occupied(2 + LINKS) == 21871
  {
  }

  lemma {:induction false} FolderFacts(host: nat, seen: set<nat>)
    requires 1 <= host <= 3
    ensures Fits(Folder(host)) && WellFormed(Folder(host), Objects()) && DirHosts(Folder(host)) == {host}
    ensures FileHosts(Folder(host)) == Sevens(LINKS)
    ensures Need(Folder(host), seen) == 21872 + if FILE_HOST in seen then 0 else 1
  {
    hide Occupied;
    LinksFit(LINKS, LINKS);
    LinksHosts(LINKS, LINKS);
    LinksNeed(LINKS, LINKS, seen);
    FolderOccupies();
  }

  // ----- the host directory

  function Tree(): (es: seq<Entry>)
    ensures |es| == 3
  {
    [Entry([97], Folder(1)), Entry([98], Folder(2)), Entry([99], Folder(3))]
  }

  lemma SevensAdd(m: nat, n: nat)
    ensures Sevens(m + n) == Sevens(m) + Sevens(n)
  {
  }

  /** The facts about the first `k` directories. */
  lemma {:induction false} TreeFacts(k: nat)
    requires k <= 3
    ensures KeptCount(Tree(), k) == k && KidsFit(Tree(), k) && KidsWellFormed(Tree(), k, Objects())
    ensures forall h :: h in KidDirHosts(Tree(), k) ==> 1 <= h <= k
    ensures KidFileHosts(Tree(), k) == Sevens(LINKS * k)
    ensures KidsNeed(Tree(), k, {}) == 21872 * k + if k == 0 then 0 else 1
    decreases k
  {
    hide Fits, WellFormed, DirHosts, FileHosts, Need, Folder, KidFileSet, Objects;
    if k == 0 {
    } else {
      TreeFacts(k - 1);
      var e := Tree()[k - 1];
      assert e.node == Folder(k) && e.name == [96 + k];
      FolderKept(k);
      var seen := {} + KidFileSet(Tree(), k - 1);
      SeenFile(k - 1);
      FolderFacts(k, seen);
      SevensAdd(LINKS * (k - 1), LINKS);
    }
  }

  lemma FolderKept(host: nat)
    requires 1 <= host <= 3
    ensures Kept(Entry([96 + host], Folder(host))) && 0 !in [96 + host]
  {
  }

  lemma {:induction false} SeenFile(k: nat)
    requires k <= 3 && KidFileHosts(Tree(), k) == Sevens(LINKS * k)
    ensures FILE_HOST in KidFileSet(Tree(), k) <==> k > 0
  {
    assert k > 0 ==> Sevens(LINKS * k)[0] == FILE_HOST;
  }

  lemma {:induction false} CountSevens(n: nat)
    ensures multiset(Sevens(n))[FILE_HOST] == n
  {
    if n == 0 {
    } else {
      CountSevens(n - 1);
      assert Sevens(n) == Sevens(n - 1) + [FILE_HOST];
    }
  }

  /** The directory is well-formed and is accepted for an image of 2^31 bytes, and it has 65538 entries for the
      file. */
  lemma TreeIsAccepted()
    ensures KidsWellFormed(Tree(), |Tree()|, Objects()) && Enough(SIZE, Tree())
    ensures multiset(KidFileHosts(Tree(), |Tree()|))[FILE_HOST] == 65538
  {
    hide Tree, Objects, KidFileHosts, KidsNeed, KidsFit, KidsWellFormed, Occupied, Sevens, Ninos, Start;
    TreeFacts(3);
    CountSevens(65538);
    RoomForTree();
  }

  lemma RoomForTree()
    ensures Occupied(5) == 5 && Ninos(SIZE) == MAX_NBLKS && Start(MAX_NBLKS) == 18
  {
  }

  lemma TreeHosts()
    ensures KidFileHosts(Tree(), |Tree()|) == Sevens(65538)
  {
    hide Tree, KidFileHosts, KidsNeed, KidsFit, KidsWellFormed, KidDirHosts, KeptCount, Sevens;
    TreeFacts(3);
  }

  /** An image of this directory gives the file a link count of 2. */
  lemma {:induction false} CountIsTwo(inodes: nat -> Inode, p: Placed)
    requires InodesAgree(inodes, p, FileInos(p)) && SameSharing(FileInos(p), KidFileHosts(Tree(), |Tree()|))
    ensures |FileInos(p)| == 65538 && forall a :: 0 <= a < 65538 ==> FileInos(p)[a] == FileInos(p)[0]
    ensures inodes(FileInos(p)[0]).nlinks == 2
  {
    hide Tree, InodesAgree, FileInos, KidFileHosts, SameSharing, Sevens;
    TreeHosts();
    AllShared(inodes, p, 65538);
  }

  lemma {:induction false} AllShared(inodes: nat -> Inode, p: Placed, n: nat)
    requires InodesAgree(inodes, p, FileInos(p)) && n > 0 && SameSharing(FileInos(p), Sevens(n))
    ensures |FileInos(p)| == n && forall a :: 0 <= a < n ==> FileInos(p)[a] == FileInos(p)[0]
    ensures inodes(FileInos(p)[0]).nlinks == n % 65536
  {
    hide InodesAgree, FileInos;
    var inos := FileInos(p);
    FileLinksAgree(inodes, p, inos, inos[0]);
    SharingCounts(inos, Sevens(n), inos[0], FILE_HOST);
    CountSevens(n);
  }

  /** And create_img makes that image; `p` is what a reader finds in it. */
  method MiscountedLinks(heap: Bytes) returns (image: Image, p: Placed)
    requires |heap| == INFO_SIZE
    ensures ReadTree(image, BLKN_ROOT, BLKN_ROOT, Height(Erased(p))) == Some(p)
    ensures Erased(p) == PlainDir(PlainKids(Tree(), |Tree()|))
    ensures |FileInos(p)| == 65538 && forall a :: 0 <= a < 65538 ==> FileInos(p)[a] == FileInos(p)[0]
    ensures InodeAt(image, FileInos(p)[0]).nlinks == 2
  {
    hide Tree, Objects, KidsWellFormed, Enough, ReadTree, InodesAgree, Height, Erased, FileInos, SpaceAgrees;
    hide SameSharing, InodeAt, KidFileHosts, Sevens, Demand, OtherInos, PlainKids;
    var es := Tree();
    TreeIsAccepted();
    NoObjectIsRoot();
    var ok;
    ghost var writes, placed;
    ok, image, writes, placed := CreateImg(SIZE, heap, es, Objects());
    assert ok;
    p := ReadTree(image, BLKN_ROOT, BLKN_ROOT, Height(PlainDir(PlainKids(es, |es|)))).value;
    CountIsTwo(InodesIn(image), p);
  }

  lemma NoObjectIsRoot()
    ensures 0 !in Objects()
  {
  }
}
