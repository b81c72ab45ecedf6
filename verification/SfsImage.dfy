/**
 The finished image of lab8/tools/mksfs.c: create_img as a whole, and what a reader of the image finds in it.
 */
module SfsImage {
  import opened Common
  import opened SfsLayout
  import opened SfsIndex
  import opened SfsState
  import opened SfsTree
  import opened SfsGrowth
  import opened SfsWalk
  import opened SfsClose
  import opened SfsReader
  import opened SfsAccount
  import opened SfsMirror
  import opened Mksfs

  // ----- names

  /** The tree with its full names. */
  function ExactOf(n: Node): Plain
    decreases n, 0
  {
    if n.Dir? then PlainDir(ExactKids(n.entries, |n.entries|)) else PlainOf(n)
  }

  function ExactKids(es: seq<Entry>, k: nat): seq<PlainKid>
    requires k <= |es|
    decreases es, k
  {
    if k == 0 then []
    else if Kept(es[k - 1]) then ExactKids(es, k - 1) + [PlainKid(es[k - 1].name, ExactOf(es[k - 1].node))]
    else ExactKids(es, k - 1)
  }

  /** No name is longer than what the image holds. */
  predicate NamesFit(n: Node)
    decreases n, 0
  {
    n.Dir? ==> KidNamesFit(n.entries, |n.entries|)
  }

  predicate KidNamesFit(es: seq<Entry>, k: nat)
    requires k <= |es|
    decreases es, k
  {
    k == 0 ||
    (KidNamesFit(es, k - 1) && (Kept(es[k - 1]) ==> |es[k - 1].name| <= NAME_SPACE && NamesFit(es[k - 1].node)))
  }

  /** The image shows the tree with its full names exactly if no name has more than 252 bytes. */
  lemma {:induction false} KidsExactIff(es: seq<Entry>, k: nat)
    requires k <= |es|
    ensures |ExactKids(es, k)| == |PlainKids(es, k)|
    ensures PlainKids(es, k) == ExactKids(es, k) <==> KidNamesFit(es, k)
    decreases es, k
  {
    if k == 0 {
    } else {
      KidsExactIff(es, k - 1);
      var e := es[k - 1];
      if Kept(e) {
        ExactIff(e.node);
        SnocEqual(PlainKids(es, k - 1), PlainKid(Clipped(e.name), PlainOf(e.node)),
                  ExactKids(es, k - 1), PlainKid(e.name, ExactOf(e.node)));
      }
    }
  }

  lemma {:induction false} ExactIff(n: Node)
    ensures PlainOf(n) == ExactOf(n) <==> NamesFit(n)
    decreases n, 0
  {
    match n
    case Dir(_, es) => KidsExactIff(es, |es|);
    case _ =>
  }

  /** A name of 253 bytes is accepted and comes back shortened. */
  lemma {:induction false} LongNameIsCut(n: Node)
    requires n == Dir(1, [Entry(seq(253, _ => 97), File(2, []))])
    ensures Fits(n) && PlainOf(n) != ExactOf(n)
  {
    var es := n.entries;
    assert KeptCount(es, 1) == 1;
    assert Fits(es[0].node);
    assert KidsFit(es, 0) && KidsFit(es, 1);
    assert !KidNamesFit(es, 1);
    ExactIff(n);
  }

  // ----- sizes and link counts

  /** All inodes of an image. */
  function InodesIn(image: Image): nat -> Inode {
    (i: nat) => InodeAt(image, i)
  }

  /** What the inodes of a placement say.  The types are 1, 2 and 3 for files, directories and symbolic links.  A
      directory has 256 bytes and one block for each entry, two links, and one more for every child directory, which
      makes at most 32768; a file has as many links as there are entries for it, reduced to 16 bits; a symbolic link
      has one. */
  ghost predicate InodesAgree(inodes: nat -> Inode, p: Placed, files: seq<nat>)
    decreases p
  {
    var n := inodes(p.ino);
    match p
    case PlacedFile(i, data) => n.kind == 1 && n.size == |data| && n.nlinks == multiset(files)[i] % 65536
    case PlacedLink(_, target) => n.kind == 3 && n.size == |target| && n.nlinks == 1
    case PlacedDir(_, kids) =>
      && n.kind == 2 && n.size == 256 * (2 + |kids|) && n.blocks == 2 + |kids| <= 32768 && n.nlinks == 2 + DirKids(kids)
      && forall k :: 0 <= k < |kids| ==> InodesAgree(inodes, kids[k].node, files)
  }

  ghost predicate FileCounts(s: State, files: seq<nat>) {
    forall i :: i in s.inodes && s.inodes[i].inode.kind == TYPE_FILE ==>
      s.inodes[i].inode.nlinks == multiset(files)[i] % 65536
  }

  lemma DirSmall(s: State, i: nat, kids: seq<Kid>, parent: nat)
    requires Inv(s) && DirAt(s, i, kids, parent)
    ensures i in s.inodes && s.inodes[i].inode.kind == 2 && s.inodes[i].inode.size == 256 * (2 + |kids|)
    ensures s.inodes[i].inode.blocks == 2 + |kids| <= LN_NBLKS
  {
    assert FileOk(s, i);
  }

  lemma {:induction false} InodesOnDisk(s: State, image: Image, p: Placed, parent: nat, files: seq<nat>)
    requires Inv(s) && OnDisk(s, image) && PlacedAt(s, p, parent) && FileCounts(s, files)
    ensures InodesAgree(InodesIn(image), p, files)
    decreases p
  {
    hide Inv, OnDisk, DirAt, InodeAt;
    match p
    case PlacedFile(i, _) => InodeOnDisk(s, image, i);
    case PlacedLink(i, _) => InodeOnDisk(s, image, i);
    case PlacedDir(i, kids) =>
      DirSmall(s, i, kids, parent);
      InodeOnDisk(s, image, i);
      forall k | 0 <= k < |kids|
        ensures InodesAgree(InodesIn(image), kids[k].node, files)
      {
        InodesOnDisk(s, image, kids[k].node, i, files);
      }
  }

  // ----- sharing

  /** Two entries lead to the same inode exactly if they are links to the same file of the host. */
  ghost predicate SameSharing(inos: seq<nat>, hosts: seq<nat>) {
    && |inos| == |hosts|
    && forall a, b :: 0 <= a < |inos| && 0 <= b < |inos| ==> (inos[a] == inos[b] <==> hosts[a] == hosts[b])
  }

  lemma SharingKept(s: State, t: Hosts, inos: seq<nat>, hosts: seq<nat>)
    requires HostsOk(s, t) && Labelled(s, inos, hosts)
    ensures SameSharing(inos, hosts)
  {
    forall a, b | 0 <= a < |inos| && 0 <= b < |inos|
      ensures inos[a] == inos[b] <==> hosts[a] == hosts[b]
    {
      assert s.inodes[inos[a]].host == hosts[a] && s.inodes[inos[b]].host == hosts[b];
    }
  }

  /** The occurrences of a number and of the number that goes with it agree. */
  lemma {:induction false} SharingCounts(inos: seq<nat>, hosts: seq<nat>, i: nat, h: nat)
    requires |inos| == |hosts| && forall a :: 0 <= a < |inos| ==> (inos[a] == i <==> hosts[a] == h)
    ensures multiset(inos)[i] == multiset(hosts)[h]
    decreases |inos|
  {
    if inos == [] {
    } else {
      var n := |inos| - 1;
      SharingCounts(inos[..n], hosts[..n], i, h);
      assert inos == inos[..n] + [inos[n]] && hosts == hosts[..n] + [hosts[n]];
    }
  }

  lemma {:induction false} FileLinksAgree(inodes: nat -> Inode, p: Placed, files: seq<nat>, i: nat)
    requires InodesAgree(inodes, p, files) && i in FileInos(p)
    ensures inodes(i).nlinks == multiset(files)[i] % 65536
    decreases p, 0
  {
    match p
    case PlacedDir(_, kids) => KidFileLinksAgree(inodes, kids, files, i);
    case PlacedFile(_, _) =>
  }

  lemma {:induction false} KidFileLinksAgree(inodes: nat -> Inode, kids: seq<Kid>, files: seq<nat>, i: nat)
    requires (forall k :: 0 <= k < |kids| ==> InodesAgree(inodes, kids[k].node, files)) && i in KidFileInos(kids)
    ensures inodes(i).nlinks == multiset(files)[i] % 65536
    decreases kids, |kids|
  {
    hide InodesAgree;
    if i in FileInos(kids[|kids| - 1].node) {
      FileLinksAgree(inodes, kids[|kids| - 1].node, files, i);
    } else {
      KidFileLinksAgree(inodes, kids[..|kids| - 1], files, i);
    }
  }

  /** The link count of a file is the number of entries that the host directory has for it, if and only if there
      are fewer than 65536 of them. */
  lemma {:induction false} LinkCountIsExactIff(inodes: nat -> Inode, p: Placed, hosts: seq<nat>, a: nat)
    requires InodesAgree(inodes, p, FileInos(p)) && SameSharing(FileInos(p), hosts) && a < |hosts|
    ensures inodes(FileInos(p)[a]).nlinks == multiset(hosts)[hosts[a]] <==> multiset(hosts)[hosts[a]] < 65536
  {
    hide InodesAgree;
    var inos := FileInos(p);
    FileLinksAgree(inodes, p, inos, inos[a]);
    SharingCounts(inos, hosts, inos[a], hosts[a]);
  }

  // ----- the free map and the super block

  /** Bit `b` of the free map. */
  function MapBit(image: Image, b: nat): (r: nat)
    ensures r < 2
  {
    Bit(IndexEntry(BlockAt(image, BLKN_FREEMAP + b / BLKBITS), b % BLKBITS / 32), b % 32)
  }

  /** All bits of the free map. */
  function MapBits(image: Image): nat -> nat {
    (b: nat) => MapBit(image, b)
  }

  /** The number of ones among the first `n` bits. */
  function Ones(bits: nat -> nat, n: nat): nat {
    if n == 0 then 0 else Ones(bits, n - 1) + if bits(n - 1) == 1 then 1 else 0
  }

  lemma HeadFinal(s: State, info: Bytes, image: Image, writes: multiset<nat>, b: nat)
    requires Inv(s) && Complete(s, info, image, writes) && b < Start(s.ninos) && b != BLKN_ROOT
    ensures Final(s, info, b, BlockAt(image, b))
  {
    hide Final, Inv;
    HeadBlock(s, b);
    InvGeometry(s);
    assert b in image && b !in s.image;
    FinalSize(s, info, b, image[b]);
  }

  lemma FinalSize(s: State, info: Bytes, b: nat, bytes: Bytes)
    requires Final(s, info, b, bytes)
    ensures |bytes| == BLKSIZE
  {
  }

  /** A bit of the free map is set exactly if the block with its number exists and was not handed out. */
  lemma FreeMapReads(s: State, info: Bytes, image: Image, writes: multiset<nat>, b: nat)
    requires Inv(s) && Complete(s, info, image, writes) && b < BLKBITS * (Start(s.ninos) - BLKN_FREEMAP)
    ensures MapBit(image, b) == 1 <==> s.nextIno <= b < s.ninos
  {
    hide Inv, Complete, Bit, BlockAt, IndexEntry;
    var m, q, r := BLKN_FREEMAP + b / BLKBITS, b % BLKBITS / 32, b % 32;
    HeadFinal(s, info, image, writes, m);
    MapPosition(b);
    assert Bit(IndexEntry(BlockAt(image, m), q), r) == 1
      <==> s.nextIno <= BLKBITS * (m - BLKN_FREEMAP) + 32 * q + r < s.ninos;
  }

  lemma MapPosition(b: nat)
    ensures BLKBITS * (b / BLKBITS) + 32 * (b % BLKBITS / 32) + b % 32 == b
  {
    var c := b % BLKBITS;
    assert c % 32 == b % 32;
  }

  lemma {:induction false} OnesCount(bits: nat -> nat, n: nat, lo: nat, hi: nat)
    requires lo <= hi && forall b: nat :: b < n ==> (bits(b) == 1 <==> lo <= b < hi)
    ensures Ones(bits, n) == if n <= lo then 0 else if n <= hi then n - lo else hi - lo
  {
    if n == 0 {
    } else {
      OnesCount(bits, n - 1, lo, hi);
      assert bits(n - 1) == 1 <==> lo <= n - 1 < hi;
    }
  }

  /** The image has `n` blocks of which those below `used` are in use, and says so in its free map and in its super
      block. */
  ghost predicate SpaceAgrees(image: Image, n: nat, used: nat) {
    var bits := BLKBITS * (Start(n) - BLKN_FREEMAP);
    var super := BlockAt(image, BLKN_SUPER);
    && n <= bits && (forall b: nat :: b < bits ==> (MapBit(image, b) == 1 <==> used <= b < n))
    && Ones(MapBits(image), bits) == n - used
    && WordAt(super, 0) == 0x2f8dbe2a && WordAt(super, 4) == n && WordAt(super, 8) == n - used
  }

  lemma SuperReads(s: State, info: Bytes)
    requires s.ninos < WORD32 && s.unused < WORD32 && |info| == INFO_SIZE
    ensures var b := SuperBlock(s, info); WordAt(b, 0) == MAGIC && WordAt(b, 4) == s.ninos && WordAt(b, 8) == s.unused
  {
    var ws: seq<nat> := [MAGIC, s.ninos, s.unused];
    var data := EncodeWords(ws) + info;
    var b := Padded(data);
    assert b[..4 * |ws|] == b[..|data|][..4 * |ws|] == EncodeWords(ws);
    WordsReadBack(b, ws, 0);
    WordsReadBack(b, ws, 1);
    WordsReadBack(b, ws, 2);
  }

  /** The label in the super block. */
  lemma LabelReads(s: State, heap: Bytes)
    requires |heap| == INFO_SIZE
    ensures var text := NameAt(SuperBlock(s, Info(heap)), 12, 44);
      |text| == 18 && forall k :: 0 <= k < 18 ==> text[k] as char == "simple file system"[k]
  {
    hide NameAt, EncodeWords, Padded;
    LabelStored(EncodeWords([MAGIC, s.ninos, s.unused]), heap);
    var b := SuperBlock(s, Info(heap));
    NameReadsBack(b, 12, 44, INFO_TEXT);
    LabelText();
  }

  lemma LabelStored(words: Bytes, heap: Bytes)
    requires |words| == 12 && |heap| == INFO_SIZE
    ensures var b := Padded(words + Info(heap)); b[12..30] == INFO_TEXT && b[30] == 0
  {
    var data := words + Info(heap);
    var b := Padded(data);
    assert b[12..30] == b[..|data|][12..30] == INFO_TEXT;
    assert b[30] == b[..|data|][30] == 0;
  }

  lemma LabelText()
    ensures |INFO_TEXT| == 18 && 0 !in INFO_TEXT
    ensures forall k :: 0 <= k < 18 ==> INFO_TEXT[k] as char == "simple file system"[k]
  {
  }

  lemma SpaceOnDisk(s: State, info: Bytes, image: Image, writes: multiset<nat>)
    requires Inv(s) && Complete(s, info, image, writes) && |info| == INFO_SIZE
    ensures SpaceAgrees(image, s.ninos, s.nextIno)
  {
    hide Inv, Complete, MapBit, Ones, SuperBlock, BlockAt, WordAt;
    InvGeometry(s);
    var bits := BLKBITS * (Start(s.ninos) - BLKN_FREEMAP);
    forall b: nat | b < bits
      ensures MapBit(image, b) == 1 <==> s.nextIno <= b < s.ninos
    {
      FreeMapReads(s, info, image, writes, b);
    }
    OnesCount(MapBits(image), bits, s.nextIno, s.ninos);
    HeadFinal(s, info, image, writes, BLKN_SUPER);
    SuperReads(s, info);
  }

  // ----- the whole

  lemma {:induction false} DirHostsKnown(n: Node, t: Hosts)
    requires WellFormed(n, t)
    ensures forall h :: h in DirHosts(n) ==> h in t
    decreases n, 0
  {
    match n
    case Dir(_, es) => KidDirHostsKnown(es, |es|, t);
    case _ =>
  }

  lemma {:induction false} KidDirHostsKnown(es: seq<Entry>, k: nat, t: Hosts)
    requires k <= |es| && KidsWellFormed(es, k, t)
    ensures forall h :: h in KidDirHosts(es, k) ==> h in t
    decreases es, k
  {
    if k == 0 {
    } else {
      KidDirHostsKnown(es, k - 1, t);
      if Kept(es[k - 1]) {
        DirHostsKnown(es[k - 1].node, t);
      }
    }
  }

  lemma {:induction false} NothingVisited(n: nat, es: seq<Entry>, t: Hosts)
    requires Start(n) < n && KidsWellFormed(es, |es|, t) && 0 !in t
    ensures Unvisited(Initial(n), KidDirHosts(es, |es|))
  {
    KidDirHostsKnown(es, |es|, t);
  }

  /** The blocks that a host directory takes. */
  function Demand(es: seq<Entry>): nat {
    KidsNeed(es, |es|, {}) + Occupied(2 + KeptCount(es, |es|))
  }

  /** The image file is big enough, and the directory is one that the format can hold. */
  predicate Enough(size: nat, es: seq<Entry>) {
    var n := Ninos(size);
    Start(n) < n && 2 + KeptCount(es, |es|) <= LN_NBLKS && KidsFit(es, |es|) && Start(n) + Demand(es) <= n
  }

  /** The same condition in numbers, and about the entries themselves. */
  lemma {:induction false} EnoughIff(size: nat, es: seq<Entry>)
    ensures Enough(size, es) <==>
      && size / 4096 % WORD32 >= 4 && |Indices(es, |es|)| <= 32766
      && (forall j :: 0 <= j < |es| ==> EntryHoldable(es[j]))
      && Start(Ninos(size)) + Demand(es) <= Ninos(size)
  {
    hide Demand, EntryHoldable, KidsFit, Indices, KeptCount, Start, Ninos;
    BigEnoughIff(size);
    KidsFitIff(es, |es|);
    IndicesCount(es, |es|);
  }

  lemma {:induction false} RootPlaced(a: State, s: State, es: seq<Entry>, kids: seq<Kid>)
    requires Walked(a, s, BLKN_ROOT, BLKN_ROOT, es, |es|, kids)
    ensures PlacedAt(s, PlacedDir(BLKN_ROOT, kids), BLKN_ROOT)
    ensures Erased(PlacedDir(BLKN_ROOT, kids)) == PlainDir(PlainKids(es, |es|))
    ensures Labelled(s, KidFileInos(kids), KidFileHosts(es, |es|))
    ensures FileLinks(a, s, KidFileInos(kids)) && Increasing(KidOtherInos(kids), a.nextIno, s.nextIno)
    ensures Preserves(a, s, {BLKN_ROOT}, {BLKN_ROOT, BLKN_ROOT})
    ensures DirAt(s, BLKN_ROOT, kids, BLKN_ROOT) && KidsRepresent(s, kids, BLKN_ROOT, es, |es|)
  {
    hide PlacedAt, DirAt, Labelled, Preserves, FileLinks, Increasing;
    DirAssembled(s, BLKN_ROOT, kids, BLKN_ROOT);
  }

  lemma HostsAreOneEach(s: State, t: Hosts)
    requires HostsOk(s, t)
    ensures OneEach(s)
  {
    hide OneEach;
  }

  lemma RootCounts(n: nat, s: State, files: seq<nat>, m: set<nat>)
    requires Start(n) <= n && FileLinks(Initial(n), s, files) && Preserves(Initial(n), s, {BLKN_ROOT}, m)
    ensures FileCounts(s, files)
  {
    assert InodeKept(Initial(n), s, BLKN_ROOT, true, BLKN_ROOT in m);
  }

  lemma {:induction false} RootFirst(kids: seq<Kid>, lo: nat, hi: nat)
    requires Increasing(KidOtherInos(kids), lo, hi) && BLKN_ROOT < lo <= hi
    ensures Increasing(OtherInos(PlacedDir(BLKN_ROOT, kids)), BLKN_ROOT, hi)
  {
    IncreasingConcat([BLKN_ROOT], KidOtherInos(kids), BLKN_ROOT, lo, hi);
  }

  /** Everything that a reader finds in the finished image. */
  lemma {:induction false} ImageReads(n: nat, s: State, t: Hosts, es: seq<Entry>, kids: seq<Kid>, info: Bytes,
                                      image: Image, writes: multiset<nat>)
    requires Start(n) < n && Walked(Initial(n), s, BLKN_ROOT, BLKN_ROOT, es, |es|, kids) && Ready(s, t, BLKN_ROOT)
    requires |info| == INFO_SIZE && Complete(s, info, image, writes)
    ensures var p := PlacedDir(BLKN_ROOT, kids);
      && Erased(p) == PlainDir(PlainKids(es, |es|))
      && (forall depth :: depth >= Height(Erased(p)) ==> ReadTree(image, BLKN_ROOT, BLKN_ROOT, depth) == Some(p))
      && SameSharing(FileInos(p), KidFileHosts(es, |es|)) && Increasing(OtherInos(p), BLKN_ROOT, s.nextIno)
      && InodesAgree(InodesIn(image), p, FileInos(p)) && SpaceAgrees(image, s.ninos, s.nextIno)
      && Demand(es) == Used(image, p, {}) - 1
  {
    hide Inv, Settled, HostsOk, FilesHold, Complete, Walked, PlacedAt, ReadTree, InodesAgree, InodesIn;
    hide SpaceAgrees, OnDisk, SameSharing, FileCounts;
    hide Increasing, Labelled, FileLinks, Preserves, KidsHeight, Erased, DirAt, KidsRepresent;
    hide OneEach, Used, Occupied, KidsNeed;
    var p := PlacedDir(BLKN_ROOT, kids);
    RootPlaced(Initial(n), s, es, kids);
    CompleteOnDisk(s, info, image, writes);
    forall depth: nat | depth >= Height(Erased(p))
      ensures ReadTree(image, BLKN_ROOT, BLKN_ROOT, depth) == Some(p)
    {
      TreeReads(s, image, p, BLKN_ROOT, depth);
    }
    SharingKept(s, t, KidFileInos(kids), KidFileHosts(es, |es|));
    GrowthKept(n, s);
    RootFirst(kids, Start(n), s.nextIno);
    RootCounts(n, s, KidFileInos(kids), {BLKN_ROOT, BLKN_ROOT});
    InodesOnDisk(s, image, p, BLKN_ROOT, KidFileInos(kids));
    SpaceOnDisk(s, info, image, writes);
    HostsAreOneEach(s, t);
    RootAccount(s, image, es, kids, BLKN_ROOT);
  }

  lemma GrowthKept(n: nat, s: State)
    requires Start(n) <= n && Preserves(Initial(n), s, {BLKN_ROOT}, {BLKN_ROOT, BLKN_ROOT})
    ensures s.ninos == n && Start(n) <= s.nextIno
  {
  }

  /** create_sfs: fails if the image file cannot hold more than its own bookkeeping. */
  method CreateSfs(size: nat, heap: Bytes) returns (r: Option<Sfs>)
    requires |heap| == INFO_SIZE
    ensures r.Some? <==> Start(Ninos(size)) < Ninos(size)
    ensures r.Some? ==> fresh(r.value) && r.value.S() == Initial(Ninos(size))
    ensures r.Some? ==> Inv(r.value.S()) && Settled(r.value.S())
    ensures r.Some? ==> r.value.info == Info(heap) && |r.value.entryName| == MAX_FNAME + 1
  {
    var ninos := Ninos(size);
    if Start(ninos) >= ninos {
      return None;
    }
    InitialInv(ninos);
    var sfs := new Sfs(ninos, heap);
    r := Some(sfs);
  }

  lemma {:induction false} WalkIsDemand(n: nat, es: seq<Entry>)
    requires Start(n) < n && CachedFiles(Initial(n)) == {}
    ensures Walk(Initial(n), es, |es|) == Demand(es)
    ensures CanWalk(Initial(n), es, |es|) <==>
      2 + KeptCount(es, |es|) <= LN_NBLKS && KidsFit(es, |es|) && Start(n) + Demand(es) <= n
  {
  }

  /** The same with the number of blocks used, for a walk that has taken what the directory needs. */
  lemma {:induction false} ImageFinished(n: nat, s: State, t: Hosts, es: seq<Entry>, kids: seq<Kid>, info: Bytes,
                                         image: Image, writes: multiset<nat>)
    requires Start(n) < n && Walked(Initial(n), s, BLKN_ROOT, BLKN_ROOT, es, |es|, kids) && Ready(s, t, BLKN_ROOT)
    requires |info| == INFO_SIZE && Complete(s, info, image, writes) && s.unused == n - Start(n) - Demand(es)
    ensures var p, used := PlacedDir(BLKN_ROOT, kids), Start(n) + Demand(es);
      && KidsMirror(kids, es, |es|) && Erased(p) == PlainDir(PlainKids(es, |es|))
      && (forall depth :: depth >= Height(Erased(p)) ==> ReadTree(image, BLKN_ROOT, BLKN_ROOT, depth) == Some(p))
      && SameSharing(FileInos(p), KidFileHosts(es, |es|)) && Increasing(OtherInos(p), BLKN_ROOT, used)
      && InodesAgree(InodesIn(image), p, FileInos(p)) && SpaceAgrees(image, n, used)
      && Demand(es) == Used(image, p, {}) - 1
      && (forall b: nat :: b in image <==> b < used)
      && (forall b: nat :: writes[b] == if b in image then 1 else 0)
  {
    hide Inv, Settled, HostsOk, FilesHold, Walked, ReadTree, InodesAgree, InodesIn, SpaceAgrees;
    hide SameSharing, Increasing;
    hide Used, Demand, Height, Erased, FileInos, OtherInos, Start, Final, PlacedAt, Labelled, FileLinks, Preserves;
    hide DirAt, KidsRepresent, PlainKids, KidFileHosts, KidsMirror;
    RootPlaced(Initial(n), s, es, kids);
    GrowthKept(n, s);
    InvGeometry(s);
    ImageReads(n, s, t, es, kids, info, image, writes);
    RootMirrors(s, es, kids);
  }

  lemma {:induction false} RootMirrors(s: State, es: seq<Entry>, kids: seq<Kid>)
    requires KidsRepresent(s, kids, BLKN_ROOT, es, |es|)
    ensures KidsMirror(kids, es, |es|)
  {
    hide PlacedAt, Labelled, KidsMirror;
    KidsMirrored(kids, es, |es|);
  }

  /** open_img and create_img: the image of the host directory with the entries `es`.  It is made exactly if there is
      room, and a reader gets the directory back from it. */
  method CreateImg(size: nat, heap: Bytes, es: seq<Entry>, ghost t: Hosts)
    returns (ok: bool, image: Image, ghost writes: multiset<nat>, ghost p: Placed)
    requires |heap| == INFO_SIZE && KidsWellFormed(es, |es|, t) && 0 !in t
    ensures ok == Enough(size, es)
    ensures ok ==> p.PlacedDir? && KidsMirror(p.kids, es, |es|) && Erased(p) == PlainDir(PlainKids(es, |es|))
    ensures ok ==> forall depth :: depth >= Height(Erased(p)) ==>
      ReadTree(image, BLKN_ROOT, BLKN_ROOT, depth) == Some(p)
    ensures ok ==> SameSharing(FileInos(p), KidFileHosts(es, |es|))
    ensures ok ==> Increasing(OtherInos(p), BLKN_ROOT, Start(Ninos(size)) + Demand(es))
    ensures ok ==> InodesAgree(InodesIn(image), p, FileInos(p))
    ensures ok ==> SpaceAgrees(image, Ninos(size), Start(Ninos(size)) + Demand(es))
    ensures ok ==> forall b: nat :: b in image <==> b < Start(Ninos(size)) + Demand(es)
    ensures ok ==> Demand(es) == Used(image, p, {}) - 1
    ensures ok ==> forall b: nat :: writes[b] == if b in image then 1 else 0
  {
    hide Inv, Settled, HostsOk, FilesHold, Walked, Blank, Unvisited, CachedFiles, KidsWellFormed;
    hide ReadTree, InodesAgree, InodesIn, SpaceAgrees;
    hide Used, Height, SameSharing, Increasing, Demand, Walk, CanWalk, Start, Erased, FileInos, OtherInos, Complete;
    hide PlainKids, KidFileHosts, KeptCount, KidsFit, KidsMirror;
    image, writes, p := map[], multiset{}, PlacedFile(0, []);
    var r := CreateSfs(size, heap);
    if r == None {
      return false, image, writes, p;
    }
    var sfs := r.value;
    ghost var n := Ninos(size);
    InitialReady(n, t);
    NothingVisited(n, es, t);
    WalkIsDemand(n, es);
    ghost var kids;
    ok, kids := sfs.OpenDir(BLKN_ROOT, BLKN_ROOT, es, t);
    if !ok {
      return;
    }
    ghost var s := sfs.S();
    sfs.Close();
    image, writes, p := sfs.image, sfs.writes, PlacedDir(BLKN_ROOT, kids);
    ImageFinished(n, s, t, es, kids, sfs.info, image, writes);
  }
}
