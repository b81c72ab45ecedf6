/**
 What lab8/tools/mksfs.c reads and what it makes of it: the host directory as a tree whose nodes carry their
 host inode numbers, the plain tree that a reader of the image should see, the placement of that tree in
 the image, and the number of blocks it needs.
 */
module SfsTree {
  import opened Common
  import opened SfsLayout
  import opened SfsIndex
  import opened SfsState

  // ----- the host directory

  datatype Node =
    | Dir(host: nat, entries: seq<Entry>)
    | File(host: nat, data: Bytes)
    | Link(host: nat, target: Bytes)
    | Special(host: nat)                  // a fifo, socket or device: reported and skipped

  datatype Entry = Entry(name: Bytes, node: Node)

  const DOT: Byte := 46

  /** Names that start with a dot are skipped, the entries for the directory and its parent among them. */
  predicate Hidden(e: Entry) {
    e.name != [] && e.name[0] == DOT
  }

  predicate Kept(e: Entry) {
    !Hidden(e) && !e.node.Special?
  }

  // ----- the plain tree

  datatype Plain = PlainDir(kids: seq<PlainKid>) | PlainFile(data: Bytes) | PlainLink(target: Bytes)
  datatype PlainKid = PlainKid(name: Bytes, node: Plain)

  /** The tree without host numbers and without what is skipped; names are cut to what the image holds. */
  function PlainOf(n: Node): Plain
    decreases n, 0
  {
    match n
    case Dir(_, es) => PlainDir(PlainKids(es, |es|))
    case File(_, data) => PlainFile(data)
    case Link(_, target) => PlainLink(target)
    case Special(_) => PlainFile([])
  }

  function PlainKids(es: seq<Entry>, k: nat): seq<PlainKid>
    requires k <= |es|
    decreases es, k
  {
    if k == 0 then []
    else if Kept(es[k - 1]) then PlainKids(es, k - 1) + [PlainKid(Clipped(es[k - 1].name), PlainOf(es[k - 1].node))]
    else PlainKids(es, k - 1)
  }

  /** Host numbers of the files, in the order of a traversal. */
  function FileHosts(n: Node): seq<nat>
    decreases n, 0
  {
    match n
    case Dir(_, es) => KidFileHosts(es, |es|)
    case File(h, _) => [h]
    case _ => []
  }

  function KidFileHosts(es: seq<Entry>, k: nat): seq<nat>
    requires k <= |es|
    decreases es, k
  {
    if k == 0 then []
    else if Kept(es[k - 1]) then KidFileHosts(es, k - 1) + FileHosts(es[k - 1].node)
    else KidFileHosts(es, k - 1)
  }

  /** Host numbers of the directories. */
  function DirHosts(n: Node): set<nat>
    decreases n, 0
  {
    match n
    case Dir(h, es) => {h} + KidDirHosts(es, |es|)
    case _ => {}
  }

  function KidDirHosts(es: seq<Entry>, k: nat): set<nat>
    requires k <= |es|
    decreases es, k
  {
    if k == 0 then {}
    else KidDirHosts(es, k - 1) + (if Kept(es[k - 1]) then DirHosts(es[k - 1].node) else {})
  }

  /** What a host number stands for. */
  datatype Object = ADir | AFile(data: Bytes) | ALink(target: Bytes)
  type Hosts = map<nat, Object>

  /** Every host number names one object: files that share a number have the same contents, and a directory
      occurs once.  Number 0, which the builder gives to the root, names nothing. */
  ghost predicate WellFormed(n: Node, t: Hosts)
    decreases n, 0
  {
    match n
    case Dir(h, es) => h in t && t[h] == ADir && h !in KidDirHosts(es, |es|) && KidsWellFormed(es, |es|, t)
    case File(h, data) => h in t && t[h] == AFile(data)
    case Link(h, target) => h in t && t[h] == ALink(target)
    case Special(_) => true
  }

  ghost predicate KidsWellFormed(es: seq<Entry>, k: nat, t: Hosts)
    requires k <= |es|
    decreases es, k
  {
    k == 0 ||
    (&& KidsWellFormed(es, k - 1, t)
     && (Kept(es[k - 1]) ==> 0 !in es[k - 1].name && WellFormed(es[k - 1].node, t) &&
                             DirHosts(es[k - 1].node) !! KidDirHosts(es, k - 1)))
  }

  // ----- how many blocks a tree needs

  function Chunks(len: nat): nat {
    (len + BLKSIZE - 1) / BLKSIZE
  }

  function KeptCount(es: seq<Entry>, k: nat): (c: nat)
    requires k <= |es|
    ensures c <= k
  {
    if k == 0 then 0 else KeptCount(es, k - 1) + (if Kept(es[k - 1]) then 1 else 0)
  }

  function FileSet(n: Node): set<nat> {
    set h | h in FileHosts(n)
  }

  function KidFileSet(es: seq<Entry>, k: nat): set<nat>
    requires k <= |es|
  {
    set h | h in KidFileHosts(es, k)
  }

  /** Blocks allocated for a node: its inode, its contents and its index; a file whose host number has been
      `seen` already needs none.  The entry that names the node is charged to its directory. */
  function Need(n: Node, seen: set<nat>): nat
    decreases n, 0
  {
    match n
    case Dir(_, es) => 1 + KidsNeed(es, |es|, seen) + Occupied(2 + KeptCount(es, |es|))
    case File(h, data) => if h in seen then 0 else 1 + Occupied(Chunks(|data|))
    case Link(_, _) => 2
    case Special(_) => 0
  }

  function KidsNeed(es: seq<Entry>, k: nat, seen: set<nat>): nat
    requires k <= |es|
    decreases es, k
  {
    if k == 0 then 0
    else if Kept(es[k - 1]) then KidsNeed(es, k - 1, seen) + Need(es[k - 1].node, seen + KidFileSet(es, k - 1))
    else KidsNeed(es, k - 1, seen)
  }

  /** What the format can hold: no file or directory of more than 32768 blocks, no symbolic link of a block
      or more, no name of more than 255 bytes. */
  predicate Fits(n: Node)
    decreases n, 0
  {
    match n
    case Dir(_, es) => 2 + KeptCount(es, |es|) <= LN_NBLKS && KidsFit(es, |es|)
    case File(_, data) => Chunks(|data|) <= LN_NBLKS
    case Link(_, target) => |target| < BLKSIZE
    case Special(_) => true
  }

  predicate KidsFit(es: seq<Entry>, k: nat)
    requires k <= |es|
    decreases es, k
  {
    k == 0 ||
    (&& KidsFit(es, k - 1)
     && (!Hidden(es[k - 1]) ==> |es[k - 1].name| <= MAX_FNAME)
     && (Kept(es[k - 1]) ==> Fits(es[k - 1].node)))
  }

  // ----- the placement of a tree in the image

  datatype Placed =
    | PlacedDir(ino: nat, kids: seq<Kid>)
    | PlacedFile(ino: nat, data: Bytes)
    | PlacedLink(ino: nat, target: Bytes)
  datatype Kid = Kid(name: Bytes, node: Placed)

  function Erased(p: Placed): Plain {
    match p
    case PlacedDir(_, kids) => PlainDir(ErasedKids(kids))
    case PlacedFile(_, data) => PlainFile(data)
    case PlacedLink(_, target) => PlainLink(target)
  }

  function ErasedKids(kids: seq<Kid>): (r: seq<PlainKid>)
    ensures |r| == |kids|
  {
    if kids == [] then []
    else ErasedKids(kids[..|kids| - 1]) + [PlainKid(kids[|kids| - 1].name, Erased(kids[|kids| - 1].node))]
  }

  /** Inode numbers of the files, in the order of a traversal. */
  function FileInos(p: Placed): seq<nat> {
    match p
    case PlacedDir(_, kids) => KidFileInos(kids)
    case PlacedFile(i, _) => [i]
    case PlacedLink(_, _) => []
  }

  function KidFileInos(kids: seq<Kid>): seq<nat> {
    if kids == [] then [] else KidFileInos(kids[..|kids| - 1]) + FileInos(kids[|kids| - 1].node)
  }

  /** Inode numbers of the directories and symbolic links, a directory before what it contains. */
  function OtherInos(p: Placed): seq<nat> {
    match p
    case PlacedDir(i, kids) => [i] + KidOtherInos(kids)
    case PlacedFile(_, _) => []
    case PlacedLink(i, _) => [i]
  }

  function KidOtherInos(kids: seq<Kid>): seq<nat> {
    if kids == [] then [] else KidOtherInos(kids[..|kids| - 1]) + OtherInos(kids[|kids| - 1].node)
  }

  function DirKids(kids: seq<Kid>): (c: nat)
    ensures c <= |kids|
  {
    if kids == [] then 0
    else DirKids(kids[..|kids| - 1]) + (if kids[|kids| - 1].node.PlacedDir? then 1 else 0)
  }

  lemma SnocEqual<T>(xs: seq<T>, x: T, ys: seq<T>, y: T)
    ensures xs + [x] == ys + [y] <==> xs == ys && x == y
  {
    if xs + [x] == ys + [y] {
      assert |xs| == |xs + [x]| - 1 == |ys|;
      assert xs == (xs + [x])[..|xs|] && ys == (ys + [y])[..|ys|];
      assert x == (xs + [x])[|xs|] && y == (ys + [y])[|ys|];
    }
  }

  /** Adding one kid at the end. */
  lemma {:induction false} KidAdded(kids: seq<Kid>, kid: Kid)
    ensures ErasedKids(kids + [kid]) == ErasedKids(kids) + [PlainKid(kid.name, Erased(kid.node))]
    ensures KidFileInos(kids + [kid]) == KidFileInos(kids) + FileInos(kid.node)
    ensures KidOtherInos(kids + [kid]) == KidOtherInos(kids) + OtherInos(kid.node)
    ensures DirKids(kids + [kid]) == DirKids(kids) + (if kid.node.PlacedDir? then 1 else 0)
  {
    assert (kids + [kid])[..|kids|] == kids;
  }

  lemma {:induction false} KidsContain(kids: seq<Kid>, k: nat, x: nat)
    requires k < |kids| && x in OtherInos(kids[k].node)
    ensures x in KidOtherInos(kids)
    decreases |kids|
  {
    if k == |kids| - 1 {
    } else {
      KidsContain(kids[..|kids| - 1], k, x);
    }
  }

  function Chunk(data: Bytes, k: nat): (c: Bytes)
    requires k < Chunks(|data|)
    ensures |c| <= BLKSIZE
  {
    var e := BLKSIZE * (k + 1);
    data[BLKSIZE * k..if e <= |data| then e else |data|]
  }

  /** The inode `i` is a file with these contents. */
  ghost predicate FileAt(s: State, i: nat, data: Bytes) {
    && i in s.inodes && i in s.blks
    && s.inodes[i].inode.kind == TYPE_FILE && s.inodes[i].inode.size == |data| && |s.blks[i]| == Chunks(|data|)
    && (forall k :: 0 <= k < |s.blks[i]| ==>
          s.blks[i][k] in s.image && s.image[s.blks[i][k]] == Padded(Chunk(data, k)))
  }

  ghost predicate LinkAt(s: State, i: nat, target: Bytes) {
    && i in s.inodes && i in s.blks
    && s.inodes[i].inode.kind == TYPE_LINK && s.inodes[i].inode.size == |target| < BLKSIZE
    && |s.blks[i]| == 1 && s.blks[i][0] in s.image && s.image[s.blks[i][0]] == Padded(target)
  }

  /** Block `b` holds a directory entry. */
  ghost predicate EntryAt(image: map<nat, Bytes>, b: nat, ino: nat, name: Bytes) {
    b in image && |image[b]| == BLKSIZE && EntryIno(image[b]) == ino && EntryName(image[b]) == name
  }

  /** The inode `i` is a directory with these kids, its own entry and its parent's. */
  ghost predicate DirAt(s: State, i: nat, kids: seq<Kid>, parent: nat) {
    && i in s.inodes && i in s.blks
    && s.inodes[i].inode.kind == TYPE_DIR && s.inodes[i].inode.size == 256 * |s.blks[i]| && |s.blks[i]| == 2 + |kids|
    && EntryAt(s.image, s.blks[i][0], i, [DOT]) && EntryAt(s.image, s.blks[i][1], parent, [DOT, DOT])
    && (forall k :: 0 <= k < |kids| ==> EntryAt(s.image, s.blks[i][2 + k], kids[k].node.ino, kids[k].name))
  }

  /** The placement `p` is in the image, with the link counts of its directories and symbolic links. */
  ghost predicate PlacedAt(s: State, p: Placed, parent: nat)
    decreases p
  {
    match p
    case PlacedFile(i, data) => FileAt(s, i, data)
    case PlacedLink(i, target) => LinkAt(s, i, target) && s.inodes[i].inode.nlinks == 1
    case PlacedDir(i, kids) =>
      && DirAt(s, i, kids, parent) && s.inodes[i].inode.nlinks == 2 + DirKids(kids)
      && (forall k :: 0 <= k < |kids| ==> PlacedAt(s, kids[k].node, i))
  }
}
