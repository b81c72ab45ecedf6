/**
 The block account of an image of lab8/tools/mksfs.c: the inodes that a reader reaches, with their contents and index
 blocks, are all that was allocated.
 */
module SfsAccount {
  import opened SfsLayout
  import opened SfsIndex
  import opened SfsState
  import opened SfsTree
  import opened SfsGrowth
  import opened SfsReader

  // ----- the account of a reader

  function InoSet(inos: seq<nat>): set<nat> {
    set i | i in inos
  }

  /** An inode with its contents and its index blocks, by the block count that it holds. */
  function Holds(image: Image, i: nat): nat {
    1 + Occupied(InodeAt(image, i).blocks)
  }

  /** The blocks of all inodes in a placement, each counted once; those `seen` are not counted again. */
  function Used(image: Image, p: Placed, seen: set<nat>): nat {
    match p
    case PlacedDir(i, kids) => Holds(image, i) + KidsUsed(image, kids, seen)
    case PlacedFile(i, _) => if i in seen then 0 else Holds(image, i)
    case PlacedLink(i, _) => Holds(image, i)
  }

  function KidsUsed(image: Image, kids: seq<Kid>, seen: set<nat>): nat {
    if kids == [] then 0
    else
      var front := kids[..|kids| - 1];
      KidsUsed(image, front, seen) + Used(image, kids[|kids| - 1].node, seen + InoSet(KidFileInos(front)))
  }

  // ----- the number of file entries is the same on both sides

  function Files(q: Plain): nat {
    match q
    case PlainDir(kids) => KidFiles(kids)
    case PlainFile(_) => 1
    case PlainLink(_) => 0
  }

  function KidFiles(kids: seq<PlainKid>): nat {
    if kids == [] then 0 else KidFiles(kids[..|kids| - 1]) + Files(kids[|kids| - 1].node)
  }

  lemma {:induction false} KidFilesMore(kids: seq<PlainKid>, kid: PlainKid)
    ensures KidFiles(kids + [kid]) == KidFiles(kids) + Files(kid.node)
  {
    assert (kids + [kid])[..|kids|] == kids;
  }

  lemma {:induction false} PlacedFiles(p: Placed)
    ensures |FileInos(p)| == Files(Erased(p))
    decreases p, 0
  {
    match p
    case PlacedDir(_, kids) => PlacedKidFiles(kids);
    case PlacedFile(_, _) =>
    case PlacedLink(_, _) =>
  }

  lemma {:induction false} PlacedKidFiles(kids: seq<Kid>)
    ensures |KidFileInos(kids)| == KidFiles(ErasedKids(kids))
    decreases kids, |kids|
  {
    if kids == [] {
    } else {
      var front, last := kids[..|kids| - 1], kids[|kids| - 1];
      PlacedKidFiles(front);
      PlacedFiles(last.node);
      KidFilesMore(ErasedKids(front), PlainKid(last.name, Erased(last.node)));
    }
  }

  lemma {:induction false} HostFiles(n: Node)
    requires !n.Special?
    ensures |FileHosts(n)| == Files(PlainOf(n))
    decreases n, 0
  {
    match n
    case Dir(_, es) => HostKidFiles(es, |es|);
    case File(_, _) =>
    case Link(_, _) =>
  }

  lemma {:induction false} HostKidFiles(es: seq<Entry>, k: nat)
    requires k <= |es|
    ensures |KidFileHosts(es, k)| == KidFiles(PlainKids(es, k)) && |PlainKids(es, k)| == KeptCount(es, k)
    decreases es, k
  {
    if k == 0 {
    } else {
      HostKidFiles(es, k - 1);
      var e := es[k - 1];
      if Kept(e) {
        HostFiles(e.node);
        KidFilesMore(PlainKids(es, k - 1), PlainKid(Clipped(e.name), PlainOf(e.node)));
      }
    }
  }

  // ----- the account agrees with the need of the host tree

  /** The inodes `inos` are those whose host numbers are in `hosts`, among the files. */
  ghost predicate Agree(s: State, inos: set<nat>, hosts: set<nat>) {
    forall i :: i in s.inodes && s.inodes[i].inode.kind == TYPE_FILE ==> (i in inos <==> s.inodes[i].host in hosts)
  }

  lemma AgreeMore(s: State, inos: set<nat>, hosts: set<nat>, f: seq<nat>, h: seq<nat>)
    requires Agree(s, inos, hosts) && OneEach(s) && Labelled(s, f, h)
    ensures Agree(s, inos + InoSet(f), hosts + set x | x in h)
  {
    forall i | i in s.inodes && s.inodes[i].inode.kind == TYPE_FILE
      ensures i in f <==> s.inodes[i].host in h
    {
      if i in f {
        var k :| 0 <= k < |f| && f[k] == i;
        assert h[k] == s.inodes[i].host;
      }
      if s.inodes[i].host in h {
        var k :| 0 <= k < |h| && h[k] == s.inodes[i].host;
        assert s.inodes[f[k]].host == h[k];
        assert f[k] == i;
      }
    }
  }

  lemma LabelledSplit(s: State, f: seq<nat>, h: seq<nat>, g: seq<nat>, k: seq<nat>)
    requires Labelled(s, f + g, h + k) && |f| == |h|
    ensures Labelled(s, f, h) && Labelled(s, g, k)
  {
    forall j | 0 <= j < |f|
      ensures f[j] in s.inodes && s.inodes[f[j]].inode.kind == TYPE_FILE && s.inodes[f[j]].host == h[j]
    {
      assert (f + g)[j] == f[j] && (h + k)[j] == h[j];
    }
    forall j | 0 <= j < |g|
      ensures g[j] in s.inodes && s.inodes[g[j]].inode.kind == TYPE_FILE && s.inodes[g[j]].host == k[j]
    {
      assert (f + g)[|f| + j] == g[j] && (h + k)[|h| + j] == k[j];
    }
  }

  lemma HoldsBlocks(s: State, image: Image, i: nat)
    requires Inv(s) && OnDisk(s, image) && i in s.inodes
    ensures i in s.blks && Holds(image, i) == 1 + Occupied(|s.blks[i]|)
  {
    hide Inv, OnDisk, Occupied;
    InodeOnDisk(s, image, i);
    BlocksCounted(s, i);
  }

  lemma {:induction false} FileLeaf(s: State, image: Image, n: Node, p: Placed, inos: set<nat>, hosts: set<nat>)
    requires Inv(s) && OnDisk(s, image) && n.File? && p.PlacedFile? && p.data == n.data && FileAt(s, p.ino, p.data)
    requires Labelled(s, [p.ino], [n.host]) && Agree(s, inos, hosts)
    ensures Need(n, hosts) == Used(image, p, inos)
  {
    hide Inv, OnDisk, Holds, Occupied;
    HoldsBlocks(s, image, p.ino);
    assert [p.ino][0] == p.ino && [n.host][0] == n.host;
  }

  lemma LinkLeaf(s: State, image: Image, p: Placed)
    requires Inv(s) && OnDisk(s, image) && p.PlacedLink? && LinkAt(s, p.ino, p.target)
    ensures Holds(image, p.ino) == 2
  {
    hide Inv, OnDisk, Holds;
    HoldsBlocks(s, image, p.ino);
    NothingOccupied();
    OccupiedGrows(0);
  }

  lemma DirNode(s: State, image: Image, i: nat, kids: seq<Kid>, parent: nat)
    requires Inv(s) && OnDisk(s, image) && DirAt(s, i, kids, parent)
    ensures Holds(image, i) == 1 + Occupied(2 + |kids|)
  {
    hide Inv, OnDisk, Holds, Occupied;
    HoldsBlocks(s, image, i);
  }

  /** The blocks that a host tree needs are those that a reader counts in its placement. */
  lemma {:induction false} NeedIsUsed(s: State, image: Image, n: Node, p: Placed, parent: nat, inos: set<nat>,
                                      hosts: set<nat>)
    requires Inv(s) && OnDisk(s, image) && OneEach(s) && Agree(s, inos, hosts) && !n.Special?
    requires Represents(s, p, parent, n)
    ensures Need(n, hosts) == Used(image, p, inos)
    decreases n, 0
  {
    hide Inv, OnDisk, OneEach, Agree, FileAt, LinkAt, DirAt, Labelled, Holds, Occupied, KidsNeed, KidsUsed;
    match n
    case File(_, _) => FileLeaf(s, image, n, p, inos, hosts);
    case Link(_, _) => LinkLeaf(s, image, p);
    case Dir(_, es) =>
      DirNode(s, image, p.ino, p.kids, parent);
      HostKidFiles(es, |es|);
      KidsNeedIsUsed(s, image, es, |es|, p.kids, p.ino, inos, hosts);
  }

  ghost predicate KidsRepresent(s: State, kids: seq<Kid>, parent: nat, es: seq<Entry>, k: nat)
    requires k <= |es|
  {
    && (forall j :: 0 <= j < |kids| ==> PlacedAt(s, kids[j].node, parent))
    && ErasedKids(kids) == PlainKids(es, k) && Labelled(s, KidFileInos(kids), KidFileHosts(es, k))
  }

  lemma LastKid(s: State, kids: seq<Kid>, parent: nat, es: seq<Entry>, k: nat)
    requires k < |es| && Kept(es[k]) && KidsRepresent(s, kids, parent, es, k + 1)
    ensures kids != []
    ensures KidsRepresent(s, kids[..|kids| - 1], parent, es, k)
    ensures Represents(s, kids[|kids| - 1].node, parent, es[k].node)
  {
    hide PlacedAt, Labelled, PlainOf, Erased, FileHosts, FileInos;
    var e := es[k];
    assert ErasedKids(kids) == PlainKids(es, k) + [PlainKid(Clipped(e.name), PlainOf(e.node))];
    assert kids != [];
    var front, last := kids[..|kids| - 1], kids[|kids| - 1];
    SnocEqual(ErasedKids(front), PlainKid(last.name, Erased(last.node)),
              PlainKids(es, k), PlainKid(Clipped(e.name), PlainOf(e.node)));
    PlacedKidFiles(front);
    HostKidFiles(es, k);
    LabelledSplit(s, KidFileInos(front), KidFileHosts(es, k), FileInos(last.node), FileHosts(e.node));
  }

  lemma {:induction false} KidsNeedIsUsed(s: State, image: Image, es: seq<Entry>, k: nat, kids: seq<Kid>, parent: nat,
                                          inos: set<nat>, hosts: set<nat>)
    requires Inv(s) && OnDisk(s, image) && OneEach(s) && Agree(s, inos, hosts)
    requires k <= |es| && KidsRepresent(s, kids, parent, es, k)
    ensures KidsNeed(es, k, hosts) == KidsUsed(image, kids, inos)
    decreases es, k
  {
    hide Inv, OnDisk, OneEach, Agree, Represents, Need, Used, PlacedAt, Labelled;
    if k == 0 {
    } else if Kept(es[k - 1]) {
      LastKid(s, kids, parent, es, k - 1);
      var front := kids[..|kids| - 1];
      KidsNeedIsUsed(s, image, es, k - 1, front, parent, inos, hosts);
      AgreeMore(s, inos, hosts, KidFileInos(front), KidFileHosts(es, k - 1));
      NeedIsUsed(s, image, es[k - 1].node, kids[|kids| - 1].node, parent, inos + InoSet(KidFileInos(front)),
                 hosts + KidFileSet(es, k - 1));
    } else {
      KidsNeedIsUsed(s, image, es, k - 1, kids, parent, inos, hosts);
    }
  }

  /** The whole image: what the host directory needs is what a reader counts from the root, whose inode was not
      allocated. */
  lemma {:induction false} RootAccount(s: State, image: Image, es: seq<Entry>, kids: seq<Kid>, root: nat)
    requires Inv(s) && OnDisk(s, image) && OneEach(s) && DirAt(s, root, kids, root)
    requires KidsRepresent(s, kids, root, es, |es|)
    ensures KidsNeed(es, |es|, {}) + Occupied(2 + KeptCount(es, |es|)) == Used(image, PlacedDir(root, kids), {}) - 1
  {
    hide Inv, OnDisk, OneEach, DirAt, PlacedAt, Labelled, Holds, Occupied, KidsNeed, KidsUsed;
    DirNode(s, image, root, kids, root);
    HostKidFiles(es, |es|);
    KidsNeedIsUsed(s, image, es, |es|, kids, root, {}, {});
  }
}
