/**
 The walk over the entries of a directory in lab8/tools/mksfs.c: what open_dir has built after some of the
 entries, when it gets that far, and what add_dir makes of the whole.
 */
module SfsWalk {
  import opened SfsLayout
  import opened SfsIndex
  import opened SfsState
  import opened SfsTree
  import opened SfsGrowth

  /** No cached directory has one of these host numbers. */
  ghost predicate Unvisited(s: State, dirs: set<nat>) {
    forall i :: i in s.inodes && s.inodes[i].inode.kind == TYPE_DIR ==> s.inodes[i].host !in dirs
  }

  /** The links of directory `cur` and of its parent after the entries `kids`: the directory has one from its
      own entry and one from each child directory, the parent one more. */
  ghost predicate Linked(a: State, b: State, cur: nat, par: nat, kids: seq<Kid>) {
    && cur in b.inodes && par in a.inodes && par in b.inodes
    && b.inodes[cur].inode.nlinks == (if par == cur then 2 else 1) + DirKids(kids)
    && (par != cur ==> b.inodes[par].inode.nlinks == (a.inodes[par].inode.nlinks + 1) % 65536)
  }

  function Gathered(es: seq<Entry>, k: nat, kids: seq<Kid>): Added
    requires k <= |es|
  {
    Added(KidFileInos(kids), KidOtherInos(kids), KidDirHosts(es, k), KidFileSet(es, k))
  }

  ghost predicate KidsPlaced(s: State, kids: seq<Kid>, parent: nat) {
    forall j :: 0 <= j < |kids| ==> PlacedAt(s, kids[j].node, parent)
  }

  /** Since `a`, the first `k` entries of the directory `cur` have been visited and have become `kids`. */
  ghost predicate Walked(a: State, b: State, cur: nat, par: nat, es: seq<Entry>, k: nat, kids: seq<Kid>) {
    && k <= |es| && |kids| == KeptCount(es, k) && cur < a.nextIno
    && Preserves(a, b, {cur}, {cur, par}) && Adds(a, b, Gathered(es, k, kids))
    && DirAt(b, cur, kids, par) && b.inodes[cur].nblks == 2 + |kids| && Linked(a, b, cur, par, kids)
    && KidsPlaced(b, kids, cur) && ErasedKids(kids) == PlainKids(es, k)
    && Labelled(b, KidFileInos(kids), KidFileHosts(es, k))
  }

  // ----- the first two entries

  /** A directory in which nothing has been put. */
  ghost predicate Blank(s: State, cur: nat) {
    && cur in s.inodes && cur in s.blks && s.inodes[cur].inode.kind == TYPE_DIR
    && s.inodes[cur].nblks == 0 && s.inodes[cur].inode.size == 0 && s.inodes[cur].inode.nlinks == 0 && s.blks[cur] == []
  }

  lemma OpenedPreserves(a: State, m: State, b: State, cur: nat, par: nat)
    requires EntryAdded(a, m, cur, cur, [DOT]) && EntryAdded(m, b, cur, par, [DOT, DOT])
    requires forall i :: i in a.inodes ==> i in a.blks
    ensures Preserves(a, m, {cur}, {cur, par}) && Preserves(m, b, {cur}, {cur, par})
    ensures Preserves(a, b, {cur}, {cur, par})
  {
    hide EntryAt, EntryInode;
    EntryPreserves(a, m, cur, cur, [DOT]);
    EntryPreserves(m, b, cur, par, [DOT, DOT]);
    PreservesMore(a, m, {cur}, {cur}, {cur}, {cur, par});
    PreservesMore(m, b, {cur}, {par}, {cur}, {cur, par});
    PreservesTrans(a, m, b, {cur}, {cur, par});
  }

  lemma OpenedAdds(a: State, m: State, b: State, cur: nat, par: nat)
    requires EntryAdded(a, m, cur, cur, [DOT]) && EntryAdded(m, b, cur, par, [DOT, DOT])
    requires FileCountsFit(a) && FileCountsFit(m)
    requires a.inodes[cur].inode.kind == TYPE_DIR && m.inodes[par].inode.kind == TYPE_DIR
    requires Preserves(a, m, {cur}, {cur, par}) && Preserves(m, b, {cur}, {cur, par})
    ensures Adds(a, b, Added([], [], {}, {}))
  {
    hide EntryAt, EntryInode, Adds, Preserves;
    EntryAdds(a, m, cur, cur, [DOT]);
    OtherEntryAdds(a, m, b, cur, par, [DOT, DOT], Added([], [], {}, {}), {cur, par});
  }

  lemma OpenedDir(a: State, m: State, b: State, cur: nat, par: nat)
    requires Blank(a, cur) && par in a.inodes
    requires EntryAdded(a, m, cur, cur, [DOT]) && EntryAdded(m, b, cur, par, [DOT, DOT])
    ensures DirAt(b, cur, [], par) && b.inodes[cur].nblks == 2
  {
    hide EntryIno, EntryName, Growth;
    assert Clipped([DOT]) == [DOT] && Clipped([DOT, DOT]) == [DOT, DOT];
    assert EntryInode(a.inodes[cur], m.inodes[cur], true, true);
    assert EntryInode(m.inodes[cur], b.inodes[cur], true, cur == par);
    assert b.blks[cur] == [a.nextIno, m.nextIno];
  }

  lemma OpenedLinks(a: State, m: State, b: State, cur: nat, par: nat)
    requires Blank(a, cur) && par in a.inodes
    requires EntryAdded(a, m, cur, cur, [DOT]) && EntryAdded(m, b, cur, par, [DOT, DOT])
    ensures Linked(a, b, cur, par, [])
  {
    hide EntryAt, Growth;
    assert EntryInode(a.inodes[cur], m.inodes[cur], true, true);
    assert EntryInode(m.inodes[cur], b.inodes[cur], true, cur == par);
    assert EntryInode(a.inodes[par], m.inodes[par], par == cur, par == cur);
    assert EntryInode(m.inodes[par], b.inodes[par], par == cur, true);
  }

  lemma Opened(a: State, m: State, b: State, cur: nat, par: nat, es: seq<Entry>)
    requires Blank(a, cur) && par in a.inodes && a.inodes[par].inode.kind == TYPE_DIR && cur < a.nextIno
    requires EntryAdded(a, m, cur, cur, [DOT]) && EntryAdded(m, b, cur, par, [DOT, DOT])
    requires FileCountsFit(a) && FileCountsFit(m) && (forall i :: i in a.inodes ==> i in a.blks)
    ensures Walked(a, b, cur, par, es, 0, [])
  {
    hide EntryAt, EntryAdded, Adds, DirAt;
    OpenedPreserves(a, m, b, cur, par);
    assert InodeKept(a, m, par, par == cur, true);
    OpenedAdds(a, m, b, cur, par);
    OpenedDir(a, m, b, cur, par);
    OpenedLinks(a, m, b, cur, par);
    assert KidFileSet(es, 0) == {};
  }

  // ----- one more entry

  lemma {:induction false} KidBelow(kids: seq<Kid>, j: nat, x: nat, lo: nat, hi: nat)
    requires j < |kids| && Increasing(KidOtherInos(kids), lo, hi) && x < lo
    ensures x !in OtherInos(kids[j].node)
  {
    if x in OtherInos(kids[j].node) {
      KidsContain(kids, j, x);
    }
  }

  /** The placements made so far stay in place while inodes that are older than they are change. */
  lemma {:induction false} KidsStay(s: State, b: State, kids: seq<Kid>, parent: nat, e: set<nat>, n: set<nat>,
                                    lo: nat, hi: nat)
    requires KidsPlaced(s, kids, parent) && Preserves(s, b, e, n) && Increasing(KidOtherInos(kids), lo, hi)
    requires forall i :: i in e || i in n ==> i in s.inodes && s.inodes[i].inode.kind == TYPE_DIR && i < lo
    ensures KidsPlaced(b, kids, parent)
  {
    hide PlacedAt, Preserves, Increasing;
    forall j | 0 <= j < |kids|
      ensures PlacedAt(b, kids[j].node, parent)
    {
      forall i | i in e || i in n
        ensures i !in OtherInos(kids[j].node)
      {
        KidBelow(kids, j, i, lo, hi);
      }
      PlacedFrame(s, b, kids[j].node, parent, e, n);
    }
  }

  lemma DirExtended(s: State, b: State, cur: nat, par: nat, kids: seq<Kid>, name: Bytes, p: Placed, more: nat)
    requires DirAt(s, cur, kids, par) && OneMore(s, b, cur, p.ino, name, more)
    requires forall x :: x in s.image ==> x in b.image && b.image[x] == s.image[x]
    requires b.inodes[cur].inode.kind == TYPE_DIR
    ensures DirAt(b, cur, kids + [Kid(Clipped(name), p)], par)
  {
    hide EntryIno, EntryName;
    var all := kids + [Kid(Clipped(name), p)];
    forall k | 0 <= k < 2 + |kids|
      ensures b.blks[cur][k] == s.blks[cur][k]
    {
      assert b.blks[cur][..|s.blks[cur]|][k] == s.blks[cur][k];
    }
    forall k | 0 <= k < |all|
      ensures EntryAt(b.image, b.blks[cur][2 + k], all[k].node.ino, all[k].name)
    {
      if k < |kids| {
        assert EntryAt(s.image, s.blks[cur][2 + k], kids[k].node.ino, kids[k].name);
      }
    }
  }

  lemma GatheredMore(es: seq<Entry>, k: nat, kids: seq<Kid>, name: Bytes, p: Placed)
    requires k < |es| && Kept(es[k])
    ensures Both(Gathered(es, k, kids), Brings(es[k].node, p)) == Gathered(es, k + 1, kids + [Kid(name, p)])
  {
    KidAdded(kids, Kid(name, p));
    assert KidFileSet(es, k + 1) == KidFileSet(es, k) + FileSet(es[k].node);
  }

  lemma LinkedMore(a: State, s: State, b: State, cur: nat, par: nat, kids: seq<Kid>, kid: Kid, more: nat)
    requires Linked(a, s, cur, par, kids) && Preserves(s, b, {cur}, {cur}) && s.inodes[par].inode.kind == TYPE_DIR
    requires more == (if kid.node.PlacedDir? then 1 else 0) && |kids| < LN_NBLKS
    requires b.inodes[cur].inode.nlinks == (s.inodes[cur].inode.nlinks + more) % 65536
    ensures Linked(a, b, cur, par, kids + [kid])
  {
    KidAdded(kids, kid);
    assert InodeKept(s, b, par, par == cur, par == cur);
    assert InodeKept(s, b, cur, true, true);
  }

  lemma WalkedMore(a: State, s: State, b: State, cur: nat, par: nat, es: seq<Entry>, k: nat, kids: seq<Kid>, p: Placed)
    requires Walked(a, s, cur, par, es, k, kids) && k < |es| && Kept(es[k]) && |kids| < LN_NBLKS
    requires par in a.inodes && a.inodes[par].inode.kind == TYPE_DIR && Visited(s, b, cur, es[k].name, es[k].node, p)
    ensures Walked(a, b, cur, par, es, k + 1, kids + [Kid(Clipped(es[k].name), p)])
  {
    hide PlacedAt, DirAt, Adds, Labelled, Preserves, KidsPlaced, Linked, Gathered, Brings, PlainOf;
    hide DirHosts, FileHosts, EntryAt;
    var n, name, kid := es[k].node, es[k].name, Kid(Clipped(es[k].name), p);
    WalkedPreserves(a, s, b, cur, par, kids);
    AddsTrans(a, s, b, Gathered(es, k, kids), Brings(n, p), {cur}, {cur, par});
    GatheredMore(es, k, kids, Clipped(name), p);
    ImageKept(s, b, {cur}, {cur});
    DirExtended(s, b, cur, par, kids, name, p, if n.Dir? then 1 else 0);
    PlacedKind(p, n);
    LinkedMore(a, s, b, cur, par, kids, kid, if n.Dir? then 1 else 0);
    OthersIncreasing(a, s, es, k, kids);
    KidsStay(s, b, kids, cur, {cur}, {cur}, a.nextIno, s.nextIno);
    KidsPlacedMore(b, kids, kid, cur);
    KidAdded(kids, kid);
    LabelledFrame(s, b, KidFileInos(kids), KidFileHosts(es, k), {cur}, {cur});
    LabelledConcat(b, KidFileInos(kids), KidFileHosts(es, k), FileInos(p), FileHosts(n));
  }

  lemma {:induction false} PlacedKind(p: Placed, n: Node)
    requires Erased(p) == PlainOf(n)
    ensures p.PlacedDir? <==> n.Dir?
  {
  }

  lemma ImageKept(s: State, b: State, e: set<nat>, n: set<nat>)
    requires Preserves(s, b, e, n)
    ensures forall x :: x in s.image ==> x in b.image && b.image[x] == s.image[x]
  {
  }

  lemma {:induction false} OthersIncreasing(a: State, s: State, es: seq<Entry>, k: nat, kids: seq<Kid>)
    requires k <= |es| && Adds(a, s, Gathered(es, k, kids))
    ensures Increasing(KidOtherInos(kids), a.nextIno, s.nextIno)
  {
  }

  lemma WalkedPreserves(a: State, s: State, b: State, cur: nat, par: nat, kids: seq<Kid>)
    requires Preserves(a, s, {cur}, {cur, par}) && Preserves(s, b, {cur}, {cur}) && DirAt(s, cur, kids, par)
    requires par in a.inodes && a.inodes[par].inode.kind == TYPE_DIR
    ensures Preserves(s, b, {cur}, {cur, par}) && Preserves(a, b, {cur}, {cur, par})
    ensures cur in s.inodes && par in s.inodes && cur in b.inodes
    ensures s.inodes[cur].inode.kind == TYPE_DIR && b.inodes[cur].inode.kind == TYPE_DIR
    ensures s.inodes[par].inode.kind == TYPE_DIR
  {
    PreservesMore(s, b, {cur}, {cur}, {cur}, {cur, par});
    PreservesTrans(a, s, b, {cur}, {cur, par});
    assert InodeKept(a, s, par, par == cur, true);
    assert InodeKept(s, b, cur, true, true);
  }

  lemma {:induction false} KidsPlacedMore(b: State, kids: seq<Kid>, kid: Kid, parent: nat)
    requires KidsPlaced(b, kids, parent) && PlacedAt(b, kid.node, parent)
    ensures KidsPlaced(b, kids + [kid], parent)
  {
    hide PlacedAt;
  }

  /** An entry that is skipped leaves things as they are. */
  lemma WalkedOver(a: State, b: State, cur: nat, par: nat, es: seq<Entry>, k: nat, kids: seq<Kid>)
    requires Walked(a, b, cur, par, es, k, kids) && k < |es| && !Kept(es[k])
    ensures Walked(a, b, cur, par, es, k + 1, kids)
  {
    hide PlacedAt, DirAt, Adds, Labelled, Preserves, KidsPlaced, Linked;
    assert KidFileSet(es, k + 1) == KidFileSet(es, k);
    assert Gathered(es, k + 1, kids) == Gathered(es, k, kids);
  }

  // ----- how far the walk gets

  /** The blocks that the first `k` entries of a directory take, together with the directory's own. */
  ghost function Walk(a: State, es: seq<Entry>, k: nat): nat
    requires k <= |es|
  {
    KidsNeed(es, k, CachedFiles(a)) + Occupied(2 + KeptCount(es, k))
  }

  ghost predicate CanWalk(a: State, es: seq<Entry>, k: nat)
    requires k <= |es|
  {
    2 + KeptCount(es, k) <= LN_NBLKS && KidsFit(es, k) && a.unused >= Walk(a, es, k)
  }

  lemma WalkStart(a: State, es: seq<Entry>)
    ensures Walk(a, es, 0) == 2 && (CanWalk(a, es, 0) <==> a.unused >= 2)
  {
  }

  lemma WalkStep(a: State, s: State, cur: nat, es: seq<Entry>, k: nat)
    requires k < |es| && CanWalk(a, es, k) && cur in s.inodes && s.inodes[cur].nblks == 2 + KeptCount(es, k)
    requires CachedFiles(s) == CachedFiles(a) + KidFileSet(es, k) && s.unused == a.unused - Walk(a, es, k)
    ensures Kept(es[k]) ==> Walk(a, es, k + 1) == Walk(a, es, k) + Cost(s, cur, es[k].node)
    ensures !Kept(es[k]) ==> Walk(a, es, k + 1) == Walk(a, es, k)
    ensures CanWalk(a, es, k + 1) <==>
      (Hidden(es[k]) || (|es[k].name| <= MAX_FNAME && (Kept(es[k]) ==> CanVisit(s, cur, es[k].name, es[k].node))))
  {
    hide CachedFiles, Occupied, Growth, Need, Fits, KidFileSet;
    var c := KeptCount(es, k);
    if Kept(es[k]) {
      OccupiedGrows(2 + c);
      assert KidsNeed(es, k + 1, CachedFiles(a)) == KidsNeed(es, k, CachedFiles(a)) + Need(es[k].node, CachedFiles(s));
    }
  }

  lemma {:induction false} CanWalkBefore(a: State, es: seq<Entry>, k: nat, m: nat)
    requires k <= m <= |es| && CanWalk(a, es, m)
    ensures CanWalk(a, es, k)
    decreases m
  {
    if k == m {
    } else {
      OccupiedMonotone(2 + KeptCount(es, m - 1), 2 + KeptCount(es, m));
      CanWalkBefore(a, es, k, m - 1);
    }
  }

  // ----- directories are visited once

  lemma {:induction false} KidDirsGrow(es: seq<Entry>, k: nat, m: nat)
    requires k <= m <= |es|
    ensures KidDirHosts(es, k) <= KidDirHosts(es, m)
    decreases m
  {
    if k == m {
    } else {
      KidDirsGrow(es, k, m - 1);
    }
  }

  lemma {:induction false} KidWellFormed(es: seq<Entry>, k: nat, m: nat, t: Hosts)
    requires k < m <= |es| && KidsWellFormed(es, m, t) && Kept(es[k])
    ensures 0 !in es[k].name && WellFormed(es[k].node, t) && DirHosts(es[k].node) !! KidDirHosts(es, k)
    decreases m
  {
    if k == m - 1 {
    } else {
      KidWellFormed(es, k, m - 1, t);
    }
  }

  lemma {:induction false} NextUnvisited(a: State, s: State, cur: nat, par: nat, es: seq<Entry>, k: nat,
                                         kids: seq<Kid>, t: Hosts)
    requires Walked(a, s, cur, par, es, k, kids) && k < |es| && Kept(es[k]) && KidsWellFormed(es, |es|, t)
    requires Unvisited(a, KidDirHosts(es, |es|))
    ensures Unvisited(s, DirHosts(es[k].node))
  {
    hide KidsWellFormed, DirAt, KidsPlaced, Linked, Labelled, PlainKids, KidFileInos, KidOtherInos;
    KidDirsGrow(es, k + 1, |es|);
    KidWellFormed(es, k, |es|, t);
    var d := DirHosts(es[k].node);
    assert d <= KidDirHosts(es, k + 1);
    forall i | i in s.inodes && s.inodes[i].inode.kind == TYPE_DIR
      ensures s.inodes[i].host !in d
    {
      if i in a.inodes {
        assert InodeKept(a, s, i, i in {cur}, i in {cur, par});
      }
    }
  }

  lemma {:induction false} Progress(a: State, s: State, cur: nat, par: nat, es: seq<Entry>, k: nat, kids: seq<Kid>)
    requires Walked(a, s, cur, par, es, k, kids)
    ensures k <= |es| && cur in s.inodes && s.inodes[cur].nblks == 2 + KeptCount(es, k) && |kids| == KeptCount(es, k)
    ensures CachedFiles(s) == CachedFiles(a) + KidFileSet(es, k)
  {
    hide CachedFiles;
  }

  // ----- a directory as an entry of its parent

  lemma DirPreserves(a: State, b: State, c: State, d: State, cur: nat, i: nat, name: Bytes)
    requires Preserves(a, b, {}, {}) && Preserves(b, c, {i}, {i, cur}) && EntryAdded(c, d, cur, i, name)
    requires i !in a.inodes
    requires forall j :: j in c.inodes ==> j in c.blks
    ensures Preserves(a, b, {cur, i}, {cur, i}) && Preserves(b, c, {cur, i}, {cur, i})
    ensures Preserves(c, d, {cur, i}, {cur, i})
    ensures Preserves(a, c, {cur, i}, {cur, i}) && Preserves(a, d, {cur}, {cur}) && Preserves(c, d, {cur}, {i})
  {
    hide EntryAdded;
    EntryPreserves(c, d, cur, i, name);
    PreservesMore(a, b, {}, {}, {cur, i}, {cur, i});
    PreservesMore(b, c, {i}, {i, cur}, {cur, i}, {cur, i});
    PreservesMore(c, d, {cur}, {i}, {cur, i}, {cur, i});
    PreservesTrans(a, b, c, {cur, i}, {cur, i});
    PreservesTrans(a, c, d, {cur, i}, {cur, i});
    PreservesMore(a, d, {cur, i}, {cur, i}, {cur}, {cur});
  }

  lemma DirBrings(n: Node, i: nat, kids: seq<Kid>)
    requires n.Dir?
    ensures Both(Added([], [i], {n.host}, {}), Gathered(n.entries, |n.entries|, kids)) == Brings(n, PlacedDir(i, kids))
  {
    var g := Gathered(n.entries, |n.entries|, kids);
    assert [] + g.files == g.files;
    assert {} + g.hosts == g.hosts;
    assert FileSet(n) == KidFileSet(n.entries, |n.entries|);
  }

  lemma DirAdds(a: State, b: State, c: State, d: State, cur: nat, i: nat, name: Bytes, n: Node, kids: seq<Kid>)
    requires n.Dir? && Adds(a, b, Added([], [i], {n.host}, {})) && Adds(b, c, Gathered(n.entries, |n.entries|, kids))
    requires EntryAdded(c, d, cur, i, name) && FileCountsFit(c) && c.inodes[i].inode.kind == TYPE_DIR
    requires Preserves(a, b, {cur, i}, {cur, i}) && Preserves(b, c, {cur, i}, {cur, i})
    requires Preserves(a, c, {cur, i}, {cur, i}) && Preserves(c, d, {cur, i}, {cur, i})
    ensures Adds(a, d, Brings(n, PlacedDir(i, kids)))
  {
    hide EntryAdded, Preserves, Adds, Gathered, Brings;
    var e: Added := Added([], [i], {n.host}, {});
    AddsTrans(a, b, c, e, Gathered(n.entries, |n.entries|, kids), {cur, i}, {cur, i});
    DirBrings(n, i, kids);
    EntryAdds(c, d, cur, i, name);
    var none: Added := Added([], [], {}, {});
    var all := Brings(n, PlacedDir(i, kids));
    AddsTrans(a, c, d, all, none, {cur, i}, {cur, i});
    assert all.files + [] == all.files && all.others + [] == all.others;
    assert Both(all, none) == all;
  }

  lemma DirStays(c: State, d: State, cur: nat, i: nat, name: Bytes, kids: seq<Kid>)
    requires DirAt(c, i, kids, cur) && EntryAdded(c, d, cur, i, name) && i != cur
    ensures DirAt(d, i, kids, cur)
    ensures d.inodes[i].inode.nlinks == (c.inodes[i].inode.nlinks + 1) % 65536
  {
    hide EntryIno, EntryName;
    assert EntryInode(c.inodes[i], d.inodes[i], false, true);
    forall k | 0 <= k < |kids|
      ensures EntryAt(d.image, d.blks[i][2 + k], kids[k].node.ino, kids[k].name)
    {
      assert EntryAt(c.image, c.blks[i][2 + k], kids[k].node.ino, kids[k].name);
    }
  }

  lemma {:induction false} DirPlaced(b: State, c: State, d: State, cur: nat, i: nat, name: Bytes, kids: seq<Kid>)
    requires DirAt(c, i, kids, cur) && KidsPlaced(c, kids, i) && EntryAdded(c, d, cur, i, name) && i != cur
    requires Increasing(KidOtherInos(kids), b.nextIno, c.nextIno) && cur < b.nextIno && i < b.nextIno
    requires Preserves(c, d, {cur}, {i}) && cur in c.inodes && c.inodes[cur].inode.kind == TYPE_DIR
    requires c.inodes[i].inode.nlinks == 1 + DirKids(kids) && |kids| < LN_NBLKS
    ensures PlacedAt(d, PlacedDir(i, kids), cur)
  {
    hide EntryAdded, Preserves, Increasing, PlacedAt, KidsPlaced, DirAt;
    DirIsThere(c, i, kids, cur);
    DirStays(c, d, cur, i, name, kids);
    KidsStay(c, d, kids, i, {cur}, {i}, b.nextIno, c.nextIno);
    DirAssembled(d, i, kids, cur);
  }

  lemma {:induction false} DirAssembled(s: State, i: nat, kids: seq<Kid>, parent: nat)
    requires DirAt(s, i, kids, parent) && KidsPlaced(s, kids, i) && s.inodes[i].inode.nlinks == 2 + DirKids(kids)
    ensures PlacedAt(s, PlacedDir(i, kids), parent)
  {
    hide DirAt;
  }

  /** The parent has gained an entry and, from the directory's own entry for it, a link. */
  lemma DirOneMore(a: State, b: State, c: State, d: State, cur: nat, i: nat, name: Bytes)
    requires Preserves(a, b, {}, {}) && Preserves(b, c, {i}, {i, cur}) && EntryAdded(c, d, cur, i, name) && i != cur
    requires cur in a.inodes && cur in b.inodes && cur in c.inodes && a.inodes[cur].inode.kind == TYPE_DIR
    requires c.inodes[cur].inode.nlinks == (b.inodes[cur].inode.nlinks + 1) % 65536 && FileCountsFit(c)
    ensures OneMore(a, d, cur, i, name, 1)
  {
    hide EntryAt;
    EntryOneMore(c, d, cur, i, name);
    assert InodeKept(a, b, cur, false, false);
    assert InodeKept(b, c, cur, false, true);
  }

  /** add_dir as a whole: the inode `i` is new in `b`, `c` is the state after open_dir. */
  lemma DirVisited(a: State, b: State, c: State, d: State, cur: nat, i: nat, name: Bytes, n: Node, kids: seq<Kid>)
    requires n.Dir? && cur in a.inodes && a.inodes[cur].inode.kind == TYPE_DIR && cur < a.nextIno
    requires InodeAdded(a, b, i, n.host, TYPE_DIR) && FileCountsFit(a) && (forall j :: j in a.inodes ==> j in a.blks)
    requires Walked(b, c, i, cur, n.entries, |n.entries|, kids) && |kids| < LN_NBLKS
    requires FileCountsFit(c) && (forall j :: j in c.inodes ==> j in c.blks) && EntryAdded(c, d, cur, i, name)
    ensures Visited(a, d, cur, name, n, PlacedDir(i, kids))
  {
    hide PlacedAt, DirAt, Adds, Labelled, Preserves, KidsPlaced, Gathered, Brings, EntryAdded, OneMore, FileCountsFit;
    hide KeptCount, PlainKids, KidFileHosts, KidFileInos, KidOtherInos;
    InodePreserves(a, b, i, n.host, TYPE_DIR);
    InodeAdds(a, b, i, n.host, TYPE_DIR);
    DirPreserves(a, b, c, d, cur, i, name);
    DirIsThere(c, i, kids, cur);
    DirAdds(a, b, c, d, cur, i, name, n, kids);
    OthersIncreasing(b, c, n.entries, |n.entries|, kids);
    ParentKind(b, c, i, cur);
    DirPlaced(b, c, d, cur, i, name, kids);
    DirOneMore(a, b, c, d, cur, i, name);
    LabelledFrame(c, d, KidFileInos(kids), KidFileHosts(n.entries, |n.entries|), {cur}, {i});
  }

  lemma DirIsThere(c: State, i: nat, kids: seq<Kid>, par: nat)
    requires DirAt(c, i, kids, par)
    ensures i in c.inodes && c.inodes[i].inode.kind == TYPE_DIR
  {
  }

  lemma ParentKind(b: State, c: State, i: nat, cur: nat)
    requires Preserves(b, c, {i}, {i, cur}) && cur in b.inodes && b.inodes[cur].inode.kind == TYPE_DIR
    ensures cur in c.inodes && c.inodes[cur].inode.kind == TYPE_DIR
  {
    assert InodeKept(b, c, cur, cur == i, true);
  }
}
