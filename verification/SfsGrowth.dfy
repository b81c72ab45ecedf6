/**
 How the state of lab8/tools/mksfs.c grows while a directory is walked: what is kept of the objects that are
 already in place, what the new ones add, and that such steps compose.
 */
module SfsGrowth {
  import opened Common
  import opened SfsLayout
  import opened SfsIndex
  import opened SfsState
  import opened SfsAppend
  import opened SfsTree

  // ----- what is kept

  /** Inodes outside `e` keep their size and blocks, and directories and symbolic links outside `n` their link
      count; nothing written is lost. */
  ghost predicate Preserves(a: State, b: State, e: set<nat>, n: set<nat>) {
    && b.ninos == a.ninos && a.nextIno <= b.nextIno
    && (forall i :: i in a.inodes ==> i in b.inodes && InodeKept(a, b, i, i in e, i in n))
    && (forall x :: x in a.image ==> x in b.image && b.image[x] == a.image[x])
  }

  ghost predicate InodeKept(a: State, b: State, i: nat, open: bool, linked: bool)
    requires i in a.inodes && i in b.inodes
  {
    && b.inodes[i].host == a.inodes[i].host && b.inodes[i].inode.kind == a.inodes[i].inode.kind
    && i in a.blks && i in b.blks
    && (!open ==> b.inodes[i].inode.size == a.inodes[i].inode.size && b.blks[i] == a.blks[i] &&
                  b.inodes[i].nblks == a.inodes[i].nblks)
    && (!linked && a.inodes[i].inode.kind != TYPE_FILE ==> b.inodes[i].inode.nlinks == a.inodes[i].inode.nlinks)
  }

  lemma PreservesTrans(a: State, b: State, c: State, e: set<nat>, n: set<nat>)
    requires Preserves(a, b, e, n) && Preserves(b, c, e, n)
    ensures Preserves(a, c, e, n)
  {
    forall i | i in a.inodes
      ensures i in c.inodes && InodeKept(a, c, i, i in e, i in n)
    {
      assert InodeKept(a, b, i, i in e, i in n) && InodeKept(b, c, i, i in e, i in n);
    }
  }

  lemma PreservesMore(a: State, b: State, e: set<nat>, n: set<nat>, e': set<nat>, n': set<nat>)
    requires Preserves(a, b, e, n)
    requires forall i :: i in a.inodes && i in e ==> i in e'
    requires forall i :: i in a.inodes && i in n ==> i in n'
    ensures Preserves(a, b, e', n')
  {
    forall i | i in a.inodes
      ensures i in b.inodes && InodeKept(a, b, i, i in e', i in n')
    {
      assert InodeKept(a, b, i, i in e, i in n);
    }
  }

  /** The inodes in `e` are directories under construction, none of them part of the placement. */
  ghost predicate Apart(s: State, p: Placed, e: set<nat>) {
    forall i :: i in e ==> i in s.inodes && s.inodes[i].inode.kind == TYPE_DIR && i !in OtherInos(p)
  }

  /** What is in place stays in place. */
  lemma {:induction false} PlacedFrame(a: State, b: State, p: Placed, parent: nat, e: set<nat>, n: set<nat>)
    requires Preserves(a, b, e, n) && PlacedAt(a, p, parent) && Apart(a, p, e) && Apart(a, p, n)
    ensures PlacedAt(b, p, parent)
    decreases p
  {
    var i := p.ino;
    assert InodeKept(a, b, i, i in e, i in n);
    match p
    case PlacedFile(_, _) =>
    case PlacedLink(_, _) =>
    case PlacedDir(_, kids) =>
      forall k | 0 <= k < |kids|
        ensures PlacedAt(b, kids[k].node, i)
      {
        forall x | x in e || x in n
          ensures x !in OtherInos(kids[k].node)
        {
          if x in OtherInos(kids[k].node) {
            KidsContain(kids, k, x);
          }
        }
        PlacedFrame(a, b, kids[k].node, i, e, n);
      }
  }

  // ----- what is added

  function LinksOf(s: State, i: nat): nat {
    if i in s.inodes then s.inodes[i].inode.nlinks else 0
  }

  /** The link count of every file has risen by the number of its occurrences in `files`. */
  ghost predicate FileLinks(a: State, b: State, files: seq<nat>) {
    forall i :: i in b.inodes && b.inodes[i].inode.kind == TYPE_FILE ==>
      b.inodes[i].inode.nlinks == (LinksOf(a, i) + multiset(files)[i]) % 65536
  }

  lemma FileLinksTrans(a: State, b: State, c: State, f: seq<nat>, g: seq<nat>)
    requires FileLinks(a, b, f) && FileLinks(b, c, g)
    requires forall i :: i in a.inodes ==> i in b.inodes
    requires forall i :: i in b.inodes ==> i in c.inodes && c.inodes[i].inode.kind == b.inodes[i].inode.kind
    requires forall i :: i in f ==> i in b.inodes
    ensures FileLinks(a, c, f + g)
  {
    forall i | i in c.inodes && c.inodes[i].inode.kind == TYPE_FILE
      ensures c.inodes[i].inode.nlinks == (LinksOf(a, i) + multiset(f + g)[i]) % 65536
    {
      assert multiset(f + g)[i] == multiset(f)[i] + multiset(g)[i];
      if i !in b.inodes {
        assert i !in f && multiset(f)[i] == 0;
      }
      AddThenReduce(LinksOf(a, i) + multiset(f)[i], multiset(g)[i]);
    }
  }

  lemma AddThenReduce(x: nat, y: nat)
    ensures (x % 65536 + y) % 65536 == (x + y) % 65536
  {
  }

  /** Strictly increasing numbers from `lo` up to, not including, `hi`. */
  ghost predicate Increasing(xs: seq<nat>, lo: nat, hi: nat) {
    && (forall k :: 0 <= k < |xs| ==> lo <= xs[k] < hi)
    && (forall j, k :: 0 <= j < k < |xs| ==> xs[j] < xs[k])
  }

  lemma IncreasingConcat(xs: seq<nat>, ys: seq<nat>, lo: nat, mid: nat, hi: nat)
    requires Increasing(xs, lo, mid) && Increasing(ys, mid, hi) && lo <= mid <= hi
    ensures Increasing(xs + ys, lo, hi)
  {
  }

  /** The host numbers of the cached files. */
  ghost function CachedFiles(s: State): set<nat> {
    set i | i in s.inodes && s.inodes[i].inode.kind == TYPE_FILE :: s.inodes[i].host
  }

  /** The inodes `inos` are files with the host numbers `hosts`. */
  ghost predicate Labelled(s: State, inos: seq<nat>, hosts: seq<nat>) {
    && |inos| == |hosts|
    && forall k :: 0 <= k < |inos| ==>
         inos[k] in s.inodes && s.inodes[inos[k]].inode.kind == TYPE_FILE && s.inodes[inos[k]].host == hosts[k]
  }

  lemma LabelledConcat(s: State, f: seq<nat>, h: seq<nat>, g: seq<nat>, k: seq<nat>)
    requires Labelled(s, f, h) && Labelled(s, g, k)
    ensures Labelled(s, f + g, h + k)
  {
  }

  lemma LabelledFrame(a: State, b: State, inos: seq<nat>, hosts: seq<nat>, e: set<nat>, n: set<nat>)
    requires Labelled(a, inos, hosts) && Preserves(a, b, e, n)
    ensures Labelled(b, inos, hosts)
  {
    forall k | 0 <= k < |inos|
      ensures inos[k] in b.inodes && b.inodes[inos[k]].inode.kind == TYPE_FILE && b.inodes[inos[k]].host == hosts[k]
    {
      assert InodeKept(a, b, inos[k], inos[k] in e, inos[k] in n);
    }
  }

  /** The new objects: their files and other inodes in order, and the host numbers of their directories and
      files. */
  datatype Added = Added(files: seq<nat>, others: seq<nat>, dirs: set<nat>, hosts: set<nat>)

  ghost predicate Adds(a: State, b: State, d: Added) {
    && FileLinks(a, b, d.files) && (forall i :: i in d.files ==> i in b.inodes)
    && Increasing(d.others, a.nextIno, b.nextIno)
    && (forall i ::
          i in b.inodes && i !in a.inodes && b.inodes[i].inode.kind == TYPE_DIR ==> b.inodes[i].host in d.dirs)
    && CachedFiles(b) == CachedFiles(a) + d.hosts
  }

  function Both(d: Added, d': Added): Added {
    Added(d.files + d'.files, d.others + d'.others, d.dirs + d'.dirs, d.hosts + d'.hosts)
  }

  lemma AddsTrans(a: State, b: State, c: State, d: Added, d': Added, e: set<nat>, n: set<nat>)
    requires Preserves(a, b, e, n) && Preserves(b, c, e, n) && Adds(a, b, d) && Adds(b, c, d')
    ensures Adds(a, c, Both(d, d'))
  {
    forall i | i in b.inodes
      ensures i in c.inodes && c.inodes[i].inode.kind == b.inodes[i].inode.kind && c.inodes[i].host == b.inodes[i].host
    {
      assert InodeKept(b, c, i, i in e, i in n);
    }
    FileLinksTrans(a, b, c, d.files, d'.files);
    IncreasingConcat(d.others, d'.others, a.nextIno, b.nextIno, c.nextIno);
  }

  // ----- the objects and their host numbers

  function KindOf(o: Object): nat {
    match o
    case ADir => TYPE_DIR
    case AFile(_) => TYPE_FILE
    case ALink(_) => TYPE_LINK
  }

  /** Every file has a host number of its own. */
  ghost predicate OneEach(s: State) {
    forall i, j ::
      (i in s.inodes && s.inodes[i].inode.kind == TYPE_FILE && j in s.inodes && s.inodes[j].inode.kind == TYPE_FILE &&
       s.inodes[i].host == s.inodes[j].host) ==> i == j
  }

  /** Every cached inode stands for an object of the host, and every file for one of its own. */
  ghost predicate HostsOk(s: State, t: Hosts) {
    && 0 !in t && 0 !in s.inodes
    && BLKN_ROOT in s.inodes && s.inodes[BLKN_ROOT].host == 0 && s.inodes[BLKN_ROOT].inode.kind == TYPE_DIR
    && (forall i :: i in s.inodes && i != BLKN_ROOT ==>
          s.inodes[i].host in t && s.inodes[i].inode.kind == KindOf(t[s.inodes[i].host]))
    && OneEach(s)
  }

  /** Every cached file has the contents of its object. */
  ghost predicate FilesHold(s: State, t: Hosts) {
    forall i :: i in s.inodes && s.inodes[i].inode.kind == TYPE_FILE ==>
      s.inodes[i].host in t && t[s.inodes[i].host].AFile? && FileAt(s, i, t[s.inodes[i].host].data)
  }

  lemma FileAtFrame(a: State, b: State, i: nat, data: Bytes)
    requires i in a.inodes && i in b.inodes && InodeKept(a, b, i, false, false) && FileAt(a, i, data)
    requires forall x :: x in a.image ==> x in b.image && b.image[x] == a.image[x]
    ensures FileAt(b, i, data)
  {
  }

  /** Files keep their contents in a step that changes only directories; new files are those of `new`. */
  lemma FilesHoldFrame(a: State, b: State, t: Hosts, e: set<nat>, n: set<nat>, new': set<nat>)
    requires FilesHold(a, t) && Preserves(a, b, e, n)
    requires forall i :: i in e && i in a.inodes ==> a.inodes[i].inode.kind == TYPE_DIR
    requires forall i :: i in b.inodes && i !in a.inodes && b.inodes[i].inode.kind == TYPE_FILE ==> i in new'
    requires forall i :: i in new' && i in b.inodes ==>
      b.inodes[i].host in t && t[b.inodes[i].host].AFile? && FileAt(b, i, t[b.inodes[i].host].data)
    ensures FilesHold(b, t)
  {
    hide FileAt;
    forall i | i in b.inodes && b.inodes[i].inode.kind == TYPE_FILE
      ensures b.inodes[i].host in t && t[b.inodes[i].host].AFile? && FileAt(b, i, t[b.inodes[i].host].data)
    {
      if i in a.inodes {
        assert InodeKept(a, b, i, i in e, i in n);
        FileAtFrame(a, b, i, t[b.inodes[i].host].data);
      }
    }
  }

  /** The condition between the visits of two entries. */
  ghost predicate Tidy(s: State, t: Hosts) {
    Inv(s) && Settled(s) && HostsOk(s, t) && FilesHold(s, t)
  }

  // ----- entries

  /** Directory `cur` has gained an entry for `file`, whose link count has risen. */
  ghost predicate EntryAdded(a: State, b: State, cur: nat, file: nat, name: Bytes) {
    && cur in a.inodes && cur in a.blks && file in a.inodes && a.nextIno !in a.image
    && b.ninos == a.ninos && b.nextIno == a.nextIno + 1 + Growth(a.inodes[cur].nblks)
    && EntryAt(b.image, a.nextIno, file, Clipped(name)) && b.image == a.image[a.nextIno := b.image[a.nextIno]]
    && (forall i :: i in b.inodes <==> i in a.inodes)
    && b.blks == a.blks[cur := a.blks[cur] + [a.nextIno]]
    && (forall i :: i in a.inodes ==> EntryInode(a.inodes[i], b.inodes[i], i == cur, i == file))
  }

  ghost predicate EntryInode(m: CacheInode, n: CacheInode, grows: bool, linked: bool) {
    && n.host == m.host && n.inode.kind == m.inode.kind
    && n.nblks == m.nblks + (if grows then 1 else 0)
    && n.inode.size == m.inode.size + (if grows then 256 else 0)
    && n.inode.nlinks == if linked then (m.inode.nlinks + 1) % 65536 else m.inode.nlinks
  }

  lemma SmallIno(s: State, i: nat)
    requires Inv(s) && i in s.inodes
    ensures i < WORD32
  {
  }

  lemma EntryResult(s: State, t: State, cur: nat, file: nat, name: Bytes, bytes: Bytes)
    requires file in s.inodes && file in t.inodes && PutEffect(s, t, cur, bytes, 256)
    requires EntryIno(Padded(bytes)) == file && EntryName(Padded(bytes)) == Clipped(name)
    ensures EntryAdded(s, WithLink(t, file), cur, file, name)
  {
    hide EntryIno, EntryName, Padded, Clipped;
    var u := WithLink(t, file);
    forall i | i in s.inodes
      ensures i in u.inodes && EntryInode(s.inodes[i], u.inodes[i], i == cur, i == file)
    {
    }
  }

  // ----- file contents

  function Copied(data: Bytes, k: nat): nat {
    if BLKSIZE * k <= |data| then BLKSIZE * k else |data|
  }

  /** Since `a`, the first `k` chunks of `data` have been put into the empty file `f`, and nothing else has
      changed. */
  ghost predicate Filling(a: State, s: State, f: nat, data: Bytes, k: nat) {
    && k <= Chunks(|data|) && f in a.inodes && f in s.blks
    && s.ninos == a.ninos && s.nextIno == a.nextIno + Occupied(k)
    && (forall i :: i in s.inodes <==> i in a.inodes)
    && (forall i :: i in a.inodes && i != f ==> s.inodes[i] == a.inodes[i])
    && (forall i :: i in a.blks ==> i in s.blks && (i != f ==> s.blks[i] == a.blks[i]))
    && s.inodes[f].host == a.inodes[f].host && s.inodes[f].inode.kind == a.inodes[f].inode.kind
    && s.inodes[f].inode.nlinks == a.inodes[f].inode.nlinks
    && s.inodes[f].nblks == |s.blks[f]| == k && s.inodes[f].inode.size == Copied(data, k)
    && (forall x :: x in a.image ==> x in s.image && s.image[x] == a.image[x])
    && (forall j :: 0 <= j < k ==> s.blks[f][j] in s.image && s.image[s.blks[f][j]] == Padded(Chunk(data, j)))
    && (forall j :: 0 <= j < k ==> s.blks[f][j] == a.nextIno + Occupied(j))
  }

  lemma ChunkSize(data: Bytes, k: nat)
    requires k < Chunks(|data|)
    ensures Copied(data, k) + |Chunk(data, k)| == Copied(data, k + 1) && |Chunk(data, k)| > 0
    ensures |Chunk(data, k)| == BLKSIZE <==> BLKSIZE * (k + 1) <= |data|
    ensures k > 0 ==> |Chunk(data, k - 1)| == BLKSIZE
  {
  }

  lemma FillingStart(a: State, f: nat, data: Bytes)
    requires f in a.inodes && f in a.blks && a.inodes[f].nblks == 0 && a.blks[f] == [] && a.inodes[f].inode.size == 0
    ensures Filling(a, a, f, data, 0)
  {
    NothingOccupied();
  }

  lemma FillingSize(a: State, s: State, f: nat, data: Bytes, k: nat)
    requires Filling(a, s, f, data, k)
    ensures f in s.inodes && s.inodes[f].nblks == k
  {
  }

  lemma FillingStep(a: State, s: State, s': State, f: nat, data: Bytes, k: nat)
    requires Filling(a, s, f, data, k) && k < Chunks(|data|)
    requires PutEffect(s, s', f, Chunk(data, k), |Chunk(data, k)|)
    ensures Filling(a, s', f, data, k + 1)
  {
    ChunkSize(data, k);
    IndexBlocksGrow(k);
    forall j | 0 <= j < k + 1
      ensures s'.blks[f][j] in s'.image && s'.image[s'.blks[f][j]] == Padded(Chunk(data, j))
      ensures s'.blks[f][j] == a.nextIno + Occupied(j)
    {
      if j < k {
        assert s'.blks[f][j] == s.blks[f][j];
      }
    }
  }

  lemma FillingDone(a: State, s: State, f: nat, data: Bytes)
    requires Filling(a, s, f, data, Chunks(|data|)) && a.inodes[f].inode.kind == TYPE_FILE
    ensures FileAt(s, f, data)
  {
  }

  // ----- one entry of a directory

  /** The objects a host node brings. */
  function Brings(n: Node, p: Placed): Added {
    Added(FileInos(p), OtherInos(p), DirHosts(n), FileSet(n))
  }

  /** The placement `p` is in place, shows what `n` shows, and its files stand for those of `n`. */
  ghost predicate Represents(s: State, p: Placed, parent: nat, n: Node) {
    PlacedAt(s, p, parent) && Erased(p) == PlainOf(n) && Labelled(s, FileInos(p), FileHosts(n))
  }

  /** Directory `cur` has one more entry, for `ino`, and `more` more links. */
  ghost predicate OneMore(a: State, b: State, cur: nat, ino: nat, name: Bytes, more: nat) {
    && cur in a.inodes && cur in b.inodes && cur in a.blks && cur in b.blks && |b.blks[cur]| == |a.blks[cur]| + 1
    && b.blks[cur][..|a.blks[cur]|] == a.blks[cur]
    && EntryAt(b.image, b.blks[cur][|a.blks[cur]|], ino, Clipped(name))
    && b.inodes[cur].nblks == a.inodes[cur].nblks + 1
    && b.inodes[cur].inode.size == a.inodes[cur].inode.size + 256
    && b.inodes[cur].inode.nlinks == (a.inodes[cur].inode.nlinks + more) % 65536
  }

  /** The visit of the entry `name` for the node `n` has added the placement `p` to directory `cur`. */
  ghost predicate Visited(a: State, b: State, cur: nat, name: Bytes, n: Node, p: Placed) {
    && Preserves(a, b, {cur}, {cur}) && Adds(a, b, Brings(n, p)) && Represents(b, p, cur, n)
    && OneMore(a, b, cur, p.ino, name, if n.Dir? then 1 else 0)
  }

  /** add_entry as a step: `e` is the entry of the object that the entry names. */
  lemma EntryPreserves(a: State, b: State, cur: nat, file: nat, name: Bytes)
    requires EntryAdded(a, b, cur, file, name) && (forall i :: i in a.inodes ==> i in a.blks)
    ensures Preserves(a, b, {cur}, {file})
    ensures a.inodes[file].inode.kind == TYPE_FILE ==> Preserves(a, b, {cur}, {})
  {
    forall i | i in a.inodes
      ensures i in b.inodes && InodeKept(a, b, i, i == cur, i == file)
      ensures a.inodes[file].inode.kind == TYPE_FILE ==> InodeKept(a, b, i, i == cur, false)
    {
      assert EntryInode(a.inodes[i], b.inodes[i], i == cur, i == file);
    }
  }

  lemma EntryAdds(a: State, b: State, cur: nat, file: nat, name: Bytes)
    requires EntryAdded(a, b, cur, file, name) && FileCountsFit(a)
    ensures var f := if a.inodes[file].inode.kind == TYPE_FILE then [file] else [];
      Adds(a, b, Added(f, [], {}, {}))
  {
    hide EntryAt;
    assert forall i :: i in a.inodes ==> EntryInode(a.inodes[i], b.inodes[i], i == cur, i == file);
    EntryFileLinks(a, b, cur, file);
    assert CachedFiles(b) == CachedFiles(a);
  }

  lemma EntryFileLinks(a: State, b: State, cur: nat, file: nat)
    requires file in a.inodes && FileCountsFit(a) && (forall i :: i in b.inodes <==> i in a.inodes)
    requires forall i :: i in a.inodes ==> EntryInode(a.inodes[i], b.inodes[i], i == cur, i == file)
    ensures FileLinks(a, b, if a.inodes[file].inode.kind == TYPE_FILE then [file] else [])
  {
    var f: seq<nat> := if a.inodes[file].inode.kind == TYPE_FILE then [file] else [];
    forall i | i in b.inodes && b.inodes[i].inode.kind == TYPE_FILE
      ensures b.inodes[i].inode.nlinks == (LinksOf(a, i) + multiset(f)[i]) % 65536
    {
      assert EntryInode(a.inodes[i], b.inodes[i], i == cur, i == file);
    }
  }

  /** Link counts are 16-bit numbers. */
  ghost predicate FileCountsFit(s: State) {
    forall i :: i in s.inodes ==> s.inodes[i].inode.nlinks < 65536
  }

  lemma InvCounts(s: State)
    requires Inv(s)
    ensures FileCountsFit(s) && (forall i :: i in s.inodes ==> i in s.blks)
  {
    forall i | i in s.inodes
      ensures s.inodes[i].inode.nlinks < 65536
    {
      assert FileOk(s, i);
    }
  }

  lemma EntryOneMore(a: State, b: State, cur: nat, file: nat, name: Bytes)
    requires EntryAdded(a, b, cur, file, name) && FileCountsFit(a)
    ensures OneMore(a, b, cur, file, name, if file == cur then 1 else 0)
  {
    hide EntryAt;
    assert EntryInode(a.inodes[cur], b.inodes[cur], true, cur == file);
  }

  // ----- the objects are kept

  lemma HostsFrame(a: State, b: State, t: Hosts)
    requires HostsOk(a, t)
    requires forall i :: i in b.inodes <==> i in a.inodes
    requires forall i :: i in a.inodes ==>
      b.inodes[i].host == a.inodes[i].host && b.inodes[i].inode.kind == a.inodes[i].inode.kind
    ensures HostsOk(b, t)
  {
  }

  lemma EntryHosts(a: State, b: State, cur: nat, file: nat, name: Bytes, t: Hosts)
    requires EntryAdded(a, b, cur, file, name) && HostsOk(a, t)
    ensures HostsOk(b, t)
  {
    forall i | i in a.inodes
      ensures EntryInode(a.inodes[i], b.inodes[i], i == cur, i == file)
    {
    }
    HostsFrame(a, b, t);
  }

  /** A new inode for the host number `host`. */
  ghost predicate InodeAdded(a: State, b: State, i: nat, host: nat, kind: nat) {
    && i == a.nextIno && i !in a.inodes && b.ninos == a.ninos && b.nextIno == a.nextIno + 1
    && b.image == a.image && b.inodes == a.inodes[i := FreshInode(host, kind)] && b.blks == a.blks[i := []]
  }

  lemma InodeAddedBy(s: State, host: nat, kind: nat)
    requires Inv(s) && s.unused >= 1 && |s.inodeChains| == HASH_LIST_SIZE
    ensures InodeAdded(s, WithInode(s, host, kind), s.nextIno, host, kind)
    ensures Settled(s) ==> Settled(WithInode(s, host, kind))
  {
    NextUnused(s, 0);
    InodeConserved(s, host, kind);
  }

  lemma InodeConserved(s: State, host: nat, kind: nat)
    requires s.unused >= 1 && |s.inodeChains| == HASH_LIST_SIZE && s.nextIno !in s.inodes && s.nextIno < s.ninos
    ensures Conserved(s) ==> Conserved(WithInode(s, host, kind))
  {
    HandedChange(s.inodes, WithInode(s, host, kind).inodes, s.nextIno, s.ninos);
    NothingOccupied();
  }

  lemma LinkConserved(s: State, i: nat)
    requires i in s.inodes
    ensures Settled(s) ==> Settled(WithLink(s, i))
  {
    HandedChange(s.inodes, WithLink(s, i).inodes, i, s.ninos);
  }

  lemma InodePreserves(a: State, b: State, i: nat, host: nat, kind: nat)
    requires InodeAdded(a, b, i, host, kind) && (forall j :: j in a.inodes ==> j in a.blks)
    ensures Preserves(a, b, {}, {})
  {
    forall j | j in a.inodes
      ensures j in b.inodes && InodeKept(a, b, j, false, false)
    {
    }
  }

  lemma InodeAdds(a: State, b: State, i: nat, host: nat, kind: nat)
    requires InodeAdded(a, b, i, host, kind) && FileCountsFit(a) && 1 <= kind <= 3
    ensures Adds(a, b, Added([], if kind == TYPE_FILE then [] else [i], if kind == TYPE_DIR then {host} else {},
                             if kind == TYPE_FILE then {host} else {}))
  {
    var f := if kind == TYPE_FILE then {host} else {};
    forall h
      ensures h in CachedFiles(b) <==> h in CachedFiles(a) + f
    {
      if h in CachedFiles(a) {
        var j :| j in a.inodes && a.inodes[j].inode.kind == TYPE_FILE && a.inodes[j].host == h;
        assert j in b.inodes && b.inodes[j] == a.inodes[j];
      }
      if kind == TYPE_FILE {
        assert i in b.inodes && b.inodes[i].inode.kind == TYPE_FILE && b.inodes[i].host == host;
      }
    }
    assert CachedFiles(b) == CachedFiles(a) + f;
  }

  lemma InodeHosts(a: State, b: State, i: nat, host: nat, kind: nat, t: Hosts)
    requires InodeAdded(a, b, i, host, kind) && HostsOk(a, t) && host in t && kind == KindOf(t[host])
    requires i != 0 && (kind == TYPE_FILE ==> host !in CachedFiles(a))
    ensures HostsOk(b, t)
  {
    assert forall m :: m in a.inodes && a.inodes[m].inode.kind == TYPE_FILE ==> a.inodes[m].host in CachedFiles(a);
  }

  // ----- visiting a file

  /** Nothing is added to a state that has the file already. */
  lemma AddsNothing(a: State, host: nat)
    requires FileCountsFit(a) && host in CachedFiles(a)
    ensures Adds(a, a, Added([], [], {}, {host}))
  {
  }

  lemma PreservesSelf(a: State)
    requires forall i :: i in a.inodes ==> i in a.blks
    ensures Preserves(a, a, {}, {})
  {
    assert forall i :: i in a.inodes ==> InodeKept(a, a, i, false, false);
  }

  /** A new file: the inode is allocated and filled. */
  lemma FileMade(a: State, b: State, c: State, f: nat, host: nat, data: Bytes)
    requires InodeAdded(a, b, f, host, TYPE_FILE) && Filling(b, c, f, data, Chunks(|data|)) && FileCountsFit(a)
    requires forall i :: i in a.inodes ==> i in a.blks
    ensures Preserves(a, c, {}, {}) && FileAt(c, f, data)
    ensures Adds(a, c, Added([], [], {}, {host})) && c.inodes[f].host == host
  {
    hide Chunk, Padded;
    FillingDone(b, c, f, data);
    forall i | i in a.inodes
      ensures i in c.inodes && InodeKept(a, c, i, false, false)
    {
      assert b.inodes[i] == a.inodes[i] && c.inodes[i] == b.inodes[i];
    }
    MadeAdds(a, b, c, f, host, TYPE_FILE);
  }

  lemma SameFiles(b: State, c: State)
    requires forall i :: i in c.inodes <==> i in b.inodes
    requires forall i :: i in b.inodes ==>
      c.inodes[i].host == b.inodes[i].host && c.inodes[i].inode.kind == b.inodes[i].inode.kind
    ensures CachedFiles(c) == CachedFiles(b)
  {
  }

  lemma FileHostsAndData(a: State, b: State, c: State, f: nat, host: nat, data: Bytes, t: Hosts)
    requires InodeAdded(a, b, f, host, TYPE_FILE) && Filling(b, c, f, data, Chunks(|data|))
    requires HostsOk(a, t) && FilesHold(a, t) && host in t && t[host] == AFile(data) && host !in CachedFiles(a)
    requires f != 0 && FileAt(c, f, data) && Preserves(a, c, {}, {})
    ensures HostsOk(c, t) && FilesHold(c, t)
  {
    hide FileAt, Chunk, Padded, HostsOk, FilesHold, Preserves;
    InodeHosts(a, b, f, host, TYPE_FILE, t);
    HostsFrame(b, c, t);
    FilesHoldFrame(a, c, t, {}, {}, {f});
  }

  lemma FileEntryPreserves(a: State, c: State, d: State, cur: nat, f: nat, name: Bytes)
    requires Preserves(a, c, {}, {}) && EntryAdded(c, d, cur, f, name) && c.inodes[f].inode.kind == TYPE_FILE
    requires forall i :: i in c.inodes ==> i in c.blks
    ensures Preserves(a, c, {cur}, {cur}) && Preserves(c, d, {cur}, {cur}) && Preserves(a, d, {cur}, {cur})
  {
    hide EntryAdded;
    EntryPreserves(c, d, cur, f, name);
    PreservesMore(a, c, {}, {}, {cur}, {cur});
    PreservesMore(c, d, {cur}, {}, {cur}, {cur});
    PreservesTrans(a, c, d, {cur}, {cur});
  }

  lemma FileEntryAdds(a: State, c: State, d: State, cur: nat, f: nat, name: Bytes, n: Node)
    requires n.File? && Adds(a, c, Added([], [], {}, {n.host})) && EntryAdded(c, d, cur, f, name) && FileCountsFit(c)
    requires c.inodes[f].inode.kind == TYPE_FILE && Preserves(a, c, {cur}, {cur}) && Preserves(c, d, {cur}, {cur})
    ensures Adds(a, d, Brings(n, PlacedFile(f, n.data)))
  {
    hide EntryAdded, Preserves, Adds;
    var e: Added := Added([f], [], {}, {});
    EntryAdds(c, d, cur, f, name);
    AddsTrans(a, c, d, Added([], [], {}, {n.host}), e, {cur}, {cur});
    assert [] + [f] == [f];
    assert FileSet(n) == {n.host};
    assert Both(Added([], [], {}, {n.host}), e) == Brings(n, PlacedFile(f, n.data));
  }

  lemma InodeUntouched(a: State, c: State, i: nat)
    requires i in a.inodes && Preserves(a, c, {}, {})
    ensures i in c.inodes && i in a.blks && i in c.blks && c.blks[i] == a.blks[i]
    ensures c.inodes[i].nblks == a.inodes[i].nblks
    ensures c.inodes[i].host == a.inodes[i].host && c.inodes[i].inode.kind == a.inodes[i].inode.kind
    ensures c.inodes[i].inode.size == a.inodes[i].inode.size
    ensures a.inodes[i].inode.kind != TYPE_FILE ==> c.inodes[i].inode.nlinks == a.inodes[i].inode.nlinks
  {
    assert InodeKept(a, c, i, false, false);
  }

  lemma FileIsFile(c: State, f: nat, data: Bytes)
    requires FileAt(c, f, data)
    ensures f in c.inodes && f in c.blks && c.inodes[f].inode.kind == TYPE_FILE
  {
  }

  /** add_file as a whole: `c` is the state in which the file exists. */
  lemma FileVisited(a: State, c: State, d: State, cur: nat, f: nat, name: Bytes, n: Node)
    requires n.File? && cur in a.inodes && a.inodes[cur].inode.kind == TYPE_DIR
    requires Preserves(a, c, {}, {}) && Adds(a, c, Added([], [], {}, {n.host})) && FileAt(c, f, n.data)
    requires c.inodes[f].host == n.host
    requires FileCountsFit(c) && (forall i :: i in c.inodes ==> i in c.blks) && EntryAdded(c, d, cur, f, name)
    ensures Visited(a, d, cur, name, n, PlacedFile(f, n.data))
  {
    hide EntryAdded, Preserves, Adds, OneMore, FileAt;
    InodeUntouched(a, c, cur);
    FileIsFile(c, f, n.data);
    FileEntryPreserves(a, c, d, cur, f, name);
    FileStays(c, d, cur, f, n.data);
    FileEntryAdds(a, c, d, cur, f, name, n);
    EntryOneMore(c, d, cur, f, name);
    OneMoreAfter(a, c, d, cur, f, name, 0);
  }

  lemma FileStays(c: State, d: State, cur: nat, f: nat, data: Bytes)
    requires Preserves(c, d, {cur}, {cur}) && FileAt(c, f, data) && cur in c.inodes
    requires c.inodes[cur].inode.kind == TYPE_DIR
    ensures FileAt(d, f, data) && d.inodes[f].host == c.inodes[f].host && f != cur
    ensures d.inodes[f].inode.kind == TYPE_FILE
  {
    assert f != cur;
    assert InodeKept(c, d, f, false, false);
  }

  lemma OneMoreAfter(a: State, c: State, d: State, cur: nat, ino: nat, name: Bytes, more: nat)
    requires OneMore(c, d, cur, ino, name, more) && cur in a.inodes && cur in a.blks && c.blks[cur] == a.blks[cur]
    requires c.inodes[cur].inode.size == a.inodes[cur].inode.size && c.inodes[cur].nblks == a.inodes[cur].nblks
    requires c.inodes[cur].inode.nlinks == a.inodes[cur].inode.nlinks
    ensures OneMore(a, d, cur, ino, name, more)
  {
    hide EntryAt;
  }

  // ----- between two entries

  lemma EntryTidy(a: State, b: State, cur: nat, file: nat, name: Bytes, t: Hosts)
    requires Tidy(a, t) && EntryAdded(a, b, cur, file, name) && a.inodes[cur].inode.kind == TYPE_DIR
    requires Inv(b) && Settled(b)
    ensures Tidy(b, t)
  {
    hide Inv, FileAt, EntryAt, Settled, HostsOk, FilesHold, FileCountsFit;
    InvCounts(a);
    EntryHosts(a, b, cur, file, name, t);
    EntryFiles(a, b, cur, file, name, t);
  }

  lemma EntryFiles(a: State, b: State, cur: nat, file: nat, name: Bytes, t: Hosts)
    requires FilesHold(a, t) && EntryAdded(a, b, cur, file, name) && a.inodes[cur].inode.kind == TYPE_DIR
    requires forall i :: i in a.inodes ==> i in a.blks
    ensures FilesHold(b, t)
  {
    hide FileAt, EntryAt, EntryInode, FilesHold, Preserves;
    EntryPreserves(a, b, cur, file, name);
    FilesHoldFrame(a, b, t, {cur}, {file}, {});
  }

  /** A file that is cached is not too big. */
  lemma CachedFits(s: State, f: nat, data: Bytes)
    requires Inv(s) && FileAt(s, f, data)
    ensures Chunks(|data|) <= LN_NBLKS
  {
    assert FileOk(s, f);
  }

  lemma CachedIff(s: State, f: nat)
    requires f in s.inodes && s.inodes[f].inode.kind == TYPE_FILE
    ensures s.inodes[f].host in CachedFiles(s)
  {
  }

  // ----- when a visit succeeds

  /** Blocks that the visit of an entry for `n` in directory `cur` takes. */
  ghost function Cost(s: State, cur: nat, n: Node): nat
    requires cur in s.inodes
  {
    Need(n, CachedFiles(s)) + 1 + Growth(s.inodes[cur].nblks)
  }

  ghost predicate CanVisit(s: State, cur: nat, name: Bytes, n: Node)
    requires cur in s.inodes
  {
    |name| <= MAX_FNAME && Fits(n) && s.inodes[cur].nblks < LN_NBLKS && s.unused >= Cost(s, cur, n)
  }

  /** What the builder is in between two entries of directory `cur`. */
  ghost predicate Ready(s: State, t: Hosts, cur: nat) {
    Tidy(s, t) && cur in s.inodes && s.inodes[cur].inode.kind == TYPE_DIR
  }

  /** A cached file is found by its host number. */
  lemma {:induction false} CachedFile(s: State, f: nat, n: Node, t: Hosts)
    requires Tidy(s, t) && f in s.inodes && n.File? && n.host in t && t[n.host] == AFile(n.data)
    requires s.inodes[f].host == n.host
    ensures FileAt(s, f, n.data) && Fits(n) && n.host in CachedFiles(s)
  {
    assert f != BLKN_ROOT;
    assert s.inodes[f].inode.kind == TYPE_FILE;
    CachedFits(s, f, n.data);
    CachedIff(s, f);
  }

  lemma NotCached(s: State, host: nat)
    requires forall i :: i in s.inodes ==> s.inodes[i].host != host
    ensures host !in CachedFiles(s)
  {
  }

  // ----- visiting a symbolic link

  /** A new symbolic link: the inode is allocated and given its target. */
  lemma LinkMade(a: State, b: State, c: State, i: nat, host: nat, target: Bytes)
    requires InodeAdded(a, b, i, host, TYPE_LINK) && PutEffect(b, c, i, target, |target|) && |target| < BLKSIZE
    requires FileCountsFit(a) && (forall j :: j in a.inodes ==> j in a.blks)
    ensures Preserves(a, c, {}, {}) && LinkAt(c, i, target) && c.inodes[i].inode.nlinks == 0
    ensures Adds(a, c, Added([], [i], {}, {})) && i !in a.inodes
  {
    hide Padded, Adds;
    PutPreserves(a, b, c, i, host, target);
    MadeAdds(a, b, c, i, host, TYPE_LINK);
  }

  lemma PutPreserves(a: State, b: State, c: State, i: nat, host: nat, target: Bytes)
    requires InodeAdded(a, b, i, host, TYPE_LINK) && PutEffect(b, c, i, target, |target|)
    requires forall j :: j in a.inodes ==> j in a.blks
    ensures Preserves(a, c, {}, {})
  {
    hide Padded, Growth;
    forall j | j in a.inodes
      ensures j in c.inodes && InodeKept(a, c, j, false, false)
    {
      assert b.inodes[j] == a.inodes[j] && c.inodes[j] == b.inodes[j];
    }
  }

  /** What an inode has brought when its contents have been written. */
  lemma MadeAdds(a: State, b: State, c: State, i: nat, host: nat, kind: nat)
    requires InodeAdded(a, b, i, host, kind) && FileCountsFit(a) && (kind == TYPE_FILE || kind == TYPE_LINK)
    requires (forall j :: j in c.inodes <==> j in b.inodes) && b.nextIno <= c.nextIno
    requires forall j :: j in b.inodes ==>
      c.inodes[j].host == b.inodes[j].host && c.inodes[j].inode.kind == b.inodes[j].inode.kind &&
      c.inodes[j].inode.nlinks == b.inodes[j].inode.nlinks
    ensures Adds(a, c, Added([], if kind == TYPE_FILE then [] else [i], {}, if kind == TYPE_FILE then {host} else {}))
  {
    hide CachedFiles;
    InodeAdds(a, b, i, host, kind);
    SameFiles(b, c);
  }

  lemma LinkHosts(a: State, b: State, c: State, i: nat, host: nat, target: Bytes, t: Hosts)
    requires InodeAdded(a, b, i, host, TYPE_LINK) && PutEffect(b, c, i, target, |target|)
    requires HostsOk(a, t) && FilesHold(a, t) && host in t && t[host] == ALink(target) && i != 0
    requires Preserves(a, c, {}, {})
    ensures HostsOk(c, t) && FilesHold(c, t)
  {
    hide FileAt, Padded, FilesHold, Preserves;
    InodeHosts(a, b, i, host, TYPE_LINK, t);
    HostsFrame(b, c, t);
    FilesHoldFrame(a, c, t, {}, {}, {});
  }

  lemma LinkEntryPreserves(a: State, c: State, d: State, cur: nat, i: nat, name: Bytes)
    requires Preserves(a, c, {}, {}) && EntryAdded(c, d, cur, i, name) && i !in a.inodes
    requires forall j :: j in c.inodes ==> j in c.blks
    ensures Preserves(a, c, {cur}, {cur, i}) && Preserves(c, d, {cur}, {cur, i})
    ensures Preserves(a, d, {cur}, {cur})
  {
    hide EntryAdded;
    EntryPreserves(c, d, cur, i, name);
    PreservesMore(a, c, {}, {}, {cur}, {cur, i});
    PreservesMore(c, d, {cur}, {i}, {cur}, {cur, i});
    PreservesTrans(a, c, d, {cur}, {cur, i});
    PreservesMore(a, d, {cur}, {cur, i}, {cur}, {cur});
  }

  /** The entry of an object that is no file adds nothing to what the object brought. */
  lemma OtherEntryAdds(a: State, c: State, d: State, cur: nat, i: nat, name: Bytes, e: Added, n: set<nat>)
    requires Adds(a, c, e) && EntryAdded(c, d, cur, i, name) && FileCountsFit(c) && c.inodes[i].inode.kind != TYPE_FILE
    requires Preserves(a, c, {cur}, n) && Preserves(c, d, {cur}, n)
    ensures Adds(a, d, e)
  {
    hide EntryAdded, Preserves, Adds;
    EntryAdds(c, d, cur, i, name);
    AddsTrans(a, c, d, e, Added([], [], {}, {}), {cur}, n);
    assert Both(e, Added([], [], {}, {})) == e by {
      assert e.files + [] == e.files && e.others + [] == e.others;
    }
  }

  lemma LinkStays(c: State, d: State, cur: nat, i: nat, name: Bytes, target: Bytes)
    requires LinkAt(c, i, target) && c.inodes[i].inode.nlinks == 0 && EntryAdded(c, d, cur, i, name)
    requires c.inodes[cur].inode.kind == TYPE_DIR
    ensures LinkAt(d, i, target) && d.inodes[i].inode.nlinks == 1 && i != cur
  {
    hide EntryAt, Padded;
    assert EntryInode(c.inodes[i], d.inodes[i], i == cur, true);
  }

  lemma LinkIsThere(s: State, i: nat, target: Bytes)
    requires LinkAt(s, i, target)
    ensures i in s.inodes && i in s.blks && s.inodes[i].inode.kind == TYPE_LINK
  {
  }

  /** add_link as a whole: `c` is the state in which the link exists. */
  lemma LinkVisited(a: State, c: State, d: State, cur: nat, i: nat, name: Bytes, n: Node)
    requires n.Link? && cur in a.inodes && a.inodes[cur].inode.kind == TYPE_DIR
    requires Preserves(a, c, {}, {}) && Adds(a, c, Added([], [i], {}, {})) && LinkAt(c, i, n.target)
    requires c.inodes[i].inode.nlinks == 0 && i !in a.inodes
    requires FileCountsFit(c) && (forall j :: j in c.inodes ==> j in c.blks) && EntryAdded(c, d, cur, i, name)
    ensures Visited(a, d, cur, name, n, PlacedLink(i, n.target))
  {
    hide EntryAdded, Preserves, Adds, OneMore, LinkAt;
    LinkIsThere(c, i, n.target);
    InodeUntouched(a, c, cur);
    LinkEntryPreserves(a, c, d, cur, i, name);
    LinkStays(c, d, cur, i, name, n.target);
    OtherEntryAdds(a, c, d, cur, i, name, Added([], [i], {}, {}), {cur, i});
    assert FileSet(n) == {};
    EntryOneMore(c, d, cur, i, name);
    OneMoreAfter(a, c, d, cur, i, name, 0);
  }
}
