/**
 The intrusive skew heap of lab8/libs/skew_heap.h.

 `Entry` carries the three links that the C functions overwrite; `Tree` is the value a linked
 structure stands for.  The methods are proved to compute the functions `Merged` and `Removed`
 on trees, and the promises of the header (node set, heap order, amortised cost) are lemmas about
 those functions.
 */
module SkewHeap {
  import opened Modular

  /** A heap entry.  The comparator of the C code reads a priority from the enclosing structure;
      here that priority is the immutable `rank`. */
  class Entry {
    var parent: Entry?
    var left: Entry?
    var right: Entry?
    const rank: int

    constructor (rank: int)
      ensures this.rank == rank
    {
      this.rank := rank;
      parent, left, right := null, null, null;
    }

    /** skew_heap_init */
    method Init()
      modifies this
      ensures left == null && right == null && parent == null
    {
      left, right, parent := null, null, null;
    }
  }

  datatype Tree = Leaf | Node(top: Entry, left: Tree, right: Tree)

  function Nodes(t: Tree): set<Entry> {
    match t
    case Leaf => {}
    case Node(e, l, r) => {e} + Nodes(l) + Nodes(r)
  }

  /** No entry occurs twice. */
  predicate Distinct(t: Tree) {
    match t
    case Leaf => true
    case Node(e, l, r) => e !in Nodes(l) && e !in Nodes(r) && Nodes(l) !! Nodes(r) && Distinct(l) && Distinct(r)
  }

  function Root(t: Tree): Entry? {
    if t.Leaf? then null else t.top
  }

  function Below(t: Tree): set<Entry> {
    if t.Leaf? then {} else Nodes(t.left) + Nodes(t.right)
  }

  /** The links below the root of `t` spell out `t`, including every parent link except the root's. */
  ghost predicate Linked(t: Tree)
    reads Nodes(t)`left, Nodes(t)`right, Below(t)`parent
  {
    match t
    case Leaf => true
    case Node(e, l, r) =>
      && e.left == Root(l) && (l.Node? ==> l.top.parent == e) && Linked(l)
      && e.right == Root(r) && (r.Node? ==> r.top.parent == e) && Linked(r)
  }

  /** Every entry is followed only by entries that are not below it. */
  ghost predicate Ordered(t: Tree) {
    match t
    case Leaf => true
    case Node(e, l, r) =>
      && (forall n :: n in Nodes(l) ==> e.rank <= n.rank) && Ordered(l)
      && (forall n :: n in Nodes(r) ==> e.rank <= n.rank) && Ordered(r)
  }

  type Comparator = (Entry, Entry) -> int

  /** The answer -1 promises that the first entry is not above the second, and any other answer
      promises the converse; ties may be broken either way. */
  ghost predicate Sound(comp: Comparator, s: set<Entry>) {
    forall a, b :: a in s && b in s ==> if comp(a, b) == -1 then a.rank <= b.rank else b.rank <= a.rank
  }

  /** A comparator in use: `made` counts how often it has been called. */
  class Comparing {
    const order: Comparator
    ghost var made: nat

    constructor (order: Comparator)
      ensures this.order == order && made == 0
    {
      this.order, made := order, 0;
    }

    method Compare(a: Entry, b: Entry) returns (r: int)
      modifies this`made
      ensures r == order(a, b) && made == old(made) + 1
    {
      made := made + 1;
      r := order(a, b);
    }
  }

  // ----- the operations on trees

  function Merged(a: Tree, b: Tree, comp: Comparator): Tree
    decreases a, b
  {
    if a.Leaf? then b
    else if b.Leaf? then a
    else if comp(a.top, b.top) == -1 then Node(a.top, Merged(a.right, b, comp), a.left)
    else Node(b.top, Merged(a, b.right, comp), b.left)
  }

  /** Comparator calls made by a merge. */
  function Calls(a: Tree, b: Tree, comp: Comparator): nat
    decreases a, b
  {
    if a.Leaf? || b.Leaf? then 0
    else if comp(a.top, b.top) == -1 then 1 + Calls(a.right, b, comp)
    else 1 + Calls(a, b.right, comp)
  }

  /** The subtree whose root is `e`. */
  function Subtree(t: Tree, e: Entry): (s: Tree)
    requires e in Nodes(t)
    ensures s.Node? && s.top == e && Nodes(s) <= Nodes(t)
  {
    if t.top == e then t
    else if e in Nodes(t.left) then Subtree(t.left, e)
    else Subtree(t.right, e)
  }

  /** `t` with the subtree at `e` replaced by the merge of its two children. */
  function Removed(t: Tree, e: Entry, comp: Comparator): Tree
    requires e in Nodes(t)
  {
    if t.top == e then Merged(t.left, t.right, comp)
    else if e in Nodes(t.left) then t.(left := Removed(t.left, e, comp))
    else t.(right := Removed(t.right, e, comp))
  }

  // ----- what merging preserves

  lemma {:induction false} MergedNodes(a: Tree, b: Tree, comp: Comparator)
    ensures Nodes(Merged(a, b, comp)) == Nodes(a) + Nodes(b)
    decreases a, b
  {
    if a.Leaf? || b.Leaf? {
    } else if comp(a.top, b.top) == -1 {
      MergedNodes(a.right, b, comp);
    } else {
      MergedNodes(a, b.right, comp);
    }
  }

  lemma {:induction false} MergedDistinct(a: Tree, b: Tree, comp: Comparator)
    requires Distinct(a) && Distinct(b) && Nodes(a) !! Nodes(b)
    ensures Distinct(Merged(a, b, comp))
    decreases a, b
  {
    if a.Leaf? || b.Leaf? {
    } else if comp(a.top, b.top) == -1 {
      MergedDistinct(a.right, b, comp);
      MergedNodes(a.right, b, comp);
    } else {
      MergedDistinct(a, b.right, comp);
      MergedNodes(a, b.right, comp);
    }
  }

  lemma {:induction false} RootIsLeast(t: Tree)
    requires t.Node? && Ordered(t)
    ensures forall n :: n in Nodes(t) ==> t.top.rank <= n.rank
  {
  }

  lemma {:induction false} MergedOrdered(a: Tree, b: Tree, comp: Comparator)
    requires Ordered(a) && Ordered(b) && Sound(comp, Nodes(a) + Nodes(b))
    ensures Ordered(Merged(a, b, comp))
    decreases a, b
  {
    if a.Leaf? || b.Leaf? {
    } else {
      RootIsLeast(a);
      RootIsLeast(b);
      if comp(a.top, b.top) == -1 {
        MergedOrdered(a.right, b, comp);
        MergedNodes(a.right, b, comp);
      } else {
        MergedOrdered(a, b.right, comp);
        MergedNodes(a, b.right, comp);
      }
    }
  }

  // ----- what removal preserves

  lemma {:induction false} RemovedNodes(t: Tree, e: Entry, comp: Comparator)
    requires e in Nodes(t) && Distinct(t)
    ensures Nodes(Removed(t, e, comp)) == Nodes(t) - {e} && Distinct(Removed(t, e, comp))
  {
    if t.top == e {
      MergedNodes(t.left, t.right, comp);
      MergedDistinct(t.left, t.right, comp);
    } else if e in Nodes(t.left) {
      RemovedNodes(t.left, e, comp);
    } else {
      RemovedNodes(t.right, e, comp);
    }
  }

  lemma {:induction false} RemovedOrdered(t: Tree, e: Entry, comp: Comparator)
    requires e in Nodes(t) && Distinct(t) && Ordered(t) && Sound(comp, Nodes(t))
    ensures Ordered(Removed(t, e, comp))
  {
    if t.top == e {
      MergedOrdered(t.left, t.right, comp);
    } else if e in Nodes(t.left) {
      RemovedOrdered(t.left, e, comp);
      RemovedNodes(t.left, e, comp);
    } else {
      RemovedOrdered(t.right, e, comp);
      RemovedNodes(t.right, e, comp);
    }
  }

  // ----- the operations on links

  /** Nothing that `Linked` looks at has changed. */
  twostate predicate SameLinks(t: Tree)
    reads Nodes(t)
  {
    && (forall n :: n in Nodes(t) && old(allocated(n)) ==> n.left == old(n.left) && n.right == old(n.right))
    && (forall n :: n in Below(t) && old(allocated(n)) ==> n.parent == old(n.parent))
  }

  twostate lemma {:induction false} NodesAllocated(t: Tree)
    ensures forall n :: n in Nodes(t) ==> old(allocated(n))
  {
    if t.Leaf? {
    } else {
      NodesAllocated(t.left);
      NodesAllocated(t.right);
    }
  }

  twostate lemma {:induction false} LinkedFrame(t: Tree)
    requires old(Linked(t)) && SameLinks(t)
    ensures Linked(t)
  {
    NodesAllocated(t);
    if t.Leaf? {
    } else {
      LinkedFrame(t.left);
      LinkedFrame(t.right);
    }
  }

  /** The assignments that follow the recursive call of a merge: `e` takes `l` as its left and its
      former left child as its right child. */
  method Adopt(e: Entry, l: Entry?, r: Entry?, ghost tl: Tree, ghost tr: Tree)
    requires l == Root(tl) && r == Root(tr) && Linked(tl) && Linked(tr) && (r != null ==> r.parent == e)
    requires Distinct(Node(e, tl, tr))
    modifies e`left, e`right, (if l == null then {} else {l})`parent
    ensures Linked(Node(e, tl, tr))
  {
    e.left := l;
    e.right := r;
    if l != null {
      l.parent := e;
    }
    LinkedFrame(tl);
    LinkedFrame(tr);
  }

  lemma {:induction false} DistinctParts(t: Tree)
    requires t.Node? && Distinct(t)
    ensures Distinct(t.left) && Distinct(t.right) && Nodes(t.left) !! Nodes(t.right)
    ensures t.top !in Nodes(t.left) && t.top !in Nodes(t.right)
  {
  }

  /** skew_heap_merge.  `ta` and `tb` are the trees the two arguments stand for.  The parent link of
      the returned root is left as it was; the caller sets it. */
  method Merge(a: Entry?, b: Entry?, c: Comparing, ghost ta: Tree, ghost tb: Tree) returns (m: Entry?)
    requires a == Root(ta) && b == Root(tb) && Linked(ta) && Linked(tb)
    requires Distinct(ta) && Distinct(tb) && Nodes(ta) !! Nodes(tb)
    modifies Nodes(ta), Nodes(tb), c`made
    ensures m == Root(Merged(ta, tb, c.order)) && Linked(Merged(ta, tb, c.order))
    ensures m != null ==> m.parent == old(m.parent)
    ensures c.made == old(c.made) + Calls(ta, tb, c.order)
    decreases ta, tb, 1
  {
    if a == null {
      return b;
    } else if b == null {
      return a;
    }
    var r := c.Compare(a, b);
    LinkedFrame(ta);
    LinkedFrame(tb);
    if r == -1 {
      KeepFirst(a, b, c, ta, tb);
      m := a;
    } else {
      KeepSecond(a, b, c, ta, tb);
      m := b;
    }
  }

  /** The branch of a merge in which `a` becomes the root. */
  method KeepFirst(a: Entry, b: Entry, c: Comparing, ghost ta: Tree, ghost tb: Tree)
    requires a == Root(ta) && b == Root(tb) && Linked(ta) && Linked(tb)
    requires Distinct(ta) && Distinct(tb) && Nodes(ta) !! Nodes(tb)
    modifies Nodes(ta), Nodes(tb), c`made
    ensures Linked(Node(a, Merged(ta.right, tb, c.order), ta.left)) && a.parent == old(a.parent)
    ensures c.made == old(c.made) + Calls(ta.right, tb, c.order)
    decreases ta, tb, 0
  {
    hide Distinct, Calls;
    DistinctParts(ta);
    MergedNodes(ta.right, tb, c.order);
    KeptFirst(ta, tb, c.order);
    var r := a.left;
    var l := Merge(a.right, b, c, ta.right, tb);
    LinkedFrame(ta.left);
    Adopt(a, l, r, Merged(ta.right, tb, c.order), ta.left);
  }

  /** The branch of a merge in which `b` becomes the root. */
  method KeepSecond(a: Entry, b: Entry, c: Comparing, ghost ta: Tree, ghost tb: Tree)
    requires a == Root(ta) && b == Root(tb) && Linked(ta) && Linked(tb)
    requires Distinct(ta) && Distinct(tb) && Nodes(ta) !! Nodes(tb)
    modifies Nodes(ta), Nodes(tb), c`made
    ensures Linked(Node(b, Merged(ta, tb.right, c.order), tb.left)) && b.parent == old(b.parent)
    ensures c.made == old(c.made) + Calls(ta, tb.right, c.order)
    decreases ta, tb, 0
  {
    hide Distinct, Calls;
    DistinctParts(tb);
    MergedNodes(ta, tb.right, c.order);
    KeptSecond(ta, tb, c.order);
    var r := b.left;
    var l := Merge(a, b.right, c, ta, tb.right);
    LinkedFrame(tb.left);
    Adopt(b, l, r, Merged(ta, tb.right, c.order), tb.left);
  }

  lemma {:induction false} KeptFirst(ta: Tree, tb: Tree, comp: Comparator)
    requires ta.Node? && Distinct(ta) && Distinct(tb) && Nodes(ta) !! Nodes(tb)
    ensures Distinct(Node(ta.top, Merged(ta.right, tb, comp), ta.left))
  {
    MergedNodes(ta.right, tb, comp);
    MergedDistinct(ta.right, tb, comp);
  }

  lemma {:induction false} KeptSecond(ta: Tree, tb: Tree, comp: Comparator)
    requires tb.Node? && Distinct(ta) && Distinct(tb) && Nodes(ta) !! Nodes(tb)
    ensures Distinct(Node(tb.top, Merged(ta, tb.right, comp), tb.left))
  {
    MergedNodes(ta, tb.right, comp);
    MergedDistinct(ta, tb.right, comp);
  }

  /** A well-formed heap: `a` is the root of `t`, links and order are right, and nothing is above the
      root. */
  ghost predicate IsHeap(a: Entry?, t: Tree)
    reads Nodes(t)
  {
    a == Root(t) && Linked(t) && Distinct(t) && Ordered(t) && (t.Node? ==> t.top.parent == null)
  }

  /** skew_heap_insert */
  method Insert(a: Entry?, b: Entry, c: Comparing, ghost t: Tree) returns (m: Entry?, ghost t': Tree)
    requires IsHeap(a, t) && b !in Nodes(t) && Sound(c.order, Nodes(t) + {b})
    modifies Nodes(t), b, c`made
    ensures IsHeap(m, t') && Nodes(t') == Nodes(t) + {b}
    ensures t' == Merged(t, Node(b, Leaf, Leaf), c.order)
    ensures c.made == old(c.made) + Calls(t, Node(b, Leaf, Leaf), c.order)
  {
    b.Init();
    ghost var single := Node(b, Leaf, Leaf);
    LinkedFrame(t);
    t' := Merged(t, single, c.order);
    MergedNodes(t, single, c.order);
    MergedDistinct(t, single, c.order);
    MergedOrdered(t, single, c.order);
    m := Merge(a, b, c, t, single);
  }

  // ----- removing an arbitrary entry

  lemma {:induction false} SubtreeShape(t: Tree, e: Entry)
    requires e in Nodes(t) && Distinct(t) && Linked(t)
    ensures Distinct(Subtree(t, e)) && Linked(Subtree(t, e))
  {
    if t.top == e {
    } else {
      SubtreeShape(if e in Nodes(t.left) then t.left else t.right, e);
    }
  }

  /** The child of the root that contains `e`. */
  function Towards(t: Tree, e: Entry): (s: Tree)
    requires e in Nodes(t) && e != t.top
    ensures e in Nodes(s) && (s == t.left || s == t.right)
  {
    if e in Nodes(t.left) then t.left else t.right
  }

  function ParentOf(t: Tree, e: Entry): (p: Entry)
    requires e in Nodes(t) && e != t.top
    ensures p in Nodes(t)
  {
    var s := Towards(t, e);
    if s.top == e then t.top else ParentOf(s, e)
  }

  lemma {:induction false} ParentOutside(t: Tree, e: Entry)
    requires e in Nodes(t) && e != t.top && Distinct(t)
    ensures ParentOf(t, e) !in Nodes(Subtree(t, e))
  {
    var s := Towards(t, e);
    if s.top == e {
    } else {
      ParentOutside(s, e);
    }
  }

  lemma {:induction false} ParentLink(t: Tree, e: Entry)
    requires e in Nodes(t) && e != t.top && Distinct(t) && Linked(t)
    ensures e.parent == ParentOf(t, e) && (e.parent.left == e || e.parent.right == e)
  {
    var s := Towards(t, e);
    if s.top == e {
    } else {
      ParentLink(s, e);
    }
  }

  /** The removal of one entry: the tree, the entry and the comparator. */
  datatype Cut = Cut(tree: Tree, at: Entry, comp: Comparator) {
    ghost predicate Inner() {
      at in Nodes(tree) && at != tree.top && Distinct(tree)
    }

    function Rest(): Tree
      requires at in Nodes(tree)
    {
      var s := Subtree(tree, at);
      Merged(s.left, s.right, comp)
    }
  }

  /** Everything outside the merged subtree is as it was, except that the parent of the removed entry
      has the merge of its children in its place. */
  twostate predicate Replaced(c: Cut)
    requires c.Inner()
    reads Nodes(c.tree)
  {
    var p, rep := ParentOf(c.tree, c.at), Root(c.Rest());
    old(allocated(p)) ==>
      && (old(p.left) == c.at ==> p.left == rep && p.right == old(p.right))
      && (old(p.left) != c.at ==> p.left == old(p.left) && p.right == rep)
      && forall n :: n in Nodes(c.tree) && n !in Below(Subtree(c.tree, c.at)) && old(allocated(n)) ==>
           n.parent == old(n.parent) && (n != p ==> n.left == old(n.left) && n.right == old(n.right))
  }

  /** After the subtree at the removed entry has been replaced by the merge of its children, the whole
      tree is linked again. */
  twostate lemma {:induction false} RemovedLinked(c: Cut)
    requires c.Inner() && old(Linked(c.tree)) && Replaced(c) && Linked(c.Rest())
    requires c.Rest().Node? ==> c.Rest().top.parent == ParentOf(c.tree, c.at)
    ensures Linked(Removed(c.tree, c.at, c.comp))
    decreases c.tree
  {
    var t, e := c.tree, c.at;
    NodesAllocated(t);
    ParentOutside(t, e);
    var near, far := Towards(t, e), if e in Nodes(t.left) then t.right else t.left;
    LinkedFrame(far);
    if near.top == e {
    } else {
      RemovedLinked(Cut(near, e, c.comp));
    }
  }

  /** The final assignments of a removal below the root: `rep` takes the place of `b` below `p`. */
  method Splice(p: Entry, b: Entry, rep: Entry?, ghost sm: Tree)
    requires rep == Root(sm) && Linked(sm) && Distinct(sm) && p !in Nodes(sm)
    modifies p`left, p`right, (if rep == null then {} else {rep})`parent
    ensures Linked(sm) && (rep != null ==> rep.parent == p)
    ensures old(p.left) == b ==> p.left == rep && p.right == old(p.right)
    ensures old(p.left) != b ==> p.left == old(p.left) && p.right == rep
  {
    if rep != null {
      rep.parent := p;
    }
    if p.left == b {
      p.left := rep;
    } else {
      p.right := rep;
    }
    LinkedFrame(sm);
  }

  /** The removal of an entry below the root. */
  method UnlinkBelow(b: Entry, c: Comparing, ghost t: Tree)
    requires Linked(t) && Distinct(t) && b in Nodes(t) && b != t.top
    modifies Nodes(t), c`made
    ensures Linked(Removed(t, b, c.order)) && t.top.parent == old(t.top.parent)
    ensures c.made == old(c.made) + Calls(Subtree(t, b).left, Subtree(t, b).right, c.order)
  {
    ghost var s, comp := Subtree(t, b), c.order;
    ghost var sm := Merged(s.left, s.right, comp);
    SubtreeShape(t, b);
    MergedNodes(s.left, s.right, comp);
    MergedDistinct(s.left, s.right, comp);
    ParentLink(t, b);
    ParentOutside(t, b);
    var p := b.parent;
    var rep := Merge(b.left, b.right, c, s.left, s.right);
    Splice(p, b, rep, sm);
    RemovedLinked(Cut(t, b, comp));
  }

  /** The removal of the root. */
  method UnlinkRoot(b: Entry, c: Comparing, ghost t: Tree) returns (m: Entry?)
    requires Linked(t) && Distinct(t) && b == Root(t)
    modifies Nodes(t), c`made
    ensures m == Root(Removed(t, b, c.order)) && Linked(Removed(t, b, c.order)) && (m != null ==> m.parent == null)
    ensures c.made == old(c.made) + Calls(t.left, t.right, c.order)
  {
    ghost var sm := Merged(t.left, t.right, c.order);
    MergedNodes(t.left, t.right, c.order);
    MergedDistinct(t.left, t.right, c.order);
    m := Merge(b.left, b.right, c, t.left, t.right);
    label merged:
    if m != null {
      m.parent := null;
    }
    LinkedFrame@merged(sm);
  }

  /** skew_heap_remove, as far as the links are concerned. */
  method Unlink(a: Entry, b: Entry, c: Comparing, ghost t: Tree) returns (m: Entry?)
    requires a == Root(t) && Linked(t) && Distinct(t) && a.parent == null && b in Nodes(t)
    modifies Nodes(t), c`made
    ensures m == Root(Removed(t, b, c.order)) && Linked(Removed(t, b, c.order)) && (m != null ==> m.parent == null)
    ensures c.made == old(c.made) + Calls(Subtree(t, b).left, Subtree(t, b).right, c.order)
  {
    hide Distinct, Calls, Merged;
    if b != t.top {
      ParentLink(t, b);
    }
    if b.parent != null {
      UnlinkBelow(b, c, t);
      m := a;
    } else {
      m := UnlinkRoot(b, c, t);
    }
  }

  /** skew_heap_remove.  The entry may be the root, a left child or a right child. */
  method Remove(a: Entry, b: Entry, c: Comparing, ghost t: Tree) returns (m: Entry?, ghost t': Tree)
    requires IsHeap(a, t) && b in Nodes(t) && Sound(c.order, Nodes(t))
    modifies Nodes(t), c`made
    ensures IsHeap(m, t') && Nodes(t') == Nodes(t) - {b}
    ensures t' == Removed(t, b, c.order)
    ensures c.made == old(c.made) + Calls(Subtree(t, b).left, Subtree(t, b).right, c.order)
  {
    t' := Removed(t, b, c.order);
    RemovedNodes(t, b, c.order);
    RemovedOrdered(t, b, c.order);
    m := Unlink(a, b, c, t);
  }

  // ----- amortised cost

  /** The length of the path to the right. */
  function RightSpine(t: Tree): nat {
    if t.Leaf? then 0 else 1 + RightSpine(t.right)
  }

  /** A merge calls the comparator at least until one of the two paths to the right is used up, and at most once
      for each of their nodes but one. */
  lemma {:induction false} CallsBetween(a: Tree, b: Tree, comp: Comparator)
    ensures a.Leaf? || b.Leaf? ==> Calls(a, b, comp) == 0
    ensures RightSpine(a) <= Calls(a, b, comp) || RightSpine(b) <= Calls(a, b, comp)
    ensures a.Node? && b.Node? ==> Calls(a, b, comp) < RightSpine(a) + RightSpine(b)
    decreases a, b
  {
    if a.Leaf? || b.Leaf? {
    } else if comp(a.top, b.top) == -1 {
      CallsBetween(a.right, b, comp);
    } else {
      CallsBetween(a, b.right, comp);
    }
  }

  function Size(t: Tree): nat {
    if t.Leaf? then 0 else 1 + Size(t.left) + Size(t.right)
  }

  /** The number of right-heavy nodes. */
  function Potential(t: Tree): nat {
    if t.Leaf? then 0
    else (if Size(t.right) > Size(t.left) then 1 else 0) + Potential(t.left) + Potential(t.right)
  }

  /** The base-2 logarithm of `n`, rounded down. */
  function Lg(n: nat): (k: nat)
    requires n >= 1
    ensures Pow2(k) <= n < Pow2(k + 1)
  {
    if n == 1 then assert Pow2(0) == 1; 0
    else
      var k := Lg(n - 1);
      if n == Pow2(k + 1) then k + 1 else k
  }

  lemma {:induction false} MergedSize(a: Tree, b: Tree, comp: Comparator)
    ensures Size(Merged(a, b, comp)) == Size(a) + Size(b)
    decreases a, b
  {
    if a.Leaf? || b.Leaf? {
    } else if comp(a.top, b.top) == -1 {
      MergedSize(a.right, b, comp);
    } else {
      MergedSize(a, b.right, comp);
    }
  }

  /** What one turn of a merge costs at the winning root `w`: the step down its right spine is charged
      to the logarithm `k` unless the root was right-heavy, and then the swap pays for it. */
  lemma TurnCost(w: Tree, merged: Tree, k: nat) returns (kRight: nat)
    requires w.Node? && Size(merged) >= Size(w.right) && Size(w) + 1 < Pow2(k + 1)
    ensures Size(w.right) + 1 < Pow2(kRight + 1)
    ensures 1 + Potential(Node(w.top, merged, w.left)) + Potential(w.right) + 2 * kRight
         <= Potential(w) + Potential(merged) + 2 * k
  {
    kRight := if Size(w.right) > Size(w.left) then k else k - 1;
  }

  lemma {:induction false} MergeAmortisedBelow(a: Tree, b: Tree, comp: Comparator, ka: nat, kb: nat)
    requires Size(a) + 1 < Pow2(ka + 1) && Size(b) + 1 < Pow2(kb + 1)
    ensures Calls(a, b, comp) + Potential(Merged(a, b, comp)) <= Potential(a) + Potential(b) + 2 * ka + 2 * kb
    decreases a, b
  {
    if a.Leaf? || b.Leaf? {
    } else if comp(a.top, b.top) == -1 {
      MergedSize(a.right, b, comp);
      var k := TurnCost(a, Merged(a.right, b, comp), ka);
      MergeAmortisedBelow(a.right, b, comp, k, kb);
    } else {
      MergedSize(a, b.right, comp);
      var k := TurnCost(b, Merged(a, b.right, comp), kb);
      MergeAmortisedBelow(a, b.right, comp, ka, k);
    }
  }

  /** Comparator calls plus the rise in potential are logarithmic in the two sizes. */
  lemma {:induction false} MergeAmortised(a: Tree, b: Tree, comp: Comparator)
    ensures Calls(a, b, comp) + Potential(Merged(a, b, comp)) - Potential(a) - Potential(b)
         <= 2 * Lg(Size(a) + 1) + 2 * Lg(Size(b) + 1)
  {
    hide Calls, Potential, Merged, Size, Lg;
    MergeAmortisedBelow(a, b, comp, Lg(Size(a) + 1), Lg(Size(b) + 1));
  }

  /** One operation of a priority queue: insert an entry, or remove the root if there is one. */
  datatype Op = Push(e: Entry) | Pop

  function After(t: Tree, op: Op, comp: Comparator): Tree {
    match op
    case Push(e) => Merged(t, Node(e, Leaf, Leaf), comp)
    case Pop => if t.Leaf? then Leaf else Merged(t.left, t.right, comp)
  }

  function OpCalls(t: Tree, op: Op, comp: Comparator): nat {
    match op
    case Push(e) => Calls(t, Node(e, Leaf, Leaf), comp)
    case Pop => if t.Leaf? then 0 else Calls(t.left, t.right, comp)
  }

  function RunCalls(t: Tree, ops: seq<Op>, comp: Comparator): nat
    decreases |ops|
  {
    if ops == [] then 0
    else OpCalls(t, ops[0], comp) + RunCalls(After(t, ops[0], comp), ops[1..], comp)
  }

  lemma OpAmortised(t: Tree, op: Op, comp: Comparator, k: nat)
    requires Size(t) + 1 < Pow2(k + 1)
    ensures Size(After(t, op, comp)) <= Size(t) + 1
    ensures OpCalls(t, op, comp) + Potential(After(t, op, comp)) <= Potential(t) + 4 * k + 2
  {
    match op
    case Push(e) =>
      var single := Node(e, Leaf, Leaf);
      assert Size(single) == 1 && Potential(single) == 0 && Pow2(2) == 4;
      MergedSize(t, single, comp);
      MergeAmortisedBelow(t, single, comp, k, 1);
    case Pop =>
      if t.Node? {
        MergedSize(t.left, t.right, comp);
        MergeAmortisedBelow(t.left, t.right, comp, k, k);
      }
  }

  lemma {:induction false} RunAmortised(t: Tree, ops: seq<Op>, comp: Comparator, k: nat)
    requires Size(t) + |ops| + 1 < Pow2(k + 1)
    ensures RunCalls(t, ops, comp) <= Potential(t) + |ops| * (4 * k + 2)
    decreases |ops|
  {
    if ops == [] {
    } else {
      OpAmortised(t, ops[0], comp, k);
      RunAmortised(After(t, ops[0], comp), ops[1..], comp, k);
      var b := 4 * k + 2;
      assert (|ops| - 1) * b + b == |ops| * b;
    }
  }

  /** Any run of n insertions and root removals from the empty heap makes at most
      n * (4 * lg(n + 1) + 2) comparator calls. */
  lemma {:induction false} RunFromEmpty(ops: seq<Op>, comp: Comparator)
    ensures RunCalls(Leaf, ops, comp) <= |ops| * (4 * Lg(|ops| + 1) + 2)
  {
    RunAmortised(Leaf, ops, comp, Lg(|ops| + 1));
  }

  /** The heap after a run. */
  function AfterRun(t: Tree, ops: seq<Op>, comp: Comparator): Tree
    decreases |ops|
  {
    if ops == [] then t else AfterRun(After(t, ops[0], comp), ops[1..], comp)
  }

  /** The entries that a run inserts. */
  function Pushed(ops: seq<Op>): set<Entry> {
    set op | op in ops && op.Push? :: op.e
  }

  /** No entry is inserted while it is in the heap. */
  ghost predicate Legal(t: Tree, ops: seq<Op>, comp: Comparator)
    decreases |ops|
  {
    ops == [] || ((ops[0].Push? ==> ops[0].e !in Nodes(t)) && Legal(After(t, ops[0], comp), ops[1..], comp))
  }

  /** One operation on the links: an insertion, or the removal of the root. */
  method Operate(a: Entry?, op: Op, c: Comparing, ghost t: Tree, ghost all: set<Entry>) returns (m: Entry?)
    requires IsHeap(a, t) && (op.Push? ==> op.e !in Nodes(t)) && Sound(c.order, all)
    requires Nodes(t) <= all && (op.Push? ==> op.e in all)
    modifies all, c`made
    ensures IsHeap(m, After(t, op, c.order)) && Nodes(After(t, op, c.order)) <= all
    ensures c.made == old(c.made) + OpCalls(t, op, c.order)
  {
    hide Linked, Distinct, Ordered, Merged, Calls;
    ghost var t';
    match op
    case Push(e) =>
      m, t' := Insert(a, e, c, t);
    case Pop =>
      m := null;
      if a != null {
        m, t' := Remove(a, a, c, t);
      }
  }

  /** A run from the empty heap keeps to the bound: the calls counted are those of the comparator. */
  method Run(ops: seq<Op>, c: Comparing) returns (m: Entry?, ghost t: Tree)
    requires Legal(Leaf, ops, c.order) && Sound(c.order, Pushed(ops))
    modifies Pushed(ops), c`made
    ensures IsHeap(m, t) && t == AfterRun(Leaf, ops, c.order)
    ensures c.made - old(c.made) == RunCalls(Leaf, ops, c.order)
    ensures c.made - old(c.made) <= |ops| * (4 * Lg(|ops| + 1) + 2)
  {
    hide IsHeap, Sound, Nodes, After, OpCalls;
    ghost var all, comp := Pushed(ops), c.order;
    EmptyHeap(all);
    m, t := null, Leaf;
    var i := 0;
    assert ops[0..] == ops;
    while i < |ops|
      invariant i <= |ops| && IsHeap(m, t) && Nodes(t) <= all && Legal(t, ops[i..], comp)
      invariant c.made - old(c.made) + RunCalls(t, ops[i..], comp) == RunCalls(Leaf, ops, comp)
      invariant AfterRun(t, ops[i..], comp) == AfterRun(Leaf, ops, comp)
    {
      assert ops[i] in ops && ops[i..][0] == ops[i] && ops[i..][1..] == ops[i + 1..];
      m := Operate(m, ops[i], c, t, all);
      t := After(t, ops[i], comp);
      i := i + 1;
    }
    RunFromEmpty(ops, comp);
  }

  lemma EmptyHeap(all: set<Entry>)
    ensures IsHeap(null, Leaf) && Nodes(Leaf) <= all
  {
  }

  /** Removing the root until nothing is left. */
  function Drained(t: Tree, comp: Comparator): seq<Entry>
    decreases Size(t)
  {
    if t.Leaf? then []
    else
      MergedSize(t.left, t.right, comp);
      [t.top] + Drained(Merged(t.left, t.right, comp), comp)
  }

  lemma {:induction false} PopKeepsHeap(t: Tree, comp: Comparator)
    requires t.Node? && Ordered(t) && Distinct(t) && Sound(comp, Nodes(t))
    ensures var m := Merged(t.left, t.right, comp);
      Size(m) < Size(t) && Ordered(m) && Distinct(m) && Sound(comp, Nodes(m)) &&
      Nodes(t) == Nodes(m) + {t.top} && t.top !in Nodes(m)
    ensures forall n :: n in Nodes(t) ==> t.top.rank <= n.rank
  {
    MergedSize(t.left, t.right, comp);
    MergedNodes(t.left, t.right, comp);
    MergedDistinct(t.left, t.right, comp);
    MergedOrdered(t.left, t.right, comp);
    RootIsLeast(t);
  }

  ghost predicate InOrderOfRank(d: seq<Entry>) {
    forall i, j :: 0 <= i < j < |d| ==> d[i].rank <= d[j].rank && d[i] != d[j]
  }

  function Elements(d: seq<Entry>): set<Entry> {
    set e | e in d
  }

  lemma PrependLeast(e: Entry, d: seq<Entry>)
    requires InOrderOfRank(d) && forall n :: n in Elements(d) ==> e.rank <= n.rank && n != e
    ensures InOrderOfRank([e] + d) && Elements([e] + d) == {e} + Elements(d)
  {
    assert forall i :: 0 <= i < |d| ==> d[i] in Elements(d);
  }

  /** Draining a heap hands out each of its entries once, in order of rank. */
  lemma {:induction false} DrainedIsSorted(t: Tree, comp: Comparator)
    requires Ordered(t) && Distinct(t) && Sound(comp, Nodes(t))
    ensures InOrderOfRank(Drained(t, comp))
    ensures Elements(Drained(t, comp)) == Nodes(t)
    decreases Size(t)
  {
    if t.Leaf? {
    } else {
      PopKeepsHeap(t, comp);
      var m := Merged(t.left, t.right, comp);
      DrainedIsSorted(m, comp);
      assert Drained(t, comp) == [t.top] + Drained(m, comp);
      PrependLeast(t.top, Drained(m, comp));
    }
  }
}
