/**
 What an image shows of a host directory, said of the entries themselves: which of them appear, under which names,
 and as what.
 */
module SfsMirror {
  import opened SfsLayout
  import opened SfsTree

  /** The positions of the directories, files and symbolic links among the first `k` entries whose names do not
      start with byte 46, a dot. */
  function Indices(es: seq<Entry>, k: nat): (r: seq<nat>)
    requires k <= |es|
    ensures forall a :: 0 <= a < |r| ==> r[a] < k
    ensures forall a, b :: 0 <= a < b < |r| ==> r[a] < r[b]
    ensures forall j :: 0 <= j < k ==>
      (j in r
       <==> (es[j].node.Dir? || es[j].node.File? || es[j].node.Link?) && (es[j].name == [] || es[j].name[0] != 46))
  {
    if k == 0 then []
    else
      var e, r := es[k - 1], Indices(es, k - 1);
      if !e.node.Special? && (e.name == [] || e.name[0] != 46) then r + [k - 1] else r
  }

  /** The placement `p` shows the node `n`: a file its contents, a symbolic link its target, and a directory its
      entries, as below. */
  ghost predicate Mirrors(p: Placed, n: Node)
    decreases n, 0
  {
    match n
    case Dir(_, es) => p.PlacedDir? && KidsMirror(p.kids, es, |es|)
    case File(_, data) => p.PlacedFile? && p.data == data
    case Link(_, target) => p.PlacedLink? && p.target == target
    case Special(_) => false
  }

  /** The kids are, in order and one for one, the entries at those positions, each with the first 252 bytes of its
      name; so no name starts with a dot. */
  ghost predicate KidsMirror(kids: seq<Kid>, es: seq<Entry>, k: nat)
    requires k <= |es|
    decreases es, k
  {
    var r := Indices(es, k);
    && |kids| == |r|
    && forall a :: 0 <= a < |r| ==> KidMirrors(kids[a], es[r[a]])
  }

  ghost predicate KidMirrors(kid: Kid, e: Entry)
    decreases e, 0
  {
    && kid.name == (if |e.name| <= 252 then e.name else e.name[..252])
    && (kid.name == [] || kid.name[0] != 46) && Mirrors(kid.node, e.node)
  }

  lemma ClippedIs(name: Bytes)
    ensures Clipped(name) == if |name| <= 252 then name else name[..252]
    ensures Clipped(name) == [] <==> name == []
    ensures name != [] ==> Clipped(name)[0] == name[0]
  {
  }

  /** Indices pick exactly the entries that are kept. */
  lemma KeptIs(e: Entry)
    ensures Kept(e) <==> (e.node.Dir? || e.node.File? || e.node.Link?) && (e.name == [] || e.name[0] != 46)
  {
  }

  lemma {:induction false} Mirrored(p: Placed, n: Node)
    requires Erased(p) == PlainOf(n) && !n.Special?
    ensures Mirrors(p, n)
    decreases n, 0
  {
    match n
    case Dir(_, es) => KidsMirrored(p.kids, es, |es|);
    case File(_, _) =>
    case Link(_, _) =>
  }

  lemma {:induction false} KidsMirrored(kids: seq<Kid>, es: seq<Entry>, k: nat)
    requires k <= |es| && ErasedKids(kids) == PlainKids(es, k)
    ensures KidsMirror(kids, es, k)
    decreases es, k
  {
    hide Kept, Clipped, PlainOf, Erased, Mirrors, KidsMirror, Indices, PlainKids, ErasedKids;
    NoPlainKids(es);
    if k == 0 {
      NothingMirrors(es);
    } else {
      var e := es[k - 1];
      KeptIs(e);
      IndicesStep(es, k);
      if Kept(e) {
        ClippedIs(e.name);
        LastErased(kids, es, k);
        KidsMirrored(kids[..|kids| - 1], es, k - 1);
        Mirrored(kids[|kids| - 1].node, e.node);
        OneMoreMirrors(kids, es, k);
      } else {
        SkippedPlain(es, k);
        KidsMirrored(kids, es, k - 1);
        SkippedMirrors(kids, es, k);
      }
    }
  }

  lemma LastErased(kids: seq<Kid>, es: seq<Entry>, k: nat)
    requires 0 < k <= |es| && ErasedKids(kids) == PlainKids(es, k) && Kept(es[k - 1])
    ensures kids != []
    ensures var front, last, e := kids[..|kids| - 1], kids[|kids| - 1], es[k - 1];
      && ErasedKids(front) == PlainKids(es, k - 1)
      && last.name == Clipped(e.name) && Erased(last.node) == PlainOf(e.node)
  {
    hide Kept, Clipped, PlainOf, Erased;
    var e := es[k - 1];
    assert kids != [];
    var front, last := kids[..|kids| - 1], kids[|kids| - 1];
    SnocEqual(ErasedKids(front), PlainKid(last.name, Erased(last.node)),
              PlainKids(es, k - 1), PlainKid(Clipped(e.name), PlainOf(e.node)));
  }

  lemma {:induction false} NoPlainKids(es: seq<Entry>)
    ensures PlainKids(es, 0) == []
  {
  }

  lemma SkippedPlain(es: seq<Entry>, k: nat)
    requires 0 < k <= |es| && !Kept(es[k - 1])
    ensures PlainKids(es, k) == PlainKids(es, k - 1)
  {
  }

  lemma {:induction false} NothingMirrors(es: seq<Entry>)
    ensures KidsMirror([], es, 0)
  {
  }

  lemma IndicesStep(es: seq<Entry>, k: nat)
    requires 0 < k <= |es|
    ensures var e, r := es[k - 1], Indices(es, k - 1);
      Indices(es, k) == if !e.node.Special? && (e.name == [] || e.name[0] != 46) then r + [k - 1] else r
  {
  }

  lemma SkippedMirrors(kids: seq<Kid>, es: seq<Entry>, k: nat)
    requires 0 < k <= |es| && Indices(es, k) == Indices(es, k - 1) && KidsMirror(kids, es, k - 1)
    ensures KidsMirror(kids, es, k)
  {
    hide Mirrors, Indices;
  }

  lemma {:induction false} OneMoreMirrors(kids: seq<Kid>, es: seq<Entry>, k: nat)
    requires 0 < k <= |es| && kids != [] && Indices(es, k) == Indices(es, k - 1) + [k - 1]
    requires KidsMirror(kids[..|kids| - 1], es, k - 1)
    requires KidMirrors(kids[|kids| - 1], es[k - 1])
    ensures KidsMirror(kids, es, k)
  {
    hide KidMirrors, Indices;
    var r, front := Indices(es, k - 1), kids[..|kids| - 1];
    assert forall a :: 0 <= a < |r| ==> kids[a] == front[a] && Indices(es, k)[a] == r[a];
    assert Indices(es, k)[|r|] == k - 1;
  }

  // ----- what can be shown

  /** The limits of the format, in numbers: 128 MiB for a file, 4095 bytes for the target of a symbolic link, 32766
      entries that appear for a directory, and 255 bytes for a name, also that of an entry that is reported and
      skipped. */
  ghost predicate Holdable(n: Node)
    decreases n
  {
    match n
    case Dir(_, es) => |Indices(es, |es|)| <= 32766 && forall j :: 0 <= j < |es| ==> EntryHoldable(es[j])
    case File(_, data) => |data| <= 134217728
    case Link(_, target) => |target| <= 4095
    case Special(_) => true
  }

  ghost predicate EntryHoldable(e: Entry)
    decreases e
  {
    (e.name == [] || e.name[0] != 46) ==> |e.name| <= 255 && Holdable(e.node)
  }

  lemma {:induction false} FitsIff(n: Node)
    ensures Fits(n) <==> Holdable(n)
    decreases n, 0
  {
    match n
    case Dir(_, es) =>
      KidsFitIff(es, |es|);
      IndicesCount(es, |es|);
    case File(_, data) =>
    case Link(_, _) =>
    case Special(_) =>
  }

  lemma {:induction false} KidsFitIff(es: seq<Entry>, k: nat)
    requires k <= |es|
    ensures KidsFit(es, k) <==> forall j :: 0 <= j < k ==> EntryHoldable(es[j])
    decreases es, k
  {
    hide Fits, Holdable;
    if k == 0 {
    } else {
      KidsFitIff(es, k - 1);
      FitsIff(es[k - 1].node);
      SpecialFits(es[k - 1].node);
    }
  }

  lemma {:induction false} SpecialFits(n: Node)
    ensures n.Special? ==> Fits(n)
  {
  }

  lemma {:induction false} NoIndices(es: seq<Entry>)
    ensures Indices(es, 0) == []
  {
  }

  lemma {:induction false} IndicesCount(es: seq<Entry>, k: nat)
    requires k <= |es|
    ensures |Indices(es, k)| == KeptCount(es, k)
    decreases k
  {
    hide Indices, Kept;
    if k == 0 {
      NoIndices(es);
    } else {
      IndicesCount(es, k - 1);
      KeptIs(es[k - 1]);
      IndicesStep(es, k);
    }
  }
}
