/** One insertion into a threaded tree, step by step. */
module TavlProbing {
  import opened AvlTrees
  import opened AvlArena
  import opened AvlPaths
  import opened AvlProbing
  import opened TavlArena
  import opened TavlTurns
  import opened TavlCaches

  /** The records show a good search tree. */
  ghost predicate Sound(nodes: seq<TNode>, t: Tree) {
    Threaded(nodes, t, -1, -1) && NoShare(t) && Balanced(t) && Sorted(t)
  }

  /** The node the search has come to. */
  lemma {:induction false} ThreadedAt(nodes: seq<TNode>, t: Tree, key: int, py: seq<bool>, w: seq<bool>, y: int, z: int, p: int, q: int)
    requires Descending(t, key, py, w, y, z, p, q) && p != -1 && Sound(nodes, t) && Size(t) < TAVL_LIMIT
    ensures Sub(t, py + w).N? && |py + w| < Height(t) && 0 < TAVL_MAX_HEIGHT
    ensures Sub(t, py + w).balance == 0 ==> |w| < TAVL_MAX_HEIGHT
    ensures 0 <= p < |nodes| && p in Ids(t) && nodes[p].item.key in Keys(t)
    ensures nodes[p].item == Sub(t, py + w).item && nodes[p].balance == Sub(t, py + w).balance
    ensures forall d :: IsThread(nodes[p], d) <==> Ptr(Child(Sub(t, py + w), d)) == -1
    ensures forall d :: !IsThread(nodes[p], d) ==> TLink(nodes[p], d) == Ptr(Child(Sub(t, py + w), d))
  {
    SubThreads(nodes, t, -1, -1, py + w);
    SubIds(t, py + w);
    SubHeight(t, py + w);
    if w != [] && Sub(t, py + w).balance == 0 {
      CacheSuffices(t, py, w);
    }
    assert Sub(t, py + w).item.key in Keys(Sub(t, py + w));
  }

  /** The search for a key that is not there has ended below `y`, at the end of `py`. */
  ghost predicate Missing(nodes: seq<TNode>, t: Tree, key: int, py: seq<bool>, w: seq<bool>, y: int, z: int, q: int) {
    var ty := Sub(t, py);
    && key !in Keys(t) && key !in Keys(ty) && ty.N? && y == ty.id && w != []
    && OnWay(t, py, key) && OnWay(ty, w, key) && Sub(ty, w) == Nil
    && q == Above(ty, w) && 0 <= q < |nodes| && z == Above(t, py)
    && EvenPath(Toward(ty, key), key) && (py != [] ==> ty.balance != 0)
    && Sound(nodes, t) && NoShare(ty) && Balanced(ty) && Sorted(ty)
    && Threaded(nodes, ty, Lo(t, py, -1), Hi(t, py, -1))
  }

  lemma {:induction false} MissingHere(nodes: seq<TNode>, t: Tree, key: int, py: seq<bool>, w: seq<bool>, y: int, z: int, p: int, q: int)
    requires Descending(t, key, py, w, y, z, p, q) && p == -1 && Sound(nodes, t) && t != Nil
    ensures key !in Keys(t) && Missing(nodes, t, key, py, w, y, z, q)
  {
    Settled(t, key, py, w, y, z, p, q);
    SubThreads(nodes, t, -1, -1, py);
    SubIds(t, py);
    var ty := Sub(t, py);
    HangAbove(ty, w, Item(key, 0), |nodes|, |w| - 1);
    ThreadedIds(nodes, ty, Lo(t, py, -1), Hi(t, py, -1));
  }

  lemma {:induction false} MissingFacts(nodes: seq<TNode>, t: Tree, key: int, py: seq<bool>, w: seq<bool>, y: int, z: int, q: int)
    requires Missing(nodes, t, key, py, w, y, z, q)
    ensures w != [] && 0 <= q < |nodes|
  {
  }

  // ---- The leaf ----

  /** The record of a new leaf on side `d` of `q`: one thread to `q`, the other where `q`'s went. */
  function NewRecord(n: TNode, q: int, d: bool, x: Item): TNode {
    TNode(if d then q else n.left, if d then n.right else q, true, true, x, 0)
  }

  lemma {:induction false} HangThreads(nodes: seq<TNode>, nodes': seq<TNode>, t: Tree, lo: int, hi: int, path: seq<bool>, x: Item, q: nat)
    requires Threaded(nodes, t, lo, hi) && NoShare(t) && OnWay(t, path, x.key) && Sub(t, path) == Nil
    requires path != [] && q == Above(t, path) && q < |nodes|
    requires var d := path[|path| - 1];
             nodes' == nodes[q := SetThread(SetTLink(nodes[q], d, |nodes|), d, false)] + [NewRecord(nodes[q], q, d, x)]
    ensures Threaded(nodes', Replace(t, path, Leaf(x, |nodes|)), lo, hi)
    ensures Within(nodes, nodes', Ids(t))
  {
    var above, d, leaf := path[..|path| - 1], path[|path| - 1], Leaf(x, |nodes|);
    assert path == above + [d];
    HangAbove(t, path, x, |nodes|, |path| - 1);
    SubSnoc(t, above, d);
    ReplaceSnoc(t, above, d, leaf);
    SubThreads(nodes, t, lo, hi, above);
    SubIds(t, above);
    ThreadedIds(nodes, t, lo, hi);
    var u, lo', hi' := Sub(t, above), Lo(t, above, lo), Hi(t, above, hi);
    Apart(u);
    assert Within(nodes, nodes', {q});
    SameOn(nodes, nodes', {q}, Ids(Child(u, !d)));
    SameOn(nodes, nodes', {q}, Ids(t) - Ids(u));
    assert Threaded(nodes', leaf, if d then u.id else lo', if d then hi' else u.id);
    assert q in Ids(t);
    hide Threaded, Same, Replace, Sub, Lo, Hi, NoShare, OnWay;
    NewChild(nodes, nodes', u, lo', hi', d, leaf);
    RebuildThreads(nodes, nodes', t, lo, hi, above, WithChild(u, d, leaf));
  }

  // ---- The balances ----

  function TRebalance(n: TNode, d: bool): TNode {
    n.(balance := if d then n.balance + 1 else n.balance - 1)
  }

  ghost predicate TAdjusting(nodes: seq<TNode>, t: Tree, lo: int, hi: int, path: seq<bool>, k: nat, p: int) {
    && k <= |path| && p == Ptr(Sub(t, path[..k]))
    && NoShare(Adjust(t, path, k)) && Ids(Adjust(t, path, k)) == Ids(t)
    && Threaded(nodes, Adjust(t, path, k), lo, hi)
  }

  lemma {:induction false} TAdjustStep(nodes: seq<TNode>, t: Tree, lo: int, hi: int, path: seq<bool>, k: nat, p: int)
    requires TAdjusting(nodes, t, lo, hi, path, k, p) && k < |path| && Sub(t, path[..k]).N?
    requires Sub(t, path[..k + 1]).N?
    ensures 0 <= p < |nodes| && p in Ids(t)
    ensures TAdjusting(nodes[p := TRebalance(nodes[p], path[k])], t, lo, hi, path, k + 1, TLink(nodes[p], path[k]))
  {
    AdjustStep(t, path, k);
    var u, above := Adjust(t, path, k), path[..k];
    var s := Sub(u, above);
    SubThreads(nodes, u, lo, hi, above);
    SubIds(t, above);
    SubIds(u, above);
    assert path[..k + 1] == above + [path[k]];
    SubSnoc(t, above, path[k]);
    var nodes' := nodes[p := TRebalance(nodes[p], path[k])];
    var r := Rebalanced(s, path[k]);
    assert Ids(r) == Ids(s) && NoShare(r) && p in Ids(s);
    Apart(s);
    SameOn(nodes, nodes', {p}, Ids(s.left));
    SameOn(nodes, nodes', {p}, Ids(s.right));
    SameOn(nodes, nodes', {p}, Ids(u) - Ids(s));
    var lo', hi' := Lo(u, above, lo), Hi(u, above, hi);
    FrameThreads(nodes, nodes', s.left, lo', s.id);
    FrameThreads(nodes, nodes', s.right, s.id, hi');
    assert Threaded(nodes', r, lo', hi');
    hide Replace, Sub, Adjust, Threaded, Lo, Hi, Same, NoShare, Ids;
    RebuildThreads(nodes, nodes', u, lo, hi, above, r);
    ReplaceIds(u, above, r);
  }

  /** The balances of the first `k` nodes on the way to the new leaf have been adjusted. */
  ghost predicate TGrowing(nodes: seq<TNode>, nodes': seq<TNode>, t: Tree, lo: int, hi: int, x: Item, w: seq<bool>, k: nat, p: int) {
    && OnWay(t, w, x.key) && Sub(t, w) == Nil && |nodes| !in Ids(t)
    && TAdjusting(nodes', Replace(t, w, Leaf(x, |nodes|)), lo, hi, w, k, p)
    && Within(nodes, nodes', Ids(t)) && TNew(nodes, nodes', x)
  }

  /** The first new record holds the item. */
  ghost predicate TNew(nodes: seq<TNode>, nodes': seq<TNode>, x: Item) {
    |nodes| < |nodes'| && nodes'[|nodes|].item == x
  }

  lemma {:induction false} TGrowStart(nodes: seq<TNode>, nodes': seq<TNode>, t: Tree, x: Item, py: seq<bool>, w: seq<bool>, y: int, z: int, q: nat)
    requires Missing(nodes, t, x.key, py, w, y, z, q) && q < |nodes| && w != []
    requires var d := w[|w| - 1];
             nodes' == nodes[q := SetThread(SetTLink(nodes[q], d, |nodes|), d, false)] + [NewRecord(nodes[q], q, d, x)]
    ensures TGrowing(nodes, nodes', Sub(t, py), Lo(t, py, -1), Hi(t, py, -1), x, w, 0, y)
  {
    var ty := Sub(t, py);
    ThreadedIds(nodes, ty, Lo(t, py, -1), Hi(t, py, -1));
    HangThreads(nodes, nodes', ty, Lo(t, py, -1), Hi(t, py, -1), w, x, q);
    Hang(ty, w, x, |nodes|);
    assert w[..0] == [];
  }

  lemma {:induction false} TGrowNext(nodes: seq<TNode>, nodes': seq<TNode>, t: Tree, lo: int, hi: int, x: Item, w: seq<bool>, k: nat, p: int)
    requires TGrowing(nodes, nodes', t, lo, hi, x, w, k, p)
    ensures p == |nodes| ==> k == |w|
    ensures p != |nodes| ==> k < |w| && 0 <= p < |nodes'|
    ensures p != |nodes| ==> TGrowing(nodes, nodes'[p := TRebalance(nodes'[p], w[k])], t, lo, hi, x, w, k + 1, TLink(nodes'[p], w[k]))
    ensures p != |nodes| ==> TLink(TRebalance(nodes'[p], w[k]), w[k]) == TLink(nodes'[p], w[k])
  {
    var leaf := Leaf(x, |nodes|);
    var u := Replace(t, w, leaf);
    Hang(t, w, x, |nodes|);
    if k < |w| {
      HangAbove(t, w, x, |nodes|, k);
      if k + 1 < |w| {
        HangAbove(t, w, x, |nodes|, k + 1);
      } else {
        assert w[..k + 1] == w;
      }
      TAdjustStep(nodes', u, lo, hi, w, k, p);
    } else {
      assert w[..k] == w;
    }
  }

  /** All of them: the subtree at `y` has grown. */
  lemma {:induction false} TGrown(nodes: seq<TNode>, nodes': seq<TNode>, t: Tree, x: Item, py: seq<bool>, w: seq<bool>, y: int, z: int, q: int, p: int)
    requires Missing(nodes, t, x.key, py, w, y, z, q) && TGrowing(nodes, nodes', Sub(t, py), Lo(t, py, -1), Hi(t, py, -1), x, w, |w|, p)
    ensures 0 <= y < |nodes'| && nodes'[y].balance == Grow(Sub(t, py), x, |nodes|).balance
    ensures Grow(Sub(t, py), x, |nodes|).N? && Grow(Sub(t, py), x, |nodes|).id == y
    ensures Threaded(nodes', Grow(Sub(t, py), x, |nodes|), Lo(t, py, -1), Hi(t, py, -1))
    ensures Rotatable(Grow(Sub(t, py), x, |nodes|))
    ensures Within(nodes, nodes', Ids(Sub(t, py))) && TNew(nodes, nodes', x)
    ensures -2 <= nodes'[y].balance <= 2
  {
    hide Sorted, Balanced, EvenPath, Keys, Items, OnWay, Replace, NoShare, Lo, Hi;
    var ty, id := Sub(t, py), |nodes|;
    Hang(ty, w, x, id);
    AdjustAll(ty, w, x, id);
    GrownRotatable(ty, x, id);
    assert Grow(ty, x, id).N? && Grow(ty, x, id).id == ty.id;
    hide Adjust, Grow, Sub;
    assert Threaded(nodes', Grow(ty, x, id), Lo(t, py, -1), Hi(t, py, -1));
  }

  // ---- Back into the whole tree ----

  /** No rotation was called for. */
  lemma {:induction false} TFlat(nodes: seq<TNode>, nodes': seq<TNode>, t: Tree, x: Item, py: seq<bool>, w: seq<bool>, y: int, z: int, q: int)
    requires Missing(nodes, t, x.key, py, w, y, z, q) && Within(nodes, nodes', Ids(Sub(t, py)))
    requires 0 <= y < |nodes'| && nodes'[y].balance == Grow(Sub(t, py), x, |nodes|).balance
    requires Threaded(nodes', Grow(Sub(t, py), x, |nodes|), Lo(t, py, -1), Hi(t, py, -1))
    requires nodes'[y].balance != -2 && nodes'[y].balance != 2
    ensures Threaded(nodes', Insert(t, x, |nodes|), -1, -1) && Ptr(Insert(t, x, |nodes|)) == Ptr(t)
    ensures Within(nodes, nodes', Ids(t))
  {
    var s := Grow(Sub(t, py), x, |nodes|);
    InsertAt(t, py, x, |nodes|);
    SameOn(nodes, nodes', Ids(Sub(t, py)), Ids(t) - Ids(Sub(t, py)));
    SubIds(t, py);
    assert Ptr(s) == Ptr(Sub(t, py));
    assert Insert(t, x, |nodes|) == Replace(t, py, s);
    hide Replace, Sub, Threaded, Ids, NoShare, EvenPath, OnWay, Same, Grow, Insert, Lo, Hi;
    RebuildThreads(nodes, nodes', t, -1, -1, py, s);
  }

  /** A rotation was made, and the reference to the subtree has still to be changed. */
  lemma {:induction false} TTurned(nodes: seq<TNode>, grown: seq<TNode>, mid: seq<TNode>, t: Tree, x: Item, py: seq<bool>, w: seq<bool>, y: int, z: int, q: int, top: nat)
    requires Missing(nodes, t, x.key, py, w, y, z, q) && Within(nodes, grown, Ids(Sub(t, py))) && TNew(nodes, grown, x)
    requires Within(grown, mid, Ids(Grow(Sub(t, py), x, |nodes|)))
    requires Threaded(mid, Fix(Grow(Sub(t, py), x, |nodes|)), Lo(t, py, -1), Hi(t, py, -1)) && Ptr(Fix(Grow(Sub(t, py), x, |nodes|))) == top
    ensures z == -1 ==> Threaded(mid, Insert(t, x, |nodes|), -1, -1) && Ptr(Insert(t, x, |nodes|)) == top && Within(nodes, mid, Ids(t)) && TNew(nodes, mid, x)
    ensures z != -1 ==> 0 <= z < |mid|
    ensures z != -1 ==> var nodes' := mid[z := SetTLink(mid[z], y != mid[z].left, top)];
                        && Threaded(nodes', Insert(t, x, |nodes|), -1, -1) && Ptr(Insert(t, x, |nodes|)) == Ptr(t)
                        && Within(nodes, nodes', Ids(t)) && TNew(nodes, nodes', x)
  {
    var s := Fix(Grow(Sub(t, py), x, |nodes|));
    GrowContents(Sub(t, py), x, |nodes|);
    FixFacts(Grow(Sub(t, py), x, |nodes|));
    WithinThen(nodes, grown, mid, Ids(Sub(t, py)), Ids(Grow(Sub(t, py), x, |nodes|)));
    InsertAt(t, py, x, |nodes|);
    if py != [] {
      Relinked(nodes, mid, t, py, s, y, z);
    }
  }

  /** The subtree at the path has a new root, and the node above is told so. */
  lemma {:induction false} Relinked(nodes: seq<TNode>, mid: seq<TNode>, t: Tree, path: seq<bool>, s: Tree, y: int, z: int)
    requires Threaded(nodes, t, -1, -1) && NoShare(t) && Sub(t, path).N? && path != [] && y == Ptr(Sub(t, path)) && z == Above(t, path)
    requires Within(nodes, mid, Ids(Sub(t, path))) && Threaded(mid, s, Lo(t, path, -1), Hi(t, path, -1)) && s.N?
    requires forall i :: i in Ids(s) ==> i in Ids(Sub(t, path)) || i >= |nodes|
    ensures 0 <= z < |nodes| && z < |mid| && (y != mid[z].left) == path[|path| - 1]
    ensures var nodes' := mid[z := SetTLink(mid[z], y != mid[z].left, s.id)];
            Threaded(nodes', Replace(t, path, s), -1, -1) && Ptr(Replace(t, path, s)) == Ptr(t) && Within(nodes, nodes', Ids(t))
  {
    var d := path[|path| - 1];
    TWhich(nodes, t, path, y, z);
    assert mid[z] == nodes[z];
    var nodes' := mid[z := SetTLink(mid[z], d, s.id)];
    assert Within(mid, nodes', {z});
    SameOn(mid, nodes', {z}, Ids(s));
    FrameThreads(mid, nodes', s, Lo(t, path, -1), Hi(t, path, -1));
    hide Threaded, Sub, Lo, Hi, NoShare, Ids, Replace;
    SwapThreads(nodes, nodes', t, -1, -1, path, s, z);
  }

  /** Which child of `z` the node `y` is, the source finds by comparing references. */
  lemma {:induction false} TWhich(nodes: seq<TNode>, t: Tree, path: seq<bool>, y: int, z: int)
    requires Threaded(nodes, t, -1, -1) && NoShare(t) && Sub(t, path).N? && path != [] && y == Ptr(Sub(t, path)) && z == Above(t, path)
    ensures 0 <= z < |nodes| && z in Ids(t) && z !in Ids(Sub(t, path))
    ensures (y != nodes[z].left) == path[|path| - 1] && !IsThread(nodes[z], path[|path| - 1])
  {
    var above, d := path[..|path| - 1], path[|path| - 1];
    ParentOf(t, path);
    SubThreads(nodes, t, -1, -1, above);
    SubIds(t, above);
    LoHiOutside(t, -1, -1, above);
    var u := Sub(t, above);
    Apart(u);
    assert y in Ids(Sub(t, path));
    if d && u.left.N? {
      assert u.left.id in Ids(u.left);
    }
  }
}
