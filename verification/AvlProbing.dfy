/** One insertion, step by step: the way down, the new leaf, the balances, the rotation. */
module AvlProbing {
  import opened AvlTrees
  import opened AvlArena
  import opened AvlPaths

  function Link(n: Node, right: bool): int {
    if right then n.right else n.left
  }

  function SetLink(n: Node, right: bool, p: int): Node {
    if right then n.(right := p) else n.(left := p)
  }

  ghost function Leaf(x: Item, id: nat): Tree {
    N(id, Nil, x, 0, Nil)
  }

  /** The node above the end of the path; -1 stands for the table's own root reference. */
  ghost function Above(t: Tree, path: seq<bool>): int {
    if path == [] then -1 else Ptr(Sub(t, path[..|path| - 1]))
  }

  /** Only records of these nodes have changed, and no record has another item. */
  ghost predicate OnlyIn(nodes: seq<Node>, nodes': seq<Node>, ids: set<nat>) {
    && |nodes| <= |nodes'|
    && (forall i: nat :: i < |nodes| && i !in ids ==> nodes'[i] == nodes[i])
    && (forall i: nat :: i < |nodes| ==> nodes'[i].item == nodes[i].item)
  }

  // ---- The way down ----

  /** The state of the search: `y` at the end of `py` is the lowest node so far that is not
      even (or the root), `p` is at the end of `py + w`, `z` and `q` are above them. */
  ghost predicate Descending(t: Tree, key: int, py: seq<bool>, w: seq<bool>, y: int, z: int, p: int, q: int) {
    && OnWay(t, py + w, key)
    && y == Ptr(Sub(t, py)) && p == Ptr(Sub(t, py + w))
    && z == Above(t, py) && q == Above(t, py + w)
    && (py != [] ==> Sub(t, py).N? && Sub(t, py).balance != 0)
    && (w == [] ==> py == [])
    && (w != [] ==> Sub(t, py).N? && EvenAlong(Child(Sub(t, py), w[0]), w[1..]))
  }

  lemma {:induction false} DescendStart(t: Tree, key: int)
    ensures Descending(t, key, [], [], Ptr(t), -1, Ptr(t), -1)
  {
    var path: seq<bool> := [];
    assert path + path == path;
  }

  lemma {:induction false} DescendEven(t: Tree, key: int, py: seq<bool>, w: seq<bool>, y: int, z: int, p: int, q: int, d: bool)
    requires Descending(t, key, py, w, y, z, p, q) && Sub(t, py + w).N?
    requires Sub(t, py + w).balance == 0 && Sub(t, py + w).item.key != key && d == (key > Sub(t, py + w).item.key)
    ensures Descending(t, key, py, w + [d], y, z, Ptr(Child(Sub(t, py + w), d)), p)
  {
    assert py + (w + [d]) == (py + w) + [d];
    OnWaySnoc(t, py + w, key);
    SubSnoc(t, py + w, d);
    assert ((py + w) + [d])[..|py + w|] == py + w;
    if w == [] {
      assert py + w == py;
      assert (w + [d])[1..] == [];
    } else {
      assert (w + [d])[1..] == w[1..] + [d];
      SubConcat(t, py, w);
      EvenSnoc(Child(Sub(t, py), w[0]), w[1..], d);
    }
  }

  lemma {:induction false} DescendUneven(t: Tree, key: int, py: seq<bool>, w: seq<bool>, y: int, z: int, p: int, q: int, d: bool)
    requires Descending(t, key, py, w, y, z, p, q) && Sub(t, py + w).N?
    requires Sub(t, py + w).balance != 0 && Sub(t, py + w).item.key != key && d == (key > Sub(t, py + w).item.key)
    ensures Descending(t, key, py + w, [d], p, q, Ptr(Child(Sub(t, py + w), d)), p)
  {
    OnWaySnoc(t, py + w, key);
    SubSnoc(t, py + w, d);
    assert ((py + w) + [d])[..|py + w|] == py + w;
    assert [d][1..] == [];
  }

  // ---- A leaf hung at the end of the way ----

  lemma {:induction false} Hang(t: Tree, path: seq<bool>, x: Item, id: nat)
    requires OnWay(t, path, x.key) && Sub(t, path) == Nil && id !in Ids(t)
    ensures Sub(Replace(t, path, Leaf(x, id)), path) == Leaf(x, id)
    ensures Ids(Replace(t, path, Leaf(x, id))) == Ids(t) + {id}
    ensures NoShare(t) ==> NoShare(Replace(t, path, Leaf(x, id)))
    ensures path != [] ==> Ptr(Replace(t, path, Leaf(x, id))) == Ptr(t)
    decreases |path|
  {
    if path != [] {
      Hang(Child(t, path[0]), path[1..], x, id);
    }
  }

  /** The nodes above the leaf are those that were there. */
  lemma {:induction false} HangAbove(t: Tree, path: seq<bool>, x: Item, id: nat, k: nat)
    requires OnWay(t, path, x.key) && Sub(t, path) == Nil && k < |path|
    ensures Sub(t, path[..k]).N? && Sub(t, path[..k]).id in Ids(t)
    ensures Ptr(Sub(Replace(t, path, Leaf(x, id)), path[..k])) == Sub(t, path[..k]).id
    decreases k
  {
    if k > 0 {
      assert path[..k][1..] == path[1..][..k - 1];
      HangAbove(Child(t, path[0]), path[1..], x, id, k - 1);
    } else {
      assert path[..0] == [];
    }
  }

  /** The records after the leaf is linked to the node above it. */
  lemma {:induction false} HangRep(nodes: seq<Node>, nodes': seq<Node>, t: Tree, path: seq<bool>, x: Item, q: nat)
    requires Rep(nodes, Ptr(t), t) && NoShare(t) && OnWay(t, path, x.key) && Sub(t, path) == Nil
    requires path != [] && q == Above(t, path) && q < |nodes|
    requires nodes' == nodes[q := SetLink(nodes[q], path[|path| - 1], |nodes|)] + [Node(-1, -1, x, 0)]
    ensures Rep(nodes', Ptr(t), Replace(t, path, Leaf(x, |nodes|)))
    ensures OnlyIn(nodes, nodes', Ids(t))
  {
    var above, d, leaf := path[..|path| - 1], path[|path| - 1], Leaf(x, |nodes|);
    assert path == above + [d];
    HangAbove(t, path, x, |nodes|, |path| - 1);
    SubSnoc(t, above, d);
    ReplaceSnoc(t, above, d, leaf);
    SubRep(nodes, Ptr(t), t, above);
    SubIds(t, above);
    IdsBelow(nodes, Ptr(t), t);
    var s := Sub(t, above);
    hide Replace, Sub, OnWay;
    Frame(nodes, nodes', Ptr(Child(s, !d)), Child(s, !d));
    assert Rep(nodes', |nodes|, leaf);
    assert Rep(nodes', Ptr(s), WithChild(s, d, leaf));
    Rebuild(nodes, nodes', Ptr(t), t, above, WithChild(s, d, leaf));
  }

  // ---- The balances ----

  /** The balances of the first `k` nodes down from `y` are adjusted, `p` is the next. */
  ghost predicate Adjusting(nodes: seq<Node>, t: Tree, path: seq<bool>, k: nat, p: int) {
    && k <= |path| && p == Ptr(Sub(t, path[..k]))
    && NoShare(Adjust(t, path, k)) && Ids(Adjust(t, path, k)) == Ids(t)
    && Rep(nodes, Ptr(t), Adjust(t, path, k))
  }

  lemma {:induction false} AdjustStart(nodes: seq<Node>, t: Tree, path: seq<bool>)
    requires Rep(nodes, Ptr(t), t) && NoShare(t)
    ensures Adjusting(nodes, t, path, 0, Ptr(t))
  {
    assert path[..0] == [];
  }

  function Rebalance(n: Node, d: bool): Node {
    n.(balance := if d then n.balance + 1 else n.balance - 1)
  }

  /** Where the record of the next node is, and where it leads. */
  lemma {:induction false} AdjustAt(nodes: seq<Node>, t: Tree, path: seq<bool>, k: nat, p: int)
    requires Adjusting(nodes, t, path, k, p) && k < |path| && Sub(t, path[..k]).N?
    ensures 0 <= p < |nodes| && p in Ids(t)
    ensures Link(nodes[p], path[k]) == Ptr(Sub(t, path[..k + 1]))
  {
    AdjustStep(t, path, k);
    SubRep(nodes, Ptr(t), Adjust(t, path, k), path[..k]);
    SubIds(t, path[..k]);
    assert path[..k + 1] == path[..k] + [path[k]];
    SubSnoc(t, path[..k], path[k]);
  }

  lemma {:induction false} AdjustRep(nodes: seq<Node>, t: Tree, path: seq<bool>, k: nat, p: int)
    requires Adjusting(nodes, t, path, k, p) && k < |path| && Sub(t, path[..k]).N? && 0 <= p < |nodes|
    ensures Adjusting(nodes[p := Rebalance(nodes[p], path[k])], t, path, k + 1, Ptr(Sub(t, path[..k + 1])))
  {
    var nodes' := nodes[p := Rebalance(nodes[p], path[k])];
    AdjustStep(t, path, k);
    var u, above := Adjust(t, path, k), path[..k];
    var s := Sub(u, above);
    SubRep(nodes, Ptr(t), u, above);
    SubIds(u, above);
    hide Replace, Sub, Adjust;
    var r := Rebalanced(s, path[k]);
    assert Ids(r) == Ids(s) && NoShare(r) && p in Ids(s);
    Frame(nodes, nodes', Ptr(s.left), s.left);
    Frame(nodes, nodes', Ptr(s.right), s.right);
    Rebuild(nodes, nodes', Ptr(t), u, above, r);
    ReplaceIds(u, above, r);
  }

  // ---- The rotations ----

  /** The records of a subtree turned right about its root `y`, whose left child is `x`. */
  lemma {:induction false} TurnRightRep(nodes: seq<Node>, nodes': seq<Node>, t: Tree, y: nat, x: nat)
    requires Rep(nodes, Ptr(t), t) && NoShare(t) && t.N? && t.left.N?
    requires y == t.id < |nodes| && x == t.left.id < |nodes|
    requires OnlyIn(nodes, nodes', {x, y})
    requires nodes'[y] == Node(nodes[x].right, nodes[y].right, nodes[y].item, 0)
    requires nodes'[x] == Node(nodes[x].left, y, nodes[x].item, 0)
    ensures Rep(nodes', t.left.id, TurnRight(t, 0, 0)) && OnlyIn(nodes, nodes', Ids(t))
  {
    Frame(nodes, nodes', Ptr(t.left.left), t.left.left);
    Frame(nodes, nodes', Ptr(t.left.right), t.left.right);
    Frame(nodes, nodes', Ptr(t.right), t.right);
  }

  lemma {:induction false} TurnLeftRep(nodes: seq<Node>, nodes': seq<Node>, t: Tree, y: nat, x: nat)
    requires Rep(nodes, Ptr(t), t) && NoShare(t) && t.N? && t.right.N?
    requires y == t.id < |nodes| && x == t.right.id < |nodes|
    requires OnlyIn(nodes, nodes', {x, y})
    requires nodes'[y] == Node(nodes[y].left, nodes[x].left, nodes[y].item, 0)
    requires nodes'[x] == Node(y, nodes[x].right, nodes[x].item, 0)
    ensures Rep(nodes', t.right.id, TurnLeft(t, 0, 0)) && OnlyIn(nodes, nodes', Ids(t))
  {
    Frame(nodes, nodes', Ptr(t.right.left), t.right.left);
    Frame(nodes, nodes', Ptr(t.right.right), t.right.right);
    Frame(nodes, nodes', Ptr(t.left), t.left);
  }

  lemma {:induction false} Apart(t: Tree)
    requires NoShare(t) && t.N?
    ensures Ids(t) == Ids(t.left) + {t.id} + Ids(t.right)
    ensures Ids(t.left) !! Ids(t.right) && t.id !in Ids(t.left) && t.id !in Ids(t.right)
    ensures NoShare(t.left) && NoShare(t.right)
  {
  }

  lemma {:induction false} AgreeOn(nodes: seq<Node>, nodes': seq<Node>, changed: set<nat>, ids: set<nat>)
    requires OnlyIn(nodes, nodes', changed) && changed !! ids
    ensures Agree(nodes, nodes', ids)
  {
  }

  lemma {:induction false} FixLeftIs(t: Tree)
    requires t.N? && t.left.N? && t.left.balance == 1 && t.left.right.N?
    ensures FixLeft(t) ==
            var x, w := t.left, t.left.right;
            N(w.id, N(x.id, x.left, x.item, if w.balance == 1 then -1 else 0, w.left), w.item, 0,
              N(t.id, w.right, t.item, if w.balance == -1 then 1 else 0, t.right))
  {
  }

  lemma {:induction false} FixRightIs(t: Tree)
    requires t.N? && t.right.N? && t.right.balance == -1 && t.right.left.N?
    ensures FixRight(t) ==
            var x, w := t.right, t.right.left;
            N(w.id, N(t.id, t.left, t.item, if w.balance == 1 then -1 else 0, w.left), w.item, 0,
              N(x.id, w.right, x.item, if w.balance == -1 then 1 else 0, x.right))
  {
  }

  /** Four trees under three records. */
  lemma {:induction false} JoinRep(nodes: seq<Node>, w: nat, x: nat, y: nat, a: Tree, b: Tree, c: Tree, d: Tree, top: Node, l: Node, r: Node)
    requires w < |nodes| && x < |nodes| && y < |nodes| && nodes[w] == top && nodes[x] == l && nodes[y] == r
    requires Rep(nodes, Ptr(a), a) && Rep(nodes, Ptr(b), b) && Rep(nodes, Ptr(c), c) && Rep(nodes, Ptr(d), d)
    requires l.left == Ptr(a) && l.right == Ptr(b) && r.left == Ptr(c) && r.right == Ptr(d) && top.left == x && top.right == y
    ensures Rep(nodes, w, N(w, N(x, a, l.item, l.balance, b), top.item, top.balance, N(y, c, r.item, r.balance, d)))
  {
  }

  /** The records of a double rotation: `w`, between `x` and `y`, comes to the top. */
  lemma {:induction false} DoubleRightRep(nodes: seq<Node>, nodes': seq<Node>, t: Tree, y: nat, x: nat, w: nat)
    requires Rep(nodes, Ptr(t), t) && NoShare(t) && t.N? && t.left.N? && t.left.balance == 1 && t.left.right.N?
    requires y == t.id < |nodes| && x == t.left.id < |nodes| && w == t.left.right.id < |nodes|
    requires OnlyIn(nodes, nodes', {x, y, w})
    requires nodes'[x] == Node(nodes[x].left, nodes[w].left, nodes[x].item, if nodes[w].balance == 1 then -1 else 0)
    requires nodes'[y] == Node(nodes[w].right, nodes[y].right, nodes[y].item, if nodes[w].balance == -1 then 1 else 0)
    requires nodes'[w] == Node(x, y, nodes[w].item, 0)
    ensures Rep(nodes', t.left.right.id, FixLeft(t)) && OnlyIn(nodes, nodes', Ids(t))
  {
    hide FixLeft, FixRight;
    Apart(t);
    Apart(t.left);
    Apart(t.left.right);
    assert Rep(nodes, x, t.left) && Rep(nodes, w, t.left.right);
    assert forall i :: i in Ids(t.left.right) ==> i in Ids(t.left);
    assert x in Ids(t.left) && w in Ids(t.left.right);
    hide Ids;
    AgreeOn(nodes, nodes', {x, y, w}, Ids(t.left.left));
    AgreeOn(nodes, nodes', {x, y, w}, Ids(t.left.right.left));
    AgreeOn(nodes, nodes', {x, y, w}, Ids(t.left.right.right));
    AgreeOn(nodes, nodes', {x, y, w}, Ids(t.right));
    hide NoShare, Agree;
    Frame(nodes, nodes', Ptr(t.left.left), t.left.left);
    Frame(nodes, nodes', Ptr(t.left.right.left), t.left.right.left);
    Frame(nodes, nodes', Ptr(t.left.right.right), t.left.right.right);
    Frame(nodes, nodes', Ptr(t.right), t.right);
    FixLeftIs(t);
    hide Rep;
    JoinRep(nodes', w, x, y, t.left.left, t.left.right.left, t.left.right.right, t.right, nodes'[w], nodes'[x], nodes'[y]);
  }

  lemma {:induction false} DoubleLeftRep(nodes: seq<Node>, nodes': seq<Node>, t: Tree, y: nat, x: nat, w: nat)
    requires Rep(nodes, Ptr(t), t) && NoShare(t) && t.N? && t.right.N? && t.right.balance == -1 && t.right.left.N?
    requires y == t.id < |nodes| && x == t.right.id < |nodes| && w == t.right.left.id < |nodes|
    requires OnlyIn(nodes, nodes', {x, y, w})
    requires nodes'[x] == Node(nodes[w].right, nodes[x].right, nodes[x].item, if nodes[w].balance == -1 then 1 else 0)
    requires nodes'[y] == Node(nodes[y].left, nodes[w].left, nodes[y].item, if nodes[w].balance == 1 then -1 else 0)
    requires nodes'[w] == Node(y, x, nodes[w].item, 0)
    ensures Rep(nodes', t.right.left.id, FixRight(t)) && OnlyIn(nodes, nodes', Ids(t))
  {
    hide FixLeft, FixRight;
    Apart(t);
    Apart(t.right);
    Apart(t.right.left);
    assert Rep(nodes, x, t.right) && Rep(nodes, w, t.right.left);
    assert forall i :: i in Ids(t.right.left) ==> i in Ids(t.right);
    assert x in Ids(t.right) && w in Ids(t.right.left);
    hide Ids;
    AgreeOn(nodes, nodes', {x, y, w}, Ids(t.right.right));
    AgreeOn(nodes, nodes', {x, y, w}, Ids(t.right.left.left));
    AgreeOn(nodes, nodes', {x, y, w}, Ids(t.right.left.right));
    AgreeOn(nodes, nodes', {x, y, w}, Ids(t.left));
    hide NoShare, Agree;
    Frame(nodes, nodes', Ptr(t.right.right), t.right.right);
    Frame(nodes, nodes', Ptr(t.right.left.left), t.right.left.left);
    Frame(nodes, nodes', Ptr(t.right.left.right), t.right.left.right);
    Frame(nodes, nodes', Ptr(t.left), t.left);
    FixRightIs(t);
    hide Rep;
    JoinRep(nodes', w, y, x, t.left, t.right.left.left, t.right.left.right, t.right.right, nodes'[w], nodes'[y], nodes'[x]);
  }

  /** What a tree looks like that needs a rotation after it has grown. */
  ghost predicate Rotatable(t: Tree) {
    && t.N? && NoShare(t)
    && (t.balance == -2 ==> t.left.N? && (t.left.balance == -1 || (t.left.balance == 1 && t.left.right.N? && -1 <= t.left.right.balance <= 1)))
    && (t.balance == 2 ==> t.right.N? && (t.right.balance == 1 || (t.right.balance == -1 && t.right.left.N? && -1 <= t.right.left.balance <= 1)))
    && -2 <= t.balance <= 2
  }

  lemma {:induction false} GrownRotatable(t: Tree, x: Item, id: nat)
    requires t.N? && Balanced(t) && EvenPath(Toward(t, x.key), x.key) && NoShare(t) && id !in Ids(t)
    requires Sorted(t) && x.key !in Keys(t)
    ensures Rotatable(Grow(t, x, id))
  {
    GrowSorted(t, x, id);
    if x.key < t.item.key {
      GrowEven(t.left, x, id);
    } else {
      GrowEven(t.right, x, id);
    }
  }

  // ---- Back into the whole tree ----

  /** A child has a new root: the reference of the node above is changed. */
  lemma {:induction false} RelinkChild(nodes: seq<Node>, mid: seq<Node>, nodes': seq<Node>, u: Tree, d: bool, s: Tree, z: nat)
    requires Rep(nodes, Ptr(u), u) && NoShare(u) && u.N? && z == u.id && z < |mid|
    requires OnlyIn(nodes, mid, Ids(Child(u, d))) && Rep(mid, Ptr(s), s) && s.N?
    requires forall i :: i in Ids(s) ==> i in Ids(Child(u, d)) || i >= |nodes|
    requires nodes' == mid[z := SetLink(mid[z], d, s.id)]
    ensures Rep(nodes', Ptr(u), WithChild(u, d, s)) && OnlyIn(nodes, nodes', Ids(u))
  {
    Frame(nodes, nodes', Ptr(Child(u, !d)), Child(u, !d));
    Frame(mid, nodes', Ptr(s), s);
  }

  /** The subtree at the path has a new root: the reference to it is changed. */
  lemma {:induction false} Relink(nodes: seq<Node>, mid: seq<Node>, nodes': seq<Node>, t: Tree, path: seq<bool>, s: Tree, z: nat)
    requires Rep(nodes, Ptr(t), t) && NoShare(t) && Sub(t, path).N? && path != []
    requires OnlyIn(nodes, mid, Ids(Sub(t, path))) && Rep(mid, Ptr(s), s) && s.N?
    requires forall i :: i in Ids(s) ==> i in Ids(Sub(t, path)) || i >= |nodes|
    requires z == Above(t, path) && z < |mid| && nodes' == mid[z := SetLink(mid[z], path[|path| - 1], s.id)]
    ensures Rep(nodes', Ptr(t), Replace(t, path, s))
    ensures OnlyIn(nodes, nodes', Ids(t))
  {
    var above, d := path[..|path| - 1], path[|path| - 1];
    assert path == above + [d];
    SubSnoc(t, above, d);
    ReplaceSnoc(t, above, d, s);
    SubRep(nodes, Ptr(t), t, above);
    SubIds(t, above);
    var u := Sub(t, above);
    assert u.N? && z == u.id;
    hide Replace, Sub, Rep, NoShare, Ids;
    RelinkChild(nodes, mid, nodes', u, d, s, z);
    Rebuild(nodes, nodes', Ptr(t), t, above, WithChild(u, d, s));
  }

  /** Which child of `z` the node `y` is, the source finds by comparing references. */
  lemma {:induction false} WhichChild(nodes: seq<Node>, t: Tree, path: seq<bool>, z: nat, y: int)
    requires Rep(nodes, Ptr(t), t) && NoShare(t) && Sub(t, path).N? && path != []
    requires z == Above(t, path) && y == Ptr(Sub(t, path))
    ensures z < |nodes| && z in Ids(t) && z !in Ids(Sub(t, path))
    ensures (y != nodes[z].left) == path[|path| - 1]
  {
    var above, d := path[..|path| - 1], path[|path| - 1];
    assert path == above + [d];
    SubSnoc(t, above, d);
    SubRep(nodes, Ptr(t), t, above);
    SubIds(t, above);
    var u := Sub(t, above);
    if d && u.left.N? {
      assert u.right.id in Ids(u.right) && u.left.id in Ids(u.left);
    }
  }

  /** The records a rotation touches are three different ones. */
  lemma {:induction false} Three(nodes: seq<Node>, t: Tree)
    requires Rotatable(t) && Rep(nodes, Ptr(t), t)
    ensures t.id < |nodes|
    ensures t.balance == -2 ==> nodes[t.id].left == t.left.id < |nodes| && t.left.id != t.id && nodes[t.left.id].balance == t.left.balance
    ensures t.balance == -2 && t.left.balance == 1 ==> nodes[t.left.id].right == t.left.right.id < |nodes| && t.left.right.id != t.id && t.left.right.id != t.left.id
    ensures t.balance == 2 ==> nodes[t.id].right == t.right.id < |nodes| && t.right.id != t.id && nodes[t.right.id].balance == t.right.balance
    ensures t.balance == 2 && t.right.balance == -1 ==> nodes[t.right.id].left == t.right.left.id < |nodes| && t.right.left.id != t.id && t.right.left.id != t.right.id
  {
    if t.balance == -2 {
      Apart(t);
      if t.left.balance == 1 {
        assert Rep(nodes, Ptr(t.left), t.left) && Rep(nodes, Ptr(t.left.right), t.left.right);
        assert t.left.right.id in Ids(t.left.right);
        Apart(t.left);
      }
    } else if t.balance == 2 {
      Apart(t);
      if t.right.balance == -1 {
        assert Rep(nodes, Ptr(t.right), t.right) && Rep(nodes, Ptr(t.right.left), t.right.left);
        assert t.right.left.id in Ids(t.right.left);
        Apart(t.right);
      }
    }
  }

  lemma {:induction false} LowerLeftRep(nodes: seq<Node>, nodes': seq<Node>, t: Tree, y: nat, x: nat, w: nat)
    requires Rotatable(t) && t.balance == -2 && Rep(nodes, y, t) && y < |nodes| && x < |nodes| && w < |nodes|
    requires x == t.left.id && OnlyIn(nodes, nodes', {x, y, w})
    requires nodes[x].balance == -1 ==>
               && w == x && nodes'[y] == Node(nodes[x].right, nodes[y].right, nodes[y].item, 0)
               && nodes'[x] == Node(nodes[x].left, y, nodes[x].item, 0)
    requires nodes[x].balance != -1 ==>
               && w == nodes[x].right
               && nodes'[x] == Node(nodes[x].left, nodes[w].left, nodes[x].item, if nodes[w].balance == 1 then -1 else 0)
               && nodes'[y] == Node(nodes[w].right, nodes[y].right, nodes[y].item, if nodes[w].balance == -1 then 1 else 0)
               && nodes'[w] == Node(x, y, nodes[w].item, 0)
    ensures Rep(nodes', w, FixLeft(t)) && OnlyIn(nodes, nodes', Ids(t))
  {
    Three(nodes, t);
    if t.left.balance == -1 {
      hide TurnRight;
      assert {x, y, w} == {x, y};
      TurnRightRep(nodes, nodes', t, y, x);
    } else {
      hide FixLeft;
      DoubleRightRep(nodes, nodes', t, y, x, w);
    }
  }

  lemma {:induction false} LowerRightRep(nodes: seq<Node>, nodes': seq<Node>, t: Tree, y: nat, x: nat, w: nat)
    requires Rotatable(t) && t.balance == 2 && Rep(nodes, y, t) && y < |nodes| && x < |nodes| && w < |nodes|
    requires x == t.right.id && OnlyIn(nodes, nodes', {x, y, w})
    requires nodes[x].balance == 1 ==>
               && w == x && nodes'[y] == Node(nodes[y].left, nodes[x].left, nodes[y].item, 0)
               && nodes'[x] == Node(y, nodes[x].right, nodes[x].item, 0)
    requires nodes[x].balance != 1 ==>
               && w == nodes[x].left
               && nodes'[x] == Node(nodes[w].right, nodes[x].right, nodes[x].item, if nodes[w].balance == -1 then 1 else 0)
               && nodes'[y] == Node(nodes[y].left, nodes[w].left, nodes[y].item, if nodes[w].balance == 1 then -1 else 0)
               && nodes'[w] == Node(y, x, nodes[w].item, 0)
    ensures Rep(nodes', w, FixRight(t)) && OnlyIn(nodes, nodes', Ids(t))
  {
    Three(nodes, t);
    if t.right.balance == 1 {
      hide TurnLeft;
      assert {x, y, w} == {x, y};
      TurnLeftRep(nodes, nodes', t, y, x);
    } else {
      hide FixRight;
      DoubleLeftRep(nodes, nodes', t, y, x, w);
    }
  }

  /** The references and balances a rotation follows, as the records show them. */
  lemma {:induction false} LeftRecords(nodes: seq<Node>, t: Tree, y: nat)
    requires Rotatable(t) && t.balance == -2 && Rep(nodes, y, t)
    ensures y < |nodes| && 0 <= nodes[y].left < |nodes| && nodes[y].left == t.left.id && nodes[y].left != y
    ensures var x := nodes[y].left;
            nodes[x].balance != -1 ==>
              && 0 <= nodes[x].right < |nodes| && nodes[x].right != x && nodes[x].right != y
              && -1 <= nodes[nodes[x].right].balance <= 1
  {
    Three(nodes, t);
    assert Rep(nodes, t.left.id, t.left);
    if t.left.right.N? {
      assert Rep(nodes, t.left.right.id, t.left.right);
    }
  }

  lemma {:induction false} RightRecords(nodes: seq<Node>, t: Tree, y: nat)
    requires Rotatable(t) && t.balance == 2 && Rep(nodes, y, t)
    ensures y < |nodes| && 0 <= nodes[y].right < |nodes| && nodes[y].right == t.right.id && nodes[y].right != y
    ensures var x := nodes[y].right;
            nodes[x].balance != 1 ==>
              && 0 <= nodes[x].left < |nodes| && nodes[x].left != x && nodes[x].left != y
              && -1 <= nodes[nodes[x].left].balance <= 1
  {
    Three(nodes, t);
    assert Rep(nodes, t.right.id, t.right);
    if t.right.left.N? {
      assert Rep(nodes, t.right.left.id, t.right.left);
    }
  }

  // ---- The steps as the table makes them ----

  /** The node the search has come to. */
  lemma {:induction false} DescendAt(nodes: seq<Node>, t: Tree, key: int, py: seq<bool>, w: seq<bool>, y: int, z: int, p: int, q: int)
    requires Descending(t, key, py, w, y, z, p, q) && p != -1
    requires Rep(nodes, Ptr(t), t) && Balanced(t) && Size(t) < SIZE_LIMIT
    ensures 0 <= p < |nodes| && p in Ids(t) && nodes[p].item.key in Keys(t)
    ensures Sub(t, py + w).N? && |py + w| < Height(t) < MAX_HEIGHT
    ensures var s := Sub(t, py + w); nodes[p] == Node(Ptr(s.left), Ptr(s.right), s.item, s.balance)
    ensures forall d :: Link(nodes[p], d) == Ptr(Child(Sub(t, py + w), d))
  {
    SubRep(nodes, Ptr(t), t, py + w);
    SubIds(t, py + w);
    SubHeight(t, py + w);
    HeightBound(t);
    assert Sub(t, py + w).item.key in Keys(Sub(t, py + w));
  }

  /** The search has ended: what is known of the way from `y` down. */
  lemma {:induction false} Settled(t: Tree, key: int, py: seq<bool>, w: seq<bool>, y: int, z: int, p: int, q: int)
    requires Descending(t, key, py, w, y, z, p, q) && p == -1 && Sorted(t)
    ensures key !in Keys(t)
    ensures y == -1 ==> t == Nil && py == [] && q == -1
    ensures y != -1 ==> w != [] && Sub(t, py).N? && OnWay(t, py, key) && OnWay(Sub(t, py), w, key)
    ensures y != -1 ==> Sub(Sub(t, py), w) == Nil && q == Above(Sub(t, py), w)
    ensures y != -1 ==> EvenPath(Toward(Sub(t, py), key), key)
  {
    NotFound(t, py + w, key);
    SubConcat(t, py, w);
    OnWaySplit(t, py, w, key);
    assert w == [] ==> py + w == py;
    if y != -1 {
      SubConcat(t, py, w[..|w| - 1]);
      assert (py + w)[..|py + w| - 1] == py + w[..|w| - 1];
      EvenWay(Child(Sub(t, py), w[0]), w[1..], key);
    } else if w == [] {
      assert py + w == [];
    }
  }

  /** The leaf is linked in: the subtree at `y` hangs together and the adjusting can start. */
  lemma {:induction false} Hung(nodes: seq<Node>, nodes': seq<Node>, t: Tree, w: seq<bool>, x: Item, q: int)
    requires Rep(nodes, Ptr(t), t) && NoShare(t) && OnWay(t, w, x.key) && Sub(t, w) == Nil && w != [] && q == Above(t, w)
    requires 0 <= q < |nodes| && nodes' == nodes[q := SetLink(nodes[q], w[|w| - 1], |nodes|)] + [Node(-1, -1, x, 0)]
    ensures Adjusting(nodes', Replace(t, w, Leaf(x, |nodes|)), w, 0, Ptr(t))
    ensures OnlyIn(nodes, nodes', Ids(t)) && |nodes| !in Ids(t)
  {
    IdsBelow(nodes, Ptr(t), t);
    HangRep(nodes, nodes', t, w, x, q);
    Hang(t, w, x, |nodes|);
    AdjustStart(nodes', Replace(t, w, Leaf(x, |nodes|)), w);
  }

  /** The node above the new leaf, where it is linked. */
  lemma {:induction false} AboveLeaf(nodes: seq<Node>, t: Tree, w: seq<bool>, x: Item)
    requires Rep(nodes, Ptr(t), t) && OnWay(t, w, x.key) && Sub(t, w) == Nil && w != []
    ensures 0 <= Above(t, w) < |nodes|
  {
    IdsBelow(nodes, Ptr(t), t);
    HangAbove(t, w, x, |nodes|, |w| - 1);
  }

  /** One more balance, as long as `p` is not the leaf. */
  lemma {:induction false} AdjustNext(nodes: seq<Node>, t: Tree, w: seq<bool>, x: Item, id: nat, k: nat, p: int)
    requires OnWay(t, w, x.key) && Sub(t, w) == Nil && id !in Ids(t)
    requires Adjusting(nodes, Replace(t, w, Leaf(x, id)), w, k, p)
    ensures p != id ==> k < |w| && 0 <= p < |nodes| && p in Ids(t)
    ensures p != id ==> Adjusting(nodes[p := Rebalance(nodes[p], w[k])], Replace(t, w, Leaf(x, id)), w, k + 1, Link(nodes[p], w[k]))
    ensures p == id ==> k == |w|
  {
    if k < |w| {
      HangAbove(t, w, x, id, k);
      AdjustAt(nodes, Replace(t, w, Leaf(x, id)), w, k, p);
      AdjustRep(nodes, Replace(t, w, Leaf(x, id)), w, k, p);
    } else {
      Hang(t, w, x, id);
      assert w[..k] == w;
    }
  }

  /** All balances adjusted: the subtree has grown. */
  lemma {:induction false} Grown(nodes: seq<Node>, t: Tree, w: seq<bool>, x: Item, id: nat, p: int)
    requires OnWay(t, w, x.key) && Sub(t, w) == Nil && id !in Ids(t) && w != [] && t.N?
    requires Adjusting(nodes, Replace(t, w, Leaf(x, id)), w, |w|, p)
    requires Balanced(t) && EvenPath(Toward(t, x.key), x.key) && NoShare(t) && Sorted(t) && x.key !in Keys(t)
    ensures Rep(nodes, Ptr(t), Grow(t, x, id)) && Rotatable(Grow(t, x, id)) && Grow(t, x, id).balance == Balance(nodes, Ptr(t))
    ensures Ids(Grow(t, x, id)) == Ids(t) + {id} && Ptr(t) < |nodes|
  {
    hide Sorted, Balanced, EvenPath, Rotatable, Keys, Items, OnWay, Sub, Replace, NoShare;
    Hang(t, w, x, id);
    AdjustAll(t, w, x, id);
    GrowContents(t, x, id);
    GrownRotatable(t, x, id);
    assert Grow(t, x, id).N? && Grow(t, x, id).id == t.id;
    hide Adjust, Grow;
    assert Rep(nodes, Ptr(t), Grow(t, x, id));
  }

  ghost function Balance(nodes: seq<Node>, p: int): int {
    if 0 <= p < |nodes| then nodes[p].balance else 0
  }

  /** No rotation: the table is the tree with the item inserted, and every node has its place. */
  lemma {:induction false} InsertedFlat(nodes: seq<Node>, nodes': seq<Node>, t: Tree, py: seq<bool>, x: Item, id: nat)
    requires Rep(nodes, Ptr(t), t) && NoShare(t) && Sub(t, py).N? && OnWay(t, py, x.key)
    requires EvenPath(Toward(Sub(t, py), x.key), x.key) && (py != [] ==> Sub(t, py).balance != 0)
    requires OnlyIn(nodes, nodes', Ids(Sub(t, py))) && Rep(nodes', Ptr(Sub(t, py)), Grow(Sub(t, py), x, id))
    requires Grow(Sub(t, py), x, id).balance != -2 && Grow(Sub(t, py), x, id).balance != 2
    ensures Rep(nodes', Ptr(t), Insert(t, x, id)) && Extends(t, Insert(t, x, id))
  {
    InsertAt(t, py, x, id);
    GrowExtends(Sub(t, py), x, id);
    ReplaceExtends(t, py, Grow(Sub(t, py), x, id));
    AgreeOn(nodes, nodes', Ids(Sub(t, py)), Ids(t) - Ids(Sub(t, py)));
    hide Replace, Sub, Rep, Ids, NoShare, EvenPath, OnWay, Extends, OnlyIn, Agree;
    Rebuild(nodes, nodes', Ptr(t), t, py, Grow(Sub(t, py), x, id));
  }

  /** After a rotation, with the reference of the node above changed. */
  lemma {:induction false} InsertedTurned(nodes: seq<Node>, mid: seq<Node>, nodes': seq<Node>, t: Tree, py: seq<bool>, x: Item, id: nat, z: int, w: int)
    requires Rep(nodes, Ptr(t), t) && NoShare(t) && Sub(t, py).N? && OnWay(t, py, x.key) && id >= |nodes|
    requires EvenPath(Toward(Sub(t, py), x.key), x.key) && (py != [] ==> Sub(t, py).balance != 0)
    requires OnlyIn(nodes, mid, Ids(Sub(t, py))) && Rep(mid, w, Fix(Grow(Sub(t, py), x, id)))
    requires z == Above(t, py)
    requires py == [] ==> nodes' == mid
    requires py != [] ==> 0 <= z < |mid| && nodes' == mid[z := SetLink(mid[z], py[|py| - 1], w)]
    ensures Rep(nodes', if py == [] then w else Ptr(t), Insert(t, x, id)) && OnlyIn(nodes, nodes', Ids(t))
  {
    var s := Fix(Grow(Sub(t, py), x, id));
    InsertAt(t, py, x, id);
    GrowContents(Sub(t, py), x, id);
    FixFacts(Grow(Sub(t, py), x, id));
    assert s.N? by {
      assert Ids(s) == Ids(Sub(t, py)) + {id};
      assert id in Ids(s);
    }
    SubIds(t, py);
    if py != [] {
      hide Fix, Grow, Sub, Replace, Rep, Ids, NoShare, EvenPath, OnWay;
      Relink(nodes, mid, nodes', t, py, s, z);
    }
  }

  // ---- Where the new item goes ----

  /** The good search tree that the records show. */
  ghost predicate Good(nodes: seq<Node>, t: Tree) {
    Rep(nodes, Ptr(t), t) && NoShare(t) && Balanced(t) && Sorted(t)
  }

  /** The search for a key that is not there has ended below `y`, at the end of `py`. */
  ghost predicate Placed(nodes: seq<Node>, t: Tree, key: int, py: seq<bool>, w: seq<bool>, y: int, z: int, q: int) {
    var ty := Sub(t, py);
    && key !in Keys(t) && key !in Keys(ty) && ty.N? && y == Ptr(ty) && w != []
    && OnWay(t, py, key) && OnWay(ty, w, key) && Sub(ty, w) == Nil
    && q == Above(ty, w) && 0 <= q < |nodes| && z == Above(t, py)
    && EvenPath(Toward(ty, key), key) && (py != [] ==> ty.balance != 0)
    && Good(nodes, t) && Good(nodes, ty)
  }

  lemma {:induction false} Place(nodes: seq<Node>, t: Tree, x: Item, py: seq<bool>, w: seq<bool>, y: int, z: int, p: int, q: int)
    requires Descending(t, x.key, py, w, y, z, p, q) && p == -1 && Good(nodes, t)
    ensures x.key !in Keys(t)
    ensures y == -1 ==> t == Nil && q == -1
    ensures y != -1 ==> Placed(nodes, t, x.key, py, w, y, z, q)
  {
    Settled(t, x.key, py, w, y, z, p, q);
    if y != -1 {
      SubRep(nodes, Ptr(t), t, py);
      SubIds(t, py);
      AboveLeaf(nodes, Sub(t, py), w, x);
    }
  }

  /** The new leaf is in its place. */
  lemma {:induction false} PlacedHung(nodes: seq<Node>, nodes': seq<Node>, t: Tree, x: Item, py: seq<bool>, w: seq<bool>, y: int, z: int, q: nat)
    requires Placed(nodes, t, x.key, py, w, y, z, q) && q < |nodes| && w != []
    requires nodes' == nodes[q := SetLink(nodes[q], w[|w| - 1], |nodes|)] + [Node(-1, -1, x, 0)]
    ensures Growing(nodes, nodes', Sub(t, py), x, w, 0, y)
  {
    Hung(nodes, nodes', Sub(t, py), w, x, q);
  }

  /** The balances of the first `k` nodes on the way to the new leaf have been adjusted. */
  ghost predicate Growing(nodes: seq<Node>, nodes': seq<Node>, t: Tree, x: Item, w: seq<bool>, k: nat, p: int) {
    && OnWay(t, w, x.key) && Sub(t, w) == Nil && |nodes| !in Ids(t)
    && Adjusting(nodes', Replace(t, w, Leaf(x, |nodes|)), w, k, p)
    && OnlyIn(nodes, nodes', Ids(t))
    && HasNew(nodes, nodes', x)
  }

  /** The first new record holds the item. */
  ghost predicate HasNew(nodes: seq<Node>, nodes': seq<Node>, x: Item) {
    |nodes| < |nodes'| && nodes'[|nodes|].item == x
  }

  lemma {:induction false} GrowingNext(nodes: seq<Node>, nodes': seq<Node>, t: Tree, x: Item, w: seq<bool>, k: nat, p: int)
    requires Growing(nodes, nodes', t, x, w, k, p)
    ensures p == |nodes| ==> k == |w|
    ensures p != |nodes| ==> k < |w| && 0 <= p < |nodes'|
    ensures p != |nodes| ==> Growing(nodes, nodes'[p := Rebalance(nodes'[p], w[k])], t, x, w, k + 1, Link(nodes'[p], w[k]))
    ensures p != |nodes| ==> Link(Rebalance(nodes'[p], w[k]), w[k]) == Link(nodes'[p], w[k])
  {
    AdjustNext(nodes', t, w, x, |nodes|, k, p);
    if p != |nodes| {
    }
  }

  /** All of them: the subtree at `y` has grown. */
  lemma {:induction false} PlacedGrown(nodes: seq<Node>, nodes': seq<Node>, t: Tree, x: Item, py: seq<bool>, w: seq<bool>, y: int, z: int, q: int, p: int)
    requires Placed(nodes, t, x.key, py, w, y, z, q) && Growing(nodes, nodes', Sub(t, py), x, w, |w|, p)
    ensures 0 <= y < |nodes'| && nodes'[y].balance == Grow(Sub(t, py), x, |nodes|).balance
    ensures Rep(nodes', y, Grow(Sub(t, py), x, |nodes|)) && Rotatable(Grow(Sub(t, py), x, |nodes|))
    ensures OnlyIn(nodes, nodes', Ids(Sub(t, py))) && HasNew(nodes, nodes', x)
    ensures -2 <= nodes'[y].balance <= 2
  {
    Grown(nodes', Sub(t, py), w, x, |nodes|, p);
  }

  /** No rotation was called for. */
  lemma {:induction false} PlacedFlat(nodes: seq<Node>, nodes': seq<Node>, t: Tree, x: Item, py: seq<bool>, w: seq<bool>, y: int, z: int, q: int)
    requires Placed(nodes, t, x.key, py, w, y, z, q) && OnlyIn(nodes, nodes', Ids(Sub(t, py)))
    requires 0 <= y < |nodes'| && nodes'[y].balance == Grow(Sub(t, py), x, |nodes|).balance
    requires Rep(nodes', y, Grow(Sub(t, py), x, |nodes|)) && nodes'[y].balance != -2 && nodes'[y].balance != 2
    ensures Rep(nodes', Ptr(t), Insert(t, x, |nodes|)) && Extends(t, Insert(t, x, |nodes|))
    ensures OnlyIn(nodes, nodes', Ids(t))
  {
    InsertedFlat(nodes, nodes', t, py, x, |nodes|);
    SubIds(t, py);
  }

  /** A rotation was made, and the reference to the subtree has still to be changed. */
  lemma {:induction false} PlacedTurned(nodes: seq<Node>, grown: seq<Node>, mid: seq<Node>, t: Tree, x: Item, py: seq<bool>, w: seq<bool>, y: int, z: int, q: int, top: nat)
    requires Placed(nodes, t, x.key, py, w, y, z, q) && OnlyIn(nodes, grown, Ids(Sub(t, py)))
    requires OnlyIn(grown, mid, Ids(Grow(Sub(t, py), x, |nodes|))) && Rep(mid, top, Fix(Grow(Sub(t, py), x, |nodes|)))
    requires HasNew(nodes, grown, x)
    ensures OnlyIn(nodes, mid, Ids(Sub(t, py)))
    ensures z == -1 ==> Rep(mid, top, Insert(t, x, |nodes|)) && OnlyIn(nodes, mid, Ids(t)) && HasNew(nodes, mid, x)
    ensures z != -1 ==> 0 <= z < |mid|
    ensures z != -1 ==> var nodes' := mid[z := SetLink(mid[z], y != mid[z].left, top)];
                        Rep(nodes', Ptr(t), Insert(t, x, |nodes|)) && OnlyIn(nodes, nodes', Ids(t)) && HasNew(nodes, nodes', x)
  {
    GrowContents(Sub(t, py), x, |nodes|);
    if py == [] {
      InsertedTurned(nodes, mid, mid, t, py, x, |nodes|, z, top);
    } else {
      AboveIs(t, py);
      WhichChild(nodes, t, py, z, y);
      InsertedTurned(nodes, mid, mid[z := SetLink(mid[z], py[|py| - 1], top)], t, py, x, |nodes|, z, top);
    }
  }

  lemma {:induction false} AboveIs(t: Tree, path: seq<bool>)
    requires path != [] && Sub(t, path).N?
    ensures Above(t, path) >= 0
  {
    var above, d := path[..|path| - 1], path[|path| - 1];
    assert path == above + [d];
    SubSnoc(t, above, d);
  }
}
