/** Changes of a few records of a threaded tree: a new child for a node, the rotations,
    a new leaf. */
module TavlTurns {
  import opened AvlTrees
  import opened AvlArena
  import opened AvlPaths
  import opened AvlProbing
  import opened TavlArena

  /** The reference of a node to its child on a side; a thread if there is none. */
  ghost function Pointing(n: TNode, d: bool, s: Tree, thread: int): TNode {
    SetThread(SetTLink(n, d, if s.Nil? then thread else s.id), d, s.Nil?)
  }

  lemma {:induction false} ParentOf(t: Tree, path: seq<bool>)
    requires path != [] && Sub(t, path).N?
    ensures var above, d := path[..|path| - 1], path[|path| - 1];
            && path == above + [d] && Sub(t, above).N? && Sub(t, path) == Child(Sub(t, above), d)
            && Above(t, path) == Sub(t, above).id && Above(t, path) in Ids(Sub(t, above))
  {
    var above, d := path[..|path| - 1], path[|path| - 1];
    assert path == above + [d];
    SubSnoc(t, above, d);
  }

  /** A node's child replaced by another tree that lies between the same two nodes. */
  lemma {:induction false} NewChild(nodes: seq<TNode>, nodes': seq<TNode>, u: Tree, lo: int, hi: int, d: bool, s: Tree)
    requires Threaded(nodes, u, lo, hi) && NoShare(u) && u.N?
    requires Same(nodes, nodes', Ids(Child(u, !d))) && u.id < |nodes'|
    requires nodes'[u.id] == Pointing(nodes[u.id], d, s, if d then hi else lo)
    requires Threaded(nodes', s, if d then u.id else lo, if d then hi else u.id)
    ensures Threaded(nodes', WithChild(u, d, s), lo, hi)
  {
    FrameThreads(nodes, nodes', Child(u, !d), if d then lo else u.id, if d then u.id else hi);
  }

  /** A subtree replaced by another that lies between the same two nodes. */
  lemma {:induction false} SwapThreads(nodes: seq<TNode>, nodes': seq<TNode>, t: Tree, lo: int, hi: int, path: seq<bool>, s: Tree, z: nat)
    requires Threaded(nodes, t, lo, hi) && NoShare(t) && Sub(t, path).N? && path != []
    requires z == Above(t, path) && z < |nodes| && z < |nodes'|
    requires Within(nodes, nodes', Ids(Sub(t, path)) + {z})
    requires var d := path[|path| - 1]; nodes'[z] == Pointing(nodes[z], d, s, if d then Hi(t, path, hi) else Lo(t, path, lo))
    requires Threaded(nodes', s, Lo(t, path, lo), Hi(t, path, hi))
    ensures Threaded(nodes', Replace(t, path, s), lo, hi) && Ptr(Replace(t, path, s)) == Ptr(t)
    ensures Within(nodes, nodes', Ids(t))
  {
    hide Threaded, Same, Replace, Sub, Lo, Hi, NoShare, Ids, Pointing;
    var above, d := path[..|path| - 1], path[|path| - 1];
    var u, lo', hi' := Sub(t, above), Lo(t, above, lo), Hi(t, above, hi);
    ParentOf(t, path);
    SubIds(t, above);
    SubThreads(nodes, t, lo, hi, above);
    LoHiSnoc(t, lo, hi, above, d);
    ReplaceSnoc(t, above, d, s);
    Apart(u);
    assert Ids(Sub(t, path)) + {z} <= Ids(u) && Ids(u) <= Ids(t);
    SameOn(nodes, nodes', Ids(Sub(t, path)) + {z}, Ids(Child(u, !d)));
    SameOn(nodes, nodes', Ids(Sub(t, path)) + {z}, Ids(t) - Ids(u));
    NewChild(nodes, nodes', u, lo', hi', d, s);
    RebuildThreads(nodes, nodes', t, lo, hi, above, WithChild(u, d, s));
  }

  // ---- Rotations ----

  lemma {:induction false} TurnRightThreads(nodes: seq<TNode>, nodes': seq<TNode>, t: Tree, lo: int, hi: int, y: nat, x: nat, up: int, down: int)
    requires Threaded(nodes, t, lo, hi) && NoShare(t) && t.N? && t.left.N?
    requires y == t.id < |nodes| && x == t.left.id < |nodes| && Within(nodes, nodes', {x, y})
    requires nodes'[y] == Pointing(nodes[y], false, t.left.right, x).(balance := down)
    requires nodes'[x] == nodes[x].(right := y, rightThread := false, balance := up)
    ensures Threaded(nodes', TurnRight(t, up, down), lo, hi) && Within(nodes, nodes', Ids(t))
  {
    Apart(t);
    Apart(t.left);
    assert x in Ids(t.left);
    SameOn(nodes, nodes', {x, y}, Ids(t.left.left));
    SameOn(nodes, nodes', {x, y}, Ids(t.left.right));
    SameOn(nodes, nodes', {x, y}, Ids(t.right));
    hide Same, NoShare, Ids;
    FrameThreads(nodes, nodes', t.left.left, lo, x);
    FrameThreads(nodes, nodes', t.left.right, x, y);
    FrameThreads(nodes, nodes', t.right, y, hi);
  }

  lemma {:induction false} TurnLeftThreads(nodes: seq<TNode>, nodes': seq<TNode>, t: Tree, lo: int, hi: int, y: nat, x: nat, up: int, down: int)
    requires Threaded(nodes, t, lo, hi) && NoShare(t) && t.N? && t.right.N?
    requires y == t.id < |nodes| && x == t.right.id < |nodes| && Within(nodes, nodes', {x, y})
    requires nodes'[y] == Pointing(nodes[y], true, t.right.left, x).(balance := down)
    requires nodes'[x] == nodes[x].(left := y, leftThread := false, balance := up)
    ensures Threaded(nodes', TurnLeft(t, up, down), lo, hi) && Within(nodes, nodes', Ids(t))
  {
    Apart(t);
    Apart(t.right);
    assert x in Ids(t.right);
    SameOn(nodes, nodes', {x, y}, Ids(t.right.left));
    SameOn(nodes, nodes', {x, y}, Ids(t.right.right));
    SameOn(nodes, nodes', {x, y}, Ids(t.left));
    hide Same, NoShare, Ids;
    FrameThreads(nodes, nodes', t.right.left, y, x);
    FrameThreads(nodes, nodes', t.right.right, x, hi);
    FrameThreads(nodes, nodes', t.left, lo, y);
  }

  /** Four trees under three records. */
  lemma {:induction false} JoinThreads(nodes: seq<TNode>, lo: int, hi: int, w: nat, x: nat, y: nat, a: Tree, b: Tree, c: Tree, d: Tree, top: TNode, l: TNode, r: TNode)
    requires w < |nodes| && x < |nodes| && y < |nodes| && nodes[w] == top && nodes[x] == l && nodes[y] == r
    requires Threaded(nodes, a, lo, x) && Threaded(nodes, b, x, w) && Threaded(nodes, c, w, y) && Threaded(nodes, d, y, hi)
    requires l == Record(N(x, a, l.item, l.balance, b), lo, w) && r == Record(N(y, c, r.item, r.balance, d), w, hi)
    requires top.left == x && top.right == y && !top.leftThread && !top.rightThread
    ensures Threaded(nodes, N(w, N(x, a, l.item, l.balance, b), top.item, top.balance, N(y, c, r.item, r.balance, d)), lo, hi)
  {
  }

  lemma {:induction false} DoubleRightThreads(nodes: seq<TNode>, nodes': seq<TNode>, t: Tree, lo: int, hi: int, y: nat, x: nat, w: nat)
    requires Threaded(nodes, t, lo, hi) && NoShare(t) && t.N? && t.left.N? && t.left.balance == 1 && t.left.right.N?
    requires y == t.id < |nodes| && x == t.left.id < |nodes| && w == t.left.right.id < |nodes| && Within(nodes, nodes', {x, y, w})
    requires nodes'[x] == Pointing(nodes[x], true, t.left.right.left, w).(balance := if nodes[w].balance == 1 then -1 else 0)
    requires nodes'[y] == Pointing(nodes[y], false, t.left.right.right, w).(balance := if nodes[w].balance == -1 then 1 else 0)
    requires nodes'[w] == TNode(x, y, false, false, nodes[w].item, 0)
    ensures Threaded(nodes', FixLeft(t), lo, hi) && Within(nodes, nodes', Ids(t))
  {
    hide FixLeft, FixRight;
    var v := t.left.right;
    Apart(t);
    Apart(t.left);
    Apart(v);
    assert Threaded(nodes, t.left, lo, y) && Threaded(nodes, v, x, y);
    assert forall i :: i in Ids(v) ==> i in Ids(t.left);
    assert x in Ids(t.left) && w in Ids(v);
    hide Ids;
    SameOn(nodes, nodes', {x, y, w}, Ids(t.left.left));
    SameOn(nodes, nodes', {x, y, w}, Ids(v.left));
    SameOn(nodes, nodes', {x, y, w}, Ids(v.right));
    SameOn(nodes, nodes', {x, y, w}, Ids(t.right));
    hide NoShare, Same;
    FrameThreads(nodes, nodes', t.left.left, lo, x);
    FrameThreads(nodes, nodes', v.left, x, w);
    FrameThreads(nodes, nodes', v.right, w, y);
    FrameThreads(nodes, nodes', t.right, y, hi);
    FixLeftIs(t);
    hide Threaded;
    JoinThreads(nodes', lo, hi, w, x, y, t.left.left, v.left, v.right, t.right, nodes'[w], nodes'[x], nodes'[y]);
  }

  lemma {:induction false} DoubleLeftThreads(nodes: seq<TNode>, nodes': seq<TNode>, t: Tree, lo: int, hi: int, y: nat, x: nat, w: nat)
    requires Threaded(nodes, t, lo, hi) && NoShare(t) && t.N? && t.right.N? && t.right.balance == -1 && t.right.left.N?
    requires y == t.id < |nodes| && x == t.right.id < |nodes| && w == t.right.left.id < |nodes| && Within(nodes, nodes', {x, y, w})
    requires nodes'[x] == Pointing(nodes[x], false, t.right.left.right, w).(balance := if nodes[w].balance == -1 then 1 else 0)
    requires nodes'[y] == Pointing(nodes[y], true, t.right.left.left, w).(balance := if nodes[w].balance == 1 then -1 else 0)
    requires nodes'[w] == TNode(y, x, false, false, nodes[w].item, 0)
    ensures Threaded(nodes', FixRight(t), lo, hi) && Within(nodes, nodes', Ids(t))
  {
    hide FixLeft, FixRight;
    var v := t.right.left;
    Apart(t);
    Apart(t.right);
    Apart(v);
    assert Threaded(nodes, t.right, y, hi) && Threaded(nodes, v, y, x);
    assert forall i :: i in Ids(v) ==> i in Ids(t.right);
    assert x in Ids(t.right) && w in Ids(v);
    hide Ids;
    SameOn(nodes, nodes', {x, y, w}, Ids(t.right.right));
    SameOn(nodes, nodes', {x, y, w}, Ids(v.left));
    SameOn(nodes, nodes', {x, y, w}, Ids(v.right));
    SameOn(nodes, nodes', {x, y, w}, Ids(t.left));
    hide NoShare, Same;
    FrameThreads(nodes, nodes', t.right.right, x, hi);
    FrameThreads(nodes, nodes', v.left, y, w);
    FrameThreads(nodes, nodes', v.right, w, x);
    FrameThreads(nodes, nodes', t.left, lo, y);
    FixRightIs(t);
    hide Threaded;
    JoinThreads(nodes', lo, hi, w, y, x, t.left, v.left, v.right, t.right.right, nodes'[w], nodes'[y], nodes'[x]);
  }

  // ---- The records as the rotations read and leave them ----

  /** A subtree whose left side is too high, so that a rotation to the right is possible. */
  ghost predicate LeftHeavy(nodes: seq<TNode>, t: Tree, lo: int, hi: int) {
    Threaded(nodes, t, lo, hi) && NoShare(t) && t.N? && t.left.N?
  }

  ghost predicate RightHeavy(nodes: seq<TNode>, t: Tree, lo: int, hi: int) {
    Threaded(nodes, t, lo, hi) && NoShare(t) && t.N? && t.right.N?
  }

  lemma {:induction false} LeftHeavyRecords(nodes: seq<TNode>, t: Tree, lo: int, hi: int)
    requires LeftHeavy(nodes, t, lo, hi)
    ensures t.id < |nodes| && nodes[t.id].left == t.left.id < |nodes| && t.left.id != t.id && !nodes[t.id].leftThread
    ensures nodes[t.left.id].balance == t.left.balance && nodes[t.left.id].rightThread == t.left.right.Nil?
    ensures t.left.right.N? ==>
              && nodes[t.left.id].right == t.left.right.id < |nodes| && t.left.right.id != t.id && t.left.right.id != t.left.id
              && nodes[t.left.right.id].balance == t.left.right.balance
  {
    Apart(t);
    assert Threaded(nodes, t.left, lo, t.id);
    if t.left.right.N? {
      assert t.left.right.id in Ids(t.left.right);
      assert Threaded(nodes, t.left.right, t.left.id, t.id);
      Apart(t.left);
    }
  }

  lemma {:induction false} RightHeavyRecords(nodes: seq<TNode>, t: Tree, lo: int, hi: int)
    requires RightHeavy(nodes, t, lo, hi)
    ensures t.id < |nodes| && nodes[t.id].right == t.right.id < |nodes| && t.right.id != t.id && !nodes[t.id].rightThread
    ensures nodes[t.right.id].balance == t.right.balance && nodes[t.right.id].leftThread == t.right.left.Nil?
    ensures t.right.left.N? ==>
              && nodes[t.right.id].left == t.right.left.id < |nodes| && t.right.left.id != t.id && t.right.left.id != t.right.id
              && nodes[t.right.left.id].balance == t.right.left.balance
  {
    Apart(t);
    assert Threaded(nodes, t.right, t.id, hi);
    if t.right.left.N? {
      assert t.right.left.id in Ids(t.right.left);
      assert Threaded(nodes, t.right.left, t.id, t.right.id);
      Apart(t.right);
    }
  }

  /** What a single rotation to the right leaves. */
  ghost predicate TurnedRight(nodes: seq<TNode>, nodes': seq<TNode>, y: nat, x: nat, up: int, down: int)
    requires y < |nodes| && x < |nodes|
  {
    && Within(nodes, nodes', {x, y})
    && nodes'[y] == (if nodes[x].rightThread then nodes[y].(left := x, leftThread := true) else nodes[y].(left := nodes[x].right)).(balance := down)
    && nodes'[x] == nodes[x].(right := y, rightThread := false, balance := up)
  }

  ghost predicate TurnedLeft(nodes: seq<TNode>, nodes': seq<TNode>, y: nat, x: nat, up: int, down: int)
    requires y < |nodes| && x < |nodes|
  {
    && Within(nodes, nodes', {x, y})
    && nodes'[y] == (if nodes[x].leftThread then nodes[y].(right := x, rightThread := true) else nodes[y].(right := nodes[x].left)).(balance := down)
    && nodes'[x] == nodes[x].(left := y, leftThread := false, balance := up)
  }

  lemma {:induction false} TurnedRightTree(nodes: seq<TNode>, nodes': seq<TNode>, t: Tree, lo: int, hi: int, y: nat, x: nat, up: int, down: int)
    requires LeftHeavy(nodes, t, lo, hi) && y == t.id < |nodes| && x == t.left.id < |nodes|
    requires TurnedRight(nodes, nodes', y, x, up, down)
    ensures Threaded(nodes', TurnRight(t, up, down), lo, hi) && Within(nodes, nodes', Ids(t))
    ensures Ptr(TurnRight(t, up, down)) == x
  {
    LeftHeavyRecords(nodes, t, lo, hi);
    TurnRightThreads(nodes, nodes', t, lo, hi, y, x, up, down);
  }

  lemma {:induction false} TurnedLeftTree(nodes: seq<TNode>, nodes': seq<TNode>, t: Tree, lo: int, hi: int, y: nat, x: nat, up: int, down: int)
    requires RightHeavy(nodes, t, lo, hi) && y == t.id < |nodes| && x == t.right.id < |nodes|
    requires TurnedLeft(nodes, nodes', y, x, up, down)
    ensures Threaded(nodes', TurnLeft(t, up, down), lo, hi) && Within(nodes, nodes', Ids(t))
    ensures Ptr(TurnLeft(t, up, down)) == x
  {
    RightHeavyRecords(nodes, t, lo, hi);
    TurnLeftThreads(nodes, nodes', t, lo, hi, y, x, up, down);
  }

  /** What a double rotation leaves; `l` and `r` are the nodes that come left and right of `w`. */
  ghost predicate TurnedTwice(nodes: seq<TNode>, nodes': seq<TNode>, l: nat, r: nat, w: nat)
    requires l < |nodes| && r < |nodes| && w < |nodes|
  {
    && Within(nodes, nodes', {l, r, w})
    && nodes'[l] == (if nodes[w].leftThread then nodes[l].(right := w, rightThread := true) else nodes[l].(right := nodes[w].left)).(balance := if nodes[w].balance == 1 then -1 else 0)
    && nodes'[r] == (if nodes[w].rightThread then nodes[r].(left := w, leftThread := true) else nodes[r].(left := nodes[w].right)).(balance := if nodes[w].balance == -1 then 1 else 0)
    && nodes'[w] == TNode(l, r, false, false, nodes[w].item, 0)
  }

  lemma {:induction false} TwiceRightTree(nodes: seq<TNode>, nodes': seq<TNode>, t: Tree, lo: int, hi: int, y: nat, x: nat, w: nat)
    requires LeftHeavy(nodes, t, lo, hi) && t.left.balance == 1 && t.left.right.N?
    requires y == t.id < |nodes| && x == t.left.id < |nodes| && w == t.left.right.id < |nodes|
    requires TurnedTwice(nodes, nodes', x, y, w)
    ensures Threaded(nodes', FixLeft(t), lo, hi) && Within(nodes, nodes', Ids(t)) && Ptr(FixLeft(t)) == w
  {
    LeftHeavyRecords(nodes, t, lo, hi);
    assert {x, y, w} == {x, y, w};
    assert Threaded(nodes, t.left, lo, y) && Threaded(nodes, t.left.right, x, y);
    FixLeftIs(t);
    hide Threaded, FixLeft, NoShare;
    DoubleRightThreads(nodes, nodes', t, lo, hi, y, x, w);
  }

  lemma {:induction false} TwiceLeftTree(nodes: seq<TNode>, nodes': seq<TNode>, t: Tree, lo: int, hi: int, y: nat, x: nat, w: nat)
    requires RightHeavy(nodes, t, lo, hi) && t.right.balance == -1 && t.right.left.N?
    requires y == t.id < |nodes| && x == t.right.id < |nodes| && w == t.right.left.id < |nodes|
    requires TurnedTwice(nodes, nodes', y, x, w)
    ensures Threaded(nodes', FixRight(t), lo, hi) && Within(nodes, nodes', Ids(t)) && Ptr(FixRight(t)) == w
  {
    RightHeavyRecords(nodes, t, lo, hi);
    assert Threaded(nodes, t.right, y, hi) && Threaded(nodes, t.right.left, y, x);
    assert {y, x, w} == {x, y, w};
    FixRightIs(t);
    hide Threaded, FixRight, NoShare;
    DoubleLeftThreads(nodes, nodes', t, lo, hi, y, x, w);
  }
}
