/** The threaded table: a height-balanced tree of records, changed in place. */
module TavlTables {
  import opened Options
  import opened AvlTrees
  import opened AvlArena
  import opened AvlPaths
  import opened AvlProbing
  import opened AvlLookups
  import opened TavlTrees
  import opened TavlArena
  import opened TavlTurns
  import opened TavlCaches
  import opened TavlProbing
  import opened TavlDeleting

  /** The records reached from `root` are the tree `t`, which is a good search tree. */
  ghost predicate TTable(nodes: seq<TNode>, root: int, count: nat, t: Tree) {
    Sound(nodes, t) && root == Ptr(t) && count == Size(t)
  }

  lemma {:induction false} EmptyTable()
    ensures TTable([], -1, 0, Nil)
  {
  }

  lemma {:induction false} TableFacts(nodes: seq<TNode>, root: int, count: nat, t: Tree)
    requires TTable(nodes, root, count, t)
    ensures Sound(nodes, t) && root == Ptr(t) && count == Size(t) && Threaded(nodes, t, -1, -1) && NoShare(t) && Sorted(t)
    ensures root == -1 <==> t == Nil
  {
  }

  /** A tree that is too high on one side after it has grown. */
  lemma {:induction false} Heavy(nodes: seq<TNode>, t: Tree, lo: int, hi: int)
    requires Rotatable(t) && Threaded(nodes, t, lo, hi)
    ensures t.N? && -2 <= t.balance <= 2
    ensures t.balance == -2 ==> t.left.N? && LeftHeavy(nodes, t, lo, hi) && Fix(t) == FixLeft(t)
    ensures t.balance == -2 && t.left.balance == -1 ==> FixLeft(t) == TurnRight(t, 0, 0)
    ensures t.balance == -2 && t.left.balance != -1 ==> t.left.balance == 1 && t.left.right.N?
    ensures t.balance == 2 ==> t.right.N? && RightHeavy(nodes, t, lo, hi) && Fix(t) == FixRight(t)
    ensures t.balance == 2 && t.right.balance == 1 ==> FixRight(t) == TurnLeft(t, 0, 0)
    ensures t.balance == 2 && t.right.balance != 1 ==> t.right.balance == -1 && t.right.left.N?
  {
  }

  lemma {:induction false} FirstItem(nodes: seq<TNode>, t: Tree, x: Item)
    requires t == Nil
    ensures Threaded(nodes + [TNode(-1, -1, true, true, x, 0)], Insert(t, x, |nodes|), -1, -1)
    ensures Ptr(Insert(t, x, |nodes|)) == |nodes| && x.key !in Keys(t)
    ensures Within(nodes, nodes + [TNode(-1, -1, true, true, x, 0)], Ids(t)) && TNew(nodes, nodes + [TNode(-1, -1, true, true, x, 0)], x)
  {
  }

  /** An inserted item leaves a good search tree. */
  lemma {:induction false} Inserted(nodes: seq<TNode>, nodes': seq<TNode>, root: int, root': int, count: nat, t: Tree, x: Item)
    requires TTable(nodes, root, count, t) && x.key !in Keys(t)
    requires Threaded(nodes', Insert(t, x, |nodes|), -1, -1) && root' == Ptr(Insert(t, x, |nodes|)) && TNew(nodes, nodes', x)
    ensures |nodes| in Ids(Insert(t, x, |nodes|)) && |nodes| < |nodes'| && nodes'[|nodes|].item == x
    ensures TTable(nodes', root', count + 1, Insert(t, x, |nodes|))
  {
    ThreadedIds(nodes, t, -1, -1);
    InsertContents(t, x, |nodes|);
    InsertSorted(t, x, |nodes|);
    InsertBalanced(t, x, |nodes|);
  }

  // ---- What the deletion reads ----

  /** The record of a node without a right child. */
  lemma {:induction false} LeftOf(nodes: seq<TNode>, p: Tree, lo: int, hi: int)
    requires Threaded(nodes, p, lo, hi) && p.N? && p.right == Nil
    ensures p.id < |nodes| && nodes[p.id].right == hi && nodes[p.id].leftThread == p.left.Nil?
    ensures p.left.Nil? ==> nodes[p.id].left == lo && Ptr(p.left) == -1
    ensures p.left.N? ==> nodes[p.id].left == p.left.id == Ptr(p.left)
    ensures forall d :: TLink(nodes[p.id], d) == if d then nodes[p.id].right else nodes[p.id].left
  {
  }

  /** Its left side keeps to itself. */
  lemma {:induction false} LeftStays(nodes: seq<TNode>, nodes': seq<TNode>, p: Tree, lo: int, hi: int)
    requires p.N? && Within(nodes, nodes', Ids(p.left)) && NoShare(p) && p.id < |nodes|
    ensures Within(nodes, nodes', Ids(p)) && nodes'[p.id] == nodes[p.id] && Ids(p.left) <= Ids(p)
  {
  }

  lemma {:induction false} WithinLength(nodes: seq<TNode>, nodes': seq<TNode>, ids: set<nat>)
    requires Within(nodes, nodes', ids)
    ensures |nodes| <= |nodes'|
  {
  }

  lemma {:induction false} WithinSelf(nodes: seq<TNode>, p: Tree, lo: int, hi: int)
    requires p.N? && p.left == Nil
    ensures Within(nodes, nodes, Ids(p)) && Ids(p.left) <= Ids(p) && Threaded(nodes, p.left, lo, hi)
  {
  }

  /** The record of a node, and those of its children. */
  lemma {:induction false} PartsOf(nodes: seq<TNode>, p: Tree, lo: int, hi: int)
    requires Threaded(nodes, p, lo, hi) && p.N?
    ensures p.id < |nodes| && nodes[p.id].balance == p.balance
    ensures nodes[p.id].left == (if p.left.Nil? then lo else p.left.id) && nodes[p.id].leftThread == p.left.Nil?
    ensures nodes[p.id].right == (if p.right.Nil? then hi else p.right.id) && nodes[p.id].rightThread == p.right.Nil?
    ensures p.right.N? ==>
              && p.right.id < |nodes| && nodes[p.right.id].leftThread == p.right.left.Nil? && nodes[p.right.id].item == p.right.item
  {
  }

  lemma {:induction false} RightChildApart(nodes: seq<TNode>, p: Tree, lo: int, hi: int)
    requires Threaded(nodes, p, lo, hi) && p.N? && NoShare(p) && p.right.N?
    ensures p.right.id != p.id && p.right.id !in Ids(p.left) && p.id !in Ids(p.left) && NoShare(p.left) && Threaded(nodes, p.left, lo, p.id)
  {
    Apart(p);
    assert p.right.id in Ids(p.right);
  }

  /** One record changed outside a tree. */
  lemma {:induction false} OneSet(nodes: seq<TNode>, nodes': seq<TNode>, k: nat, s: Tree, lo: int, hi: int)
    requires Threaded(nodes, s, lo, hi) && k < |nodes| && k !in Ids(s) && |nodes'| == |nodes| && nodes' == nodes[k := nodes'[k]]
    requires nodes'[k].item == nodes[k].item
    ensures Threaded(nodes', s, lo, hi) && Within(nodes, nodes', {k})
  {
    FrameThreads(nodes, nodes', s, lo, hi);
  }

  lemma {:induction false} NothingThere(nodes: seq<TNode>, s: Tree, lo: int, hi: int)
    requires s == Nil
    ensures Threaded(nodes, s, lo, hi) && Within(nodes, nodes, Ids(s))
  {
  }

  /** The left side has been handed to `r`, whose balance is set last. */
  lemma {:induction false} LastSet(nodes: seq<TNode>, nodes2: seq<TNode>, nodes1: seq<TNode>, p: Tree, lo: int, r: nat)
    requires p.N? && r < |nodes| && r !in Ids(p.left) && r != p.id && p.id < |nodes| && p.id !in Ids(p.left)
    requires Within(nodes, nodes1, {r}) && Within(nodes1, nodes2, Ids(p.left)) && Threaded(nodes2, p.left, lo, r)
    ensures |nodes| <= |nodes2| && nodes2[r] == nodes1[r] && nodes2[p.id] == nodes[p.id]
    ensures forall b :: Threaded(nodes2[r := nodes2[r].(balance := b)], p.left, lo, r)
    ensures forall b :: Within(nodes, nodes2[r := nodes2[r].(balance := b)], Ids(p.left) + {r})
  {
    forall b
      ensures Threaded(nodes2[r := nodes2[r].(balance := b)], p.left, lo, r)
      ensures Within(nodes, nodes2[r := nodes2[r].(balance := b)], Ids(p.left) + {r})
    {
      FrameThreads(nodes2, nodes2[r := nodes2[r].(balance := b)], p.left, lo, r);
    }
  }

  /** The search for the leftmost node starts at the root of the right side. */
  lemma {:induction false} FirstSeek(t: Tree)
    requires t.N? && t.left.N?
    ensures Sub(t, []) == t && Leftward(t) == [] + Leftward(Sub(t, []))
  {
  }

  /** The leftmost node is loose, and nothing but its parent has changed. */
  lemma {:induction false} FirstLoose(nodes: seq<TNode>, nodes': seq<TNode>, p: Tree, lo: int, hi: int, r: nat, s: nat)
    requires Threaded(nodes, p, lo, hi) && NoShare(p) && p.N? && p.right.N? && p.right.left.N?
    requires r == Above(p.right, Leftward(p.right)) && s == Ptr(Sub(p.right, Leftward(p.right))) && r < |nodes| && s < |nodes|
    requires nodes' == nodes[r := if nodes[s].rightThread then nodes[r].(left := s, leftThread := true) else nodes[r].(left := nodes[s].right)]
    ensures Threaded(nodes', WithoutFirst(p.right), s, hi) && Within(nodes, nodes', Ids(p.right)) && Threaded(nodes', p.left, lo, p.id)
    ensures p.id < |nodes| && nodes'[p.id] == nodes[p.id] && nodes'[s] == nodes[s]
    ensures s != p.id && s !in Ids(p.left) && p.id !in Ids(p.left) && NoShare(p.left) && |nodes'| == |nodes|
    ensures nodes[s].item == Sub(p.right, Leftward(p.right)).item
  {
    Apart(p);
    FirstThere(p.right);
    FirstOut(nodes, nodes', p.right, p.id, hi, r, s);
    SubIds(p.right, Leftward(p.right));
    SubThreads(nodes, p.right, p.id, hi, Leftward(p.right));
    assert s in Ids(Sub(p.right, Leftward(p.right)));
    assert s in Ids(p.right);
    OneSet(nodes, nodes', r, p.left, lo, p.id);
  }

  /** The left side was rethreaded, and neither the node nor its follower has changed. */
  lemma {:induction false} KeptAside(nodes: seq<TNode>, nodes1: seq<TNode>, nodes2: seq<TNode>, p: Tree, s: nat)
    requires p.N? && s < |nodes| && s !in Ids(p.left) && s != p.id && p.id < |nodes| && p.id !in Ids(p.left)
    requires Within(nodes, nodes1, {s}) && Within(nodes1, nodes2, Ids(p.left))
    ensures |nodes| <= |nodes2| && nodes2[s] == nodes1[s] && nodes2[p.id] == nodes[p.id]
    ensures Within(nodes, nodes2, Ids(p.left) + {s})
  {
  }

  lemma {:induction false} SetAgain(nodes: seq<TNode>, nodes1: seq<TNode>, nodes2: seq<TNode>, l: Tree, lo: int, s: nat)
    requires Within(nodes, nodes1, Ids(l) + {s}) && s !in Ids(l) && s < |nodes| && |nodes2| == |nodes1|
    requires nodes2 == nodes1[s := nodes2[s]] && nodes2[s].item == nodes1[s].item
    requires Threaded(nodes1, l, lo, s)
    ensures Threaded(nodes2, l, lo, s) && Within(nodes, nodes2, Ids(l) + {s})
  {
    FrameThreads(nodes1, nodes2, l, lo, s);
  }

  lemma {:induction false} SortedAt(t: Tree, way: seq<bool>)
    requires Sorted(t)
    ensures Sorted(Sub(t, way))
  {
    SubIds(t, way);
  }

  lemma {:induction false} IsRightHeavy(nodes: seq<TNode>, t: Tree, lo: int, hi: int)
    requires Threaded(nodes, t, lo, hi) && NoShare(t) && t.N? && t.right.N?
    ensures RightHeavy(nodes, t, lo, hi)
  {
  }

  lemma {:induction false} IsLeftHeavy(nodes: seq<TNode>, t: Tree, lo: int, hi: int)
    requires Threaded(nodes, t, lo, hi) && NoShare(t) && t.N? && t.left.N?
    ensures LeftHeavy(nodes, t, lo, hi)
  {
  }

  lemma {:induction false} WithinTwice(nodes: seq<TNode>, nodes1: seq<TNode>, nodes2: seq<TNode>, ids: set<nat>, more: set<nat>)
    requires Within(nodes, nodes1, ids) && Within(nodes1, nodes2, more) && ids == more
    ensures Within(nodes, nodes2, ids)
  {
  }

  lemma {:induction false} PtrIs(t: Tree, p: nat)
    requires Ptr(t) == p
    ensures t.N? && t.id == p
  {
  }

  /** The table after an item has been taken out. */
  lemma {:induction false} StillTable(nodes: seq<TNode>, root: int, count: nat, t: Tree, u: Tree, x: Item, id: nat)
    requires Threaded(nodes, u, -1, -1) && root == Ptr(u) && Removed(t, u, x, id) && Balanced(u) && count == Size(t)
    ensures count >= 1 && TTable(nodes, root, count - 1, u)
    ensures x in Items(t) && Items(u) == Items(t) - {x} && Keys(u) == Keys(t) - {x.key}
  {
  }

  lemma {:induction false} WithinLess(nodes: seq<TNode>, nodes1: seq<TNode>, nodes2: seq<TNode>, t: Tree, u: Tree, x: Item, id: nat)
    requires Removed(t, u, x, id) && Within(nodes, nodes1, Ids(t)) && Within(nodes1, nodes2, Ids(u))
    ensures Within(nodes, nodes2, Ids(t))
  {
  }

  class TavlTable {
    var nodes: seq<TNode>
    var root: int
    var count: nat
    var duplicate: bool
    ghost var tree: Tree

    ghost predicate Valid()
      reads this
    {
      TTable(nodes, root, count, tree)
    }

    lemma {:induction false} ValidIs()
      ensures Valid() <==> TTable(nodes, root, count, tree)
    {
    }

    constructor ()
      ensures Valid() && tree == Nil && count == 0
    {
      nodes, root, count, duplicate := [], -1, 0, false;
      tree := Nil;
      EmptyTable();
    }

    /** A double rotation: `w`, the right child of the left child `l` of `r`, comes to the top. */
    method TurnTwiceRight(r: nat, l: nat, ghost t: Tree, ghost lo: int, ghost hi: int) returns (w: nat)
      requires LeftHeavy(nodes, t, lo, hi) && t.N? && t.left.N? && t.left.balance == 1 && t.left.right.N? && -1 <= t.left.right.balance <= 1
      requires r == t.id && l == t.left.id
      modifies this`nodes
      ensures Threaded(nodes, FixLeft(t), lo, hi) && Within(old(nodes), nodes, Ids(t)) && Ptr(FixLeft(t)) == w
    {
      hide LeftHeavy, Threaded, FixLeft, Ids;
      ghost var nodes0 := nodes;
      LeftHeavyRecords(nodes, t, lo, hi);
      w := nodes[l].right;
      nodes := nodes[l := nodes[l].(right := nodes[w].left)];
      nodes := nodes[w := nodes[w].(left := l)];
      nodes := nodes[r := nodes[r].(left := nodes[w].right)];
      nodes := nodes[w := nodes[w].(right := r)];
      NewBalances(l, r, w);
      NewThreads(l, r, w);
      TwiceRightTree(nodes0, nodes, t, lo, hi, r, l, w);
    }

    /** A double rotation: `w`, the left child of the right child `r` of `l`, comes to the top. */
    method TurnTwiceLeft(l: nat, r: nat, ghost t: Tree, ghost lo: int, ghost hi: int) returns (w: nat)
      requires RightHeavy(nodes, t, lo, hi) && t.N? && t.right.N? && t.right.balance == -1 && t.right.left.N? && -1 <= t.right.left.balance <= 1
      requires l == t.id && r == t.right.id
      modifies this`nodes
      ensures Threaded(nodes, FixRight(t), lo, hi) && Within(old(nodes), nodes, Ids(t)) && Ptr(FixRight(t)) == w
    {
      hide RightHeavy, Threaded, FixRight, Ids;
      ghost var nodes0 := nodes;
      RightHeavyRecords(nodes, t, lo, hi);
      w := nodes[r].left;
      nodes := nodes[r := nodes[r].(left := nodes[w].right)];
      nodes := nodes[w := nodes[w].(right := r)];
      nodes := nodes[l := nodes[l].(right := nodes[w].left)];
      nodes := nodes[w := nodes[w].(left := l)];
      NewBalances(l, r, w);
      NewThreads(l, r, w);
      TwiceLeftTree(nodes0, nodes, t, lo, hi, l, r, w);
    }

    /** The balances after a double rotation, `l` and `r` being the new children. */
    method NewBalances(l: nat, r: nat, w: nat)
      requires l < |nodes| && r < |nodes| && w < |nodes| && l != r && l != w && r != w
      requires -1 <= nodes[w].balance <= 1
      modifies this`nodes
      ensures Within(old(nodes), nodes, {l, r, w}) && |nodes| == |old(nodes)|
      ensures nodes[l] == old(nodes)[l].(balance := if old(nodes)[w].balance == 1 then -1 else 0)
      ensures nodes[r] == old(nodes)[r].(balance := if old(nodes)[w].balance == -1 then 1 else 0)
      ensures nodes[w] == old(nodes)[w].(balance := 0)
    {
      if nodes[w].balance == -1 {
        nodes := nodes[l := nodes[l].(balance := 0)];
        nodes := nodes[r := nodes[r].(balance := 1)];
      } else if nodes[w].balance == 0 {
        nodes := nodes[l := nodes[l].(balance := 0)];
        nodes := nodes[r := nodes[r].(balance := 0)];
      } else {
        nodes := nodes[l := nodes[l].(balance := -1)];
        nodes := nodes[r := nodes[r].(balance := 0)];
      }
      nodes := nodes[w := nodes[w].(balance := 0)];
    }

    /** The threads after a double rotation: where `w` had none, its new children have one to it. */
    method NewThreads(l: nat, r: nat, w: nat)
      requires l < |nodes| && r < |nodes| && w < |nodes| && l != r && l != w && r != w
      modifies this`nodes
      ensures Within(old(nodes), nodes, {l, r, w}) && |nodes| == |old(nodes)|
      ensures nodes[l] == if old(nodes)[w].leftThread then old(nodes)[l].(right := w, rightThread := true) else old(nodes)[l]
      ensures nodes[r] == if old(nodes)[w].rightThread then old(nodes)[r].(left := w, leftThread := true) else old(nodes)[r]
      ensures nodes[w] == old(nodes)[w].(leftThread := false, rightThread := false)
    {
      if nodes[w].leftThread {
        nodes := nodes[l := nodes[l].(rightThread := true, right := w)];
        nodes := nodes[w := nodes[w].(leftThread := false)];
      }
      if nodes[w].rightThread {
        nodes := nodes[r := nodes[r].(leftThread := true, left := w)];
        nodes := nodes[w := nodes[w].(rightThread := false)];
      }
    }

    /** The left side of `y` is two higher after an insertion: the new top of the subtree. */
    method LowerLeft(y: nat, ghost t: Tree, ghost lo: int, ghost hi: int) returns (w: nat)
      requires Rotatable(t) && t.balance == -2 && Threaded(nodes, t, lo, hi) && y == t.id
      modifies this`nodes
      ensures Threaded(nodes, Fix(t), lo, hi) && Within(old(nodes), nodes, Ids(t)) && Ptr(Fix(t)) == w
    {
      hide Threaded, FixLeft, TurnRight, Ids, LeftHeavy;
      ghost var nodes0 := nodes;
      Heavy(nodes, t, lo, hi);
      LeftHeavyRecords(nodes, t, lo, hi);
      var x := nodes[y].left;
      if nodes[x].balance == -1 {
        w := x;
        if nodes[x].rightThread {
          nodes := nodes[x := nodes[x].(rightThread := false)];
          nodes := nodes[y := nodes[y].(leftThread := true, left := x)];
        } else {
          nodes := nodes[y := nodes[y].(left := nodes[x].right)];
        }
        nodes := nodes[x := nodes[x].(right := y)];
        nodes := nodes[x := nodes[x].(balance := 0)];
        nodes := nodes[y := nodes[y].(balance := 0)];
        TurnedRightTree(nodes0, nodes, t, lo, hi, y, x, 0, 0);
      } else {
        w := TurnTwiceRight(y, x, t, lo, hi);
      }
    }

    method LowerRight(y: nat, ghost t: Tree, ghost lo: int, ghost hi: int) returns (w: nat)
      requires Rotatable(t) && t.balance == 2 && Threaded(nodes, t, lo, hi) && y == t.id
      modifies this`nodes
      ensures Threaded(nodes, Fix(t), lo, hi) && Within(old(nodes), nodes, Ids(t)) && Ptr(Fix(t)) == w
    {
      hide Threaded, FixRight, TurnLeft, Ids, RightHeavy;
      ghost var nodes0 := nodes;
      Heavy(nodes, t, lo, hi);
      RightHeavyRecords(nodes, t, lo, hi);
      var x := nodes[y].right;
      if nodes[x].balance == 1 {
        w := x;
        if nodes[x].leftThread {
          nodes := nodes[x := nodes[x].(leftThread := false)];
          nodes := nodes[y := nodes[y].(rightThread := true, right := x)];
        } else {
          nodes := nodes[y := nodes[y].(right := nodes[x].left)];
        }
        nodes := nodes[x := nodes[x].(left := y)];
        nodes := nodes[x := nodes[x].(balance := 0)];
        nodes := nodes[y := nodes[y].(balance := 0)];
        TurnedLeftTree(nodes0, nodes, t, lo, hi, y, x, 0, 0);
      } else {
        w := TurnTwiceLeft(y, x, t, lo, hi);
      }
    }

    /** The balances on the way from `y` down to the new leaf. */
    method AdjustBalances(y: int, n: int, da: array<bool>, ghost nodes0: seq<TNode>, ghost t: Tree, ghost lo: int, ghost hi: int, ghost x: Item, ghost w: seq<bool>)
      requires TGrowing(nodes0, nodes, t, lo, hi, x, w, 0, y) && n == |nodes0| && |w| <= da.Length && da[..|w|] == w
      modifies this`nodes
      ensures TGrowing(nodes0, nodes, t, lo, hi, x, w, |w|, n)
    {
      hide *;
      var p, k := y, 0;
      while p != n
        invariant k <= |w| && da[..|w|] == w && TGrowing(nodes0, nodes, t, lo, hi, x, w, k, p)
        decreases |w| - k
      {
        TGrowNext(nodes0, nodes, t, lo, hi, x, w, k, p);
        nodes := nodes[p := TRebalance(nodes[p], da[k])];
        p := TLink(nodes[p], da[k]);
        k := k + 1;
      }
      TGrowNext(nodes0, nodes, t, lo, hi, x, w, k, p);
    }

    /** The rotation, where one is called for, and the reference to the subtree it leaves. */
    method Restore(y: int, z: int, ghost nodes0: seq<TNode>, ghost t: Tree, ghost x: Item, ghost py: seq<bool>, ghost w: seq<bool>, ghost q: int)
      requires Missing(nodes0, t, x.key, py, w, y, z, q)
      requires TGrowing(nodes0, nodes, Sub(t, py), Lo(t, py, -1), Hi(t, py, -1), x, w, |w|, |nodes0|)
      requires root == Ptr(t)
      modifies this`nodes, this`root
      ensures Threaded(nodes, Insert(t, x, |nodes0|), -1, -1) && root == Ptr(Insert(t, x, |nodes0|))
      ensures Within(nodes0, nodes, Ids(t)) && TNew(nodes0, nodes, x)
    {
      hide *;
      ghost var grown, s, lo, hi := nodes, Grow(Sub(t, py), x, |nodes0|), Lo(t, py, -1), Hi(t, py, -1);
      TGrown(nodes0, nodes, t, x, py, w, y, z, q, |nodes0|);
      Heavy(nodes, s, lo, hi);
      var top: nat;
      if nodes[y].balance == -2 {
        top := LowerLeft(y, s, lo, hi);
      } else if nodes[y].balance == 2 {
        top := LowerRight(y, s, lo, hi);
      } else {
        TFlat(nodes0, nodes, t, x, py, w, y, z, q);
        return;
      }
      TTurned(nodes0, grown, nodes, t, x, py, w, y, z, q, top);
      if z == -1 {
        root := top;
      } else {
        nodes := nodes[z := SetTLink(nodes[z], y != nodes[z].left, top)];
      }
    }

    /** The first item of all. */
    method ProbeEmpty(item: Item)
      requires Valid() && root == -1
      modifies this`nodes, this`root, this`count, this`tree
      ensures Valid() && |old(nodes)| < |nodes| && |old(nodes)| in Ids(tree) && item.key !in Keys(old(tree))
      ensures count == old(count) + 1 && tree == Insert(old(tree), item, |old(nodes)|)
      ensures Within(old(nodes), nodes, Ids(old(tree))) && nodes[|old(nodes)|].item == item
    {
      hide *;
      ghost var t, nodes0, root0 := tree, nodes, root;
      ValidIs();
      TableFacts(nodes, root, count, t);
      FirstItem(nodes, t, item);
      var n := |nodes|;
      nodes := nodes + [TNode(-1, -1, true, true, item, 0)];
      root := n;
      count := count + 1;
      Inserted(nodes0, nodes, root0, root, count - 1, t, item);
      tree := Insert(t, item, n);
      ValidIs();
    }

    /** Inserts an item, unless there is one with its key: the slot of either. */
    method Probe(item: Item) returns (slot: int)
      requires Valid() && count < TAVL_LIMIT
      modifies this
      ensures Valid() && 0 <= slot < |nodes| && slot in Ids(tree) && (duplicate <==> item.key in Keys(old(tree)))
      ensures item.key in Keys(old(tree)) ==>
                && nodes == old(nodes) && root == old(root) && count == old(count) && tree == old(tree) && nodes[slot].item.key == item.key
      ensures item.key !in Keys(old(tree)) ==>
                && slot == |old(nodes)| && count == old(count) + 1 && tree == Insert(old(tree), item, slot)
                && Within(old(nodes), nodes, Ids(old(tree))) && nodes[slot].item == item
    {
      hide *;
      ghost var t, nodes0, root0 := tree, nodes, root;
      ValidIs();
      TableFacts(nodes, root, count, t);
      duplicate := false;
      ValidIs();
      var n := |nodes|;
      slot := n;
      if root == -1 {
        ProbeEmpty(item);
        return;
      }
      var z, y, dir, k := -1, root, false, 0;
      var q, p := z, y;
      var da := new bool[TAVL_MAX_HEIGHT];
      ghost var py, w: seq<bool> := [], [];
      DescendStart(t, item.key);
      while true
        invariant nodes == nodes0 && tree == t && root == root0 && count == old(count) && !duplicate
        invariant Valid() && Descending(t, item.key, py, w, y, z, p, q) && p != -1
        invariant k == |w| <= da.Length == TAVL_MAX_HEIGHT && da[..k] == w
        decreases Height(t) - |py + w|
      {
        ThreadedAt(nodes, t, item.key, py, w, y, z, p, q);
        if item.key == nodes[p].item.key {
          duplicate := true;
          ValidIs();
          return p;
        }
        dir := item.key > nodes[p].item.key;
        if nodes[p].balance != 0 {
          DescendUneven(t, item.key, py, w, y, z, p, q, dir);
          z, y, k := q, p, 0;
          py, w := py + w, [];
        } else {
          DescendEven(t, item.key, py, w, y, z, p, q, dir);
        }
        da[k] := dir;
        k := k + 1;
        assert [] + [dir] == [dir];
        w := w + [dir];
        if IsThread(nodes[p], dir) {
          break;
        }
        q, p := p, TLink(nodes[p], dir);
      }
      MissingHere(nodes, t, item.key, py, w, y, z, -1, p);
      Plant(item, p, dir, y, z, da, py, w);
    }

    /** The new node as a leaf on side `dir` of `p`, the balances from `y` down, the rotation. */
    method Plant(item: Item, p: int, dir: bool, y: int, z: int, da: array<bool>, ghost py: seq<bool>, ghost w: seq<bool>)
      requires Valid() && Missing(nodes, tree, item.key, py, w, y, z, p) && item.key !in Keys(tree)
      requires w != [] && dir == w[|w| - 1] && |w| <= da.Length && da[..|w|] == w
      modifies this`nodes, this`root, this`count, this`tree
      ensures Valid() && |old(nodes)| < |nodes| && |old(nodes)| in Ids(tree)
      ensures count == old(count) + 1 && tree == Insert(old(tree), item, |old(nodes)|)
      ensures Within(old(nodes), nodes, Ids(old(tree))) && nodes[|old(nodes)|].item == item
    {
      hide *;
      ghost var t, nodes0, root0 := tree, nodes, root;
      ValidIs();
      TableFacts(nodes, root, count, t);
      MissingFacts(nodes, t, item.key, py, w, y, z, p);
      var n := |nodes|;
      count := count + 1;
      nodes := nodes[p := SetThread(SetTLink(nodes[p], dir, n), dir, false)] + [NewRecord(nodes[p], p, dir, item)];
      TGrowStart(nodes0, nodes, t, item, py, w, y, z, p);
      AdjustBalances(y, n, da, nodes0, Sub(t, py), Lo(t, py, -1), Hi(t, py, -1), item, w);
      Restore(y, z, nodes0, t, item, py, w, p);
      Inserted(nodes0, nodes, root0, root, count - 1, t, item);
      tree := Insert(t, item, n);
      ValidIs();
    }

    /** The parent of a node, found by way of the threads at the ends of its subtree; -1 for the root. */
    method FindParent(node: nat, ghost t: Tree, ghost path: seq<bool>) returns (p: int)
      requires Threaded(nodes, t, -1, -1) && NoShare(t) && root == Ptr(t) && Sub(t, path).N? && node == Sub(t, path).id
      ensures p == Above(t, path)
    {
      hide Above, Sub, NoShare, Lo, Hi;
      RootPath(t, path);
      if node == root {
        return -1;
      }
      ghost var lo, hi := Lo(t, path, -1), Hi(t, path, -1);
      ParentSide(nodes, t, path, node);
      SubThreads(nodes, t, -1, -1, path);
      var x, y := node, node;
      ghost var sx, sy, after, before := Sub(t, path), Sub(t, path), hi, lo;
      while true
        invariant sx.N? && x == sx.id && Threaded(nodes, sx, lo, after)
        invariant sy.N? && y == sy.id && Threaded(nodes, sy, before, hi)
        decreases sx
      {
        if nodes[y].rightThread {
          p := nodes[y].right;
          if p == -1 || nodes[p].left != node {
            while !nodes[x].leftThread
              invariant sx.N? && x == sx.id && Threaded(nodes, sx, lo, after)
              decreases sx
            {
              x, after, sx := nodes[x].left, x, sx.left;
            }
            p := nodes[x].left;
          }
          return;
        } else if nodes[x].leftThread {
          p := nodes[x].left;
          if p == -1 || nodes[p].right != node {
            while !nodes[y].rightThread
              invariant sy.N? && y == sy.id && Threaded(nodes, sy, before, hi)
              decreases sy
            {
              y, before, sy := nodes[y].right, y, sy.right;
            }
            p := nodes[y].right;
          }
          return;
        }
        x, after, sx := nodes[x].left, x, sx.left;
        y, before, sy := nodes[y].right, y, sy.right;
      }
    }

    /** The last thread of the subtree at `x` turned to another node. */
    method RethreadLast(x: nat, target: int, ghost t: Tree, ghost lo: int, ghost hi: int)
      requires Threaded(nodes, t, lo, hi) && NoShare(t) && t.N? && x == t.id
      modifies this`nodes
      ensures Threaded(nodes, t, lo, target) && Within(old(nodes), nodes, Ids(t))
    {
      hide NoShare, Ids, Within;
      var last := x;
      ghost var s, before := t, lo;
      while !nodes[last].rightThread
        invariant s.N? && last == s.id && Threaded(nodes, s, before, hi) && LastId(t) == LastId(s) && nodes == old(nodes)
        decreases s
      {
        last, before, s := nodes[last].right, last, s.right;
      }
      Rethreaded(nodes, nodes[last := nodes[last].(right := target)], t, lo, hi, target);
      nodes := nodes[last := nodes[last].(right := target)];
    }

    /** The reference on side `dir` of `q`, or the root reference. */
    method SetReference(q: int, dir: bool, p: int)
      requires q == -1 || 0 <= q < |nodes|
      modifies this`nodes, this`root
      ensures q == -1 ==> nodes == old(nodes) && root == p
      ensures q != -1 ==> root == old(root) && nodes == old(nodes)[q := SetTLink(old(nodes)[q], dir, p)]
    {
      if q == -1 {
        root := p;
      } else {
        nodes := nodes[q := SetTLink(nodes[q], dir, p)];
      }
    }

    /** A node without a right child is taken out. */
    method TakeOutLeft(p: nat, q: int, dir: bool, ghost t: Tree, ghost way: seq<bool>)
      requires Threaded(nodes, t, -1, -1) && NoShare(t) && root == Ptr(t) && Sub(t, way).N? && p == Sub(t, way).id
      requires Sub(t, way).right == Nil && q == Above(t, way) && dir == (way != [] && way[|way| - 1])
      modifies this`nodes, this`root
      ensures Threaded(nodes, Replace(t, way, Sub(t, way).left), -1, -1) && root == Ptr(Replace(t, way, Sub(t, way).left))
      ensures Within(old(nodes), nodes, Ids(t))
    {
      ghost var nodes0, pt, lo, hi := nodes, Sub(t, way), Lo(t, way, -1), Hi(t, way, -1);
      hide *;
      NodeAt(nodes, t, way);
      LeftOf(nodes, pt, lo, hi);
      if !nodes[p].leftThread {
        RethreadLast(nodes[p].left, nodes[p].right, pt.left, lo, p);
        LeftStays(nodes0, nodes, pt, lo, hi);
        Spliced(nodes0, nodes, t, way, pt.left, q, dir);
        WithinLength(nodes0, nodes, Ids(t));
        SetReference(q, dir, nodes[p].left);
      } else {
        WithinSelf(nodes, pt, lo, hi);
        Spliced(nodes0, nodes, t, way, pt.left, q, dir);
        SetReference(q, dir, TLink(nodes[p], dir));
        if q != -1 {
          ghost var n := SetTLink(nodes0[q], dir, TLink(nodes0[p], dir));
          assert nodes0[q := n][q := SetThread(n, dir, true)] == nodes0[q := SetThread(n, dir, true)];
          nodes := nodes[q := SetThread(nodes[q], dir, true)];
        }
      }
    }

    /** A node whose right child has no left child is taken out: the right child comes up. */
    method TakeOutFollower(p: nat, q: int, dir: bool, ghost t: Tree, ghost way: seq<bool>) returns (r: nat)
      requires Threaded(nodes, t, -1, -1) && NoShare(t) && root == Ptr(t) && Sub(t, way).N? && p == Sub(t, way).id
      requires Sub(t, way).right.N? && Sub(t, way).right.left == Nil
      requires q == Above(t, way) && dir == (way != [] && way[|way| - 1])
      modifies this`nodes, this`root
      ensures Threaded(nodes, Replace(t, way, Unlinked(Sub(t, way))), -1, -1) && root == Ptr(Replace(t, way, Unlinked(Sub(t, way))))
      ensures Within(old(nodes), nodes, Ids(t)) && r == Sub(t, way).right.id
    {
      ghost var nodes0, pt, lo, hi := nodes, Sub(t, way), Lo(t, way, -1), Hi(t, way, -1);
      hide *;
      NodeAt(nodes, t, way);
      PartsOf(nodes, pt, lo, hi);
      FollowerPlace(t, way);
      r := nodes[p].right;
      RightChildApart(nodes, pt, lo, hi);
      nodes := nodes[r := nodes[r].(left := nodes[p].left, leftThread := nodes[p].leftThread)];
      OneSet(nodes0, nodes, r, pt.left, lo, p);
      if !nodes[r].leftThread {
        RethreadLast(nodes[r].left, r, pt.left, lo, p);
      } else {
        NothingThere(nodes, pt.left, lo, r);
      }
      LastSet(nodes0, nodes, nodes0[r := nodes0[r].(left := nodes0[p].left, leftThread := nodes0[p].leftThread)], pt, lo, r);
      nodes := nodes[r := nodes[r].(balance := nodes[p].balance)];
      FollowerUp(nodes0, nodes, pt, lo, hi, r);
      Spliced(nodes0, nodes, t, way, Unlinked(pt), q, dir);
      SetReference(q, dir, r);
    }

    /** The leftmost node of the right side of `p`, and the node above it. */
    method LeftmostOfRight(p: nat, ghost t: Tree, ghost lo: int, ghost hi: int) returns (r: nat, s: nat)
      requires Threaded(nodes, t, lo, hi) && t.N? && t.right.N? && t.right.left.N? && p == t.id && Threaded(nodes, t.right, p, hi)
      ensures r < |nodes| && s < |nodes| && nodes[s].leftThread
      ensures r == Above(t.right, Leftward(t.right)) && s == Ptr(Sub(t.right, Leftward(t.right)))
    {
      hide *;
      PartsOf(nodes, t, lo, hi);
      r := nodes[p].right;
      ghost var pre: seq<bool> := [];
      FirstSeek(t.right);
      FirstStep(nodes, t.right, p, hi, pre);
      s := nodes[r].left;
      while !nodes[s].leftThread
        invariant s < |nodes| && r < |nodes|
        invariant Sub(t.right, pre).N? && Sub(t.right, pre).left.N? && Leftward(t.right) == pre + Leftward(Sub(t.right, pre))
        invariant r == Sub(t.right, pre).id && s == Sub(t.right, pre).left.id
        decreases Sub(t.right, pre)
      {
        FirstStep(nodes, t.right, p, hi, pre);
        pre := pre + [false];
        FirstStep(nodes, t.right, p, hi, pre);
        r := s;
        s := nodes[r].left;
      }
      FirstStep(nodes, t.right, p, hi, pre);
    }

    /** A node is taken out whose right child has a left child: the leftmost node of the right
        side comes up, and `r` is the node it was the child of. */
    method TakeOutFirst(p: nat, q: int, dir: bool, ghost t: Tree, ghost way: seq<bool>) returns (r: nat)
      requires Threaded(nodes, t, -1, -1) && NoShare(t) && Sorted(t) && root == Ptr(t) && Sub(t, way).N? && p == Sub(t, way).id
      requires Sub(t, way).right.N? && Sub(t, way).right.left.N?
      requires q == Above(t, way) && dir == (way != [] && way[|way| - 1])
      modifies this`nodes, this`root
      ensures Threaded(nodes, Replace(t, way, Unlinked(Sub(t, way))), -1, -1) && root == Ptr(Replace(t, way, Unlinked(Sub(t, way))))
      ensures Within(old(nodes), nodes, Ids(t)) && r == Above(Sub(t, way).right, Leftward(Sub(t, way).right))
    {
      ghost var nodes0, pt, lo, hi := nodes, Sub(t, way), Lo(t, way, -1), Hi(t, way, -1);
      hide *;
      NodeAt(nodes, t, way);
      SortedAt(t, way);
      PartsOf(nodes, pt, lo, hi);
      FirstPlace(t, way);
      var s: nat;
      r, s := LeftmostOfRight(p, pt, lo, hi);
      if !nodes[s].rightThread {
        nodes := nodes[r := nodes[r].(left := nodes[s].right)];
      } else {
        nodes := nodes[r := nodes[r].(left := s, leftThread := true)];
      }
      FirstLoose(nodes0, nodes, pt, lo, hi, r, s);
      ghost var nodes1 := nodes;
      RaiseFirst(p, s, pt, lo, hi);
      FirstUp(nodes0, nodes1, nodes, pt, lo, hi, s);
      Spliced(nodes0, nodes, t, way, Unlinked(pt), q, dir);
      SetReference(q, dir, s);
    }

    /** The loose node `s` takes over the sides and the balance of `p`. */
    method RaiseFirst(p: nat, s: nat, ghost t: Tree, ghost lo: int, ghost hi: int)
      requires t.N? && t.right.N? && p == t.id && s != p && p < |nodes| && s < |nodes| && s !in Ids(t.left) && p !in Ids(t.left)
      requires Threaded(nodes, t.left, lo, p) && NoShare(t.left) && nodes[s].leftThread
      requires nodes[p] == Record(t, lo, hi)
      modifies this`nodes
      ensures s < |nodes| && Threaded(nodes, t.left, lo, s) && Within(old(nodes), nodes, Ids(t.left) + {s})
      ensures nodes[s] == TNode(if t.left.Nil? then lo else t.left.id, t.right.id, t.left.Nil?, false, old(nodes)[s].item, t.balance)
    {
      ghost var nodes0 := nodes;
      hide Threaded, Ids, NoShare, Within;
      nodes := nodes[s := nodes[s].(left := nodes[p].left)];
      ghost var nodes1 := nodes;
      OneSet(nodes0, nodes, s, t.left, lo, p);
      if !nodes[p].leftThread {
        RethreadLast(nodes[p].left, s, t.left, lo, p);
      } else {
        NothingThere(nodes, t.left, lo, s);
      }
      KeptAside(nodes0, nodes1, nodes, t, s);
      ghost var before := nodes;
      if !nodes[p].leftThread {
        nodes := nodes[s := nodes[s].(leftThread := false)];
      }
      nodes := nodes[s := nodes[s].(right := nodes[p].right)];
      nodes := nodes[s := nodes[s].(rightThread := false)];
      nodes := nodes[s := nodes[s].(balance := nodes[p].balance)];
      assert nodes == before[s := nodes[s]];
      SetAgain(nodes0, before, nodes, t.left, lo, s);
    }

    /** The left side of `y` has become lower: its balance, a rotation where one is called for,
        and whether the climb can end here. */
    method ShrinkLeft(y: nat, q: int, dir: bool, ghost t: Tree, ghost path: seq<bool>) returns (done: bool)
      requires Threaded(nodes, t, -1, -1) && NoShare(t) && root == Ptr(t) && Sub(t, path).N? && y == Sub(t, path).id
      requires WasBalanced(Sub(t, path), [false]) && q == Above(t, path) && dir == (path != [] && path[|path| - 1])
      modifies this`nodes, this`root
      ensures Threaded(nodes, Replace(t, path, LeftShrunk(Sub(t, path)).tree), -1, -1)
      ensures root == Ptr(Replace(t, path, LeftShrunk(Sub(t, path)).tree)) && Within(old(nodes), nodes, Ids(t))
      ensures done == !LeftShrunk(Sub(t, path)).lower
    {
      hide *;
      ghost var nodes0, yt, lo, hi := nodes, Sub(t, path), Lo(t, path, -1), Hi(t, path, -1);
      ghost var u := WithBalance(yt, yt.balance + 1);
      LeftLow(yt);
      LeftShrunkIs(yt);
      Reweighed(nodes, t, path, y, yt.balance + 1);
      nodes := nodes[y := nodes[y].(balance := nodes[y].balance + 1)];
      if nodes[y].balance == 1 {
        done := true;
      } else if nodes[y].balance == 2 {
        ghost var nodes1 := nodes;
        IsRightHeavy(nodes, u, lo, hi);
        RightHeavyRecords(nodes, u, lo, hi);
        var x := nodes[y].right;
        var top := x;
        if nodes[x].balance == -1 {
          top := TurnTwiceLeft(y, x, u, lo, hi);
          done := false;
        } else {
          done := nodes[x].balance == 0;
          TurnHigherLeft(y, x, u, lo, hi);
        }
        WithinTwice(nodes0, nodes1, nodes, Ids(yt), Ids(u));
        PtrIs(LeftShrunk(yt).tree, top);
        Spliced(nodes0, nodes, t, path, LeftShrunk(yt).tree, q, dir);
        WithinLength(nodes0, nodes, Ids(t));
        SetReference(q, dir, top);
      } else {
        done := false;
      }
    }

    /** The single rotation of a deletion to the left; if both sides of `x` were as high, the
        height stays. */
    method TurnHigherLeft(y: nat, x: nat, ghost t: Tree, ghost lo: int, ghost hi: int)
      requires RightHeavy(nodes, t, lo, hi) && t.N? && t.right.N? && y == t.id && x == t.right.id
      requires t.right.balance == 0 || t.right.balance == 1
      requires t.right.balance == 0 ==> t.right.left.N?
      modifies this`nodes
      ensures var b := t.right.balance;
              && Threaded(nodes, TurnLeft(t, if b == 0 then -1 else 0, if b == 0 then 1 else 0), lo, hi)
              && Ptr(TurnLeft(t, if b == 0 then -1 else 0, if b == 0 then 1 else 0)) == x
      ensures Within(old(nodes), nodes, Ids(t))
    {
      hide RightHeavy, Threaded, TurnLeft, Ids;
      ghost var nodes0 := nodes;
      RightHeavyRecords(nodes, t, lo, hi);
      if nodes[x].balance == 0 {
        nodes := nodes[y := nodes[y].(right := nodes[x].left)];
        nodes := nodes[x := nodes[x].(left := y)];
        nodes := nodes[x := nodes[x].(balance := -1)];
        nodes := nodes[y := nodes[y].(balance := 1)];
        TurnedLeftTree(nodes0, nodes, t, lo, hi, y, x, -1, 1);
      } else {
        if !nodes[x].leftThread {
          nodes := nodes[y := nodes[y].(right := nodes[x].left)];
        } else {
          nodes := nodes[y := nodes[y].(rightThread := true)];
          nodes := nodes[x := nodes[x].(leftThread := false)];
        }
        nodes := nodes[x := nodes[x].(left := y)];
        nodes := nodes[y := nodes[y].(balance := 0)];
        nodes := nodes[x := nodes[x].(balance := 0)];
        TurnedLeftTree(nodes0, nodes, t, lo, hi, y, x, 0, 0);
      }
    }

    /** The right side of `y` has become lower. */
    method ShrinkRight(y: nat, q: int, dir: bool, ghost t: Tree, ghost path: seq<bool>) returns (done: bool)
      requires Threaded(nodes, t, -1, -1) && NoShare(t) && root == Ptr(t) && Sub(t, path).N? && y == Sub(t, path).id
      requires WasBalanced(Sub(t, path), [true]) && q == Above(t, path) && dir == (path != [] && path[|path| - 1])
      modifies this`nodes, this`root
      ensures Threaded(nodes, Replace(t, path, RightShrunk(Sub(t, path)).tree), -1, -1)
      ensures root == Ptr(Replace(t, path, RightShrunk(Sub(t, path)).tree)) && Within(old(nodes), nodes, Ids(t))
      ensures done == !RightShrunk(Sub(t, path)).lower
    {
      hide *;
      ghost var nodes0, yt, lo, hi := nodes, Sub(t, path), Lo(t, path, -1), Hi(t, path, -1);
      ghost var u := WithBalance(yt, yt.balance - 1);
      RightLow(yt);
      RightShrunkIs(yt);
      Reweighed(nodes, t, path, y, yt.balance - 1);
      nodes := nodes[y := nodes[y].(balance := nodes[y].balance - 1)];
      if nodes[y].balance == -1 {
        done := true;
      } else if nodes[y].balance == -2 {
        ghost var nodes1 := nodes;
        IsLeftHeavy(nodes, u, lo, hi);
        LeftHeavyRecords(nodes, u, lo, hi);
        var x := nodes[y].left;
        var top := x;
        if nodes[x].balance == 1 {
          top := TurnTwiceRight(y, x, u, lo, hi);
          done := false;
        } else {
          done := nodes[x].balance == 0;
          TurnHigherRight(y, x, u, lo, hi);
        }
        WithinTwice(nodes0, nodes1, nodes, Ids(yt), Ids(u));
        PtrIs(RightShrunk(yt).tree, top);
        Spliced(nodes0, nodes, t, path, RightShrunk(yt).tree, q, dir);
        WithinLength(nodes0, nodes, Ids(t));
        SetReference(q, dir, top);
      } else {
        done := false;
      }
    }

    /** The single rotation of a deletion to the right. */
    method TurnHigherRight(y: nat, x: nat, ghost t: Tree, ghost lo: int, ghost hi: int)
      requires LeftHeavy(nodes, t, lo, hi) && t.N? && t.left.N? && y == t.id && x == t.left.id
      requires t.left.balance == 0 || t.left.balance == -1
      requires t.left.balance == 0 ==> t.left.right.N?
      modifies this`nodes
      ensures var b := t.left.balance;
              && Threaded(nodes, TurnRight(t, if b == 0 then 1 else 0, if b == 0 then -1 else 0), lo, hi)
              && Ptr(TurnRight(t, if b == 0 then 1 else 0, if b == 0 then -1 else 0)) == x
      ensures Within(old(nodes), nodes, Ids(t))
    {
      hide LeftHeavy, Threaded, TurnRight, Ids;
      ghost var nodes0 := nodes;
      LeftHeavyRecords(nodes, t, lo, hi);
      if nodes[x].balance == 0 {
        nodes := nodes[y := nodes[y].(left := nodes[x].right)];
        nodes := nodes[x := nodes[x].(right := y)];
        nodes := nodes[x := nodes[x].(balance := 1)];
        nodes := nodes[y := nodes[y].(balance := -1)];
        TurnedRightTree(nodes0, nodes, t, lo, hi, y, x, 1, -1);
      } else {
        if !nodes[x].rightThread {
          nodes := nodes[y := nodes[y].(left := nodes[x].right)];
        } else {
          nodes := nodes[y := nodes[y].(leftThread := true)];
          nodes := nodes[x := nodes[x].(rightThread := false)];
        }
        nodes := nodes[x := nodes[x].(right := y)];
        nodes := nodes[y := nodes[y].(balance := 0)];
        nodes := nodes[x := nodes[x].(balance := 0)];
        TurnedRightTree(nodes0, nodes, t, lo, hi, y, x, 0, 0);
      }
    }

    /** The way to a key, with the node above and the side it is on; none if the key is missing. */
    method Seek(key: int) returns (found: bool, p: int, q: int, dir: bool)
      requires Valid()
      ensures found <==> key in Keys(tree)
      ensures found ==>
                var way := Way(tree, key);
                Sub(tree, way).N? && p == Sub(tree, way).id && q == Above(tree, way) && dir == (way != [] && way[|way| - 1])
    {
      hide *;
      ghost var t := tree;
      ValidIs();
      TableFacts(nodes, root, count, t);
      found, p, q, dir := false, root, -1, false;
      ghost var path: seq<bool> := [];
      if root == -1 {
        NoKeys(t, key);
        return;
      }
      SeekStart(nodes, t, key);
      while true
        invariant Seeking(t, key, path, p, q, dir) && !found
        decreases Height(t) - |path|
      {
        SeekStep(nodes, t, key, path, p, q, dir);
        if key == nodes[p].item.key {
          found := true;
          return;
        }
        dir := key > nodes[p].item.key;
        q := p;
        if IsThread(nodes[p], dir) {
          return;
        }
        p := TLink(nodes[p], dir);
        path := path + [dir];
      }
    }

    /** Takes out the item with a key, if there is one, and gives it back. */
    method Remove(key: int) returns (r: Option<Item>)
      requires Valid()
      modifies this
      ensures Valid() && (r.Some? <==> key in Keys(old(tree)))
      ensures r.None? ==> nodes == old(nodes) && root == old(root) && count == old(count) && tree == old(tree)
      ensures r.Some? ==>
                && tree == Delete(old(tree), key) && r.value.key == key
                && r.value in Items(old(tree)) && Items(tree) == Items(old(tree)) - {r.value} && Keys(tree) == Keys(old(tree)) - {key}
                && count + 1 == old(count) && Within(old(nodes), nodes, Ids(old(tree)))
    {
      hide *;
      ghost var t, nodes0, way := tree, nodes, Way(tree, key);
      var found, p, q, dir := Seek(key);
      if !found {
        return None;
      }
      ValidIs();
      TableFacts(nodes, root, count, t);
      RemoveStart(nodes, t, key);
      var item := nodes[p].item;
      if nodes[p].rightThread {
        NoRightPlace(t, way);
        TakeOutLeft(p, q, dir, t, way);
      } else {
        var r := nodes[p].right;
        if nodes[r].leftThread {
          FollowerPlace(t, way);
          q := TakeOutFollower(p, q, dir, t, way);
          dir := true;
        } else {
          FirstPlace(t, way);
          q := TakeOutFirst(p, q, dir, t, way);
          dir := false;
        }
      }
      ghost var u, low := Replace(t, way, Unlinked(Sub(t, way))), way + LowPath(Sub(t, way));
      ghost var nodes1 := nodes;
      Climb(q, dir, u, low);
      StillTable(nodes, root, count, t, Delete(t, key), item, Sub(t, way).id);
      WithinLess(nodes0, nodes1, nodes, t, u, item, Sub(t, way).id);
      tree := Delete(t, key);
      count := count - 1;
      ValidIs();
      r := Some(item);
    }

    /** The climb from the lower place, up to where the height has not changed. */
    method Climb(q0: int, dir0: bool, ghost t: Tree, ghost path: seq<bool>)
      requires Threaded(nodes, t, -1, -1) && NoShare(t) && root == Ptr(t) && WasBalanced(t, path)
      requires q0 == Above(t, path) && dir0 == (path != [] && path[|path| - 1])
      modifies this`nodes, this`root
      ensures Threaded(nodes, Settle(t, path).tree, -1, -1) && root == Ptr(Settle(t, path).tree)
      ensures Within(old(nodes), nodes, Ids(t))
    {
      hide *;
      ghost var nodes0, u, low := nodes, t, path;
      var q, dir := q0, dir0;
      WithinNone(nodes, t);
      while q != -1
        invariant Threaded(nodes, u, -1, -1) && NoShare(u) && root == Ptr(u) && WasBalanced(u, low)
        invariant q == Above(u, low) && dir == (low != [] && low[|low| - 1])
        invariant Settle(u, low).tree == Settle(t, path).tree && Ids(u) == Ids(t) && Within(nodes0, nodes, Ids(t))
        decreases |low|
      {
        ClimbStep(nodes, u, low, q);
        var y := q;
        ghost var py := low[..|low| - 1];
        q := FindParent(y, u, py);
        ClimbSide(nodes, u, py, y, q);
        ghost var nodes1, r := nodes, SideShrunk(Sub(u, py), dir);
        var done: bool;
        var side := dir;
        dir := (if q == -1 then root else nodes[q].left) != y;
        if !side {
          done := ShrinkLeft(y, q, dir, u, py);
        } else {
          done := ShrinkRight(y, q, dir, u, py);
        }
        WithinTwice(nodes0, nodes1, nodes, Ids(t), Ids(u));
        u := Replace(u, py, r.tree);
        low := py;
        if done {
          low := [];
          ClimbEnd(u, low);
          break;
        }
      }
      ClimbEnd(u, low);
    }
  }
}
