/** One deletion from a threaded tree, step by step: the parent found without parent
    references, the node taken out, the balance restored. */
module TavlDeleting {
  import opened AvlTrees
  import opened AvlArena
  import opened AvlPaths
  import opened AvlProbing
  import opened AvlLookups
  import opened TavlTrees
  import opened TavlArena
  import opened TavlTurns
  import opened TavlProbing

  // ---- The parent of a node ----

  /** A node further down in the tree is not its root. */
  lemma {:induction false} BelowRoot(t: Tree, path: seq<bool>, n: nat)
    requires NoShare(t) && Sub(t, path).N? && n in Ids(Sub(t, path)) && n != Sub(t, path).id
    ensures t.N? && n != t.id
    decreases |path|
  {
    SubHas(t, path);
    if path != [] {
      SubIds(Child(t, path[0]), path[1..]);
    }
  }

  /** The node after a subtree does not have a node inside the subtree as its left child. */
  lemma {:induction false} HiNot(nodes: seq<TNode>, t: Tree, lo: int, hi: int, path: seq<bool>, n: nat)
    requires Threaded(nodes, t, lo, hi) && NoShare(t) && Sub(t, path).N? && n in Ids(Sub(t, path)) && n != Sub(t, path).id
    ensures Hi(t, path, hi) == hi || (0 <= Hi(t, path, hi) < |nodes| && nodes[Hi(t, path, hi)].left != n)
    decreases |path|
  {
    if path != [] {
      SubHas(t, path);
      var c := Child(t, path[0]);
      SubHas(c, path[1..]);
      BelowRoot(c, path[1..], n);
      HiNot(nodes, c, if path[0] then t.id else lo, if path[0] then hi else t.id, path[1..], n);
    }
  }

  lemma {:induction false} LoNot(nodes: seq<TNode>, t: Tree, lo: int, hi: int, path: seq<bool>, n: nat)
    requires Threaded(nodes, t, lo, hi) && NoShare(t) && Sub(t, path).N? && n in Ids(Sub(t, path)) && n != Sub(t, path).id
    ensures Lo(t, path, lo) == lo || (0 <= Lo(t, path, lo) < |nodes| && nodes[Lo(t, path, lo)].right != n)
    decreases |path|
  {
    if path != [] {
      SubHas(t, path);
      var c := Child(t, path[0]);
      SubHas(c, path[1..]);
      BelowRoot(c, path[1..], n);
      LoNot(nodes, c, if path[0] then t.id else lo, if path[0] then hi else t.id, path[1..], n);
    }
  }

  /** The parent is the node after the subtree, or else the node before it. */
  lemma {:induction false} ParentSide(nodes: seq<TNode>, t: Tree, path: seq<bool>, node: int)
    requires Threaded(nodes, t, -1, -1) && NoShare(t) && path != [] && Sub(t, path).N? && node == Sub(t, path).id
    ensures var p, h, l := Above(t, path), Hi(t, path, -1), Lo(t, path, -1);
            && (h == -1 || 0 <= h < |nodes|) && (l == -1 || 0 <= l < |nodes|)
            && ((h == -1 || nodes[h].left != node) ==> l == p && l != -1 && nodes[l].right == node)
            && ((l == -1 || nodes[l].right != node) ==> h == p && h != -1 && nodes[h].left == node)
            && (h != -1 && nodes[h].left == node ==> h == p)
            && (l != -1 && nodes[l].right == node ==> l == p)
  {
    var above, d := path[..|path| - 1], path[|path| - 1];
    ParentOf(t, path);
    LoHiSnoc(t, -1, -1, above, d);
    SubThreads(nodes, t, -1, -1, above);
    SubIds(t, above);
    Apart(Sub(t, above));
    assert node in Ids(Sub(t, path));
    if d {
      HiNot(nodes, t, -1, -1, above, node);
    } else {
      LoNot(nodes, t, -1, -1, above, node);
    }
  }

  lemma {:induction false} RootPath(t: Tree, path: seq<bool>)
    requires NoShare(t) && Sub(t, path).N?
    ensures Sub(t, path).id == Ptr(t) <==> path == []
    ensures path == [] ==> Above(t, path) == -1
  {
    SubHas(t, path);
    if path != [] {
      ParentOf(t, path);
      SubIds(t, path[..|path| - 1]);
      Apart(Sub(t, path[..|path| - 1]));
      BelowRoot(t, path[..|path| - 1], Sub(t, path).id);
    }
  }

  // ---- The last thread of a subtree ----

  ghost function LastId(t: Tree): int {
    if t.Nil? then -1 else if t.right.Nil? then t.id else LastId(t.right)
  }

  lemma {:induction false} Rethreaded(nodes: seq<TNode>, nodes': seq<TNode>, t: Tree, lo: int, hi: int, hi': int)
    requires Threaded(nodes, t, lo, hi) && NoShare(t) && t.N?
    requires 0 <= LastId(t) < |nodes| && nodes' == nodes[LastId(t) := nodes[LastId(t)].(right := hi')]
    ensures Threaded(nodes', t, lo, hi') && Within(nodes, nodes', Ids(t)) && LastId(t) in Ids(t)
  {
    if t.right.N? {
      Rethreaded(nodes, nodes', t.right, t.id, hi, hi');
    }
    FrameThreads(nodes, nodes', t.left, lo, t.id);
  }

  // ---- The follower taken out of the right side ----

  /** The leftmost node and the one above it. */
  lemma {:induction false} FirstOut(nodes: seq<TNode>, nodes': seq<TNode>, t: Tree, lo: int, hi: int, r: nat, s: nat)
    requires Threaded(nodes, t, lo, hi) && NoShare(t) && t.N? && t.left.N?
    requires s == Ptr(Sub(t, Leftward(t))) && r == Above(t, Leftward(t)) && s < |nodes| && r < |nodes|
    requires nodes' == nodes[r := if nodes[s].rightThread then nodes[r].(left := s, leftThread := true) else nodes[r].(left := nodes[s].right)]
    ensures Threaded(nodes', WithoutFirst(t), s, hi) && r in Ids(t) && r != s
    decreases t
  {
    var c := t.left;
    assert Leftward(t)[1..] == Leftward(c);
    FirstThere(c);
    SubIds(c, Leftward(c));
    assert s in Ids(Sub(c, Leftward(c)));
    if c.left.N? {
      assert Leftward(c) != [] && Leftward(t)[..|Leftward(t)| - 1][1..] == Leftward(c)[..|Leftward(c)| - 1];
      FirstOut(nodes, nodes', c, lo, t.id, r, s);
      FrameThreads(nodes, nodes', t.right, t.id, hi);
    } else {
      assert Leftward(c) == [] && Leftward(t)[..|Leftward(t)| - 1] == [];
      FrameThreads(nodes, nodes', t.right, t.id, hi);
      FrameThreads(nodes, nodes', c.right, c.id, t.id);
    }
  }

  // ---- Another subtree in the place of one ----

  lemma {:induction false} Spliced(nodes: seq<TNode>, mid: seq<TNode>, t: Tree, path: seq<bool>, s: Tree, q: int, d: bool)
    requires Threaded(nodes, t, -1, -1) && NoShare(t) && Sub(t, path).N?
    requires Within(nodes, mid, Ids(Sub(t, path))) && Threaded(mid, s, Lo(t, path, -1), Hi(t, path, -1))
    requires Ids(s) <= Ids(Sub(t, path)) && q == Above(t, path) && (path != [] ==> d == path[|path| - 1])
    ensures Within(nodes, mid, Ids(t)) && (q == -1 <==> path == [])
    ensures path == [] ==> Threaded(mid, Replace(t, path, s), -1, -1) && Ptr(Replace(t, path, s)) == Ptr(s)
    ensures path == [] ==> Lo(t, path, -1) == -1 && Hi(t, path, -1) == -1
    ensures path != [] ==> 0 <= q < |nodes| && mid[q] == nodes[q]
    ensures path != [] ==>
              var nodes' := mid[q := if s.N? then SetTLink(mid[q], d, s.id) else SetThread(SetTLink(mid[q], d, if d then Hi(t, path, -1) else Lo(t, path, -1)), d, true)];
              Threaded(nodes', Replace(t, path, s), -1, -1) && Ptr(Replace(t, path, s)) == Ptr(t) && Within(nodes, nodes', Ids(t))
  {
    SubIds(t, path);
    if path != [] {
      SplicedBelow(nodes, mid, t, path, s, q, d);
    }
  }

  lemma {:induction false} SplicedBelow(nodes: seq<TNode>, mid: seq<TNode>, t: Tree, path: seq<bool>, s: Tree, q: int, d: bool)
    requires Threaded(nodes, t, -1, -1) && NoShare(t) && Sub(t, path).N? && path != []
    requires Within(nodes, mid, Ids(Sub(t, path))) && Threaded(mid, s, Lo(t, path, -1), Hi(t, path, -1))
    requires Ids(s) <= Ids(Sub(t, path)) && q == Above(t, path) && d == path[|path| - 1]
    ensures 0 <= q < |nodes| && mid[q] == nodes[q]
    ensures var nodes' := mid[q := if s.N? then SetTLink(mid[q], d, s.id) else SetThread(SetTLink(mid[q], d, if d then Hi(t, path, -1) else Lo(t, path, -1)), d, true)];
            Threaded(nodes', Replace(t, path, s), -1, -1) && Ptr(Replace(t, path, s)) == Ptr(t) && Within(nodes, nodes', Ids(t))
  {
    hide Threaded, Sub, Lo, Hi, NoShare, Ids, Replace, Same;
    ParentOf(t, path);
    TWhich(nodes, t, path, Sub(t, path).id, q);
    var thread := if d then Hi(t, path, -1) else Lo(t, path, -1);
    var n := if s.N? then SetTLink(mid[q], d, s.id) else SetThread(SetTLink(mid[q], d, thread), d, true);
    var nodes' := mid[q := n];
    assert n == Pointing(mid[q], d, s, thread);
    assert Within(mid, nodes', {q});
    SameOn(mid, nodes', {q}, Ids(s));
    FrameThreads(mid, nodes', s, Lo(t, path, -1), Hi(t, path, -1));
    SwapThreads(nodes, nodes', t, -1, -1, path, s, q);
  }

  /** The nodes above a replaced subtree stay. */
  lemma {:induction false} AboveStays(t: Tree, path: seq<bool>, s: Tree, k: nat)
    requires k < |path| && Sub(t, path).N?
    ensures Ptr(Sub(Replace(t, path, s), path[..k])) == Ptr(Sub(t, path[..k]))
    decreases k
  {
    SubHas(t, path);
    if k > 0 {
      assert path[..k][1..] == path[1..][..k - 1];
      AboveStays(Child(t, path[0]), path[1..], s, k - 1);
    } else {
      assert path[..0] == [];
    }
  }

  // ---- The cases of taking a node out ----

  /** The node to be taken out, and its record. */
  lemma {:induction false} NodeAt(nodes: seq<TNode>, t: Tree, way: seq<bool>)
    requires Threaded(nodes, t, -1, -1) && NoShare(t) && Sub(t, way).N?
    ensures var p, lo, hi := Sub(t, way), Lo(t, way, -1), Hi(t, way, -1);
            && p.id < |nodes| && nodes[p.id] == Record(p, lo, hi)
            && Threaded(nodes, p, lo, hi) && Threaded(nodes, p.left, lo, p.id) && Threaded(nodes, p.right, p.id, hi)
            && NoShare(p) && NoShare(p.left) && NoShare(p.right)
            && Ids(p) == Ids(p.left) + {p.id} + Ids(p.right) && Ids(p.left) !! Ids(p.right) && p.id !in Ids(p.left) && p.id !in Ids(p.right)
  {
    SubThreads(nodes, t, -1, -1, way);
    SubIds(t, way);
    Apart(Sub(t, way));
  }

  /** Without a right child the left side takes the place, or nothing does. */
  lemma {:induction false} NoRightPlace(t: Tree, way: seq<bool>)
    requires Sub(t, way).N? && Sub(t, way).right == Nil
    ensures Unlinked(Sub(t, way)) == Sub(t, way).left
    ensures way + LowPath(Sub(t, way)) == way
    ensures Above(Replace(t, way, Sub(t, way).left), way) == Above(t, way)
  {
    assert way + [] == way;
    if way != [] {
      AboveStays(t, way, Sub(t, way).left, |way| - 1);
    }
  }

  /** The right child has no left child: it comes up. */
  lemma {:induction false} FollowerPlace(t: Tree, way: seq<bool>)
    requires var p := Sub(t, way); p.N? && p.right.N? && p.right.left == Nil
    ensures var p := Sub(t, way);
            && Unlinked(p) == N(p.right.id, p.left, p.right.item, p.balance, p.right.right)
            && Ptr(Unlinked(p)) == p.right.id
            && way + LowPath(p) == way + [true] && Above(Replace(t, way, Unlinked(p)), way + [true]) == p.right.id
  {
    var p := Sub(t, way);
    assert [true] + [] == [true];
    assert (way + [true])[..|way|] == way;
    SubReplace(t, way, Unlinked(p));
  }

  lemma {:induction false} FollowerUp(nodes: seq<TNode>, nodes': seq<TNode>, p: Tree, lo: int, hi: int, r: nat)
    requires Threaded(nodes, p, lo, hi) && NoShare(p) && p.N? && p.right.N? && p.right.left == Nil && r == p.right.id < |nodes|
    requires Within(nodes, nodes', Ids(p.left) + {r}) && p.id < |nodes|
    requires Threaded(nodes', p.left, lo, r)
    requires nodes'[r] == nodes[r].(left := if p.left.Nil? then lo else p.left.id, leftThread := p.left.Nil?, balance := p.balance)
    ensures Threaded(nodes', N(r, p.left, p.right.item, p.balance, p.right.right), lo, hi)
    ensures Within(nodes, nodes', Ids(p)) && Ids(N(r, p.left, p.right.item, p.balance, p.right.right)) <= Ids(p)
  {
    Apart(p);
    Apart(p.right);
    assert r in Ids(p.right);
    assert Threaded(nodes, p.right, p.id, hi);
    SameOn(nodes, nodes', Ids(p.left) + {r}, Ids(p.right.right));
    FrameThreads(nodes, nodes', p.right.right, r, hi);
  }

  /** Otherwise the leftmost node of the right side comes up. */
  lemma {:induction false} FirstPlace(t: Tree, way: seq<bool>)
    requires var p := Sub(t, way); p.N? && p.right.N? && p.right.left.N?
    ensures var p := Sub(t, way);
            var low, s := Leftward(p.right), Sub(p.right, Leftward(p.right));
            && s.N? && s.left == Nil && low != [] && low[|low| - 1] == false
            && Unlinked(p) == N(s.id, p.left, s.item, p.balance, WithoutFirst(p.right))
            && Ptr(Unlinked(p)) == s.id && Ptr(s) == s.id
            && way + LowPath(p) == way + [true] + low
            && Above(Replace(t, way, Unlinked(p)), way + LowPath(p)) == Above(p.right, low)
  {
    var p := Sub(t, way);
    var low := Leftward(p.right);
    FirstThere(p.right);
    LeftwardLast(p.right);
    WithoutAbove(p.right);
    var u := Unlinked(p);
    var path := way + LowPath(p);
    var pre := low[..|low| - 1];
    assert path == way + [true] + low;
    assert path[..|path| - 1] == way + ([true] + pre);
    SubReplace(t, way, u);
    SubConcat(Replace(t, way, u), way, [true] + pre);
    assert ([true] + pre)[1..] == pre;
  }

  lemma {:induction false} LeftwardLast(t: Tree)
    requires t.N? && t.left.N?
    ensures var low := Leftward(t); low != [] && low[|low| - 1] == false
  {
    if t.left.left.N? {
      LeftwardLast(t.left);
    }
  }

  lemma {:induction false} WithoutAbove(t: Tree)
    requires t.N? && t.left.N?
    ensures Leftward(t) != [] && Ptr(Sub(WithoutFirst(t), Leftward(t)[..|Leftward(t)| - 1])) == Above(t, Leftward(t))
  {
    var low := Leftward(t);
    assert low[1..] == Leftward(t.left);
    if t.left.left.N? {
      WithoutAbove(t.left);
      assert low[..|low| - 1][1..] == Leftward(t.left)[..|low| - 2];
    } else {
      assert low[..|low| - 1] == [];
    }
  }

  /** One step to the left in the search for it. */
  lemma {:induction false} FirstStep(nodes: seq<TNode>, t: Tree, lo: int, hi: int, pre: seq<bool>)
    requires Threaded(nodes, t, lo, hi) && Sub(t, pre).N? && Sub(t, pre).left.N? && Leftward(t) == pre + Leftward(Sub(t, pre))
    ensures var u := Sub(t, pre);
            && u.id < |nodes| && u.left.id < |nodes| && nodes[u.id].left == u.left.id
            && nodes[u.left.id].leftThread == u.left.left.Nil?
            && (u.left.left.N? ==> nodes[u.left.id].left == u.left.left.id)
            && Sub(t, pre + [false]) == u.left && Leftward(t) == pre + [false] + Leftward(u.left)
            && (u.left.left.Nil? ==> Leftward(t) == pre + [false] && Above(t, Leftward(t)) == u.id && Ptr(Sub(t, Leftward(t))) == u.left.id)
  {
    SubThreads(nodes, t, lo, hi, pre);
    SubSnoc(t, pre, false);
    var u := Sub(t, pre);
    assert Leftward(u) == [false] + Leftward(u.left);
    assert pre + ([false] + Leftward(u.left)) == pre + [false] + Leftward(u.left);
    assert pre + [false] + [] == pre + [false];
    assert (pre + [false])[..|pre|] == pre;
  }

  lemma {:induction false} FirstUp(nodes: seq<TNode>, nodes1: seq<TNode>, nodes': seq<TNode>, p: Tree, lo: int, hi: int, s: nat)
    requires Threaded(nodes, p, lo, hi) && NoShare(p) && Sorted(p) && p.N? && p.right.N? && p.right.left.N? && p.id < |nodes|
    requires s == Ptr(Sub(p.right, Leftward(p.right))) && s < |nodes1| && s < |nodes'|
    requires Within(nodes, nodes1, Ids(p.right)) && Threaded(nodes1, WithoutFirst(p.right), s, hi)
    requires Within(nodes1, nodes', Ids(p.left) + {s}) && Threaded(nodes', p.left, lo, s)
    requires nodes'[s] == TNode(if p.left.Nil? then lo else p.left.id, p.right.id, p.left.Nil?, false, nodes1[s].item, p.balance)
    requires nodes1[s].item == Sub(p.right, Leftward(p.right)).item
    ensures var f := Sub(p.right, Leftward(p.right));
            && Threaded(nodes', N(s, p.left, f.item, p.balance, WithoutFirst(p.right)), lo, hi)
            && Ids(N(s, p.left, f.item, p.balance, WithoutFirst(p.right))) <= Ids(p)
    ensures Within(nodes, nodes', Ids(p))
  {
    Apart(p);
    FirstRemoved(p.right);
    assert s !in Ids(WithoutFirst(p.right)) && s in Ids(p.right) && Ids(WithoutFirst(p.right)) <= Ids(p.right);
    assert Ids(p.left) + {s} <= Ids(p);
    SameOn(nodes1, nodes', Ids(p.left) + {s}, Ids(WithoutFirst(p.right)));
    FrameThreads(nodes1, nodes', WithoutFirst(p.right), s, hi);
    WithinThen(nodes, nodes1, nodes', Ids(p), Ids(p.left) + {s});
    assert WithoutFirst(p.right).N? && WithoutFirst(p.right).id == p.right.id;
  }

  // ---- The balance restored, one node at a time ----

  lemma {:induction false} WasSub(t: Tree, path: seq<bool>, d: bool)
    requires WasBalanced(t, path + [d])
    ensures Sub(t, path).N? && WasBalanced(Sub(t, path), [d])
    decreases |path|
  {
    if path == [] {
      assert path + [d] == [d];
    } else {
      assert (path + [d])[1..] == path[1..] + [d];
      WasSub(Child(t, path[0]), path[1..], d);
    }
  }

  lemma {:induction false} WasReplace(t: Tree, path: seq<bool>, d: bool, s: Tree)
    requires WasBalanced(t, path + [d]) && Balanced(s) && Height(s) + 1 == WasHeight(Sub(t, path), [d])
    ensures WasBalanced(Replace(t, path, s), path)
    ensures WasHeight(Replace(t, path, s), path) == WasHeight(t, path + [d])
    decreases |path|
  {
    if path == [] {
      assert path + [d] == [d];
    } else {
      assert (path + [d])[1..] == path[1..] + [d];
      WasReplace(Child(t, path[0]), path[1..], d, s);
    }
  }

  lemma {:induction false} WasNone(t: Tree, path: seq<bool>)
    requires path == []
    ensures WasBalanced(t, path) == Balanced(t) && WasHeight(t, path) == Height(t) + 1
  {
  }

  lemma {:induction false} WasOnce(y: Tree, d: bool, path: seq<bool>)
    requires path != [] && path[0] == d
    ensures WasBalanced(y, path) ==>
              && y.N? && WasBalanced(Child(y, d), path[1..]) && Balanced(Child(y, !d)) && -1 <= y.balance <= 1
              && y.balance == if d then WasHeight(Child(y, d), path[1..]) - Height(Child(y, !d)) else Height(Child(y, !d)) - WasHeight(Child(y, d), path[1..])
    ensures y.N? ==> WasHeight(y, path) == 1 + Max(WasHeight(Child(y, d), path[1..]), Height(Child(y, !d)))
  {
  }

  /** A node with one side lower than its balance says. */
  lemma {:induction false} WasOne(y: Tree, d: bool)
    requires WasBalanced(y, [d])
    ensures y.N? && Balanced(y.left) && Balanced(y.right) && -1 <= y.balance <= 1
    ensures y.balance == (Height(y.right) + if d then 1 else 0) - (Height(y.left) + if d then 0 else 1)
    ensures WasHeight(y, [d]) == 1 + Max(Height(y.left) + (if d then 0 else 1), Height(y.right) + (if d then 1 else 0))
  {
    hide WasBalanced, WasHeight, Height, Balanced;
    assert [d][1..] == [];
    WasOnce(y, d, [d]);
    WasNone(Child(y, d), [d][1..]);
  }

  lemma {:induction false} SideLower(y: Tree, d: bool)
    requires WasBalanced(y, [d]) && SideShrunk(y, d).lower
    ensures Balanced(SideShrunk(y, d).tree) && Height(SideShrunk(y, d).tree) + 1 == WasHeight(y, [d])
  {
    hide LeftShrunk, RightShrunk, WasBalanced, WasHeight, Balanced, Height;
    WasOne(y, d);
    if d {
      RightShrunkBalanced(y);
    } else {
      LeftShrunkBalanced(y);
    }
  }

  /** One node further up, if the height of this one's subtree has changed. */
  lemma {:induction false} WasStep(t: Tree, path: seq<bool>, d: bool)
    requires WasBalanced(t, path + [d])
    ensures Sub(t, path).N? && WasBalanced(Sub(t, path), [d])
    ensures SideShrunk(Sub(t, path), d).lower ==> WasBalanced(Replace(t, path, SideShrunk(Sub(t, path), d).tree), path)
  {
    hide *;
    WasSub(t, path, d);
    if SideShrunk(Sub(t, path), d).lower {
      SideLower(Sub(t, path), d);
      WasReplace(t, path, d, SideShrunk(Sub(t, path), d).tree);
    }
  }

  /** What the shape of a subtree must be whose left side is lower. */
  lemma {:induction false} LeftLow(y: Tree)
    requires WasBalanced(y, [false])
    ensures y.N? && -1 <= y.balance <= 1
    ensures y.balance == 1 ==> y.right.N? && -1 <= y.right.balance <= 1
    ensures y.balance == 1 && y.right.balance <= 0 ==> y.right.left.N? && -1 <= y.right.left.balance <= 1
  {
    WasOne(y, false);
    hide WasBalanced, WasHeight, Height, Balanced;
    if y.balance == 1 {
    }
  }

  lemma {:induction false} RightLow(y: Tree)
    requires WasBalanced(y, [true])
    ensures y.N? && -1 <= y.balance <= 1
    ensures y.balance == -1 ==> y.left.N? && -1 <= y.left.balance <= 1
    ensures y.balance == -1 && y.left.balance >= 0 ==> y.left.right.N? && -1 <= y.left.right.balance <= 1
  {
    WasOne(y, true);
    hide WasBalanced, WasHeight, Height, Balanced;
    if y.balance == -1 {
    }
  }

  /** A node with another balance. */
  ghost function WithBalance(t: Tree, b: int): Tree {
    if t.Nil? then t else N(t.id, t.left, t.item, b, t.right)
  }

  /** The balance of a node changed in place. */
  lemma {:induction false} Reweighed(nodes: seq<TNode>, t: Tree, path: seq<bool>, y: nat, b: int)
    requires Threaded(nodes, t, -1, -1) && NoShare(t) && Sub(t, path).N? && y == Sub(t, path).id
    ensures y < |nodes| && nodes[y].balance == Sub(t, path).balance
    ensures var nodes', u := nodes[y := nodes[y].(balance := b)], WithBalance(Sub(t, path), b);
            && u.N? && u.id == y && u.balance == b && u.left == Sub(t, path).left && u.right == Sub(t, path).right
            && Threaded(nodes', u, Lo(t, path, -1), Hi(t, path, -1)) && NoShare(u)
            && Ids(u) == Ids(Sub(t, path)) && Within(nodes, nodes', Ids(Sub(t, path)))
            && Threaded(nodes', Replace(t, path, u), -1, -1) && Ptr(Replace(t, path, u)) == Ptr(t) && Within(nodes, nodes', Ids(t))
  {
    var s, lo, hi := Sub(t, path), Lo(t, path, -1), Hi(t, path, -1);
    NodeAt(nodes, t, path);
    SubIds(t, path);
    var nodes', u := nodes[y := nodes[y].(balance := b)], WithBalance(s, b);
    assert Within(nodes, nodes', {y});
    SameOn(nodes, nodes', {y}, Ids(s.left));
    SameOn(nodes, nodes', {y}, Ids(s.right));
    SameOn(nodes, nodes', {y}, Ids(t) - Ids(s));
    FrameThreads(nodes, nodes', s.left, lo, y);
    FrameThreads(nodes, nodes', s.right, y, hi);
    assert Threaded(nodes', u, lo, hi);
    hide Threaded, Replace, Sub, Lo, Hi, Same;
    RebuildThreads(nodes, nodes', t, -1, -1, path, u);
  }

  /** What the steps at a node amount to, its balance being raised by one. */
  lemma {:induction false} LeftShrunkIs(y: Tree)
    requires y.N?
    ensures var u := WithBalance(y, y.balance + 1);
            LeftShrunk(y) ==
            if u.balance == 1 then Shrink(u, false)
            else if u.balance != 2 || y.right.Nil? then Shrink(u, true)
            else if y.right.balance == 0 then Shrink(TurnLeft(u, -1, 1), false)
            else if y.right.balance == 1 then Shrink(TurnLeft(u, 0, 0), true)
            else Shrink(FixRight(u), true)
    ensures Ids(LeftShrunk(y).tree) == Ids(y)
  {
    LeftShrunkFacts(y);
  }

  lemma {:induction false} RightShrunkIs(y: Tree)
    requires y.N?
    ensures var u := WithBalance(y, y.balance - 1);
            RightShrunk(y) ==
            if u.balance == -1 then Shrink(u, false)
            else if u.balance != -2 || y.left.Nil? then Shrink(u, true)
            else if y.left.balance == 0 then Shrink(TurnRight(u, 1, -1), false)
            else if y.left.balance == -1 then Shrink(TurnRight(u, 0, 0), true)
            else Shrink(FixLeft(u), true)
    ensures Ids(RightShrunk(y).tree) == Ids(y)
  {
    RightShrunkFacts(y);
  }

  // ---- The search for the node ----

  /** On the way to a key. */
  ghost predicate Seeking(t: Tree, key: int, path: seq<bool>, p: int, q: int, dir: bool) {
    && OnWay(t, path, key) && Sub(t, path).N? && p == Sub(t, path).id
    && q == Above(t, path) && dir == (path != [] && path[|path| - 1])
  }

  lemma {:induction false} NoKeys(t: Tree, key: int)
    requires t == Nil
    ensures key !in Keys(t)
  {
  }

  lemma {:induction false} SeekStart(nodes: seq<TNode>, t: Tree, key: int)
    requires t != Nil
    ensures Seeking(t, key, [], Ptr(t), -1, false)
  {
  }

  lemma {:induction false} SeekStep(nodes: seq<TNode>, t: Tree, key: int, path: seq<bool>, p: int, q: int, dir: bool)
    requires Sound(nodes, t) && Seeking(t, key, path, p, q, dir)
    ensures 0 <= p < |nodes| && |path| < Height(t)
    ensures key == nodes[p].item.key ==> key in Keys(t) && path == Way(t, key)
    ensures Sub(t, path).N? && p == Sub(t, path).id && q == Above(t, path) && dir == (path != [] && path[|path| - 1])
    ensures var d := key > nodes[p].item.key;
            && (key != nodes[p].item.key && IsThread(nodes[p], d) ==> key !in Keys(t))
            && (key != nodes[p].item.key && !IsThread(nodes[p], d) ==> Seeking(t, key, path + [d], TLink(nodes[p], d), p, d))
  {
    SubThreads(nodes, t, -1, -1, path);
    SubIds(t, path);
    SubHeight(t, path);
    var s := Sub(t, path);
    assert s.item.key in Keys(s);
    WayOf(t, path);
    if key != s.item.key {
      var d := key > s.item.key;
      OnWaySnoc(t, path, key);
      SubSnoc(t, path, d);
      assert (path + [d])[..|path|] == path;
      if Child(s, d).Nil? {
        NotFound(t, path + [d], key);
      }
    }
  }

  // ---- The climb ----

  /** Where the deletion starts from. */
  lemma {:induction false} RemoveStart(nodes: seq<TNode>, t: Tree, key: int)
    requires Sound(nodes, t) && key in Keys(t)
    ensures var p := Sub(t, Way(t, key));
            && p.N? && p.id < |nodes| && nodes[p.id].item == p.item && p.item.key == key
            && nodes[p.id].rightThread == p.right.Nil?
            && (p.right.N? ==> 0 <= nodes[p.id].right < |nodes| && nodes[nodes[p.id].right].leftThread == p.right.left.Nil?)
            && WasBalanced(Replace(t, Way(t, key), Unlinked(p)), Way(t, key) + LowPath(p))
            && Removed(t, Replace(t, Way(t, key), Unlinked(p)), p.item, p.id)
            && Removed(t, Delete(t, key), p.item, p.id) && Balanced(Delete(t, key))
            && NoShare(Replace(t, Way(t, key), Unlinked(p)))
            && Settle(Replace(t, Way(t, key), Unlinked(p)), Way(t, key) + LowPath(p)).tree == Delete(t, key)
  {
    var way := Way(t, key);
    DeleteIs(t, key);
    var p := Sub(t, way);
    SubIds(t, way);
    SubThreads(nodes, t, -1, -1, way);
    UnlinkedRemoved(p);
    UnlinkedWas(p);
    ReplaceRemoved(t, way, Unlinked(p), p.item, p.id);
    ReplaceWas(t, way, Unlinked(p), LowPath(p));
  }

  /** One step up: what the tree becomes. */
  lemma {:induction false} ClimbStep(nodes: seq<TNode>, t: Tree, low: seq<bool>, q: int)
    requires WasBalanced(t, low) && q == Above(t, low) && q != -1 && NoShare(t)
    ensures low != [] && q >= 0
    ensures var path, d := low[..|low| - 1], low[|low| - 1];
            && Sub(t, path).N? && Sub(t, path).id == q && WasBalanced(Sub(t, path), [d])
            && var r := SideShrunk(Sub(t, path), d);
               r == (if d then RightShrunk(Sub(t, path)) else LeftShrunk(Sub(t, path))) &&
               var u := Replace(t, path, r.tree);
               && Settle(t, low).tree == (if r.lower then Settle(u, path).tree else u)
               && (r.lower ==> WasBalanced(u, path))
               && NoShare(u) && Ids(u) == Ids(t) && (path != [] ==> Above(u, path) == Above(t, path)) && (path == [] ==> Above(u, path) == -1)
  {
    var path, d := low[..|low| - 1], low[|low| - 1];
    assert low == path + [d];
    hide WasBalanced, Settle, LeftShrunk, RightShrunk, Replace;
    WasStep(t, path, d);
    SettleSnoc(t, path, d);
    SubIds(t, path);
    var r := SideShrunk(Sub(t, path), d);
    LeftShrunkFacts(Sub(t, path));
    RightShrunkFacts(Sub(t, path));
    ReplaceIds(t, path, r.tree);
    if path != [] {
      AboveStays(t, path, r.tree, |path| - 1);
    }
  }

  /** Which side of the next node the subtree is on, as the source finds it. */
  lemma {:induction false} ClimbSide(nodes: seq<TNode>, t: Tree, path: seq<bool>, y: int, q: int)
    requires Threaded(nodes, t, -1, -1) && NoShare(t) && Sub(t, path).N? && y == Sub(t, path).id && q == Above(t, path)
    ensures q == -1 <==> path == []
    ensures q == -1 ==> Ptr(t) == y
    ensures q != -1 ==> 0 <= q < |nodes| && (nodes[q].left != y) == path[|path| - 1]
  {
    if path != [] {
      TWhich(nodes, t, path, y, q);
    }
  }

  lemma {:induction false} WithinNone(nodes: seq<TNode>, t: Tree)
    ensures Within(nodes, nodes, Ids(t))
  {
  }

  lemma {:induction false} ClimbEnd(t: Tree, low: seq<bool>)
    requires low == [] || (WasBalanced(t, low) && Above(t, low) == -1)
    ensures Settle(t, low).tree == t
  {
    if low != [] {
      assert low == low[..|low| - 1] + [low[|low| - 1]];
      WasSub(t, low[..|low| - 1], low[|low| - 1]);
    }
  }
}
