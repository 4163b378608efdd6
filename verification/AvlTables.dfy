/** The table: a height-balanced tree of records, changed in place. */
module AvlTables {
  import opened AvlTrees
  import opened AvlArena
  import opened AvlPaths
  import opened AvlProbing
  import opened AvlLookups
  import opened Options

  /** The records reached from `root` are the tree `t`, which is a good search tree. */
  ghost predicate Table(nodes: seq<Node>, root: int, count: nat, t: Tree) {
    Rep(nodes, root, t) && NoShare(t) && Balanced(t) && Sorted(t) && count == Size(t) && count < SIZE_LIMIT
  }

  lemma {:induction false} EmptyTable()
    ensures Table([], -1, 0, Nil)
  {
  }

  /** The first item of a table. */
  lemma {:induction false} FirstItem(nodes: seq<Node>, t: Tree, x: Item)
    requires t == Nil
    ensures Rep(nodes + [Node(-1, -1, x, 0)], |nodes|, Insert(t, x, |nodes|)) && Extends(t, Insert(t, x, |nodes|))
    ensures OnlyIn(nodes, nodes + [Node(-1, -1, x, 0)], Ids(t)) && HasNew(nodes, nodes + [Node(-1, -1, x, 0)], x)
  {
    assert EvenPath(t, x.key);
  }

  /** An inserted item leaves a good search tree. */
  lemma {:induction false} Inserted(nodes: seq<Node>, nodes': seq<Node>, root: int, root': int, count: nat, t: Tree, x: Item)
    requires Table(nodes, root, count, t) && x.key !in Keys(t) && count + 1 < SIZE_LIMIT
    requires Rep(nodes', root', Insert(t, x, |nodes|)) && HasNew(nodes, nodes', x)
    ensures |nodes| in Ids(Insert(t, x, |nodes|)) && |nodes| < |nodes'| && nodes'[|nodes|].item == x
    ensures Table(nodes', root', count + 1, Insert(t, x, |nodes|))
  {
    IdsBelow(nodes, root, t);
    InsertContents(t, x, |nodes|);
    InsertSorted(t, x, |nodes|);
    InsertBalanced(t, x, |nodes|);
    IdsBelow(nodes', root', Insert(t, x, |nodes|));
  }

  /** The facts about a table that the search uses. */
  lemma {:induction false} TableFacts(nodes: seq<Node>, root: int, count: nat, t: Tree)
    requires Table(nodes, root, count, t)
    ensures Rep(nodes, Ptr(t), t) && root == Ptr(t) && Good(nodes, t) && Balanced(t) && Size(t) < SIZE_LIMIT
    ensures root == -1 <==> t == Nil
  {
  }

  lemma {:induction false} NeitherSide(t: Tree)
    requires Rotatable(t)
    ensures -2 <= t.balance <= 2
    ensures Fix(t) == if t.balance == -2 then FixLeft(t) else if t.balance == 2 then FixRight(t) else t
  {
  }

  class AvlTable {
    var nodes: seq<Node>
    var root: int
    var count: nat
    var generation: int
    ghost var tree: Tree

    ghost predicate Valid()
      reads this
    {
      Table(nodes, root, count, tree)
    }

    lemma {:induction false} ValidIs()
      ensures Valid() <==> Table(nodes, root, count, tree)
    {
    }

    constructor ()
      ensures Valid() && tree == Nil && count == 0
    {
      nodes, root, count, generation := [], -1, 0, 0;
      tree := Nil;
      EmptyTable();
    }

    /** The item with a key, if there is one. */
    method Find(key: int) returns (r: Option<Item>)
      requires Valid()
      ensures r.Some? <==> key in Keys(tree)
      ensures r.Some? ==> r.value in Items(tree) && r.value.key == key
    {
      var p := root;
      ghost var s := tree;
      while p != -1
        invariant Rep(nodes, p, s) && Sorted(s) && Items(s) <= Items(tree)
        invariant key in Keys(tree) <==> key in Keys(s)
        decreases s
      {
        if key < nodes[p].item.key {
          p, s := nodes[p].left, s.left;
        } else if key > nodes[p].item.key {
          p, s := nodes[p].right, s.right;
        } else {
          return Some(nodes[p].item);
        }
      }
      r := None;
    }

    /** The least item whose key is at least the one given. */
    method AtOrAfter(key: int) returns (r: Option<Item>)
      requires Valid()
      ensures r == Least(tree, key)
    {
      var p, found := root, -1;
      ghost var s, last: Option<Item> := tree, None;
      while p != -1
        invariant Rep(nodes, p, s) && -1 <= found < |nodes|
        invariant last == if found == -1 then None else Some(nodes[found].item)
        invariant Least(tree, key) == OrElse(Least(s, key), last)
        decreases s
      {
        if key < nodes[p].item.key {
          last := Some(nodes[p].item);
          found := p;
          p, s := nodes[p].left, s.left;
        } else if key > nodes[p].item.key {
          p, s := nodes[p].right, s.right;
        } else {
          return Some(nodes[p].item);
        }
      }
      r := if found == -1 then None else Some(nodes[found].item);
    }

    /** The left side of `y` is two higher: the new top of the subtree. */
    method LowerLeft(y: nat, ghost t: Tree) returns (w: nat)
      requires Rotatable(t) && t.balance == -2 && Rep(nodes, y, t)
      modifies this`nodes
      ensures Rep(nodes, w, FixLeft(t)) && OnlyIn(old(nodes), nodes, Ids(t))
    {
      hide Rep, FixLeft, Rotatable, Ids;
      LeftRecords(nodes, t, y);
      var x := nodes[y].left;
      if nodes[x].balance == -1 {
        w := x;
        nodes := nodes[y := nodes[y].(left := nodes[x].right)];
        nodes := nodes[x := nodes[x].(right := y)];
        nodes := nodes[x := nodes[x].(balance := 0)];
        nodes := nodes[y := nodes[y].(balance := 0)];
      } else {
        w := nodes[x].right;
        nodes := nodes[x := nodes[x].(right := nodes[w].left)];
        nodes := nodes[w := nodes[w].(left := x)];
        nodes := nodes[y := nodes[y].(left := nodes[w].right)];
        nodes := nodes[w := nodes[w].(right := y)];
        if nodes[w].balance == -1 {
          nodes := nodes[x := nodes[x].(balance := 0)];
          nodes := nodes[y := nodes[y].(balance := 1)];
        } else if nodes[w].balance == 0 {
          nodes := nodes[x := nodes[x].(balance := 0)];
          nodes := nodes[y := nodes[y].(balance := 0)];
        } else {
          nodes := nodes[x := nodes[x].(balance := -1)];
          nodes := nodes[y := nodes[y].(balance := 0)];
        }
        nodes := nodes[w := nodes[w].(balance := 0)];
      }
      LowerLeftRep(old(nodes), nodes, t, y, x, w);
    }

    /** The right side of `y` is two higher. */
    method LowerRight(y: nat, ghost t: Tree) returns (w: nat)
      requires Rotatable(t) && t.balance == 2 && Rep(nodes, y, t)
      modifies this`nodes
      ensures Rep(nodes, w, FixRight(t)) && OnlyIn(old(nodes), nodes, Ids(t))
    {
      hide Rep, FixRight, Rotatable, Ids;
      RightRecords(nodes, t, y);
      var x := nodes[y].right;
      if nodes[x].balance == 1 {
        w := x;
        nodes := nodes[y := nodes[y].(right := nodes[x].left)];
        nodes := nodes[x := nodes[x].(left := y)];
        nodes := nodes[x := nodes[x].(balance := 0)];
        nodes := nodes[y := nodes[y].(balance := 0)];
      } else {
        w := nodes[x].left;
        nodes := nodes[x := nodes[x].(left := nodes[w].right)];
        nodes := nodes[w := nodes[w].(right := x)];
        nodes := nodes[y := nodes[y].(right := nodes[w].left)];
        nodes := nodes[w := nodes[w].(left := y)];
        if nodes[w].balance == 1 {
          nodes := nodes[x := nodes[x].(balance := 0)];
          nodes := nodes[y := nodes[y].(balance := -1)];
        } else if nodes[w].balance == 0 {
          nodes := nodes[x := nodes[x].(balance := 0)];
          nodes := nodes[y := nodes[y].(balance := 0)];
        } else {
          nodes := nodes[x := nodes[x].(balance := 1)];
          nodes := nodes[y := nodes[y].(balance := 0)];
        }
        nodes := nodes[w := nodes[w].(balance := 0)];
      }
      LowerRightRep(old(nodes), nodes, t, y, x, w);
    }

    /** The balances on the way from `y` down to the new leaf. */
    method AdjustBalances(y: int, n: int, da: array<bool>, ghost nodes0: seq<Node>, ghost t: Tree, ghost x: Item, ghost w: seq<bool>)
      requires Growing(nodes0, nodes, t, x, w, 0, y) && n == |nodes0| && |w| <= da.Length && da[..|w|] == w
      modifies this`nodes
      ensures Growing(nodes0, nodes, t, x, w, |w|, n)
    {
      hide *;
      var p, k := y, 0;
      while p != n
        invariant k <= |w| && da[..|w|] == w && Growing(nodes0, nodes, t, x, w, k, p)
        decreases |w| - k
      {
        GrowingNext(nodes0, nodes, t, x, w, k, p);
        nodes := nodes[p := Rebalance(nodes[p], da[k])];
        p := Link(nodes[p], da[k]);
        k := k + 1;
      }
      GrowingNext(nodes0, nodes, t, x, w, k, p);
    }

    /** The rotation, where one is called for, and the reference to the subtree it leaves. */
    method Restore(y: int, z: int, ghost nodes0: seq<Node>, ghost t: Tree, ghost x: Item, ghost py: seq<bool>, ghost w: seq<bool>, ghost q: int)
      requires Placed(nodes0, t, x.key, py, w, y, z, q) && Growing(nodes0, nodes, Sub(t, py), x, w, |w|, |nodes0|)
      requires root == Ptr(t)
      modifies this`nodes, this`root, this`generation
      ensures Rep(nodes, root, Insert(t, x, |nodes0|)) && OnlyIn(nodes0, nodes, Ids(t)) && HasNew(nodes0, nodes, x)
      ensures generation == old(generation) + 1 || (generation == old(generation) && Extends(t, Insert(t, x, |nodes0|)))
    {
      hide *;
      ghost var grown, s := nodes, Grow(Sub(t, py), x, |nodes0|);
      PlacedGrown(nodes0, nodes, t, x, py, w, y, z, q, |nodes0|);
      NeitherSide(s);
      var top: nat;
      if nodes[y].balance == -2 {
        top := LowerLeft(y, s);
      } else if nodes[y].balance == 2 {
        top := LowerRight(y, s);
      } else {
        PlacedFlat(nodes0, nodes, t, x, py, w, y, z, q);
        return;
      }
      PlacedTurned(nodes0, grown, nodes, t, x, py, w, y, z, q, top);
      if z == -1 {
        root := top;
      } else {
        nodes := nodes[z := SetLink(nodes[z], y != nodes[z].left, top)];
      }
      generation := generation + 1;
    }

    /** Inserts an item, unless there is one with its key: the slot of either. */
    method Probe(item: Item) returns (slot: int)
      requires Valid() && count + 1 < SIZE_LIMIT
      modifies this
      ensures Valid() && 0 <= slot < |nodes| && slot in Ids(tree)
      ensures item.key in Keys(old(tree)) ==>
                && nodes == old(nodes) && root == old(root) && count == old(count)
                && generation == old(generation) && tree == old(tree) && nodes[slot].item.key == item.key
      ensures item.key !in Keys(old(tree)) ==>
                && slot == |old(nodes)| && count == old(count) + 1 && tree == Insert(old(tree), item, slot)
                && OnlyIn(old(nodes), nodes, Ids(old(tree))) && nodes[slot].item == item
                && (generation == old(generation) + 1 || (generation == old(generation) && Extends(old(tree), tree)))
    {
      ghost var t, nodes0, root0 := tree, nodes, root;
      hide *;
      ValidIs();
      TableFacts(nodes, root, count, t);
      var z, y, dir, k := -1, root, false, 0;
      var q, p := z, y;
      var da := new bool[MAX_HEIGHT];
      ghost var py, w: seq<bool> := [], [];
      DescendStart(t, item.key);
      while p != -1
        invariant nodes == nodes0 && tree == t && root == old(root) && count == old(count) && generation == old(generation)
        invariant Valid() && Descending(t, item.key, py, w, y, z, p, q)
        invariant k == |w| <= da.Length == MAX_HEIGHT && da[..k] == w
        invariant w != [] ==> dir == w[|w| - 1]
        decreases MAX_HEIGHT - |py + w|
      {
        DescendAt(nodes, t, item.key, py, w, y, z, p, q);
        if item.key == nodes[p].item.key {
          return p;
        }
        dir := item.key > nodes[p].item.key;
        if nodes[p].balance != 0 {
          DescendUneven(t, item.key, py, w, y, z, p, q, dir);
          z, y, k := q, p, 0;
          py, w := py + w, [];
        } else {
          DescendEven(t, item.key, py, w, y, z, p, q, dir);
        }
        da[k] := dir;
        k := k + 1;
        assert [] + [dir] == [dir];
        w := w + [dir];
        q, p := p, Link(nodes[p], dir);
      }
      Place(nodes, t, item, py, w, y, z, p, q);
      var n := |nodes|;
      count := count + 1;
      slot := n;
      if y == -1 {
        root := n;
        nodes := nodes + [Node(-1, -1, item, 0)];
        FirstItem(nodes0, t, item);
        Inserted(nodes0, nodes, root0, root, count - 1, t, item);
        tree := Insert(t, item, n);
        ValidIs();
        return;
      }
      nodes := nodes[q := SetLink(nodes[q], dir, n)] + [Node(-1, -1, item, 0)];
      PlacedHung(nodes0, nodes, t, item, py, w, y, z, q);
      AdjustBalances(y, n, da, nodes0, Sub(t, py), item, w);
      Restore(y, z, nodes0, t, item, py, w, q);
      Inserted(nodes0, nodes, root0, root, count - 1, t, item);
      tree := Insert(t, item, n);
      ValidIs();
    }
  }
}
