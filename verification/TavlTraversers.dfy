/** A traverser of a threaded table needs no stack: it stays right while items are inserted
    and others are taken out. */
module TavlTraversers {
  import opened Options
  import opened AvlTrees
  import opened AvlArena
  import opened AvlLookups
  import opened TavlTrees
  import opened TavlArena
  import opened TavlTurns
  import opened TavlProbing
  import opened TavlTables

  /** The thread that leaves a subtree to the right leads to the nearest node up to the right. */
  lemma {:induction false} HiIsUp(nodes: seq<TNode>, t: Tree, lo: int, hi: int, path: seq<bool>)
    requires Threaded(nodes, t, lo, hi) && Sub(t, path).N?
    ensures Up(t, path).None? ==> Hi(t, path, hi) == hi
    ensures Up(t, path).Some? ==> 0 <= Hi(t, path, hi) < |nodes| && Hi(t, path, hi) in Ids(t) && nodes[Hi(t, path, hi)].item == Up(t, path).value
    decreases |path|
  {
    if path != [] {
      SubHas(t, path);
      HiIsUp(nodes, Child(t, path[0]), if path[0] then t.id else lo, if path[0] then hi else t.id, path[1..]);
    }
  }

  /** The item that follows the current one. */
  ghost function NextItem(nodes: seq<TNode>, t: Tree, node: int): Option<Item> {
    if 0 <= node < |nodes| then Least(t, nodes[node].item.key + 1) else First(t)
  }

  ghost predicate Placed(nodes: seq<TNode>, t: Tree, node: int) {
    node == -1 || (0 <= node < |nodes| && node in Ids(t))
  }

  lemma {:induction false} FindThreaded(nodes: seq<TNode>, t: Tree, lo: int, hi: int, id: nat)
    requires Sorted(t) && Threaded(nodes, t, lo, hi) && id in Ids(t)
    ensures id < |nodes| && nodes[id].item.key in Keys(t) && nodes[id].item in Items(t)
    ensures Sub(t, Way(t, nodes[id].item.key)).N? && Sub(t, Way(t, nodes[id].item.key)).id == id
    decreases t
  {
    if id in Ids(t.left) {
      FindThreaded(nodes, t.left, lo, t.id, id);
      assert Way(t, nodes[id].item.key)[1..] == Way(t.left, nodes[id].item.key);
    } else if id in Ids(t.right) {
      FindThreaded(nodes, t.right, t.id, hi, id);
      assert Way(t, nodes[id].item.key)[1..] == Way(t.right, nodes[id].item.key);
    }
  }

  /** What the record of the current node says of the next one. */
  lemma {:induction false} NextAt(nodes: seq<TNode>, t: Tree, node: nat)
    requires Sound(nodes, t) && node in Ids(t)
    ensures node < |nodes|
    ensures var s := Sub(t, Way(t, nodes[node].item.key));
            && s.N? && s.id == node
            && (nodes[node].rightThread ==> nodes[node].right == -1 || (0 <= nodes[node].right < |nodes| && nodes[node].right in Ids(t)))
            && (nodes[node].rightThread ==> NextItem(nodes, t, node) == if nodes[node].right < 0 then None else Some(nodes[nodes[node].right].item))
            && (!nodes[node].rightThread ==> nodes[node].right == Ptr(s.right) && s.right.N? && NextItem(nodes, t, node) == First(s.right))
            && Ids(s.right) <= Ids(t) && Threaded(nodes, s.right, node, Hi(t, Way(t, nodes[node].item.key), -1))
  {
    FindThreaded(nodes, t, -1, -1, node);
    var way := Way(t, nodes[node].item.key);
    SubThreads(nodes, t, -1, -1, way);
    SubIds(t, way);
    NextIs(t, way);
    HiIsUp(nodes, t, -1, -1, way);
    FirstSome(Sub(t, way).right);
  }

  lemma {:induction false} FirstSome(t: Tree)
    ensures First(t).Some? <==> t.N?
  {
    if t.N? {
      FirstDown(t);
    }
  }

  class TavlTraverser {
    const table: TavlTable
    var node: int

    ghost predicate Valid()
      reads this, table
    {
      table.Valid() && Placed(table.nodes, table.tree, node)
    }

    constructor (table: TavlTable)
      requires table.Valid()
      ensures Valid() && this.table == table && node == -1
    {
      this.table := table;
      node := -1;
    }

    /** Back to the null node. */
    method Reset()
      requires Valid()
      modifies this
      ensures Valid() && node == -1
    {
      node := -1;
    }

    /** The first item of the tree. */
    method SelectFirst() returns (r: Option<Item>)
      requires Valid()
      modifies this
      ensures Valid() && r == First(table.tree)
      ensures if r.Some? then 0 <= node < |table.nodes| && table.nodes[node].item == r.value else node == -1
    {
      node := table.root;
      if node == -1 {
        return None;
      }
      node := Leftmost(table.root, table.tree, -1, -1);
      r := Some(table.nodes[node].item);
    }

    method Leftmost(x0: int, ghost t: Tree, ghost lo: int, ghost hi: int) returns (x: int)
      requires Threaded(table.nodes, t, lo, hi) && t.N? && x0 == t.id
      ensures 0 <= x < |table.nodes| && x in Ids(t) && First(t) == Some(table.nodes[x].item)
    {
      x := x0;
      ghost var s, after := t, hi;
      while !table.nodes[x].leftThread
        invariant s.N? && x == s.id && Threaded(table.nodes, s, lo, after) && Ids(s) <= Ids(t) && First(s) == First(t)
        decreases s
      {
        FirstDown(s);
        x, after, s := table.nodes[x].left, x, s.left;
      }
      FirstDown(s);
      assert s.id in Ids(s);
    }

    /** The item that follows the current one, which becomes current; none after the last. */
    method Next() returns (r: Option<Item>)
      requires Valid()
      modifies this
      ensures Valid() && r == NextItem(table.nodes, table.tree, old(node))
      ensures if r.Some? then 0 <= node < |table.nodes| && table.nodes[node].item == r.value else node == -1
    {
      hide Threaded, Sorted, NoShare, Balanced, Ids, First, Least, Sub, Way, Keys, Items;
      if node == -1 {
        r := SelectFirst();
        return;
      }
      ghost var nodes, t := table.nodes, table.tree;
      NextAt(nodes, t, node);
      if table.nodes[node].rightThread {
        node := table.nodes[node].right;
        r := if node == -1 then None else Some(table.nodes[node].item);
      } else {
        ghost var way := Way(t, nodes[node].item.key);
        node := Leftmost(table.nodes[node].right, Sub(t, way).right, node, Hi(t, way, -1));
        r := Some(table.nodes[node].item);
      }
    }
  }
}
