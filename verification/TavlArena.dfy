/** Threaded trees laid out in memory: where a node has no child on a side, its reference
    is a thread to the node that comes before or after it. */
module TavlArena {
  import opened AvlTrees
  import opened AvlArena
  import opened AvlProbing

  /** A node record; the flags say which references are threads. */
  datatype TNode = TNode(left: int, right: int, leftThread: bool, rightThread: bool, item: Item, balance: int)

  function TLink(n: TNode, right: bool): int {
    if right then n.right else n.left
  }

  function IsThread(n: TNode, right: bool): bool {
    if right then n.rightThread else n.leftThread
  }

  function SetTLink(n: TNode, right: bool, p: int): TNode {
    if right then n.(right := p) else n.(left := p)
  }

  function SetThread(n: TNode, right: bool, thread: bool): TNode {
    if right then n.(rightThread := thread) else n.(leftThread := thread)
  }

  /** The record of the root of `t`, when `lo` and `hi` come just before and after the tree. */
  ghost function Record(t: Tree, lo: int, hi: int): TNode
    requires t.N?
  {
    TNode(if t.left.Nil? then lo else t.left.id, if t.right.Nil? then hi else t.right.id, t.left.Nil?, t.right.Nil?, t.item, t.balance)
  }

  /** The records of all nodes of `t` are right, threads included. */
  ghost predicate Threaded(nodes: seq<TNode>, t: Tree, lo: int, hi: int) {
    t.N? ==>
      && t.id < |nodes| && nodes[t.id] == Record(t, lo, hi)
      && Threaded(nodes, t.left, lo, t.id) && Threaded(nodes, t.right, t.id, hi)
  }

  /** The nodes just before and after the subtree at a path. */
  ghost function Lo(t: Tree, path: seq<bool>, lo: int): int
    decreases |path|
  {
    if path == [] || t.Nil? then lo else Lo(Child(t, path[0]), path[1..], if path[0] then t.id else lo)
  }

  ghost function Hi(t: Tree, path: seq<bool>, hi: int): int
    decreases |path|
  {
    if path == [] || t.Nil? then hi else Hi(Child(t, path[0]), path[1..], if path[0] then hi else t.id)
  }

  /** The records with these identifiers are the same. */
  ghost predicate Same(nodes: seq<TNode>, nodes': seq<TNode>, ids: set<nat>) {
    |nodes| <= |nodes'| && forall i: nat :: i in ids && i < |nodes| ==> nodes'[i] == nodes[i]
  }

  /** Only these records have changed, and no record has another item. */
  ghost predicate Within(nodes: seq<TNode>, nodes': seq<TNode>, ids: set<nat>) {
    && |nodes| <= |nodes'|
    && (forall i: nat :: i < |nodes| && i !in ids ==> nodes'[i] == nodes[i])
    && (forall i: nat :: i < |nodes| ==> nodes'[i].item == nodes[i].item)
  }

  lemma {:induction false} SameOn(nodes: seq<TNode>, nodes': seq<TNode>, changed: set<nat>, ids: set<nat>)
    requires Within(nodes, nodes', changed) && changed !! ids
    ensures Same(nodes, nodes', ids)
  {
  }

  lemma {:induction false} WithinThen(nodes: seq<TNode>, nodes1: seq<TNode>, nodes2: seq<TNode>, ids: set<nat>, more: set<nat>)
    requires Within(nodes, nodes1, ids) && Within(nodes1, nodes2, more)
    requires forall i :: i in more && i < |nodes| ==> i in ids
    ensures Within(nodes, nodes2, ids)
  {
  }

  lemma {:induction false} FrameThreads(nodes: seq<TNode>, nodes': seq<TNode>, t: Tree, lo: int, hi: int)
    requires Threaded(nodes, t, lo, hi) && Same(nodes, nodes', Ids(t))
    ensures Threaded(nodes', t, lo, hi)
  {
    if t.N? {
      assert t.id in Ids(t);
      FrameThreads(nodes, nodes', t.left, lo, t.id);
      FrameThreads(nodes, nodes', t.right, t.id, hi);
    }
  }

  lemma {:induction false} ThreadedIds(nodes: seq<TNode>, t: Tree, lo: int, hi: int)
    requires Threaded(nodes, t, lo, hi)
    ensures forall i :: i in Ids(t) ==> i < |nodes|
  {
    if t.N? {
      ThreadedIds(nodes, t.left, lo, t.id);
      ThreadedIds(nodes, t.right, t.id, hi);
    }
  }

  lemma {:induction false} SubThreads(nodes: seq<TNode>, t: Tree, lo: int, hi: int, path: seq<bool>)
    requires Threaded(nodes, t, lo, hi)
    ensures Threaded(nodes, Sub(t, path), Lo(t, path, lo), Hi(t, path, hi))
    decreases |path|
  {
    if path != [] && t.N? {
      SubThreads(nodes, Child(t, path[0]), if path[0] then t.id else lo, if path[0] then hi else t.id, path[1..]);
    } else if path != [] {
      NilSub(path);
    }
  }

  lemma {:induction false} LoHiSnoc(t: Tree, lo: int, hi: int, path: seq<bool>, d: bool)
    requires Sub(t, path).N?
    ensures Lo(t, path + [d], lo) == if d then Sub(t, path).id else Lo(t, path, lo)
    ensures Hi(t, path + [d], hi) == if d then Hi(t, path, hi) else Sub(t, path).id
    decreases |path|
  {
    SubHas(t, path);
    if path == [] {
      assert (path + [d])[1..] == [];
    } else {
      assert (path + [d])[1..] == path[1..] + [d];
      LoHiSnoc(Child(t, path[0]), if path[0] then t.id else lo, if path[0] then hi else t.id, path[1..], d);
    }
  }

  lemma {:induction false} LoHiConcat(t: Tree, lo: int, hi: int, path: seq<bool>, rest: seq<bool>)
    requires Sub(t, path).N?
    ensures Lo(t, path + rest, lo) == Lo(Sub(t, path), rest, Lo(t, path, lo))
    ensures Hi(t, path + rest, hi) == Hi(Sub(t, path), rest, Hi(t, path, hi))
    decreases |path|
  {
    SubHas(t, path);
    if path == [] {
      assert path + rest == rest;
    } else {
      assert (path + rest)[1..] == path[1..] + rest;
      LoHiConcat(Child(t, path[0]), if path[0] then t.id else lo, if path[0] then hi else t.id, path[1..], rest);
    }
  }

  /** What comes just before or after a subtree is not in it. */
  lemma {:induction false} LoHiOutside(t: Tree, lo: int, hi: int, path: seq<bool>)
    requires NoShare(t) && Sub(t, path).N? && lo !in Ids(t) && hi !in Ids(t)
    ensures Lo(t, path, lo) !in Ids(Sub(t, path)) && Hi(t, path, hi) !in Ids(Sub(t, path))
    decreases |path|
  {
    if path != [] {
      SubHas(t, path);
      LoHiOutside(Child(t, path[0]), if path[0] then t.id else lo, if path[0] then hi else t.id, path[1..]);
    }
  }

  /** A subtree rebuilt in place, with the same node at its root. */
  lemma {:induction false} RebuildThreads(nodes: seq<TNode>, nodes': seq<TNode>, t: Tree, lo: int, hi: int, path: seq<bool>, s: Tree)
    requires Threaded(nodes, t, lo, hi) && NoShare(t) && Sub(t, path).N?
    requires Same(nodes, nodes', Ids(t) - Ids(Sub(t, path)))
    requires Ptr(s) == Ptr(Sub(t, path)) && Threaded(nodes', s, Lo(t, path, lo), Hi(t, path, hi))
    ensures Threaded(nodes', Replace(t, path, s), lo, hi) && Ptr(Replace(t, path, s)) == Ptr(t)
    decreases |path|
  {
    if path != [] {
      if t.Nil? {
        NilSub(path);
      }
      var d := path[0];
      var c, other := Child(t, d), Child(t, !d);
      SubIds(c, path[1..]);
      SubHas(c, path[1..]);
      assert t.id in Ids(t) - Ids(Sub(t, path));
      RebuildThreads(nodes, nodes', c, if d then t.id else lo, if d then hi else t.id, path[1..], s);
      FrameThreads(nodes, nodes', other, if d then lo else t.id, if d then t.id else hi);
    }
  }
}
