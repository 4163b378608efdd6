/** Whole runs of a threaded table: insertions and deletions mixed with the steps of a traverser. */
module TavlSessions {
  import opened Options
  import opened AvlTrees
  import opened AvlArena
  import opened AvlLookups
  import opened TavlTrees
  import opened TavlArena
  import opened TavlCaches
  import opened TavlProbing
  import opened TavlTables
  import opened TavlTraversers
  import S = AvlSessions

  /** `Take` of the current item starts the traverser afresh, since its node is gone. */
  datatype Op = Put(item: Item) | Take(key: int) | Step

  ghost function Stepped(s: S.State, op: Op, r: Option<Item>): S.State {
    match op
    case Put(x) => S.State(if S.HasKey(s.items, x.key) then s.items else s.items + {x}, s.current)
    case Take(k) =>
      S.State(if r.Some? then s.items - {r.value} else s.items, if s.current.Some? && s.current.value.key == k then None else s.current)
    case Step => S.State(s.items, r)
  }

  /** What an operation may answer in a state. */
  ghost predicate Fits(s: S.State, op: Op, r: Option<Item>) {
    match op
    case Put(x) => r.Some? && r.value.key == x.key && r.value in Stepped(s, op, r).items
    case Take(k) => (r.Some? <==> S.HasKey(s.items, k)) && (r.Some? ==> r.value in s.items && r.value.key == k)
    case Step => S.IsNext(s.items, s.current, r)
  }

  ghost function After(s: S.State, ops: seq<Op>, out: seq<Option<Item>>): S.State
    requires |out| == |ops|
  {
    if ops == [] then s
    else Stepped(After(s, ops[..|ops| - 1], out[..|ops| - 1]), ops[|ops| - 1], out[|ops| - 1])
  }

  ghost function Snapshot(nodes: seq<TNode>, t: Tree, node: int): S.State {
    S.State(Items(t), if 0 <= node < |nodes| then Some(nodes[node].item) else None)
  }

  ghost function Now(trav: TavlTraverser): S.State
    reads trav, trav.table
  {
    Snapshot(trav.table.nodes, trav.table.tree, trav.node)
  }

  lemma {:induction false} NextItemIsNext(nodes: seq<TNode>, t: Tree, node: int)
    requires Sorted(t)
    ensures Fits(Snapshot(nodes, t, node), Step, NextItem(nodes, t, node))
  {
    FirstIs(t);
    forall x | x in Items(t)
      ensures x.key in Keys(t)
    {
      ItemKeys(t, x);
    }
    if 0 <= node < |nodes| {
      LeastIs(t, nodes[node].item.key + 1);
    }
  }

  lemma {:induction false} PutDone(nodes: seq<TNode>, t: Tree, nodes': seq<TNode>, t': Tree, x: Item, slot: nat, node: int)
    requires Sound(nodes, t) && Sound(nodes', t') && Placed(nodes, t, node) && slot < |nodes'| && slot in Ids(t')
    requires x.key in Keys(t) ==> nodes' == nodes && t' == t && nodes'[slot].item.key == x.key
    requires x.key !in Keys(t) ==> t' == Insert(t, x, slot) && Within(nodes, nodes', Ids(t)) && nodes'[slot].item == x
    ensures Placed(nodes', t', node)
    ensures var s, r := Snapshot(nodes, t, node), Some(nodes'[slot].item);
            Fits(s, Put(x), r) && Stepped(s, Put(x), r) == Snapshot(nodes', t', node)
  {
    S.KeysAreItems(t);
    FindThreaded(nodes', t', -1, -1, slot);
    if x.key !in Keys(t) {
      InsertContents(t, x, slot);
    }
  }

  lemma {:induction false} TakeDone(nodes: seq<TNode>, t: Tree, nodes': seq<TNode>, t': Tree, key: int, r: Option<Item>, node: int, node': int)
    requires Sound(nodes, t) && Placed(nodes, t, node)
    requires node' == if 0 <= node < |nodes| && nodes[node].item.key == key then -1 else node
    requires r.Some? <==> key in Keys(t)
    requires r.None? ==> nodes' == nodes && t' == t
    requires r.Some? ==>
               && t' == Delete(t, key) && r.value.key == key && Items(t') == Items(t) - {r.value}
               && Within(nodes, nodes', Ids(t)) && r.value in Items(t)
    ensures Placed(nodes', t', node')
    ensures var s := Snapshot(nodes, t, node);
            Fits(s, Take(key), r) && Stepped(s, Take(key), r) == Snapshot(nodes', t', node')
  {
    S.KeysAreItems(t);
    if r.Some? {
      DeleteIs(t, key);
      if node' != -1 {
        FindThreaded(nodes, t, -1, -1, node);
        assert Sub(t, Way(t, nodes[node].item.key)).id == node;
        var p := Sub(t, Way(t, key));
        SubThreads(nodes, t, -1, -1, Way(t, key));
        assert nodes[p.id].item == p.item;
      }
    }
  }

  method Perform(trav: TavlTraverser, op: Op) returns (r: Option<Item>)
    requires trav.Valid() && trav.table.count < TAVL_LIMIT
    modifies trav, trav.table
    ensures trav.Valid() && trav.table.count <= old(trav.table.count) + 1
    ensures Fits(old(Now(trav)), op, r) && Now(trav) == Stepped(old(Now(trav)), op, r)
  {
    hide Sound, Fits, Stepped, Placed, Insert, Delete, Items, Keys, Ids, Within, NextItem;
    ghost var nodes, t, node := trav.table.nodes, trav.table.tree, trav.node;
    TableFacts(nodes, trav.table.root, trav.table.count, t);
    match op
    case Put(x) =>
      var slot := trav.table.Probe(x);
      TableFacts(trav.table.nodes, trav.table.root, trav.table.count, trav.table.tree);
      r := Some(trav.table.nodes[slot].item);
      PutDone(nodes, t, trav.table.nodes, trav.table.tree, x, slot, node);
    case Take(key) =>
      PlacedAt(nodes, t, node);
      if trav.node != -1 && trav.table.nodes[trav.node].item.key == key {
        trav.Reset();
      }
      r := trav.table.Remove(key);
      TakeDone(nodes, t, trav.table.nodes, trav.table.tree, key, r, node, trav.node);
    case Step =>
      NextItemIsNext(nodes, t, node);
      r := trav.Next();
      StepDone(nodes, t, node, trav.node, r);
  }

  lemma {:induction false} PlacedAt(nodes: seq<TNode>, t: Tree, node: int)
    requires Placed(nodes, t, node)
    ensures node == -1 || 0 <= node < |nodes|
  {
  }

  lemma {:induction false} StepDone(nodes: seq<TNode>, t: Tree, node: int, node': int, r: Option<Item>)
    requires if r.Some? then 0 <= node' < |nodes| && nodes[node'].item == r.value else node' == -1
    ensures Stepped(Snapshot(nodes, t, node), Step, r) == Snapshot(nodes, t, node')
  {
  }

  /** Any mixture of insertions, deletions and steps answers as the items and the current item say. */
  method Interleave(trav: TavlTraverser, ops: seq<Op>) returns (out: seq<Option<Item>>)
    requires trav.Valid() && trav.table.count + |ops| <= TAVL_LIMIT
    modifies trav, trav.table
    ensures trav.Valid() && |out| == |ops|
    ensures forall k :: 0 <= k < |ops| ==> Fits(After(old(Now(trav)), ops[..k], out[..k]), ops[k], out[k])
    ensures Now(trav) == After(old(Now(trav)), ops, out)
  {
    hide Fits, Stepped, Now;
    ghost var s := Now(trav);
    out := [];
    while |out| < |ops|
      invariant |out| <= |ops| && trav.Valid() && trav.table.count + |ops| - |out| <= TAVL_LIMIT
      invariant Now(trav) == After(s, ops[..|out|], out)
      invariant forall k :: 0 <= k < |out| ==> Fits(After(s, ops[..k], out[..k]), ops[k], out[k])
    {
      var n := |out|;
      var r := Perform(trav, ops[n]);
      assert ops[..n + 1][..n] == ops[..n] && (out + [r])[..n] == out;
      assert forall k :: 0 <= k < n ==> (out + [r])[..k] == out[..k];
      out := out + [r];
    }
    assert ops[..|ops|] == ops;
  }
}
