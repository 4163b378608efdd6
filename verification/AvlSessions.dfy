/** Whole runs: insertions into a table mixed with the steps of a traverser of it. */
module AvlSessions {
  import opened Options
  import opened AvlTrees
  import opened AvlArena
  import opened AvlPaths
  import opened AvlProbing
  import opened AvlLookups
  import opened AvlTables
  import opened AvlTraversers

  datatype Op = Put(item: Item) | Step | Reset

  /** What a run is about: the items there are, and the one the traverser is at. */
  datatype State = State(items: set<Item>, current: Option<Item>)

  ghost predicate HasKey(items: set<Item>, key: int) {
    exists x :: x in items && x.key == key
  }

  /** `x` comes after the current item, or anywhere if there is none. */
  ghost predicate Later(current: Option<Item>, x: Item) {
    current.Some? ==> x.key > current.value.key
  }

  /** `r` is the least of the items that come later. */
  ghost predicate IsNext(items: set<Item>, current: Option<Item>, r: Option<Item>) {
    && (r.None? ==> forall x :: x in items ==> !Later(current, x))
    && (r.Some? ==> r.value in items && Later(current, r.value))
    && (r.Some? ==> forall x :: x in items && Later(current, x) ==> r.value.key <= x.key)
  }

  ghost function Stepped(s: State, op: Op, r: Option<Item>): State {
    match op
    case Put(x) => State(if HasKey(s.items, x.key) then s.items else s.items + {x}, s.current)
    case Step => State(s.items, r)
    case Reset => State(s.items, None)
  }

  /** What an operation may answer in a state. */
  ghost predicate Fits(s: State, op: Op, r: Option<Item>) {
    match op
    case Put(x) => r.Some? && r.value.key == x.key && r.value in Stepped(s, op, r).items
    case Step => IsNext(s.items, s.current, r)
    case Reset => r == None
  }

  /** The state after a run with the given answers. */
  ghost function After(s: State, ops: seq<Op>, out: seq<Option<Item>>): State
    requires |out| == |ops|
  {
    if ops == [] then s
    else Stepped(After(s, ops[..|ops| - 1], out[..|ops| - 1]), ops[|ops| - 1], out[|ops| - 1])
  }

  ghost function Now(trav: AvlTraverser): State
    reads trav, trav.table
  {
    var nodes := trav.table.nodes;
    State(Items(trav.table.tree), if 0 <= trav.node < |nodes| then Some(nodes[trav.node].item) else None)
  }

  /** The items and keys of a tree. */
  lemma {:induction false} KeysAreItems(t: Tree)
    ensures forall k :: k in Keys(t) <==> HasKey(Items(t), k)
  {
    if t.N? {
      KeysAreItems(t.left);
      KeysAreItems(t.right);
      assert t.item in Items(t);
      forall k | k in Keys(t)
        ensures HasKey(Items(t), k)
      {
        if k in Keys(t.left) {
          var x :| x in Items(t.left) && x.key == k;
          assert x in Items(t);
        } else if k in Keys(t.right) {
          var x :| x in Items(t.right) && x.key == k;
          assert x in Items(t);
        }
      }
    }
  }

  /** What the traverser moves to is the next item. */
  lemma {:induction false} FollowingIsNext(nodes: seq<Node>, t: Tree, node: int)
    requires Sorted(t)
    ensures IsNext(Items(t), if 0 <= node < |nodes| then Some(nodes[node].item) else None, Following(nodes, t, node))
  {
    FirstIs(t);
    forall x | x in Items(t)
      ensures x.key in Keys(t)
    {
      ItemKeys(t, x);
    }
    if 0 <= node < |nodes| {
      LeastIs(t, nodes[node].item.key + 1);
    }
  }

  lemma {:induction false} ItemAt(nodes: seq<Node>, t: Tree, id: nat)
    requires Rep(nodes, Ptr(t), t) && id in Ids(t)
    ensures id < |nodes| && nodes[id].item in Items(t)
    decreases t
  {
    if id in Ids(t.left) {
      ItemAt(nodes, t.left, id);
    } else if id in Ids(t.right) {
      ItemAt(nodes, t.right, id);
    }
  }

  /** What an insertion leaves of the items and of the current one, and of the traverser's place. */
  lemma {:induction false} PutDone(nodes: seq<Node>, t: Tree, nodes': seq<Node>, t': Tree, x: Item, slot: nat, node: int, trail: seq<int>, g: int, tg: int, tg': int)
    requires Good(nodes, t) && Good(nodes', t') && Position(nodes, t, node, trail, g == tg) && g <= tg
    requires slot < |nodes'| && slot in Ids(t')
    requires x.key in Keys(t) ==> nodes' == nodes && t' == t && tg' == tg && nodes'[slot].item.key == x.key
    requires x.key !in Keys(t) ==>
               && t' == Insert(t, x, slot) && OnlyIn(nodes, nodes', Ids(t)) && nodes'[slot].item == x
               && (tg' == tg + 1 || (tg' == tg && Extends(t, t')))
    ensures Position(nodes', t', node, trail, g == tg')
    ensures var s := State(Items(t), if 0 <= node < |nodes| then Some(nodes[node].item) else None);
            var r := Some(nodes'[slot].item);
            Fits(s, Put(x), r) && Stepped(s, Put(x), r) == State(Items(t'), if 0 <= node < |nodes'| then Some(nodes'[node].item) else None)
  {
    KeysAreItems(t);
    ItemAt(nodes', t', slot);
    if x.key !in Keys(t) {
      InsertContents(t, x, slot);
      assert node != -1 ==> 0 <= node < |nodes|;
      hide Insert, Good, Trail, Way;
      PositionStays(nodes, t, nodes', t', node, trail, g == tg, g == tg');
    }
  }

  method Perform(trav: AvlTraverser, op: Op) returns (r: Option<Item>)
    requires trav.Valid() && trav.table.count + 1 < SIZE_LIMIT
    modifies trav, trav.stack, trav.table
    ensures trav.Valid() && trav.table.count <= old(trav.table.count) + 1
    ensures Fits(old(Now(trav)), op, r) && Now(trav) == Stepped(old(Now(trav)), op, r)
  {
    trav.ValidIs();
    trav.table.ValidIs();
    ghost var nodes, t := trav.table.nodes, trav.table.tree;
    ghost var node, tg := trav.node, trav.table.generation;
    TableFacts(nodes, trav.table.root, trav.table.count, t);
    match op
    case Put(x) =>
      hide *;
      var slot := trav.table.Probe(x);
      trav.table.ValidIs();
      TableFacts(trav.table.nodes, trav.table.root, trav.table.count, trav.table.tree);
      r := Some(trav.table.nodes[slot].item);
      PutDone(nodes, t, trav.table.nodes, trav.table.tree, x, slot, node, trav.stack[..trav.height], trav.generation, tg, trav.table.generation);
      trav.ValidIs();
    case Step =>
      FollowingIsNext(nodes, t, node);
      r := trav.Next();
    case Reset =>
      trav.Reset();
      r := None;
  }

  /** Any mixture of insertions and steps answers as the items and the current item say. */
  method Interleave(trav: AvlTraverser, ops: seq<Op>) returns (out: seq<Option<Item>>)
    requires trav.Valid() && trav.table.count + |ops| < SIZE_LIMIT
    modifies trav, trav.stack, trav.table
    ensures trav.Valid() && |out| == |ops|
    ensures forall k :: 0 <= k < |ops| ==> Fits(After(old(Now(trav)), ops[..k], out[..k]), ops[k], out[k])
    ensures Now(trav) == After(old(Now(trav)), ops, out)
  {
    hide Fits, Stepped, Now;
    ghost var s := Now(trav);
    out := [];
    while |out| < |ops|
      invariant |out| <= |ops| && trav.Valid() && trav.table.count + |ops| - |out| < SIZE_LIMIT
      invariant Now(trav) == After(s, ops[..|out|], out)
      invariant forall k :: 0 <= k < |out| ==> Fits(After(s, ops[..k], out[..k]), ops[k], out[k])
    {
      var n := |out|;
      var r := Perform(trav, ops[n]);
      assert ops[..n + 1][..n] == ops[..n] && (out + [r])[..n] == out;
      assert forall k :: 0 <= k < n ==> (out + [r])[..k] == out[..k];
      out := out + [r];
    }
    assert ops[..|ops|] == ops;
  }
}
