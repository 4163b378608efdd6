/** A traverser: a current node with the nodes above it, kept while the table grows. */
module AvlTraversers {
  import opened Options
  import opened AvlTrees
  import opened AvlArena
  import opened AvlPaths
  import opened AvlProbing
  import opened AvlLookups
  import opened AvlTables

  /** The current node is one of the tree's, and if the stack is up to date it is the way to it. */
  ghost predicate Position(nodes: seq<Node>, t: Tree, node: int, trail: seq<int>, current: bool) {
    && (node == -1 ==> trail == [])
    && (node != -1 ==> 0 <= node < |nodes| && node in Ids(t))
    && (node != -1 && current ==> trail == Trail(t, Way(t, nodes[node].item.key)))
  }

  /** At the end of `path`, with the nodes above on the stack. */
  ghost predicate Standing(nodes: seq<Node>, t: Tree, path: seq<bool>, node: int, trail: seq<int>) {
    Sub(t, path).N? && node == Sub(t, path).id && trail == Trail(t, path)
  }

  /** The item that follows the current one. */
  ghost function Following(nodes: seq<Node>, t: Tree, node: int): Option<Item> {
    if 0 <= node < |nodes| then Least(t, nodes[node].item.key + 1) else First(t)
  }

  lemma {:induction false} Arrive(nodes: seq<Node>, t: Tree, node: int, trail: seq<int>, path: seq<bool>)
    requires Good(nodes, t) && Standing(nodes, t, path, node, trail)
    ensures 0 <= node < |nodes| && nodes[node].item == Sub(t, path).item
    ensures Position(nodes, t, node, trail, true)
  {
    SubRep(nodes, Ptr(t), t, path);
    SubIds(t, path);
    WayOf(t, path);
    assert node in Ids(Sub(t, path));
  }

  lemma {:induction false} Depart(nodes: seq<Node>, t: Tree, node: int, trail: seq<int>)
    requires Good(nodes, t) && Position(nodes, t, node, trail, true) && node != -1
    ensures 0 <= node < |nodes| && Standing(nodes, t, Way(t, nodes[node].item.key), node, trail)
  {
    WayFinds(nodes, t, node);
  }

  /** The record of the node the traverser stands at, and the room left on the stack. */
  lemma {:induction false} HereIs(nodes: seq<Node>, t: Tree, path: seq<bool>, node: int, trail: seq<int>)
    requires Good(nodes, t) && Standing(nodes, t, path, node, trail) && Size(t) < SIZE_LIMIT
    ensures 0 <= node < |nodes| && |trail| == |path| && |path| + 1 < MAX_HEIGHT
    ensures var s := Sub(t, path); nodes[node] == Node(Ptr(s.left), Ptr(s.right), s.item, s.balance)
    ensures forall d :: Child(Sub(t, path), d).N? ==>
              Standing(nodes, t, path + [d], Link(nodes[node], d), trail + [node])
  {
    SubRep(nodes, Ptr(t), t, path);
    SubHeight(t, path);
    HeightBound(t);
    TrailSnoc(t, path, true);
    forall d | Child(Sub(t, path), d).N?
      ensures Standing(nodes, t, path + [d], Link(nodes[node], d), trail + [node])
    {
      SubSnoc(t, path, d);
      TrailSnoc(t, path, d);
      SubHeight(t, path + [d]);
    }
  }

  /** Back to the node above. */
  lemma {:induction false} PopUp(nodes: seq<Node>, t: Tree, path: seq<bool>, node: int, trail: seq<int>)
    requires Good(nodes, t) && Standing(nodes, t, path, node, trail) && path != []
    ensures |trail| == |path|
    ensures var n := |path| - 1;
            && Standing(nodes, t, path[..n], trail[n], trail[..n]) && 0 <= trail[n] < |nodes|
            && (node == nodes[trail[n]].right <==> path[n])
            && Up(t, path) == if path[n] then Up(t, path[..n]) else Some(nodes[trail[n]].item)
  {
    var n := |path| - 1;
    assert path == path[..n] + [path[n]];
    TrailSnoc(t, path[..n], path[n]);
    SubSnoc(t, path[..n], path[n]);
    UpSnoc(t, path[..n], path[n]);
    SubRep(nodes, Ptr(t), t, path[..n]);
    SubIds(t, path[..n]);
    var s := Sub(t, path[..n]);
    if !path[n] && s.right.N? {
      assert s.left.id in Ids(s.left) && s.right.id in Ids(s.right);
    }
  }

  /** What follows the item of the node stood at. */
  lemma {:induction false} FollowingIs(nodes: seq<Node>, t: Tree, path: seq<bool>, node: int, trail: seq<int>)
    requires Good(nodes, t) && Standing(nodes, t, path, node, trail)
    ensures Following(nodes, t, node) == OrElse(First(Sub(t, path).right), Up(t, path))
    ensures path == [] ==> Up(t, path) == None
  {
    SubRep(nodes, Ptr(t), t, path);
    NextIs(t, path);
  }

  /** One step of the refreshing search, toward the key of the current node. */
  lemma {:induction false} RefreshStep(nodes: seq<Node>, t: Tree, key: int, k: nat)
    requires Good(nodes, t) && k < |Way(t, key)| && Sub(t, Way(t, key)).N? && Sub(t, Way(t, key)).item.key == key
    ensures Sub(t, Way(t, key)[..k]).N? && (key > Sub(t, Way(t, key)[..k]).item.key) == Way(t, key)[k]
    ensures Sub(t, Way(t, key)[..k]).id != Sub(t, Way(t, key)).id
  {
    WayStep(t, key, k);
    SubIds(t, Way(t, key)[..k]);
    SubIds(t, Way(t, key));
    WayOf(t, Way(t, key)[..k]);
    var u, v := Sub(t, Way(t, key)[..k]), Sub(t, Way(t, key));
    SubRep(nodes, Ptr(t), t, Way(t, key)[..k]);
    SubRep(nodes, Ptr(t), t, Way(t, key));
  }

  lemma {:induction false} WayStep(t: Tree, key: int, k: nat)
    requires k < |Way(t, key)|
    ensures Sub(t, Way(t, key)[..k]).N? && (key > Sub(t, Way(t, key)[..k]).item.key) == Way(t, key)[k]
    ensures Sub(t, Way(t, key)[..k]).item.key != key
    decreases k
  {
    var w := Way(t, key);
    var c := Child(t, w[0]);
    assert w[1..] == Way(c, key);
    if k == 0 {
      assert w[..0] == [];
    } else {
      assert w[..k][1..] == w[1..][..k - 1];
      WayStep(c, key, k - 1);
    }
  }

  /** The search that rebuilds the stack: done at the current node, and not before. */
  lemma {:induction false} RefreshNext(nodes: seq<Node>, t: Tree, node: int, k: nat, i: int, trail: seq<int>)
    requires Good(nodes, t) && Size(t) < SIZE_LIMIT && 0 <= node < |nodes| && node in Ids(t)
    requires var way := Way(t, nodes[node].item.key); k <= |way| && Standing(nodes, t, way[..k], i, trail)
    ensures 0 <= i < |nodes| && k + 1 < MAX_HEIGHT
    ensures i == node <==> k == |Way(t, nodes[node].item.key)|
    ensures k < |Way(t, nodes[node].item.key)| ==>
              Standing(nodes, t, Way(t, nodes[node].item.key)[..k + 1], Link(nodes[i], nodes[node].item.key > nodes[i].item.key), trail + [i])
  {
    var key := nodes[node].item.key;
    var way := Way(t, key);
    WayFinds(nodes, t, node);
    HereIs(nodes, t, way[..k], i, trail);
    SubRep(nodes, Ptr(t), t, way);
    if k < |way| {
      RefreshStep(nodes, t, key, k);
      assert way[..k + 1] == way[..k] + [way[k]];
      SubPrefix(t, way, k + 1);
      SubSnoc(t, way[..k], way[k]);
    } else {
      assert way[..k] == way;
    }
  }

  lemma {:induction false} SubPrefix(t: Tree, path: seq<bool>, k: nat)
    requires k <= |path| && Sub(t, path).N?
    ensures Sub(t, path[..k]).N?
  {
    assert path == path[..k] + path[k..];
    SubConcat(t, path[..k], path[k..]);
    SubHas(Sub(t, path[..k]), path[k..]);
  }

  lemma {:induction false} RefreshStart(nodes: seq<Node>, t: Tree, node: int)
    requires Good(nodes, t) && 0 <= node < |nodes| && node in Ids(t)
    ensures Standing(nodes, t, Way(t, nodes[node].item.key)[..0], Ptr(t), []) && MAX_HEIGHT == 92
  {
  }

  lemma {:induction false} RefreshEnd(nodes: seq<Node>, t: Tree, node: int, trail: seq<int>)
    requires Good(nodes, t) && 0 <= node < |nodes| && node in Ids(t)
    requires var way := Way(t, nodes[node].item.key); Standing(nodes, t, way[..|way|], node, trail)
    ensures Position(nodes, t, node, trail, true)
  {
    var way := Way(t, nodes[node].item.key);
    assert way[..|way|] == way;
  }

  /** A place stays good when the table grows as insertion makes it grow. */
  lemma {:induction false} PositionStays(nodes: seq<Node>, t: Tree, nodes': seq<Node>, t': Tree, node: int, trail: seq<int>, current: bool, current': bool)
    requires Good(nodes, t) && Position(nodes, t, node, trail, current)
    requires OnlyIn(nodes, nodes', Ids(t)) && Ids(t) <= Ids(t') && (current' ==> current && Extends(t, t'))
    ensures Position(nodes', t', node, trail, current')
  {
    if node != -1 && current' {
      WayFinds(nodes, t, node);
      WayStays(t, t', nodes[node].item.key);
    }
  }

  lemma {:induction false} PositionFacts(nodes: seq<Node>, t: Tree, node: int, trail: seq<int>, current: bool)
    requires Position(nodes, t, node, trail, current)
    ensures node == -1 ==> trail == [] && Position(nodes, t, node, trail, true)
    ensures node != -1 ==> 0 <= node < |nodes| && node in Ids(t)
  {
  }

  lemma {:induction false} StandAtRoot(nodes: seq<Node>, t: Tree)
    requires Good(nodes, t) && t.N?
    ensures Standing(nodes, t, [], Ptr(t), [])
  {
  }

  /** What is to the left of a node, and whether it is the first of its subtree. */
  lemma {:induction false} DownLeft(nodes: seq<Node>, t: Tree, path: seq<bool>, node: int, trail: seq<int>)
    requires Good(nodes, t) && Standing(nodes, t, path, node, trail) && Size(t) < SIZE_LIMIT
    ensures 0 <= node < |nodes| && |trail| == |path| && |path| + 1 < MAX_HEIGHT
    ensures nodes[node].left == -1 ==> First(Sub(t, path)) == Some(nodes[node].item)
    ensures nodes[node].left != -1 ==> First(Sub(t, path)) == First(Sub(t, path + [false]))
    ensures nodes[node].left != -1 ==> Standing(nodes, t, path + [false], nodes[node].left, trail + [node])
  {
    HereIs(nodes, t, path, node, trail);
    FirstDown(Sub(t, path));
    SubSnoc(t, path, false);
    assert Link(nodes[node], false) == nodes[node].left;
  }

  lemma {:induction false} FirstOf(nodes: seq<Node>, t: Tree, x: int, trail: seq<int>, current: bool)
    requires t == Nil ==> x == -1 && trail == []
    requires t != Nil ==> Position(nodes, t, x, trail, true) && 0 <= x < |nodes| && First(Sub(t, [])) == Some(nodes[x].item)
    ensures Position(nodes, t, x, trail, current)
    ensures First(t) == if t == Nil then None else Some(nodes[x].item)
  {
  }

  lemma {:induction false} NullFollowing(nodes: seq<Node>, t: Tree)
    ensures Following(nodes, t, -1) == First(t)
  {
  }

  lemma {:induction false} NullPosition(nodes: seq<Node>, t: Tree, trail: seq<int>, current: bool)
    requires trail == []
    ensures Position(nodes, t, -1, trail, current)
  {
  }

  lemma {:induction false} UpNone(t: Tree, path: seq<bool>)
    requires path == []
    ensures Up(t, path) == None
  {
  }

  /** The right side of a node, where what follows it is first looked for. */
  lemma {:induction false} StepRight(nodes: seq<Node>, t: Tree, path: seq<bool>, node: int, trail: seq<int>)
    requires Good(nodes, t) && Standing(nodes, t, path, node, trail) && Size(t) < SIZE_LIMIT
    ensures 0 <= node < |nodes| && |trail| == |path| && |path| + 1 < MAX_HEIGHT
    ensures nodes[node].right == -1 ==> OrElse(First(Sub(t, path).right), Up(t, path)) == Up(t, path)
    ensures nodes[node].right != -1 ==> OrElse(First(Sub(t, path).right), Up(t, path)) == First(Sub(t, path + [true]))
    ensures nodes[node].right != -1 ==> Standing(nodes, t, path + [true], nodes[node].right, trail + [node])
  {
    HereIs(nodes, t, path, node, trail);
    SubSnoc(t, path, true);
    if Sub(t, path).right.N? {
      FirstDown(Sub(t, path).right);
    }
    assert Link(nodes[node], true) == nodes[node].right;
  }

  /** On the way down to a key, all nodes passed on the stack. */
  ghost predicate Seeking(nodes: seq<Node>, t: Tree, key: int, path: seq<bool>, p: int, trail: seq<int>) {
    OnWay(t, path, key) && p == Ptr(Sub(t, path)) && trail == Trail(t, path)
  }

  lemma {:induction false} SeekStart(nodes: seq<Node>, t: Tree, key: int)
    ensures Seeking(nodes, t, key, [], Ptr(t), [])
  {
  }

  lemma {:induction false} SeekStep(nodes: seq<Node>, t: Tree, key: int, path: seq<bool>, p: int, trail: seq<int>)
    requires Good(nodes, t) && Size(t) < SIZE_LIMIT && Seeking(nodes, t, key, path, p, trail) && p != -1
    ensures 0 <= p < |nodes| && |path| + 1 < MAX_HEIGHT
    ensures key < nodes[p].item.key ==> Seeking(nodes, t, key, path + [false], nodes[p].left, trail + [p])
    ensures key > nodes[p].item.key ==> Seeking(nodes, t, key, path + [true], nodes[p].right, trail + [p])
    ensures key == nodes[p].item.key ==> key in Keys(t) && Position(nodes, t, p, trail, true)
  {
    HereIs(nodes, t, path, p, trail);
    SubIds(t, path);
    Arrive(nodes, t, p, trail, path);
    if key != nodes[p].item.key {
      var d := key > nodes[p].item.key;
      OnWaySnoc(t, path, key);
      SubSnoc(t, path, d);
      TrailSnoc(t, path, d);
    }
    assert Sub(t, path).item.key in Keys(Sub(t, path));
  }

  lemma {:induction false} SeekEnd(nodes: seq<Node>, t: Tree, key: int, path: seq<bool>, p: int, trail: seq<int>)
    requires Good(nodes, t) && Seeking(nodes, t, key, path, p, trail) && p == -1
    ensures key !in Keys(t)
  {
    NotFound(t, path, key);
  }

  lemma {:induction false} PositionWeak(nodes: seq<Node>, t: Tree, node: int, trail: seq<int>, current: bool)
    requires Position(nodes, t, node, trail, true)
    ensures Position(nodes, t, node, trail, current)
  {
  }

  lemma {:induction false} StalePosition(nodes: seq<Node>, t: Tree, node: int, trail: seq<int>)
    requires 0 <= node < |nodes| && node in Ids(t)
    ensures Position(nodes, t, node, trail, false)
  {
  }

  class AvlTraverser {
    const table: AvlTable
    const stack: array<int>
    var node: int
    var height: nat
    var generation: int

    ghost predicate Valid()
      reads this, table, stack
    {
      && table.Valid() && stack.Length == MAX_HEIGHT && height <= MAX_HEIGHT && generation <= table.generation
      && Position(table.nodes, table.tree, node, stack[..height], generation == table.generation)
    }

    lemma {:induction false} ValidIs()
      ensures Valid() <==>
                && table.Valid() && stack.Length == MAX_HEIGHT && height <= MAX_HEIGHT && generation <= table.generation
                && Position(table.nodes, table.tree, node, stack[..height], generation == table.generation)
    {
    }

    constructor (table: AvlTable)
      requires table.Valid()
      ensures Valid() && this.table == table && node == -1 && fresh(stack)
    {
      this.table := table;
      stack := new int[MAX_HEIGHT];
      node, height, generation := -1, 0, table.generation;
    }

    /** Back to the null node. */
    method Reset()
      requires Valid()
      modifies this
      ensures Valid() && node == -1
    {
      node, height, generation := -1, 0, table.generation;
    }

    /** The stack rebuilt by a search for the current item. */
    method Refresh()
      requires Valid()
      modifies this`height, this`generation, stack
      ensures Valid() && generation == table.generation
    {
      hide *;
      ghost var nodes, t := table.nodes, table.tree;
      ValidIs();
      table.ValidIs();
      TableFacts(nodes, table.root, table.count, t);
      PositionFacts(nodes, t, node, stack[..height], generation == table.generation);
      generation := table.generation;
      if node != -1 {
        ghost var way := Way(t, nodes[node].item.key);
        RefreshStart(nodes, t, node);
        height := 0;
        var i := table.root;
        while i != node
          invariant height <= |way| && height < MAX_HEIGHT && stack.Length == MAX_HEIGHT && generation == table.generation
          invariant Standing(nodes, t, way[..height], i, stack[..height])
          decreases |way| - height
        {
          RefreshNext(nodes, t, node, height, i, stack[..height]);
          stack[height] := i;
          assert stack[..height + 1] == stack[..height] + [i];
          height := height + 1;
          i := Link(table.nodes[i], table.nodes[node].item.key > table.nodes[i].item.key);
        }
        RefreshNext(nodes, t, node, height, i, stack[..height]);
        RefreshEnd(nodes, t, node, stack[..height]);
      }
      ValidIs();
    }

    /** The first item of the tree, from the null node. */
    method SelectFirst() returns (r: Option<Item>)
      requires Valid() && node == -1
      modifies this`node, this`height, stack
      ensures Valid() && generation == old(generation)
      ensures r == First(table.tree)
      ensures if r.Some? then 0 <= node < |table.nodes| && table.nodes[node].item == r.value else node == -1
    {
      hide *;
      ghost var nodes, t := table.nodes, table.tree;
      ValidIs();
      table.ValidIs();
      TableFacts(nodes, table.root, table.count, t);
      PositionFacts(nodes, t, node, stack[..height], generation == table.generation);
      var x := table.root;
      assert stack[..0] == [];
      if x != -1 {
        ghost var path: seq<bool> := [];
        StandAtRoot(nodes, t);
        x := Leftmost(x, path);
        r := Some(table.nodes[x].item);
      } else {
        height := 0;
        r := None;
      }
      FirstOf(nodes, t, x, stack[..height], generation == table.generation);
      node := x;
      ValidIs();
    }

    /** Down to the left as far as it goes, every node on the way put on the stack. */
    method Leftmost(x0: int, ghost path0: seq<bool>) returns (x: int)
      requires table.Valid() && stack.Length == MAX_HEIGHT && height <= MAX_HEIGHT
      requires Standing(table.nodes, table.tree, path0, x0, stack[..height])
      modifies this`height, stack
      ensures height <= MAX_HEIGHT && Position(table.nodes, table.tree, x, stack[..height], true)
      ensures 0 <= x < |table.nodes| && First(Sub(table.tree, path0)) == Some(table.nodes[x].item)
    {
      hide *;
      ghost var nodes, t, path := table.nodes, table.tree, path0;
      table.ValidIs();
      TableFacts(nodes, table.root, table.count, t);
      x := x0;
      DownLeft(nodes, t, path, x, stack[..height]);
      while table.nodes[x].left != -1
        invariant stack.Length == MAX_HEIGHT && height <= MAX_HEIGHT && 0 <= x < |nodes|
        invariant Standing(nodes, t, path, x, stack[..height])
        invariant First(Sub(t, path0)) == First(Sub(t, path))
        decreases MAX_HEIGHT - |path|
      {
        DownLeft(nodes, t, path, x, stack[..height]);
        stack[height] := x;
        assert stack[..height + 1] == stack[..height] + [x];
        height := height + 1;
        x := table.nodes[x].left;
        path := path + [false];
        DownLeft(nodes, t, path, x, stack[..height]);
      }
      DownLeft(nodes, t, path, x, stack[..height]);
      Arrive(nodes, t, x, stack[..height], path);
    }

    /** The item that follows the current one, which becomes current; none after the last. */
    method Next() returns (r: Option<Item>)
      requires Valid()
      modifies this`node, this`height, this`generation, stack
      ensures Valid()
      ensures r == Following(table.nodes, table.tree, old(node))
      ensures if r.Some? then 0 <= node < |table.nodes| && table.nodes[node].item == r.value else node == -1
    {
      hide *;
      if generation != table.generation {
        Refresh();
      }
      ghost var nodes, t := table.nodes, table.tree;
      ValidIs();
      table.ValidIs();
      TableFacts(nodes, table.root, table.count, t);
      PositionFacts(nodes, t, node, stack[..height], true);
      NullFollowing(nodes, t);
      var x := node;
      if x == -1 {
        r := SelectFirst();
        return;
      }
      ghost var way := Way(t, nodes[x].item.key);
      Depart(nodes, t, x, stack[..height]);
      FollowingIs(nodes, t, way, x, stack[..height]);
      StepRight(nodes, t, way, x, stack[..height]);
      if table.nodes[x].right != -1 {
        stack[height] := x;
        assert stack[..height + 1] == stack[..height] + [x];
        height := height + 1;
        x := Leftmost(table.nodes[x].right, way + [true]);
      } else {
        ghost var path := way;
        var climbing := true;
        while climbing
          invariant stack.Length == MAX_HEIGHT && height <= MAX_HEIGHT && |path| == height && generation == table.generation
          invariant Standing(nodes, t, path, x, stack[..height])
          invariant climbing ==> Up(t, way) == Up(t, path)
          invariant !climbing ==> 0 <= x < |nodes| && Up(t, way) == Some(nodes[x].item)
          decreases height, climbing
        {
          if height == 0 {
            UpNone(t, path);
            node := -1;
            NullPosition(nodes, t, stack[..height], generation == table.generation);
            ValidIs();
            return None;
          }
          PopUp(nodes, t, path, x, stack[..height]);
          assert stack[..height][..height - 1] == stack[..height - 1] && stack[..height][height - 1] == stack[height - 1];
          path := path[..|path| - 1];
          var y := x;
          height := height - 1;
          x := stack[height];
          climbing := y == table.nodes[x].right;
        }
        Arrive(nodes, t, x, stack[..height], path);
      }
      node := x;
      r := Some(table.nodes[x].item);
      ValidIs();
    }

    /** Selects the item with a key, from the null node; the null node if there is none. */
    method Find(key: int) returns (r: Option<Item>)
      requires Valid() && node == -1
      modifies this`node, this`height, stack
      ensures Valid() && (r.Some? <==> key in Keys(table.tree))
      ensures r.Some? ==> r.value.key == key && 0 <= node < |table.nodes| && table.nodes[node].item == r.value
      ensures r.None? ==> node == -1
    {
      hide *;
      ghost var nodes, t := table.nodes, table.tree;
      ValidIs();
      table.ValidIs();
      TableFacts(nodes, table.root, table.count, t);
      PositionFacts(nodes, t, node, stack[..height], generation == table.generation);
      var p := table.root;
      ghost var path: seq<bool> := [];
      SeekStart(nodes, t, key);
      while p != -1
        invariant stack.Length == MAX_HEIGHT && height <= MAX_HEIGHT && |path| == height
        invariant Seeking(nodes, t, key, path, p, stack[..height])
        decreases MAX_HEIGHT - height
      {
        SeekStep(nodes, t, key, path, p, stack[..height]);
        var q: int;
        if key < table.nodes[p].item.key {
          q := table.nodes[p].left;
          path := path + [false];
        } else if key > table.nodes[p].item.key {
          q := table.nodes[p].right;
          path := path + [true];
        } else {
          node := p;
          PositionWeak(nodes, t, p, stack[..height], generation == table.generation);
          ValidIs();
          return Some(table.nodes[p].item);
        }
        stack[height] := p;
        assert stack[..height + 1] == stack[..height] + [p];
        height := height + 1;
        p := q;
      }
      SeekEnd(nodes, t, key, path, p, stack[..height]);
      height, node := 0, -1;
      NullPosition(nodes, t, stack[..0], generation == table.generation);
      ValidIs();
      r := None;
    }

    /** Selects the least item whose key is at least the one given; nothing happens if there is none. */
    method FindAtOrAfter(key: int) returns (r: Option<Item>)
      requires Valid() && node == -1
      modifies this`node, this`height, stack
      ensures Valid() && r == Least(table.tree, key)
      ensures if r.Some? then 0 <= node < |table.nodes| && table.nodes[node].item.key == r.value.key else node == -1
    {
      r := table.AtOrAfter(key);
      if r.Some? {
        LeastIs(table.tree, key);
        ItemKeys(table.tree, r.value);
        var x := Find(r.value.key);
      }
    }

    /** Inserts an item and selects it, or the item that was there with its key. */
    method Insert(item: Item) returns (r: Item)
      requires Valid() && table.count + 1 < SIZE_LIMIT
      modifies this`node, this`generation, table
      ensures Valid() && 0 <= node < |table.nodes| && table.nodes[node].item == r && r.key == item.key
      ensures item.key in Keys(old(table.tree)) ==> table.tree == old(table.tree)
      ensures item.key !in Keys(old(table.tree)) ==> Items(table.tree) == old(Items(table.tree)) + {item} && r == item
    {
      hide *;
      ValidIs();
      InsertContents(table.tree, item, |table.nodes|);
      node := table.Probe(item);
      generation := table.generation - 1;
      StalePosition(table.nodes, table.tree, node, stack[..height]);
      ValidIs();
      r := table.nodes[node].item;
    }
  }
}
