/** What is looked up in a search tree: the least item from a key on, the way to a node,
    and the item that comes next. */
module AvlLookups {
  import opened Options
  import opened AvlTrees
  import opened AvlArena
  import opened AvlPaths
  import opened AvlProbing

  ghost function OrElse(a: Option<Item>, b: Option<Item>): Option<Item> {
    if a.Some? then a else b
  }

  /** The least item whose key is at least `key`. */
  ghost function Least(t: Tree, key: int): Option<Item> {
    match t
    case Nil => None
    case N(_, l, x, _, r) =>
      if key < x.key then OrElse(Least(l, key), Some(x)) else if key > x.key then Least(r, key) else Some(x)
  }

  ghost function First(t: Tree): Option<Item> {
    match t
    case Nil => None
    case N(_, l, x, _, _) => OrElse(First(l), Some(x))
  }

  lemma {:induction false} ItemKeys(t: Tree, x: Item)
    requires x in Items(t)
    ensures x.key in Keys(t)
  {
    if x in Items(t.left) {
      ItemKeys(t.left, x);
    } else if x in Items(t.right) {
      ItemKeys(t.right, x);
    }
  }

  /** It is an item of the tree, and no key of the tree lies between. */
  lemma {:induction false} LeastIs(t: Tree, key: int)
    requires Sorted(t)
    ensures Least(t, key).None? ==> forall j :: j in Keys(t) ==> j < key
    ensures Least(t, key).Some? ==> Least(t, key).value in Items(t) && Least(t, key).value.key >= key
    ensures Least(t, key).Some? ==> forall j :: j in Keys(t) && j >= key ==> j >= Least(t, key).value.key
  {
    match t
    case Nil =>
    case N(_, l, x, _, r) =>
      LeastIs(l, key);
      LeastIs(r, key);
      if Least(l, key).Some? {
        ItemKeys(l, Least(l, key).value);
      }
  }

  lemma {:induction false} FirstIs(t: Tree)
    requires Sorted(t)
    ensures First(t).None? <==> t == Nil
    ensures First(t).Some? ==> First(t).value in Items(t) && forall j :: j in Keys(t) ==> j >= First(t).value.key
  {
    if t.N? {
      FirstIs(t.left);
      if t.left.N? {
        ItemKeys(t.left, First(t.left).value);
      }
    }
  }

  lemma {:induction false} LeastOfAll(t: Tree, key: int)
    requires Sorted(t) && forall j :: j in Keys(t) ==> key <= j
    ensures Least(t, key) == First(t)
  {
    if t.N? {
      assert Keys(t) == Keys(t.left) + {t.item.key} + Keys(t.right);
      assert t.item.key in Keys(t) && (t.left.N? ==> t.left.item.key in Keys(t.left));
      LeastOfAll(t.left, key);
    }
  }

  // ---- The way to a key ----

  ghost function Way(t: Tree, key: int): seq<bool> {
    if t.Nil? || key == t.item.key then []
    else if key > t.item.key then [true] + Way(t.right, key)
    else [false] + Way(t.left, key)
  }

  /** The nodes above the end of a path, from the root down. */
  ghost function Trail(t: Tree, path: seq<bool>): seq<int>
    decreases |path|
  {
    if path == [] then [] else [Ptr(t)] + Trail(Child(t, path[0]), path[1..])
  }

  lemma {:induction false} TrailSnoc(t: Tree, path: seq<bool>, d: bool)
    ensures Trail(t, path + [d]) == Trail(t, path) + [Ptr(Sub(t, path))]
    ensures |Trail(t, path)| == |path|
    decreases |path|
  {
    if path == [] {
      assert (path + [d])[1..] == [];
    } else {
      assert (path + [d])[1..] == path[1..] + [d];
      TrailSnoc(Child(t, path[0]), path[1..], d);
    }
  }

  /** Every node is at the end of the way to its own key. */
  lemma {:induction false} WayOf(t: Tree, path: seq<bool>)
    requires Sorted(t) && Sub(t, path).N?
    ensures Way(t, Sub(t, path).item.key) == path
    decreases |path|
  {
    SubHas(t, path);
    if path != [] {
      SubIds(Child(t, path[0]), path[1..]);
      SubHas(Child(t, path[0]), path[1..]);
      assert Sub(t, path).item.key in Keys(Sub(t, path));
      WayOf(Child(t, path[0]), path[1..]);
    }
  }

  lemma {:induction false} WayFinds(nodes: seq<Node>, t: Tree, id: nat)
    requires Sorted(t) && Rep(nodes, Ptr(t), t) && id in Ids(t)
    ensures id < |nodes| && nodes[id].item.key in Keys(t)
    ensures Sub(t, Way(t, nodes[id].item.key)).N? && Sub(t, Way(t, nodes[id].item.key)).id == id
    decreases t
  {
    if id in Ids(t.left) {
      WayFinds(nodes, t.left, id);
      assert Way(t, nodes[id].item.key)[1..] == Way(t.left, nodes[id].item.key);
    } else if id in Ids(t.right) {
      WayFinds(nodes, t.right, id);
      assert Way(t, nodes[id].item.key)[1..] == Way(t.right, nodes[id].item.key);
    }
  }

  /** Where every node keeps its place, so do the way to a key and the nodes along it. */
  lemma {:induction false} WayStays(t: Tree, u: Tree, key: int)
    requires Sorted(t) && Extends(t, u) && key in Keys(t)
    ensures Way(u, key) == Way(t, key) && Trail(u, Way(u, key)) == Trail(t, Way(t, key))
  {
    if key < t.item.key {
      WayStays(t.left, u.left, key);
      assert Way(t, key)[1..] == Way(t.left, key) && Way(u, key)[1..] == Way(u.left, key);
    } else if key > t.item.key {
      WayStays(t.right, u.right, key);
      assert Way(t, key)[1..] == Way(t.right, key) && Way(u, key)[1..] == Way(u.right, key);
    }
  }

  // ---- The next item ----

  /** The item of the lowest node above the end of the path that the path leaves to the left. */
  ghost function Up(t: Tree, path: seq<bool>): Option<Item>
    decreases |path|
  {
    if path == [] || t.Nil? then None
    else OrElse(Up(Child(t, path[0]), path[1..]), if path[0] then None else Some(t.item))
  }

  lemma {:induction false} UpSnoc(t: Tree, path: seq<bool>, d: bool)
    requires Sub(t, path).N?
    ensures Up(t, path + [d]) == if d then Up(t, path) else Some(Sub(t, path).item)
    decreases |path|
  {
    SubHas(t, path);
    if path == [] {
      assert (path + [d])[1..] == [];
    } else {
      assert (path + [d])[1..] == path[1..] + [d];
      UpSnoc(Child(t, path[0]), path[1..], d);
    }
  }

  /** The next item is the first on the right side, or else the nearest one up to the right. */
  lemma {:induction false} NextIs(t: Tree, path: seq<bool>)
    requires Sorted(t) && Sub(t, path).N?
    ensures Least(t, Sub(t, path).item.key + 1) == OrElse(First(Sub(t, path).right), Up(t, path))
    decreases |path|
  {
    var key := Sub(t, path).item.key;
    SubHas(t, path);
    if path == [] {
      LeastOfAll(t.right, key + 1);
    } else {
      SubIds(Child(t, path[0]), path[1..]);
      SubHas(Child(t, path[0]), path[1..]);
      assert key in Keys(Sub(t, path));
      NextIs(Child(t, path[0]), path[1..]);
      if !path[0] && key + 1 == t.item.key {
        LeastIs(t.left, key + 1);
        if Least(t.left, key + 1).Some? {
          ItemKeys(t.left, Least(t.left, key + 1).value);
        }
      }
    }
  }

  lemma {:induction false} FirstDown(t: Tree)
    requires t.N?
    ensures First(t).Some?
    ensures t.left.N? ==> First(t) == First(t.left)
    ensures t.left.Nil? ==> First(t) == Some(t.item)
  {
    if t.left.N? {
      FirstDown(t.left);
    }
  }
}
