/** The way down to where an item belongs, and what insertion does along it. */
module AvlPaths {
  import opened AvlTrees
  import opened AvlArena

  /** The path is the way to key `k`: no key on it is `k`. */
  ghost predicate OnWay(t: Tree, path: seq<bool>, k: int)
    decreases |path|
  {
    path != [] ==> t.N? && t.item.key != k && path[0] == (k > t.item.key) && OnWay(Child(t, path[0]), path[1..], k)
  }

  /** The nodes along the path are evenly balanced. */
  ghost predicate EvenAlong(t: Tree, path: seq<bool>)
    decreases |path|
  {
    path != [] ==> t.N? && t.balance == 0 && EvenAlong(Child(t, path[0]), path[1..])
  }

  lemma {:induction false} OnWaySnoc(t: Tree, path: seq<bool>, k: int)
    requires OnWay(t, path, k) && Sub(t, path).N? && Sub(t, path).item.key != k
    ensures OnWay(t, path + [k > Sub(t, path).item.key], k)
    decreases |path|
  {
    var d := k > Sub(t, path).item.key;
    if path == [] {
      assert (path + [d])[1..] == [];
    } else {
      assert (path + [d])[1..] == path[1..] + [d];
      OnWaySnoc(Child(t, path[0]), path[1..], k);
    }
  }

  lemma {:induction false} EvenSnoc(t: Tree, path: seq<bool>, d: bool)
    requires EvenAlong(t, path) && Sub(t, path).N? && Sub(t, path).balance == 0
    ensures EvenAlong(t, path + [d])
    decreases |path|
  {
    if path == [] {
      assert (path + [d])[1..] == [];
    } else {
      assert (path + [d])[1..] == path[1..] + [d];
      EvenSnoc(Child(t, path[0]), path[1..], d);
    }
  }

  lemma {:induction false} OnWaySplit(t: Tree, path: seq<bool>, rest: seq<bool>, k: int)
    requires OnWay(t, path + rest, k)
    ensures OnWay(t, path, k) && OnWay(Sub(t, path), rest, k)
    decreases |path|
  {
    if path == [] {
      assert path + rest == rest;
    } else {
      assert (path + rest)[1..] == path[1..] + rest;
      OnWaySplit(Child(t, path[0]), path[1..], rest, k);
    }
  }

  /** A whole way of even nodes. */
  lemma {:induction false} EvenWay(t: Tree, path: seq<bool>, k: int)
    requires OnWay(t, path, k) && Sub(t, path) == Nil && EvenAlong(t, path)
    ensures EvenPath(t, k)
    decreases |path|
  {
    if path != [] {
      EvenWay(Child(t, path[0]), path[1..], k);
    }
  }

  /** A key on the way down is not in the tree if the way ends nowhere. */
  lemma {:induction false} NotFound(t: Tree, path: seq<bool>, k: int)
    requires Sorted(t) && OnWay(t, path, k) && Sub(t, path) == Nil
    ensures k !in Keys(t)
    decreases |path|
  {
    if path != [] {
      NotFound(Child(t, path[0]), path[1..], k);
    }
  }

  // ---- Growing along the way ----

  /** The balances of the first `n` nodes along the path adjusted to its directions. */
  ghost function Adjust(t: Tree, path: seq<bool>, n: nat): Tree
    decreases n
  {
    if n == 0 || path == [] || t.Nil? then t
    else
      var b := if path[0] then t.balance + 1 else t.balance - 1;
      WithChild(N(t.id, t.left, t.item, b, t.right), path[0], Adjust(Child(t, path[0]), path[1..], n - 1))
  }

  ghost function Rebalanced(t: Tree, d: bool): Tree {
    if t.Nil? then t else N(t.id, t.left, t.item, if d then t.balance + 1 else t.balance - 1, t.right)
  }

  /** One more node adjusted. */
  lemma {:induction false} AdjustStep(t: Tree, path: seq<bool>, n: nat)
    requires n < |path| && Sub(t, path[..n]).N?
    ensures Sub(Adjust(t, path, n), path[..n]) == Sub(t, path[..n])
    ensures Adjust(t, path, n + 1) == Replace(Adjust(t, path, n), path[..n], Rebalanced(Sub(t, path[..n]), path[n]))
    decreases n
  {
    SubHas(t, path[..n]);
    if n > 0 {
      assert path[..n][1..] == path[1..][..n - 1];
      AdjustStep(Child(t, path[0]), path[1..], n - 1);
    } else {
      assert path[..0] == [];
    }
  }

  /** A leaf hung at the end of the way, and all balances along it adjusted: grown. */
  lemma {:induction false} AdjustAll(t: Tree, path: seq<bool>, x: Item, id: nat)
    requires OnWay(t, path, x.key) && Sub(t, path) == Nil
    ensures Adjust(Replace(t, path, N(id, Nil, x, 0, Nil)), path, |path|) == Grow(t, x, id)
    decreases |path|
  {
    if path != [] {
      AdjustAll(Child(t, path[0]), path[1..], x, id);
    }
  }

  /** A node that is not even is on the way. */
  lemma {:induction false} NotEven(t: Tree, path: seq<bool>, k: int)
    requires OnWay(t, path, k) && Sub(t, path).N? && Sub(t, path).balance != 0
    ensures !EvenPath(t, k)
    decreases |path|
  {
    if path != [] {
      NotEven(Child(t, path[0]), path[1..], k);
    }
  }

  /** Insertion works on the lowest node of the way that is not even, or on the root. */
  lemma {:induction false} InsertAt(t: Tree, path: seq<bool>, x: Item, id: nat)
    requires OnWay(t, path, x.key) && Sub(t, path).N?
    requires EvenPath(Toward(Sub(t, path), x.key), x.key)
    requires path == [] || Sub(t, path).balance != 0
    ensures Insert(t, x, id) == Replace(t, path, Fix(Grow(Sub(t, path), x, id)))
    decreases |path|
  {
    if path != [] {
      NotEven(Child(t, path[0]), path[1..], x.key);
      if path[1..] != [] {
        InsertAt(Child(t, path[0]), path[1..], x, id);
      } else {
        InsertAt(Child(t, path[0]), [], x, id);
      }
    }
  }

  // ---- What stays where it was ----

  /** Every node keeps its place. */
  ghost predicate Extends(t: Tree, u: Tree) {
    t.N? ==> u.N? && u.id == t.id && u.item == t.item && Extends(t.left, u.left) && Extends(t.right, u.right)
  }

  lemma {:induction false} ExtendsSelf(t: Tree)
    ensures Extends(t, t)
  {
    if t.N? {
      ExtendsSelf(t.left);
      ExtendsSelf(t.right);
    }
  }

  lemma {:induction false} GrowExtends(t: Tree, x: Item, id: nat)
    ensures Extends(t, Grow(t, x, id))
  {
    if t.N? {
      if x.key < t.item.key {
        GrowExtends(t.left, x, id);
        ExtendsSelf(t.right);
      } else {
        GrowExtends(t.right, x, id);
        ExtendsSelf(t.left);
      }
    }
  }

  lemma {:induction false} ReplaceExtends(t: Tree, path: seq<bool>, s: Tree)
    requires Extends(Sub(t, path), s)
    ensures Extends(t, Replace(t, path, s))
    decreases |path|
  {
    if path != [] && t.N? {
      ReplaceExtends(Child(t, path[0]), path[1..], s);
      ExtendsSelf(Child(t, !path[0]));
    }
  }

  lemma {:induction false} ExtendsSub(t: Tree, u: Tree, path: seq<bool>)
    requires Extends(t, u) && Sub(t, path).N?
    ensures Sub(u, path).N? && Sub(u, path).id == Sub(t, path).id && Sub(u, path).item == Sub(t, path).item
    decreases |path|
  {
    if path != [] {
      SubHas(t, path);
      ExtendsSub(Child(t, path[0]), Child(u, path[0]), path[1..]);
    }
  }
}
