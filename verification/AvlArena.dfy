/** Trees laid out in memory: node records that refer to each other, paths, and what a
    change of one record does to the tree. */
module AvlArena {
  import opened AvlTrees

  /** A node record; -1 is the null reference. */
  datatype Node = Node(left: int, right: int, item: Item, balance: int)

  ghost function Ptr(t: Tree): int {
    if t.Nil? then -1 else t.id
  }

  /** The records that `p` leads to are the tree. */
  ghost predicate Rep(nodes: seq<Node>, p: int, t: Tree)
    decreases t
  {
    && p == Ptr(t)
    && (t.N? ==>
         && t.id < |nodes| && nodes[t.id] == Node(Ptr(t.left), Ptr(t.right), t.item, t.balance)
         && Rep(nodes, Ptr(t.left), t.left) && Rep(nodes, Ptr(t.right), t.right))
  }

  /** The records with these identifiers are the same. */
  ghost predicate Agree(nodes: seq<Node>, nodes': seq<Node>, ids: set<nat>) {
    |nodes| <= |nodes'| && forall i: nat :: i in ids && i < |nodes| ==> nodes'[i] == nodes[i]
  }

  lemma {:induction false} Frame(nodes: seq<Node>, nodes': seq<Node>, p: int, t: Tree)
    requires Rep(nodes, p, t) && Agree(nodes, nodes', Ids(t))
    ensures Rep(nodes', p, t)
    decreases t
  {
    if t.N? {
      assert t.id in Ids(t);
      Frame(nodes, nodes', Ptr(t.left), t.left);
      Frame(nodes, nodes', Ptr(t.right), t.right);
    }
  }

  lemma {:induction false} IdsBelow(nodes: seq<Node>, p: int, t: Tree)
    requires Rep(nodes, p, t)
    ensures forall i :: i in Ids(t) ==> i < |nodes|
    decreases t
  {
    if t.N? {
      IdsBelow(nodes, Ptr(t.left), t.left);
      IdsBelow(nodes, Ptr(t.right), t.right);
    }
  }

  // ---- Paths: false is left, true is right ----

  ghost function Child(t: Tree, right: bool): Tree {
    if t.Nil? then Nil else if right then t.right else t.left
  }

  ghost function Sub(t: Tree, path: seq<bool>): Tree
    decreases |path|
  {
    if path == [] then t else Sub(Child(t, path[0]), path[1..])
  }

  ghost function WithChild(t: Tree, right: bool, s: Tree): Tree {
    if t.Nil? then Nil
    else if right then N(t.id, t.left, t.item, t.balance, s)
    else N(t.id, s, t.item, t.balance, t.right)
  }

  /** The tree with `s` in place of the subtree at the path. */
  ghost function Replace(t: Tree, path: seq<bool>, s: Tree): Tree
    decreases |path|
  {
    if path == [] then s else WithChild(t, path[0], Replace(Child(t, path[0]), path[1..], s))
  }

  lemma {:induction false} SubSnoc(t: Tree, path: seq<bool>, d: bool)
    ensures Sub(t, path + [d]) == Child(Sub(t, path), d)
    decreases |path|
  {
    if path == [] {
      assert (path + [d])[1..] == [];
    } else {
      assert (path + [d])[1..] == path[1..] + [d];
      SubSnoc(Child(t, path[0]), path[1..], d);
    }
  }

  lemma {:induction false} ReplaceSnoc(t: Tree, path: seq<bool>, d: bool, s: Tree)
    ensures Replace(t, path + [d], s) == Replace(t, path, WithChild(Sub(t, path), d, s))
    decreases |path|
  {
    if path == [] {
      assert (path + [d])[1..] == [];
    } else {
      assert (path + [d])[1..] == path[1..] + [d];
      ReplaceSnoc(Child(t, path[0]), path[1..], d, s);
    }
  }

  lemma {:induction false} SubConcat(t: Tree, path: seq<bool>, rest: seq<bool>)
    ensures Sub(t, path + rest) == Sub(Sub(t, path), rest)
    decreases |path|
  {
    if path == [] {
      assert path + rest == rest;
    } else {
      assert (path + rest)[1..] == path[1..] + rest;
      SubConcat(Child(t, path[0]), path[1..], rest);
    }
  }

  lemma {:induction false} SubIds(t: Tree, path: seq<bool>)
    ensures Ids(Sub(t, path)) <= Ids(t) && Keys(Sub(t, path)) <= Keys(t)
    ensures NoShare(t) ==> NoShare(Sub(t, path))
    ensures Sorted(t) ==> Sorted(Sub(t, path))
    ensures Balanced(t) ==> Balanced(Sub(t, path))
    decreases |path|
  {
    if path != [] && t.N? {
      SubIds(Child(t, path[0]), path[1..]);
    } else if path != [] {
      SubIds(Nil, path[1..]);
    }
  }

  lemma {:induction false} SubHeight(t: Tree, path: seq<bool>)
    requires Sub(t, path).N?
    ensures |path| < Height(t)
    decreases |path|
  {
    if path != [] {
      if t.Nil? {
        NilSub(path);
      }
      SubHeight(Child(t, path[0]), path[1..]);
    }
  }

  lemma {:induction false} NilSub(path: seq<bool>)
    ensures Sub(Nil, path) == Nil
    decreases |path|
  {
    if path != [] {
      NilSub(path[1..]);
    }
  }

  lemma {:induction false} SubRep(nodes: seq<Node>, p: int, t: Tree, path: seq<bool>)
    requires Rep(nodes, p, t)
    ensures Rep(nodes, Ptr(Sub(t, path)), Sub(t, path))
    decreases |path|
  {
    if path != [] {
      SubRep(nodes, Ptr(Child(t, path[0])), Child(t, path[0]), path[1..]);
    }
  }

  // ---- Changing one subtree ----

  /** A subtree rebuilt in place, with the same node at its root. */
  lemma {:induction false} Rebuild(nodes: seq<Node>, nodes': seq<Node>, p: int, t: Tree, path: seq<bool>, s: Tree)
    requires Rep(nodes, p, t) && NoShare(t) && Sub(t, path).N?
    requires Agree(nodes, nodes', Ids(t) - Ids(Sub(t, path)))
    requires Ptr(s) == Ptr(Sub(t, path)) && Rep(nodes', Ptr(s), s)
    ensures Rep(nodes', p, Replace(t, path, s))
    decreases |path|
  {
    if path != [] {
      if t.Nil? {
        NilSub(path);
      }
      var d := path[0];
      var c, other := Child(t, d), Child(t, !d);
      SubIds(c, path[1..]);
      SubHas(c, path[1..]);
      assert t.id in Ids(t) - Ids(Sub(t, path));
      Rebuild(nodes, nodes', Ptr(c), c, path[1..], s);
      Frame(nodes, nodes', Ptr(other), other);
    }
  }

  lemma {:induction false} SubHas(t: Tree, path: seq<bool>)
    requires Sub(t, path).N?
    ensures t.N? && Sub(t, path).id in Ids(Sub(t, path))
  {
    if t.Nil? {
      NilSub(path);
    }
  }

  /** What replacement does to contents: nothing, if the replacement has the same. */
  lemma {:induction false} ReplaceIds(t: Tree, path: seq<bool>, s: Tree)
    requires Sub(t, path).N? && Ids(s) == Ids(Sub(t, path))
    ensures Ids(Replace(t, path, s)) == Ids(t)
    ensures NoShare(t) && NoShare(s) ==> NoShare(Replace(t, path, s))
    decreases |path|
  {
    if path != [] {
      SubHas(t, path);
      ReplaceIds(Child(t, path[0]), path[1..], s);
    }
  }

  lemma {:induction false} SubReplace(t: Tree, path: seq<bool>, s: Tree)
    requires Sub(t, path).N?
    ensures Sub(Replace(t, path, s), path) == s
    decreases |path|
  {
    if path != [] {
      SubHas(t, path);
      SubReplace(Child(t, path[0]), path[1..], s);
    }
  }

  lemma {:induction false} ReplaceTwice(t: Tree, path: seq<bool>, s: Tree, u: Tree)
    requires Sub(t, path).N?
    ensures Replace(Replace(t, path, s), path, u) == Replace(t, path, u)
    decreases |path|
  {
    if path != [] {
      SubHas(t, path);
      ReplaceTwice(Child(t, path[0]), path[1..], s, u);
    }
  }
}
