/** Deletion from a height-balanced search tree, as values: the node taken out, and the
    balance restored on the way up from the place that has become lower. */
module TavlTrees {
  import opened AvlTrees
  import opened AvlArena
  import opened AvlPaths
  import opened AvlLookups

  /** A tree, and whether it is lower than it was. */
  datatype Shrink = Shrink(tree: Tree, lower: bool)

  /** The left side has become one lower. */
  ghost function LeftShrunk(t: Tree): Shrink {
    if t.Nil? then Shrink(t, false)
    else
      var u := N(t.id, t.left, t.item, t.balance + 1, t.right);
      if u.balance == 1 then Shrink(u, false)
      else if u.balance != 2 || t.right.Nil? then Shrink(u, true)
      else if t.right.balance == 0 then Shrink(TurnLeft(u, -1, 1), false)
      else Shrink(FixRight(u), true)
  }

  ghost function RightShrunk(t: Tree): Shrink {
    if t.Nil? then Shrink(t, false)
    else
      var u := N(t.id, t.left, t.item, t.balance - 1, t.right);
      if u.balance == -1 then Shrink(u, false)
      else if u.balance != -2 || t.left.Nil? then Shrink(u, true)
      else if t.left.balance == 0 then Shrink(TurnRight(u, 1, -1), false)
      else Shrink(FixLeft(u), true)
  }

  ghost function SideShrunk(t: Tree, right: bool): Shrink {
    if right then RightShrunk(t) else LeftShrunk(t)
  }

  /** The balance restored from the end of the path, where the tree is lower, up to the root
      or to where the height is what it was. */
  ghost function Settle(t: Tree, path: seq<bool>): Shrink
    decreases |path|
  {
    if path == [] then Shrink(t, true)
    else
      var c := Settle(Child(t, path[0]), path[1..]);
      var u := WithChild(t, path[0], c.tree);
      if c.lower then SideShrunk(u, path[0]) else Shrink(u, false)
  }

  /** The way to the leftmost node of a tree. */
  ghost function Leftward(t: Tree): seq<bool> {
    if t.Nil? || t.left.Nil? then [] else [false] + Leftward(t.left)
  }

  /** A tree without its leftmost node, which has no left child. */
  ghost function WithoutFirst(t: Tree): Tree {
    if t.Nil? then t else if t.left.Nil? then t.right else N(t.id, WithoutFirst(t.left), t.item, t.balance, t.right)
  }

  /** The node taken out at the end of a path: its follower on the right side takes its place. */
  ghost function Unlinked(p: Tree): Tree {
    if p.Nil? then p
    else if p.right.Nil? then p.left
    else
      var s := Sub(p.right, Leftward(p.right));
      if s.Nil? then p else N(s.id, p.left, s.item, p.balance, WithoutFirst(p.right))
  }

  /** Where the tree is lower for that. */
  ghost function LowPath(p: Tree): seq<bool> {
    if p.Nil? || p.right.Nil? then [] else [true] + Leftward(p.right)
  }

  /** The tree without the item of a key, which it has. */
  ghost function Delete(t: Tree, key: int): Tree {
    var way := Way(t, key);
    Settle(Replace(t, way, Unlinked(Sub(t, way))), way + LowPath(Sub(t, way))).tree
  }

  // ---- The balance restored ----

  /** A node that leans two to the left over an even one, turned to the right, leans one. */
  lemma {:induction false} EvenTurnedRight(u: Tree)
    requires u.N? && u.left.N? && u.left.balance == 0 && Balanced(u.left) && Balanced(u.right) && Height(u.left) == Height(u.right) + 2
    ensures Balanced(TurnRight(u, 1, -1)) && Height(TurnRight(u, 1, -1)) == Height(u.right) + 3
  {
  }

  lemma {:induction false} EvenTurnedLeft(u: Tree)
    requires u.N? && u.right.N? && u.right.balance == 0 && Balanced(u.left) && Balanced(u.right) && Height(u.right) == Height(u.left) + 2
    ensures Balanced(TurnLeft(u, -1, 1)) && Height(TurnLeft(u, -1, 1)) == Height(u.left) + 3
  {
  }

  lemma {:induction false} LeftShrunkBalanced(t: Tree)
    requires t.N? && Balanced(t.left) && Balanced(t.right)
    requires t.balance == Height(t.right) - (Height(t.left) + 1) && -1 <= t.balance <= 1
    ensures Balanced(LeftShrunk(t).tree)
    ensures Height(LeftShrunk(t).tree) == 1 + Max(Height(t.left) + 1, Height(t.right)) - (if LeftShrunk(t).lower then 1 else 0)
  {
    hide FixRight, TurnLeft;
    var u := N(t.id, t.left, t.item, t.balance + 1, t.right);
    if u.balance == 2 && t.right.balance != 0 {
      FixRightBalanced(u);
    } else if u.balance == 2 {
      EvenTurnedLeft(u);
    }
  }

  lemma {:induction false} RightShrunkBalanced(t: Tree)
    requires t.N? && Balanced(t.left) && Balanced(t.right)
    requires t.balance == Height(t.right) + 1 - Height(t.left) && -1 <= t.balance <= 1
    ensures Balanced(RightShrunk(t).tree)
    ensures Height(RightShrunk(t).tree) == 1 + Max(Height(t.left), Height(t.right) + 1) - (if RightShrunk(t).lower then 1 else 0)
  {
    hide FixLeft, TurnRight;
    var u := N(t.id, t.left, t.item, t.balance - 1, t.right);
    if u.balance == -2 && t.left.balance != 0 {
      FixLeftBalanced(u);
    } else if u.balance == -2 {
      EvenTurnedRight(u);
    }
  }

  /** The height the tree had before the place at the end of the path became one lower. */
  ghost function WasHeight(t: Tree, path: seq<bool>): nat
    decreases |path|
  {
    if path == [] then Height(t) + 1
    else if t.Nil? then 0
    else 1 + Max(WasHeight(Child(t, path[0]), path[1..]), Height(Child(t, !path[0])))
  }

  /** Balanced, if the place at the end of the path is counted one higher than it is. */
  ghost predicate WasBalanced(t: Tree, path: seq<bool>)
    decreases |path|
  {
    if path == [] then Balanced(t)
    else
      && t.N? && WasBalanced(Child(t, path[0]), path[1..]) && Balanced(Child(t, !path[0])) && -1 <= t.balance <= 1
      && var h, o := WasHeight(Child(t, path[0]), path[1..]), Height(Child(t, !path[0]));
         t.balance == if path[0] then h - o else o - h
  }

  lemma {:induction false} SettleBalanced(t: Tree, path: seq<bool>)
    requires WasBalanced(t, path)
    ensures Balanced(Settle(t, path).tree)
    ensures Height(Settle(t, path).tree) == WasHeight(t, path) - (if Settle(t, path).lower then 1 else 0)
    decreases |path|
  {
    if path != [] {
      var c := Settle(Child(t, path[0]), path[1..]);
      SettleBalanced(Child(t, path[0]), path[1..]);
      SettleOne(t, path[0], c, WasHeight(Child(t, path[0]), path[1..]));
    }
  }

  /** One node further up. */
  lemma {:induction false} SettleOne(t: Tree, d: bool, c: Shrink, h: nat)
    requires t.N? && Balanced(Child(t, !d)) && Balanced(c.tree) && Height(c.tree) == h - (if c.lower then 1 else 0)
    requires t.balance == (if d then h - Height(Child(t, !d)) else Height(Child(t, !d)) - h) && -1 <= t.balance <= 1
    ensures var u := WithChild(t, d, c.tree);
            var r := if c.lower then SideShrunk(u, d) else Shrink(u, false);
            && Balanced(r.tree)
            && Height(r.tree) == 1 + Max(h, Height(Child(t, !d))) - (if r.lower then 1 else 0)
  {
    hide LeftShrunk, RightShrunk;
    var u := WithChild(t, d, c.tree);
    if c.lower {
      if d {
        RightShrunkBalanced(u);
      } else {
        LeftShrunkBalanced(u);
      }
    }
  }

  // ---- Contents ----

  lemma {:induction false} LeftShrunkFacts(t: Tree)
    ensures SameContents(t, LeftShrunk(t).tree)
    ensures Sorted(t) ==> Sorted(LeftShrunk(t).tree)
    ensures NoShare(t) ==> NoShare(LeftShrunk(t).tree)
  {
    if t.N? {
      var u := N(t.id, t.left, t.item, t.balance + 1, t.right);
      TurnLeftContents(u, -1, 1);
      TurnLeftOrder(u, -1, 1);
      FixRightFacts(u);
      assert SameContents(t, u) && (Sorted(t) ==> Sorted(u)) && (NoShare(t) ==> NoShare(u));
      hide TurnLeft, FixRight, Keys, Items, Ids, Size, Sorted, NoShare;
    }
  }

  lemma {:induction false} RightShrunkFacts(t: Tree)
    ensures SameContents(t, RightShrunk(t).tree)
    ensures Sorted(t) ==> Sorted(RightShrunk(t).tree)
    ensures NoShare(t) ==> NoShare(RightShrunk(t).tree)
  {
    if t.N? {
      var u := N(t.id, t.left, t.item, t.balance - 1, t.right);
      TurnRightContents(u, 1, -1);
      TurnRightOrder(u, 1, -1);
      FixLeftFacts(u);
      assert SameContents(t, u) && (Sorted(t) ==> Sorted(u)) && (NoShare(t) ==> NoShare(u));
      hide TurnRight, FixLeft, Keys, Items, Ids, Size, Sorted, NoShare;
    }
  }

  lemma {:induction false} SettleFacts(t: Tree, path: seq<bool>)
    ensures SameContents(t, Settle(t, path).tree)
    ensures Sorted(t) ==> Sorted(Settle(t, path).tree)
    ensures NoShare(t) ==> NoShare(Settle(t, path).tree)
    decreases |path|
  {
    hide LeftShrunk, RightShrunk, AllLess, AllMore;
    if path != [] && t.N? {
      var d := path[0];
      var c := Settle(Child(t, d), path[1..]);
      SettleFacts(Child(t, d), path[1..]);
      var u := WithChild(t, d, c.tree);
      if d {
        SwapRight(t, c.tree);
      } else {
        SwapLeft(t, c.tree);
      }
      hide Keys, Items, Ids, Size, Sorted, NoShare;
      LeftShrunkFacts(u);
      RightShrunkFacts(u);
    } else if path != [] {
      LeftShrunkFacts(t);
      RightShrunkFacts(t);
    }
  }

  /** `u` is the tree `t` without one item and its node. */
  ghost predicate Removed(t: Tree, u: Tree, x: Item, id: nat) {
    && x.key in Keys(t) && Keys(u) == Keys(t) - {x.key}
    && x in Items(t) && Items(u) == Items(t) - {x}
    && id in Ids(t) && Ids(u) == Ids(t) - {id}
    && Size(t) == Size(u) + 1 && Sorted(u) && NoShare(u)
  }

  lemma {:induction false} NotItem(t: Tree, x: Item)
    requires x.key !in Keys(t)
    ensures x !in Items(t)
  {
    if x in Items(t) {
      ItemKeys(t, x);
    }
  }

  lemma {:induction false} RightLeft(t: Tree)
    requires t.N? && t.left == Nil && Sorted(t) && NoShare(t)
    ensures Removed(t, t.right, t.item, t.id) && AllMore(t.right, t.item.key)
  {
    NotItem(t.right, t.item);
  }

  lemma {:induction false} LeftLeft(t: Tree)
    requires t.N? && t.right == Nil && Sorted(t) && NoShare(t)
    ensures Removed(t, t.left, t.item, t.id)
  {
    NotItem(t.left, t.item);
  }

  lemma {:induction false} FirstRemoved(t: Tree)
    requires t.N? && Sorted(t) && NoShare(t)
    ensures var f := Sub(t, Leftward(t));
            f.N? && f.left == Nil && Removed(t, WithoutFirst(t), f.item, f.id) && AllMore(WithoutFirst(t), f.item.key)
  {
    if t.left.N? {
      FirstRemoved(t.left);
      assert Leftward(t)[1..] == Leftward(t.left);
      var f := Sub(t.left, Leftward(t.left));
      ChildRemoved(t, false, WithoutFirst(t.left), f.item, f.id);
      assert WithoutFirst(t) == WithChild(t, false, WithoutFirst(t.left));
      hide Leftward, WithoutFirst, Sub;
      MoreStill(t, f.item.key, WithoutFirst(t.left));
    } else {
      hide Removed, Sorted, NoShare, AllMore;
      RightLeft(t);
    }
  }

  lemma {:induction false} MoreStill(t: Tree, key: int, l: Tree)
    requires t.N? && Sorted(t) && key in Keys(t.left) && AllMore(l, key)
    ensures AllMore(WithChild(t, false, l), key)
  {
  }

  lemma {:induction false} Exchange<T>(a: set<T>, p: T, b: set<T>, x: T)
    requires x in b && p !in a && p !in b
    ensures a + {x} + (b - {x}) == (a + {p} + b) - {p}
  {
  }

  /** The first item of the right side in place of the root's. */
  lemma {:induction false} Promoted(p: Tree, x: Item, id: nat, w: Tree)
    requires p.N? && Sorted(p) && NoShare(p) && Removed(p.right, w, x, id) && AllMore(w, x.key)
    ensures Removed(p, N(id, p.left, x, p.balance, w), p.item, p.id)
  {
    NotItem(p.left, p.item);
    NotItem(p.right, p.item);
    Exchange(Keys(p.left), p.item.key, Keys(p.right), x.key);
    Exchange(Items(p.left), p.item, Items(p.right), x);
    Exchange(Ids(p.left), p.id, Ids(p.right), id);
  }

  lemma {:induction false} UnlinkedRemoved(p: Tree)
    requires p.N? && Sorted(p) && NoShare(p)
    ensures Removed(p, Unlinked(p), p.item, p.id)
  {
    if p.right.N? {
      FirstRemoved(p.right);
      hide Removed, Leftward, WithoutFirst, AllMore;
      var s := Sub(p.right, Leftward(p.right));
      Promoted(p, s.item, s.id, WithoutFirst(p.right));
    } else {
      hide Removed;
      LeftLeft(p);
    }
  }

  lemma {:induction false} ReplaceRemoved(t: Tree, path: seq<bool>, s: Tree, x: Item, id: nat)
    requires Sorted(t) && NoShare(t) && Removed(Sub(t, path), s, x, id)
    ensures Removed(t, Replace(t, path, s), x, id)
    decreases |path|
  {
    if path != [] {
      if t.Nil? {
        NilSub(path);
      }
      ReplaceRemoved(Child(t, path[0]), path[1..], s, x, id);
      hide Replace, Sub;
      ChildRemoved(t, path[0], Replace(Child(t, path[0]), path[1..], s), x, id);
    }
  }

  lemma {:induction false} ChildRemoved(t: Tree, d: bool, c: Tree, x: Item, id: nat)
    requires Sorted(t) && NoShare(t) && t.N? && Removed(Child(t, d), c, x, id)
    ensures Removed(t, WithChild(t, d, c), x, id)
  {
    NotItem(Child(t, !d), x);
  }

  // ---- The whole deletion ----

  lemma {:induction false} FirstWas(t: Tree)
    requires t.N? && Balanced(t)
    ensures WasBalanced(WithoutFirst(t), Leftward(t)) && WasHeight(WithoutFirst(t), Leftward(t)) == Height(t)
  {
    if t.left.N? {
      FirstWas(t.left);
      assert Leftward(t)[1..] == Leftward(t.left);
    }
  }

  lemma {:induction false} UnlinkedWas(p: Tree)
    requires p.N? && Balanced(p)
    ensures WasBalanced(Unlinked(p), LowPath(p)) && WasHeight(Unlinked(p), LowPath(p)) == Height(p)
  {
    if p.right.N? {
      FirstWas(p.right);
      FirstThere(p.right);
      assert LowPath(p)[1..] == Leftward(p.right);
    }
  }

  lemma {:induction false} FirstThere(t: Tree)
    requires t.N?
    ensures Sub(t, Leftward(t)).N? && Sub(t, Leftward(t)).left == Nil
  {
    if t.left.N? {
      FirstThere(t.left);
      assert Leftward(t)[1..] == Leftward(t.left);
    }
  }

  lemma {:induction false} ReplaceWas(t: Tree, path: seq<bool>, s: Tree, low: seq<bool>)
    requires Balanced(t) && Sub(t, path).N? && WasBalanced(s, low) && WasHeight(s, low) == Height(Sub(t, path))
    ensures WasBalanced(Replace(t, path, s), path + low) && WasHeight(Replace(t, path, s), path + low) == Height(t)
    decreases |path|
  {
    if path == [] {
      assert path + low == low;
    } else {
      SubHas(t, path);
      assert (path + low)[1..] == path[1..] + low;
      ReplaceWas(Child(t, path[0]), path[1..], s, low);
    }
  }

  /** The balance restored one node at a time, from below. */
  lemma {:induction false} SettleSnoc(t: Tree, path: seq<bool>, d: bool)
    requires Sub(t, path).N?
    ensures var r := SideShrunk(Sub(t, path), d);
            Settle(t, path + [d]) == if r.lower then Settle(Replace(t, path, r.tree), path) else Shrink(Replace(t, path, r.tree), false)
    decreases |path|
  {
    hide SideShrunk;
    SubHas(t, path);
    if path == [] {
      assert (path + [d])[1..] == [];
    } else {
      assert (path + [d])[1..] == path[1..] + [d];
      SettleSnoc(Child(t, path[0]), path[1..], d);
    }
  }

  lemma {:induction false} WayThere(t: Tree, key: int)
    requires Sorted(t) && key in Keys(t)
    ensures Sub(t, Way(t, key)).N? && Sub(t, Way(t, key)).item.key == key
  {
    if key < t.item.key {
      WayThere(t.left, key);
      assert Way(t, key)[1..] == Way(t.left, key);
    } else if key > t.item.key {
      WayThere(t.right, key);
      assert Way(t, key)[1..] == Way(t.right, key);
    }
  }

  /** Deletion takes out the one item, and leaves a good search tree. */
  lemma {:induction false} DeleteIs(t: Tree, key: int)
    requires Sorted(t) && NoShare(t) && Balanced(t) && key in Keys(t)
    ensures var p := Sub(t, Way(t, key));
            p.N? && p.item.key == key && Removed(t, Delete(t, key), p.item, p.id)
    ensures Balanced(Delete(t, key))
  {
    var way := Way(t, key);
    WayThere(t, key);
    var p := Sub(t, way);
    SubIds(t, way);
    UnlinkedRemoved(p);
    UnlinkedWas(p);
    ReplaceRemoved(t, way, Unlinked(p), p.item, p.id);
    ReplaceWas(t, way, Unlinked(p), LowPath(p));
    var u := Replace(t, way, Unlinked(p));
    SettleFacts(u, way + LowPath(p));
    SettleBalanced(u, way + LowPath(p));
  }
}
