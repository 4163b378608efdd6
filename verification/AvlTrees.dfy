/** Height-balanced search trees as values: what insertion and rotation do to order,
    balance and contents, and how high a tree can be. */
module AvlTrees {

  /** An item, ordered by its key. */
  datatype Item = Item(key: int, value: int)

  /** A tree; every node has an identifier and its balance factor. */
  datatype Tree = Nil | N(id: nat, left: Tree, item: Item, balance: int, right: Tree)

  ghost function Max(a: int, b: int): int {
    if a > b then a else b
  }

  ghost function Height(t: Tree): nat {
    match t
    case Nil => 0
    case N(_, l, _, _, r) => 1 + Max(Height(l), Height(r))
  }

  ghost function Size(t: Tree): nat {
    match t
    case Nil => 0
    case N(_, l, _, _, r) => Size(l) + 1 + Size(r)
  }

  ghost function Keys(t: Tree): set<int> {
    match t
    case Nil => {}
    case N(_, l, x, _, r) => Keys(l) + {x.key} + Keys(r)
  }

  ghost function Items(t: Tree): set<Item> {
    match t
    case Nil => {}
    case N(_, l, x, _, r) => Items(l) + {x} + Items(r)
  }

  ghost function Ids(t: Tree): set<nat> {
    match t
    case Nil => {}
    case N(id, l, _, _, r) => Ids(l) + {id} + Ids(r)
  }

  ghost predicate AllLess(t: Tree, k: int) {
    forall j :: j in Keys(t) ==> j < k
  }

  ghost predicate AllMore(t: Tree, k: int) {
    forall j :: j in Keys(t) ==> k < j
  }

  ghost predicate Sorted(t: Tree) {
    match t
    case Nil => true
    case N(_, l, x, _, r) => Sorted(l) && Sorted(r) && AllLess(l, x.key) && AllMore(r, x.key)
  }

  /** Balance factors are the differences of heights, and those are at most one. */
  ghost predicate Balanced(t: Tree) {
    match t
    case Nil => true
    case N(_, l, _, b, r) => Balanced(l) && Balanced(r) && b == Height(r) - Height(l) && -1 <= b <= 1
  }

  /** No node occurs twice. */
  ghost predicate NoShare(t: Tree) {
    match t
    case Nil => true
    case N(id, l, _, _, r) => NoShare(l) && NoShare(r) && Ids(l) !! Ids(r) && id !in Ids(l) && id !in Ids(r)
  }

  // ---- Insertion ----

  /** The nodes on the way to key `k` are all balanced evenly. */
  ghost predicate EvenPath(t: Tree, k: int) {
    t.N? ==> t.balance == 0 && EvenPath(if k < t.item.key then t.left else t.right, k)
  }

  /** A new leaf, and the balance of every node above it adjusted. */
  ghost function Grow(t: Tree, x: Item, id: nat): Tree {
    match t
    case Nil => N(id, Nil, x, 0, Nil)
    case N(i, l, y, b, r) =>
      if x.key < y.key then N(i, Grow(l, x, id), y, b - 1, r) else N(i, l, y, b + 1, Grow(r, x, id))
  }

  /** A rotation, single or double, if the root's balance is off by two. */
  ghost function Fix(t: Tree): Tree {
    if t.Nil? then t
    else if t.balance == -2 then FixLeft(t)
    else if t.balance == 2 then FixRight(t)
    else t
  }

  /** The left child comes up, the root goes down to the right. */
  ghost function TurnRight(t: Tree, up: int, down: int): Tree {
    if t.Nil? || t.left.Nil? then t
    else N(t.left.id, t.left.left, t.left.item, up, N(t.id, t.left.right, t.item, down, t.right))
  }

  ghost function TurnLeft(t: Tree, up: int, down: int): Tree {
    if t.Nil? || t.right.Nil? then t
    else N(t.right.id, N(t.id, t.left, t.item, down, t.right.left), t.right.item, up, t.right.right)
  }

  ghost function FixLeft(t: Tree): Tree {
    if t.Nil? || t.left.Nil? then t
    else if t.left.balance == -1 || t.left.right.Nil? then TurnRight(t, 0, 0)
    else
      var b := t.left.right.balance;
      TurnRight(N(t.id, TurnLeft(t.left, 0, if b == 1 then -1 else 0), t.item, t.balance, t.right), 0, if b == -1 then 1 else 0)
  }

  ghost function FixRight(t: Tree): Tree {
    if t.Nil? || t.right.Nil? then t
    else if t.right.balance == 1 || t.right.left.Nil? then TurnLeft(t, 0, 0)
    else
      var b := t.right.left.balance;
      TurnLeft(N(t.id, t.left, t.item, t.balance, TurnRight(t.right, 0, if b == -1 then 1 else 0)), 0, if b == 1 then -1 else 0)
  }

  // ---- Growing ----

  lemma {:induction false} GrowContents(t: Tree, x: Item, id: nat)
    ensures Keys(Grow(t, x, id)) == Keys(t) + {x.key}
    ensures Items(Grow(t, x, id)) == Items(t) + {x}
    ensures Ids(Grow(t, x, id)) == Ids(t) + {id}
    ensures Size(Grow(t, x, id)) == Size(t) + 1
  {
    match t
    case Nil =>
    case N(_, l, y, _, r) =>
      if x.key < y.key {
        GrowContents(l, x, id);
      } else {
        GrowContents(r, x, id);
      }
  }

  lemma {:induction false} GrowSorted(t: Tree, x: Item, id: nat)
    requires Sorted(t) && x.key !in Keys(t) && NoShare(t) && id !in Ids(t)
    ensures Sorted(Grow(t, x, id)) && NoShare(Grow(t, x, id))
  {
    hide Items, Size;
    match t
    case Nil =>
    case N(_, l, y, _, r) =>
      if x.key < y.key {
        GrowSorted(l, x, id);
        GrowContents(l, x, id);
      } else {
        GrowSorted(r, x, id);
        GrowContents(r, x, id);
      }
  }

  /** Below evenly balanced nodes a new leaf makes the tree one higher. */
  lemma {:induction false} GrowEven(t: Tree, x: Item, id: nat)
    requires Balanced(t) && EvenPath(t, x.key)
    ensures Balanced(Grow(t, x, id)) && Height(Grow(t, x, id)) == Height(t) + 1
    ensures Grow(t, x, id).balance == 0 ==> t == Nil
  {
    match t
    case Nil =>
    case N(_, l, y, _, r) =>
      if x.key < y.key {
        GrowEven(l, x, id);
      } else {
        GrowEven(r, x, id);
      }
  }

  // ---- Rotation ----

  /** The same nodes and items. */
  ghost predicate SameContents(t: Tree, u: Tree) {
    Keys(t) == Keys(u) && Items(t) == Items(u) && Ids(t) == Ids(u) && Size(t) == Size(u)
  }

  lemma {:induction false} Regroup<T>(a: set<T>, x: T, b: set<T>, y: T, c: set<T>)
    ensures (a + {x} + b) + {y} + c == a + {x} + (b + {y} + c)
  {
  }

  lemma {:induction false} TurnRightContents(t: Tree, up: int, down: int)
    ensures SameContents(t, TurnRight(t, up, down))
  {
    if t.N? && t.left.N? {
      var a, x, b, y, c := t.left.left, t.left, t.left.right, t, t.right;
      Regroup(Keys(a), x.item.key, Keys(b), y.item.key, Keys(c));
      Regroup(Items(a), x.item, Items(b), y.item, Items(c));
      Regroup(Ids(a), x.id, Ids(b), y.id, Ids(c));
    }
  }

  lemma {:induction false} TurnLeftContents(t: Tree, up: int, down: int)
    ensures SameContents(t, TurnLeft(t, up, down))
  {
    if t.N? && t.right.N? {
      var a, x, b, y, c := t.left, t, t.right.left, t.right, t.right.right;
      Regroup(Keys(a), x.item.key, Keys(b), y.item.key, Keys(c));
      Regroup(Items(a), x.item, Items(b), y.item, Items(c));
      Regroup(Ids(a), x.id, Ids(b), y.id, Ids(c));
    }
  }

  lemma {:induction false} TurnRightOrder(t: Tree, up: int, down: int)
    ensures Sorted(t) ==> Sorted(TurnRight(t, up, down))
    ensures NoShare(t) ==> NoShare(TurnRight(t, up, down))
  {
    if t.N? && t.left.N? {
      var x := t.left;
      var n := N(t.id, x.right, t.item, down, t.right);
      assert Keys(x) == Keys(x.left) + {x.item.key} + Keys(x.right);
      assert Keys(n) == Keys(x.right) + {t.item.key} + Keys(t.right);
      assert Ids(x) == Ids(x.left) + {x.id} + Ids(x.right);
      assert Ids(n) == Ids(x.right) + {t.id} + Ids(t.right);
      hide Keys, Ids;
      assert TurnRight(t, up, down) == N(x.id, x.left, x.item, up, n);
      assert Sorted(t) ==> Sorted(x) && AllLess(x, t.item.key) && x.item.key in Keys(x);
      assert Sorted(t) ==> Sorted(n) && AllMore(n, x.item.key) && Sorted(x.left) && AllLess(x.left, x.item.key);
      assert NoShare(t) ==> NoShare(x);
      assert NoShare(t) ==> NoShare(n) && Ids(x.left) !! Ids(n);
    }
  }

  lemma {:induction false} TurnLeftOrder(t: Tree, up: int, down: int)
    ensures Sorted(t) ==> Sorted(TurnLeft(t, up, down))
    ensures NoShare(t) ==> NoShare(TurnLeft(t, up, down))
  {
    if t.N? && t.right.N? {
      var x := t.right;
      var n := N(t.id, t.left, t.item, down, x.left);
      assert Keys(x) == Keys(x.left) + {x.item.key} + Keys(x.right);
      assert Keys(n) == Keys(t.left) + {t.item.key} + Keys(x.left);
      assert Ids(x) == Ids(x.left) + {x.id} + Ids(x.right);
      assert Ids(n) == Ids(t.left) + {t.id} + Ids(x.left);
      hide Keys, Ids;
      assert TurnLeft(t, up, down) == N(x.id, n, x.item, up, x.right);
      assert Sorted(t) ==> Sorted(x) && AllMore(x, t.item.key) && x.item.key in Keys(x);
      assert Sorted(t) ==> Sorted(n) && AllLess(n, x.item.key) && Sorted(x.right) && AllMore(x.right, x.item.key);
      assert NoShare(t) ==> NoShare(x);
      assert NoShare(t) ==> NoShare(n) && Ids(x.right) !! Ids(n);
    }
  }

  /** Replacing a child by another with the same contents. */
  lemma {:induction false} SwapLeft(t: Tree, l: Tree)
    requires t.N? && SameContents(t.left, l)
    ensures SameContents(t, N(t.id, l, t.item, t.balance, t.right))
    ensures Sorted(t) && Sorted(l) ==> Sorted(N(t.id, l, t.item, t.balance, t.right))
    ensures NoShare(t) && NoShare(l) ==> NoShare(N(t.id, l, t.item, t.balance, t.right))
  {
  }

  lemma {:induction false} SwapRight(t: Tree, r: Tree)
    requires t.N? && SameContents(t.right, r)
    ensures SameContents(t, N(t.id, t.left, t.item, t.balance, r))
    ensures Sorted(t) && Sorted(r) ==> Sorted(N(t.id, t.left, t.item, t.balance, r))
    ensures NoShare(t) && NoShare(r) ==> NoShare(N(t.id, t.left, t.item, t.balance, r))
  {
  }

  lemma {:induction false} FixFacts(t: Tree)
    ensures SameContents(t, Fix(t))
    ensures Sorted(t) ==> Sorted(Fix(t))
    ensures NoShare(t) ==> NoShare(Fix(t))
  {
    if t.N? && t.balance == -2 {
      FixLeftFacts(t);
    } else if t.N? && t.balance == 2 {
      FixRightFacts(t);
    }
  }

  lemma {:induction false} FixLeftFacts(t: Tree)
    ensures SameContents(t, FixLeft(t))
    ensures Sorted(t) ==> Sorted(FixLeft(t))
    ensures NoShare(t) ==> NoShare(FixLeft(t))
  {
    if t.Nil? || t.left.Nil? {
    } else if t.left.balance == -1 || t.left.right.Nil? {
      TurnRightContents(t, 0, 0);
      TurnRightOrder(t, 0, 0);
    } else {
      var b := t.left.right.balance;
      var l := TurnLeft(t.left, 0, if b == 1 then -1 else 0);
      TurnLeftContents(t.left, 0, if b == 1 then -1 else 0);
      TurnLeftOrder(t.left, 0, if b == 1 then -1 else 0);
      hide TurnLeft, TurnRight, Keys, Items, Ids, Size, AllLess, AllMore;
      SwapLeft(t, l);
      TurnRightContents(N(t.id, l, t.item, t.balance, t.right), 0, if b == -1 then 1 else 0);
      TurnRightOrder(N(t.id, l, t.item, t.balance, t.right), 0, if b == -1 then 1 else 0);
    }
  }

  lemma {:induction false} FixRightFacts(t: Tree)
    ensures SameContents(t, FixRight(t))
    ensures Sorted(t) ==> Sorted(FixRight(t))
    ensures NoShare(t) ==> NoShare(FixRight(t))
  {
    if t.Nil? || t.right.Nil? {
    } else if t.right.balance == 1 || t.right.left.Nil? {
      TurnLeftContents(t, 0, 0);
      TurnLeftOrder(t, 0, 0);
    } else {
      var b := t.right.left.balance;
      var r := TurnRight(t.right, 0, if b == -1 then 1 else 0);
      TurnRightContents(t.right, 0, if b == -1 then 1 else 0);
      TurnRightOrder(t.right, 0, if b == -1 then 1 else 0);
      hide TurnLeft, TurnRight, Keys, Items, Ids, Size, AllLess, AllMore;
      SwapRight(t, r);
      TurnLeftContents(N(t.id, t.left, t.item, t.balance, r), 0, if b == 1 then -1 else 0);
      TurnLeftOrder(N(t.id, t.left, t.item, t.balance, r), 0, if b == 1 then -1 else 0);
    }
  }

  lemma {:induction false} SingleLeftBalanced(t: Tree)
    requires t.N? && t.left.N? && Balanced(t.left) && Balanced(t.right) && Height(t.left) == Height(t.right) + 2 && t.left.balance == -1
    ensures Balanced(FixLeft(t)) && Height(FixLeft(t)) == Height(t.right) + 2
  {
  }

  lemma {:induction false} DoubleLeftBalanced(t: Tree)
    requires t.N? && t.left.N? && Balanced(t.left) && Balanced(t.right) && Height(t.left) == Height(t.right) + 2 && t.left.balance == 1
    requires t.left.right.N? && Balanced(t.left.right)
    ensures Balanced(FixLeft(t)) && Height(FixLeft(t)) == Height(t.right) + 2
  {
  }

  /** The left side is two higher: the rotation balances it, and it is one lower than it was. */
  lemma {:induction false} FixLeftBalanced(t: Tree)
    requires t.N? && t.left.N? && Balanced(t.left) && Balanced(t.right) && Height(t.left) == Height(t.right) + 2
    requires t.left.balance != 0
    ensures Balanced(FixLeft(t)) && Height(FixLeft(t)) == Height(t.right) + 2
  {
    hide FixLeft;
    var x := t.left;
    if x.balance == 1 {
      assert x.right.N? && Balanced(x.right);
      DoubleLeftBalanced(t);
    } else {
      SingleLeftBalanced(t);
    }
  }

  lemma {:induction false} SingleRightBalanced(t: Tree)
    requires t.N? && t.right.N? && Balanced(t.left) && Balanced(t.right) && Height(t.right) == Height(t.left) + 2 && t.right.balance == 1
    ensures Balanced(FixRight(t)) && Height(FixRight(t)) == Height(t.left) + 2
  {
  }

  lemma {:induction false} DoubleRightBalanced(t: Tree)
    requires t.N? && t.right.N? && Balanced(t.left) && Balanced(t.right) && Height(t.right) == Height(t.left) + 2 && t.right.balance == -1
    requires t.right.left.N? && Balanced(t.right.left)
    ensures Balanced(FixRight(t)) && Height(FixRight(t)) == Height(t.left) + 2
  {
  }

  lemma {:induction false} FixRightBalanced(t: Tree)
    requires t.N? && t.right.N? && Balanced(t.left) && Balanced(t.right) && Height(t.right) == Height(t.left) + 2
    requires t.right.balance != 0
    ensures Balanced(FixRight(t)) && Height(FixRight(t)) == Height(t.left) + 2
  {
    hide FixRight;
    var x := t.right;
    if x.balance == -1 {
      assert x.left.N? && Balanced(x.left);
      DoubleRightBalanced(t);
    } else {
      SingleRightBalanced(t);
    }
  }

  /** The root is off by one to one side, the path below is even: after the leaf is added
      and the rotation made, the tree is balanced and no higher than before. */
  lemma {:induction false} FixBalanced(t: Tree, x: Item, id: nat)
    requires t.N? && Balanced(t) && t.balance != 0 && EvenPath(Toward(t, x.key), x.key)
    ensures Balanced(Fix(Grow(t, x, id))) && Height(Fix(Grow(t, x, id))) == Height(t)
  {
    hide EvenPath, FixLeft, FixRight;
    if x.key < t.item.key {
      GrowEven(t.left, x, id);
      if t.balance == -1 {
        FixLeftBalanced(Grow(t, x, id));
      }
    } else {
      GrowEven(t.right, x, id);
      if t.balance == 1 {
        FixRightBalanced(Grow(t, x, id));
      }
    }
  }

  // ---- The whole insertion ----

  /** The child on the way to key `k`. */
  ghost function Toward(t: Tree, k: int): Tree
    requires t.N?
  {
    if k < t.item.key then t.left else t.right
  }

  /** Insertion at the lowest node on the way that is not even, or at the root. */
  ghost function Insert(t: Tree, x: Item, id: nat): Tree {
    if t.Nil? || EvenPath(Toward(t, x.key), x.key) then Fix(Grow(t, x, id))
    else if x.key < t.item.key then N(t.id, Insert(t.left, x, id), t.item, t.balance, t.right)
    else N(t.id, t.left, t.item, t.balance, Insert(t.right, x, id))
  }

  lemma {:induction false} InsertContents(t: Tree, x: Item, id: nat)
    ensures Keys(Insert(t, x, id)) == Keys(t) + {x.key} && Items(Insert(t, x, id)) == Items(t) + {x}
    ensures Ids(Insert(t, x, id)) == Ids(t) + {id} && Size(Insert(t, x, id)) == Size(t) + 1
  {
    if t.Nil? || EvenPath(Toward(t, x.key), x.key) {
      GrowContents(t, x, id);
      FixFacts(Grow(t, x, id));
    } else if x.key < t.item.key {
      InsertContents(t.left, x, id);
    } else {
      InsertContents(t.right, x, id);
    }
  }

  lemma {:induction false} InsertSorted(t: Tree, x: Item, id: nat)
    requires Sorted(t) && x.key !in Keys(t) && NoShare(t) && id !in Ids(t)
    ensures Sorted(Insert(t, x, id)) && NoShare(Insert(t, x, id))
  {
    hide Fix, Grow, EvenPath, Items, Size;
    if t.Nil? || EvenPath(Toward(t, x.key), x.key) {
      GrowSorted(t, x, id);
      FixFacts(Grow(t, x, id));
    } else if x.key < t.item.key {
      InsertSorted(t.left, x, id);
      InsertContents(t.left, x, id);
    } else {
      InsertSorted(t.right, x, id);
      InsertContents(t.right, x, id);
    }
  }

  /** Insertion keeps a tree balanced; only when the whole path was even does it grow. */
  lemma {:induction false} InsertBalanced(t: Tree, x: Item, id: nat)
    requires Balanced(t)
    ensures Balanced(Insert(t, x, id))
    ensures Height(Insert(t, x, id)) == Height(t) + if EvenPath(t, x.key) then 1 else 0
  {
    hide Fix;
    if t.Nil? || EvenPath(Toward(t, x.key), x.key) {
      if t.N? && t.balance != 0 {
        FixBalanced(t, x, id);
      } else {
        GrowEven(t, x, id);
        NothingToFix(Grow(t, x, id));
      }
    } else if x.key < t.item.key {
      InsertBalanced(t.left, x, id);
    } else {
      InsertBalanced(t.right, x, id);
    }
  }

  lemma {:induction false} NothingToFix(t: Tree)
    requires t.N? && -1 <= t.balance <= 1
    ensures Fix(t) == t
  {
  }

  // ---- The height of a tree ----

  ghost function Fib(n: nat): nat {
    if n < 2 then n else Fib(n - 1) + Fib(n - 2)
  }

  lemma {:induction false} FibGrows(m: nat, n: nat)
    requires m <= n
    ensures Fib(m) <= Fib(n)
    decreases n - m
  {
    if m < n {
      FibGrows(m, n - 1);
    }
  }

  lemma {:induction false} FibStep(n: nat)
    ensures Fib(n + 2) == Fib(n + 1) + Fib(n) && Fib(1) == 1 && Fib(2) == 1
  {
  }

  /** A balanced tree of height `h` has at least `Fib(h + 2) - 1` nodes. */
  lemma {:induction false} SizeBound(t: Tree)
    requires Balanced(t)
    ensures Size(t) + 1 >= Fib(Height(t) + 2)
  {
    hide Fib;
    match t
    case Nil =>
      FibStep(0);
    case N(_, l, _, _, r) =>
      SizeBound(l);
      SizeBound(r);
      var h, hl, hr := Height(t), Height(l), Height(r);
      assert h == 1 + Max(hl, hr) && (hl == hr || hl == hr + 1 || hr == hl + 1);
      FibStep(h);
      FibGrows(h, hl + 2);
      FibGrows(h, hr + 2);
  }

  const SIZE_LIMIT: nat := 0x1_0000_0000_0000_0000
  const MAX_HEIGHT: nat := 92

  lemma {:induction false} FibLarge()
    ensures Fib(94) > SIZE_LIMIT
  {
    assert Fib(10) == 55 && Fib(11) == 89;
    FibTen(10);
    FibTen(20);
    FibTen(30);
    FibTen(40);
    FibTen(50);
    FibTen(60);
    FibTen(70);
    FibTen(80);
    assert Fib(92) == Fib(91) + Fib(90) && Fib(93) == Fib(92) + Fib(91) && Fib(94) == Fib(93) + Fib(92);
  }

  /** Ten steps on. */
  lemma {:induction false} FibTen(n: nat)
    ensures Fib(n + 10) == 55 * Fib(n + 1) + 34 * Fib(n)
    ensures Fib(n + 11) == 89 * Fib(n + 1) + 55 * Fib(n)
  {
    assert Fib(n + 2) == Fib(n + 1) + Fib(n);
    assert Fib(n + 3) == Fib(n + 2) + Fib(n + 1);
    assert Fib(n + 4) == Fib(n + 3) + Fib(n + 2);
    assert Fib(n + 5) == Fib(n + 4) + Fib(n + 3);
    assert Fib(n + 6) == Fib(n + 5) + Fib(n + 4);
    assert Fib(n + 7) == Fib(n + 6) + Fib(n + 5);
    assert Fib(n + 8) == Fib(n + 7) + Fib(n + 6);
    assert Fib(n + 9) == Fib(n + 8) + Fib(n + 7);
    assert Fib(n + 10) == Fib(n + 9) + Fib(n + 8);
    assert Fib(n + 11) == Fib(n + 10) + Fib(n + 9);
  }

  /** With fewer items than a 64-bit size can count, no path is as long as the stacks are. */
  lemma {:induction false} HeightBound(t: Tree)
    requires Balanced(t) && Size(t) < SIZE_LIMIT
    ensures Height(t) < MAX_HEIGHT
  {
    hide Fib, Size, Height, Balanced;
    SizeBound(t);
    FibLarge();
    if Height(t) >= MAX_HEIGHT {
      FibGrows(94, Height(t) + 2);
    }
  }
}
