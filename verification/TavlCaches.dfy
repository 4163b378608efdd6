/** The 32 directions that an insertion into a threaded tree can cache: how many items a table
    must hold before they can run out. */
module TavlCaches {
  import opened AvlTrees
  import opened AvlArena
  import opened AvlPaths

  const TAVL_MAX_HEIGHT: nat := 32

  /** Tables with fewer items never need more. */
  const TAVL_LIMIT: nat := 12752041

  /** The most directions cached at once on the way to a key, from `k` of them on: an uneven
      node starts over. */
  ghost function Peak(t: Tree, key: int, k: nat): nat {
    if t.Nil? || t.item.key == key then k
    else
      var n := (if t.balance != 0 then 0 else k) + 1;
      Most(n, Peak(if key > t.item.key then t.right else t.left, key, n))
  }

  function Most(a: nat, b: nat): nat {
    if a > b then a else b
  }

  /** A search tree in good order. */
  ghost predicate Orderly(t: Tree) {
    Sorted(t) && NoShare(t) && Balanced(t)
  }

  ghost predicate Fits(t: Tree, key: int) {
    Peak(t, key, 0) <= TAVL_MAX_HEIGHT
  }

  // ---- Few items: short runs of even nodes ----

  lemma {:induction false} LimitValue(h: nat)
    requires h == TAVL_MAX_HEIGHT
    ensures Fib(h + 3) + Fib(h + 1) == TAVL_LIMIT + 2
  {
    assert Fib(3) == 2 && Fib(4) == 3;
    FibTen(3);
    FibTen(13);
    FibTen(23);
    FibStep(33);
  }

  /** A run of `n` even nodes from the root down needs this many nodes. */
  lemma {:induction false} RunSize(t: Tree, path: seq<bool>)
    requires Balanced(t) && EvenAlong(t, path) && Sub(t, path).N? && Sub(t, path).balance == 0
    ensures Size(t) + 2 >= Fib(|path| + 4) && Height(t) > |path|
    decreases |path|
  {
    hide Fib;
    FibStep(|path| + 2);
    if path == [] {
      FibStep(1);
    } else {
      var c, o := Child(t, path[0]), Child(t, !path[0]);
      RunSize(c, path[1..]);
      SizeBound(o);
      FibGrows(|path| + 2, Height(o) + 2);
    }
  }

  lemma {:induction false} SubSize(t: Tree, path: seq<bool>)
    ensures Size(Sub(t, path)) <= Size(t)
    ensures Balanced(t) ==> Balanced(Sub(t, path))
    decreases |path|
  {
    if path != [] && t.N? {
      SubSize(Child(t, path[0]), path[1..]);
    } else if path != [] {
      NilSub(path);
    }
  }

  /** A node above such a run. */
  lemma {:induction false} ForkSize(y: Tree, d: bool, path: seq<bool>)
    requires y.N? && Balanced(y) && EvenAlong(Child(y, d), path)
    requires Sub(Child(y, d), path).N? && Sub(Child(y, d), path).balance == 0
    ensures Size(y) + 2 >= Fib(|path| + 4) + Fib(|path| + 2)
  {
    hide Fib, Sub, EvenAlong;
    var c, o := Child(y, d), Child(y, !d);
    assert Size(y) == 1 + Size(c) + Size(o) && Balanced(c) && Balanced(o) && Height(o) + 1 >= Height(c);
    hide Size, Height, Balanced;
    RunSize(c, path);
    SizeBound(o);
    FibGrows(|path| + 2, Height(o) + 2);
  }

  /** Below `y`, where the cache starts over, an even run that goes on does not fill the cache. */
  lemma {:induction false} CacheSuffices(t: Tree, py: seq<bool>, w: seq<bool>)
    requires Balanced(t) && Size(t) < TAVL_LIMIT && w != [] && Sub(t, py).N?
    requires EvenAlong(Child(Sub(t, py), w[0]), w[1..])
    requires Sub(t, py + w).N? && Sub(t, py + w).balance == 0
    ensures |w| < TAVL_MAX_HEIGHT
  {
    hide *;
    ForkAt(t, py, w);
    ForkSize(Sub(t, py), w[0], w[1..]);
    ShortRun(|w|, Size(Sub(t, py)));
  }

  lemma {:induction false} ForkAt(t: Tree, py: seq<bool>, w: seq<bool>)
    requires w != []
    ensures Size(Sub(t, py)) <= Size(t) && (Balanced(t) ==> Balanced(Sub(t, py)))
    ensures Sub(t, py + w) == Sub(Child(Sub(t, py), w[0]), w[1..])
  {
    SubSize(t, py);
    SubConcat(t, py, w);
    hide Size, Balanced;
  }

  lemma {:induction false} ShortRun(n: nat, size: nat)
    requires size < TAVL_LIMIT && size + 2 >= Fib(n + 3) + Fib(n + 1)
    ensures n < TAVL_MAX_HEIGHT
  {
    hide Fib;
    LimitValue(TAVL_MAX_HEIGHT);
    if n >= TAVL_MAX_HEIGHT {
      FibGrows(TAVL_MAX_HEIGHT + 3, n + 3);
      FibGrows(TAVL_MAX_HEIGHT + 1, n + 1);
    }
  }

  // ---- Enough items: a table whose cache runs out ----

  /** The sparsest balanced tree of a height, its keys and identifiers from `k` on. */
  ghost function Sparse(h: nat, k: nat): Tree {
    if h == 0 then Nil
    else if h == 1 then N(k, Nil, Item(k, 0), 0, Nil)
    else
      var l := Sparse(h - 1, k);
      N(k + Size(l), l, Item(k + Size(l), 0), -1, Sparse(h - 2, k + Size(l) + 1))
  }

  /** The sparsest with only even nodes down its left edge. */
  ghost function LeftRun(h: nat): Tree {
    if h == 0 then Nil
    else
      var l := LeftRun(h - 1);
      N(Size(l), l, Item(Size(l), 0), 0, Sparse(h - 1, Size(l) + 1))
  }

  /** The keys and the identifiers of the tree are those from `k` on. */
  ghost predicate Numbered(t: Tree, k: nat) {
    && (forall j :: j in Keys(t) <==> k <= j < k + Size(t))
    && (forall i :: i in Ids(t) <==> k <= i < k + Size(t))
  }

  lemma {:induction false} Joined(l: Tree, r: Tree, b: int, k: nat)
    requires Orderly(l) && Orderly(r) && Numbered(l, k) && Numbered(r, k + Size(l) + 1)
    requires b == Height(r) - Height(l) && -1 <= b <= 1
    ensures var t := N(k + Size(l), l, Item(k + Size(l), 0), b, r);
            Orderly(t) && Numbered(t, k) && Size(t) == Size(l) + 1 + Size(r) && Height(t) == 1 + Max(Height(l), Height(r))
  {
  }

  lemma {:induction false} SparseIs(h: nat, k: nat)
    ensures Orderly(Sparse(h, k)) && Height(Sparse(h, k)) == h && Size(Sparse(h, k)) + 1 == Fib(h + 2)
    ensures Numbered(Sparse(h, k), k)
    decreases h
  {
    hide *;
    if h < 2 {
      SparseSmall(h, k);
    } else {
      var l := Sparse(h - 1, k);
      SparseIs(h - 1, k);
      SparseIs(h - 2, k + Size(l) + 1);
      FibStep(h);
      SparseTall(h, k);
      Joined(l, Sparse(h - 2, k + Size(l) + 1), -1, k);
    }
  }

  lemma {:induction false} SparseSmall(h: nat, k: nat)
    requires h < 2
    ensures Orderly(Sparse(h, k)) && Height(Sparse(h, k)) == h && Size(Sparse(h, k)) + 1 == Fib(h + 2)
    ensures Numbered(Sparse(h, k), k)
  {
    FibStep(0);
    FibStep(1);
    if h == 0 {
      assert Sparse(0, k) == Nil;
    } else {
      assert Sparse(1, k) == N(k, Nil, Item(k, 0), 0, Nil);
    }
  }

  lemma {:induction false} SparseTall(h: nat, k: nat)
    requires h >= 2
    ensures var l := Sparse(h - 1, k);
            Sparse(h, k) == N(k + Size(l), l, Item(k + Size(l), 0), -1, Sparse(h - 2, k + Size(l) + 1))
    ensures Max(h - 1, h - 2) == h - 1 && Max(h, h - 1) == h && Max(h - 1, h - 1) == h - 1
  {
  }

  lemma {:induction false} LeftRunIs(h: nat)
    ensures Orderly(LeftRun(h)) && Height(LeftRun(h)) == h && Numbered(LeftRun(h), 0)
    ensures Size(LeftRun(h)) + 2 == if h == 0 then 2 else Fib(h + 3)
    decreases h
  {
    hide *;
    LeftRunSmall();
    if h >= 1 {
      var l := LeftRun(h - 1);
      LeftRunIs(h - 1);
      SparseIs(h - 1, Size(l) + 1);
      FibStep(h + 1);
      LeftRunTall(h);
      Joined(l, Sparse(h - 1, Size(l) + 1), 0, 0);
    }
  }

  lemma {:induction false} LeftRunSmall()
    ensures Orderly(LeftRun(0)) && Height(LeftRun(0)) == 0 && Numbered(LeftRun(0), 0) && Size(LeftRun(0)) == 0
    ensures Fib(4) == 3 && Fib(2) == 1 && Fib(3) == 2
  {
  }

  lemma {:induction false} LeftRunTall(h: nat)
    requires h >= 1
    ensures var l := LeftRun(h - 1);
            LeftRun(h) == N(0 + Size(l), l, Item(0 + Size(l), 0), 0, Sparse(h - 1, Size(l) + 1))
    ensures Max(h - 1, h - 1) == h - 1
  {
  }

  /** `c` hangs from the left edge of the tree. */
  ghost predicate OnLeft(t: Tree, c: Tree) {
    t.N? && (t.left == c || OnLeft(t.left, c))
  }

  /** An insertion on the right end leaves it there. */
  lemma {:induction false} AppendLeft(t: Tree, x: Item, id: nat, c: Tree)
    requires OnLeft(t, c) && AllLess(t, x.key) && Balanced(t)
    ensures OnLeft(Insert(t, x, id), c)
    decreases t
  {
    assert t.item.key in Keys(t);
    if !EvenPath(Toward(t, x.key), x.key) {
      return;
    }
    var g := Grow(t, x, id);
    assert g.N? && g.left == t.left;
    FixLeftEdge(g, c);
  }

  lemma {:induction false} FixLeftEdge(g: Tree, c: Tree)
    requires OnLeft(g, c) && g.balance != -2
    ensures OnLeft(Fix(g), c)
  {
  }

  /** With a run of 32 on its left edge, below another node, the cache runs out on the way to
      the least of all keys. */
  lemma {:induction false} RunPeak(h: nat, k: nat)
    ensures Peak(LeftRun(h), -1, k) >= k + h
    decreases h
  {
    if h > 0 {
      RunPeak(h - 1, k + 1);
    }
  }

  lemma {:induction false} EdgePeak(t: Tree, h: nat, k: nat)
    requires OnLeft(t, LeftRun(h)) && AllMore(t, -1)
    ensures Peak(t, -1, k) > h
    decreases t
  {
    hide LeftRun;
    assert t.item.key in Keys(t);
    assert AllMore(t.left, -1);
    var n := (if t.balance != 0 then 0 else k) + 1;
    if t.left == LeftRun(h) {
      RunPeak(h, n);
    } else {
      EdgePeak(t.left, h, n);
    }
  }

  /** There is such a tree of every size from the limit on. */
  lemma {:induction false} LongRun(n: nat, h: nat) returns (t: Tree)
    requires n >= TAVL_LIMIT && h == TAVL_MAX_HEIGHT
    ensures Orderly(t) && Size(t) == n && Numbered(t, 0) && OnLeft(t, LeftRun(h))
    decreases n
  {
    hide LeftRun, Insert;
    if n == TAVL_LIMIT {
      t := LeastRun(h);
    } else {
      var u := LongRun(n - 1, h);
      t := OneMore(u, h);
    }
  }

  lemma {:induction false} OneMore(u: Tree, h: nat) returns (t: Tree)
    requires Orderly(u) && Numbered(u, 0) && OnLeft(u, LeftRun(h))
    ensures Orderly(t) && Size(t) == Size(u) + 1 && Numbered(t, 0) && OnLeft(t, LeftRun(h))
  {
    var n := Size(u);
    hide LeftRun, Insert, Size, Balanced, Sorted, NoShare, Keys, Ids, Items, OnLeft;
    t := Insert(u, Item(n, 0), n);
    InsertSorted(u, Item(n, 0), n);
    InsertBalanced(u, Item(n, 0), n);
    InsertContents(u, Item(n, 0), n);
    AppendLeft(u, Item(n, 0), n, LeftRun(h));
  }

  /** The smallest: the run below a node whose other side is as sparse as it can be. */
  lemma {:induction false} LeastRun(h: nat) returns (t: Tree)
    requires h == TAVL_MAX_HEIGHT
    ensures Orderly(t) && Size(t) == TAVL_LIMIT && Numbered(t, 0) && OnLeft(t, LeftRun(h))
  {
    hide LeftRun, Sparse, Fib, Orderly, Numbered, Size, Height;
    var l := LeftRun(h);
    var r := Sparse(h - 1, Size(l) + 1);
    LeftRunIs(h);
    SparseIs(h - 1, Size(l) + 1);
    LimitValue(h);
    Joined(l, r, -1, 0);
    t := N(0 + Size(l), l, Item(0 + Size(l), 0), -1, r);
  }

  /** The cache is large enough for all tables with `n` items if and only if `n` is below the limit. */
  lemma {:induction false} CacheExact(n: nat)
    ensures (forall t: Tree, key: int :: Orderly(t) && Size(t) == n ==> Fits(t, key)) <==> n < TAVL_LIMIT
  {
    if n < TAVL_LIMIT {
      forall t: Tree, key: int | Orderly(t) && Size(t) == n
        ensures Fits(t, key)
      {
        TableFits(t, key);
      }
    } else {
      var t := Overfull(n);
    }
  }

  lemma {:induction false} Overfull(n: nat) returns (t: Tree)
    requires n >= TAVL_LIMIT
    ensures Orderly(t) && Size(t) == n && !Fits(t, -1)
  {
    hide LeftRun, Orderly, OnLeft, Size, Peak;
    var h := TAVL_MAX_HEIGHT;
    t := LongRun(n, h);
    EdgePeak(t, h, 0);
  }

  lemma {:induction false} TableFits(t: Tree, key: int)
    requires Balanced(t) && Size(t) < TAVL_LIMIT
    ensures Fits(t, key)
  {
    hide Balanced, Size, Peak, EvenAlong;
    PeakFits(t, t, [], [], key);
  }

  /** From the end of `py` and `w` on: what has been cached is `w`. */
  lemma {:induction false} PeakFits(t: Tree, s: Tree, py: seq<bool>, w: seq<bool>, key: int)
    requires Balanced(t) && Size(t) < TAVL_LIMIT && s == Sub(t, py + w) && |w| <= TAVL_MAX_HEIGHT
    requires w == [] ==> py == []
    requires w != [] ==> Sub(t, py).N? && EvenAlong(Child(Sub(t, py), w[0]), w[1..])
    ensures Peak(s, key, |w|) <= TAVL_MAX_HEIGHT
    decreases s
  {
    if s.N? && s.item.key != key {
      var d := key > s.item.key;
      SubSnoc(t, py + w, d);
      if s.balance != 0 {
        assert (py + w) + [d] == py + (w + [d]);
        assert [d][1..] == [];
        PeakFits(t, Child(s, d), py + w, [d], key);
      } else {
        RunGoesOn(t, s, py, w, d);
        PeakFits(t, Child(s, d), py, w + [d], key);
      }
    }
  }

  lemma {:induction false} RunGoesOn(t: Tree, s: Tree, py: seq<bool>, w: seq<bool>, d: bool)
    requires Balanced(t) && Size(t) < TAVL_LIMIT && s == Sub(t, py + w) && s.N? && s.balance == 0
    requires w == [] ==> py == []
    requires w != [] ==> Sub(t, py).N? && EvenAlong(Child(Sub(t, py), w[0]), w[1..])
    ensures |w| < TAVL_MAX_HEIGHT && py + (w + [d]) == (py + w) + [d]
    ensures Sub(t, py).N? && EvenAlong(Child(Sub(t, py), (w + [d])[0]), (w + [d])[1..])
  {
    assert py + (w + [d]) == (py + w) + [d];
    if w == [] {
      assert py + w == py && (w + [d])[1..] == [];
    } else {
      CacheSuffices(t, py, w);
      SubConcat(t, py, w);
      assert (w + [d])[1..] == w[1..] + [d];
      EvenSnoc(Child(Sub(t, py), w[0]), w[1..], d);
    }
  }
}
