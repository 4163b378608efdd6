/** The index of rules by the symbols on their right-hand sides: pairs of a symbol and a rule are
    put into an AVL tree, read back in order, and laid out one symbol after another. */
module RulePairs {
  import opened Options
  import Externals
  import opened RhsClosures
  import opened AvlTrees
  import opened AvlLookups
  import opened AvlTables
  import opened AvlTraversers
  import opened AvlSessions

  /** How many pairs the first `r` rules give, repeats counted. */
  function PairCount(x: Externals.External, r: nat): nat
    requires r <= |x.xrls|
  {
    if r == 0 then 0 else PairCount(x, r - 1) + |Mentions(x.xrls[r - 1])|
  }

  /** The pairs can be counted in a machine word. */
  predicate PairsFit(x: Externals.External) {
    PairCount(x, |x.xrls|) < SIZE_LIMIT
  }

  /** A pair as an item: symbols come first in the order, then rules. */
  function PairItem(n: nat, s: nat, r: nat): Item {
    Item(s * n + r, r)
  }

  lemma {:induction false} NextMultiple(a: nat, b: nat, n: nat)
    ensures a < b ==> (a + 1) * n <= b * n
  {
    if a < b {
      assert b * n == (a + 1) * n + (b - a - 1) * n;
    }
  }

  lemma {:induction false} PairOrder(n: nat, s: nat, r: nat, s': nat, r': nat)
    requires r < n && r' < n
    ensures PairItem(n, s, r).key < PairItem(n, s', r').key <==> s < s' || (s == s' && r < r')
  {
    NextMultiple(s, s', n);
    NextMultiple(s', s, n);
  }

  lemma {:induction false} PairSymbol(n: nat, s: nat, r: nat)
    requires r < n
    ensures PairItem(n, s, r).key / n == s
  {
    var q := (s * n + r) / n;
    assert q * n <= s * n + r < (q + 1) * n;
    NextMultiple(q, s, n);
    NextMultiple(s, q, n);
  }

  /** A pair of the rules before `r`, or of the first `j` symbols that rule `r` mentions. */
  ghost predicate IsPair(x: Externals.External, r: nat, j: nat, s: nat, q: nat) {
    && q < |x.xrls| && s in Mentions(x.xrls[q])
    && (q < r || (q == r && j <= |Mentions(x.xrls[q])| && s in Mentions(x.xrls[q])[..j]))
  }

  ghost predicate IsPairItem(x: Externals.External, r: nat, j: nat, i: Item) {
    exists s: nat, q: nat :: IsPair(x, r, j, s, q) && i == PairItem(|x.xrls|, s, q)
  }

  /** The items are these pairs. */
  ghost predicate Collected(x: Externals.External, r: nat, j: nat, items: set<Item>) {
    forall i: Item :: i in items <==> IsPairItem(x, r, j, i)
  }

  /** All pairs of a symbol and a rule that mentions it, in order and without repeats. */
  method SortedPairs(x: Externals.External) returns (pairs: seq<(nat, nat)>)
    requires SymbolsExist(x) && PairsFit(x)
    ensures PairsAre(x, pairs)
  {
    hide Mentions, SymbolsExist, Collected;
    var table := new AvlTable();
    NothingCollected(x);
    for r := 0 to |x.xrls|
      invariant table.Valid() && table.count <= PairCount(x, r) && PairCount(x, r) <= PairCount(x, |x.xrls|)
      invariant Collected(x, r, 0, Items(table.tree))
    {
      CountsGrow(x, r + 1);
      var mentions := Mentions(x.xrls[r]);
      for j := 0 to |mentions|
        invariant table.Valid() && table.count <= PairCount(x, r) + j
        invariant Collected(x, r, j, Items(table.tree))
      {
        ghost var before := table.tree;
        var slot := table.Probe(PairItem(|x.xrls|, mentions[j], r));
        PairPut(x, r, j, before, table.tree, slot);
      }
      RuleCollected(x, r, Items(table.tree));
    }
    pairs := InOrder(x, table);
  }

  lemma {:induction false} CountsGrow(x: Externals.External, r: nat)
    requires r <= |x.xrls|
    ensures PairCount(x, r) <= PairCount(x, |x.xrls|)
    decreases |x.xrls| - r
  {
    if r < |x.xrls| {
      CountsGrow(x, r + 1);
    }
  }

  lemma {:induction false} NothingCollected(x: Externals.External)
    ensures Collected(x, 0, 0, Items(Nil))
  {
  }

  /** The pair is there afterwards, whether it had been before or not. */
  lemma {:induction false} PairPut(x: Externals.External, r: nat, j: nat, t: Tree, t': Tree, slot: nat)
    requires r < |x.xrls| && j < |Mentions(x.xrls[r])| && Collected(x, r, j, Items(t))
    requires var i := PairItem(|x.xrls|, Mentions(x.xrls[r])[j], r);
             if i.key in Keys(t) then t' == t else t' == Insert(t, i, slot)
    ensures Collected(x, r, j + 1, Items(t'))
  {
    var s := Mentions(x.xrls[r])[j];
    var i := PairItem(|x.xrls|, s, r);
    hide Mentions, Keys, Items, Insert, PairItem, Collected;
    if i.key in Keys(t) {
      KeysAreItems(t);
      AlreadyPut(x, r, j, Items(t), s);
      assert Items(t') == Items(t) + {i};
    } else {
      InsertContents(t, i, slot);
    }
    OnePair(x, r, j, Items(t));
  }

  /** An item with the pair's key is the pair's. */
  lemma {:induction false} AlreadyPut(x: Externals.External, r: nat, j: nat, items: set<Item>, s: nat)
    requires Collected(x, r, j, items) && r < |x.xrls| && HasKey(items, PairItem(|x.xrls|, s, r).key)
    ensures PairItem(|x.xrls|, s, r) in items
  {
    hide Mentions;
    var k :| k in items && k.key == PairItem(|x.xrls|, s, r).key;
    assert IsPairItem(x, r, j, k);
    var s': nat, q: nat :| IsPair(x, r, j, s', q) && k == PairItem(|x.xrls|, s', q);
    PairOrder(|x.xrls|, s', q, s, r);
    PairOrder(|x.xrls|, s, r, s', q);
  }

  lemma {:induction false} OnePair(x: Externals.External, r: nat, j: nat, items: set<Item>)
    requires Collected(x, r, j, items) && r < |x.xrls| && j < |Mentions(x.xrls[r])|
    ensures Collected(x, r, j + 1, items + {PairItem(|x.xrls|, Mentions(x.xrls[r])[j], r)})
  {
    var mentions := Mentions(x.xrls[r]);
    hide Mentions, PairItem;
    assert mentions[..j + 1] == mentions[..j] + [mentions[j]];
    forall k: Item
      ensures IsPairItem(x, r, j + 1, k) <==> IsPairItem(x, r, j, k) || k == PairItem(|x.xrls|, mentions[j], r)
    {
      assert mentions[j] in mentions && IsPair(x, r, j + 1, mentions[j], r);
      if IsPairItem(x, r, j, k) {
        var s: nat, q: nat :| IsPair(x, r, j, s, q) && k == PairItem(|x.xrls|, s, q);
        assert IsPair(x, r, j + 1, s, q);
      }
      if s: nat, q: nat :| IsPair(x, r, j + 1, s, q) && k == PairItem(|x.xrls|, s, q) {
        assert IsPair(x, r, j, s, q) || (q == r && s == mentions[j]);
      }
    }
    hide IsPairItem;
  }

  lemma {:induction false} RuleCollected(x: Externals.External, r: nat, items: set<Item>)
    requires r < |x.xrls| && Collected(x, r, |Mentions(x.xrls[r])|, items)
    ensures Collected(x, r + 1, 0, items)
  {
    var n := |Mentions(x.xrls[r])|;
    assert Mentions(x.xrls[r])[..n] == Mentions(x.xrls[r]);
    hide Mentions, PairItem;
    forall i: Item
      ensures IsPairItem(x, r, n, i) <==> IsPairItem(x, r + 1, 0, i)
    {
      assert forall s: nat, q: nat :: IsPair(x, r, n, s, q) <==> IsPair(x, r + 1, 0, s, q);
    }
  }

  // ---- Read back in order ----

  ghost predicate Read(n: nat, pairs: seq<(nat, nat)>, i: Item) {
    exists k :: 0 <= k < |pairs| && i == PairItem(n, pairs[k].0, pairs[k].1)
  }

  /** The pairs so far are those of the items before the one that comes next. */
  ghost predicate ReadSo(n: nat, items: set<Item>, pairs: seq<(nat, nat)>, next: Option<Item>) {
    && Ascending(pairs)
    && (forall k :: 0 <= k < |pairs| ==> pairs[k].1 < n && PairItem(n, pairs[k].0, pairs[k].1) in items)
    && (next.Some? ==> next.value in items)
    && forall i :: i in items ==> (Read(n, pairs, i) <==> (next.Some? ==> i.key < next.value.key))
  }

  /** Every item is a pair's. */
  ghost predicate AllPairs(n: nat, items: set<Item>) {
    forall i :: i in items ==> exists s: nat, r: nat :: r < n && i == PairItem(n, s, r)
  }

  ghost function Unread(n: nat, items: set<Item>, pairs: seq<(nat, nat)>): set<Item> {
    set i | i in items && !Read(n, pairs, i)
  }

  /** The pairs of a table, by a traverser from its first item to its last. */
  method InOrder(x: Externals.External, table: AvlTable) returns (pairs: seq<(nat, nat)>)
    requires table.Valid() && Collected(x, |x.xrls|, 0, Items(table.tree))
    ensures PairsAre(x, pairs)
  {
    var n := |x.xrls|;
    ghost var items := Items(table.tree);
    CollectedPairs(x, items);
    table.ValidIs();
    TableFacts(table.nodes, table.root, table.count, table.tree);
    var trav := new AvlTraverser(table);
    FollowingIsNext(table.nodes, table.tree, trav.node);
    hide *;
    var next := trav.Next();
    pairs := [];
    while next.Some?
      invariant trav.Valid() && trav.table == table && Items(table.tree) == items && ReadSo(n, items, pairs, next)
      invariant next.Some? ==> 0 <= trav.node < |table.nodes| && table.nodes[trav.node].item == next.value
      decreases Unread(n, items, pairs)
    {
      ghost var before, pairs0 := next, pairs;
      NextIsPair(n, items, pairs, next);
      pairs := pairs + [(next.value.key / n, next.value.value)];
      FollowingIsNext(table.nodes, table.tree, trav.node);
      next := trav.Next();
      ReadOne(n, items, pairs0, before, next);
    }
    PairsRead(x, items, pairs);
  }

  lemma {:induction false} CollectedPairs(x: Externals.External, items: set<Item>)
    requires Collected(x, |x.xrls|, 0, items)
    ensures AllPairs(|x.xrls|, items)
  {
    hide Mentions, PairItem;
    forall i | i in items
      ensures exists s: nat, r: nat :: r < |x.xrls| && i == PairItem(|x.xrls|, s, r)
    {
      assert IsPairItem(x, |x.xrls|, 0, i);
    }
  }

  lemma {:induction false} NextIsPair(n: nat, items: set<Item>, pairs: seq<(nat, nat)>, next: Option<Item>)
    requires ReadSo(n, items, pairs, next) && AllPairs(n, items) && next.Some?
    ensures n > 0 && next.value.key >= 0 && 0 <= next.value.key / n && 0 <= next.value.value < n
    ensures next.value == PairItem(n, next.value.key / n, next.value.value)
  {
    var s: nat, r: nat :| r < n && next.value == PairItem(n, s, r);
    PairSymbol(n, s, r);
  }

  /** One more item read: its pair comes after all the others. */
  lemma {:induction false} ReadOne(n: nat, items: set<Item>, pairs: seq<(nat, nat)>, next: Option<Item>, next': Option<Item>)
    requires ReadSo(n, items, pairs, next) && AllPairs(n, items) && next.Some? && IsNext(items, next, next')
    requires n > 0 && next.value.key >= 0 && next.value.value >= 0
    ensures ReadSo(n, items, pairs + [(next.value.key / n, next.value.value)], next')
    ensures Unread(n, items, pairs + [(next.value.key / n, next.value.value)]) < Unread(n, items, pairs)
  {
    NextIsPair(n, items, pairs, next);
    var s, r := next.value.key / n, next.value.value;
    var more := pairs + [(s, r)];
    PairsAscend(n, items, pairs, next, s, r);
    forall i
      ensures Read(n, more, i) <==> Read(n, pairs, i) || i == next.value
    {
      ReadMore(n, pairs, s, r, i);
    }
    SameKeys(n, items);
    hide PairItem, AllPairs, Read, Ascending;
    assert next.value in Unread(n, items, pairs) - Unread(n, items, more);
  }

  lemma {:induction false} PairsAscend(n: nat, items: set<Item>, pairs: seq<(nat, nat)>, next: Option<Item>, s: nat, r: nat)
    requires ReadSo(n, items, pairs, next) && next == Some(PairItem(n, s, r)) && r < n
    ensures Ascending(pairs + [(s, r)])
  {
    hide PairItem;
    forall k | 0 <= k < |pairs|
      ensures pairs[k].0 < s || (pairs[k].0 == s && pairs[k].1 < r)
    {
      assert Read(n, pairs, PairItem(n, pairs[k].0, pairs[k].1));
      PairOrder(n, pairs[k].0, pairs[k].1, s, r);
    }
  }

  lemma {:induction false} ReadMore(n: nat, pairs: seq<(nat, nat)>, s: nat, r: nat, i: Item)
    ensures Read(n, pairs + [(s, r)], i) <==> Read(n, pairs, i) || i == PairItem(n, s, r)
  {
    hide PairItem;
    var more := pairs + [(s, r)];
    assert more[|pairs|] == (s, r);
    if Read(n, pairs, i) {
      var k :| 0 <= k < |pairs| && i == PairItem(n, pairs[k].0, pairs[k].1);
      assert more[k] == pairs[k];
    }
  }

  /** Items with the same key are the same. */
  lemma {:induction false} SameKeys(n: nat, items: set<Item>)
    requires AllPairs(n, items)
    ensures forall a, b :: a in items && b in items && a.key == b.key ==> a == b
  {
    forall a, b | a in items && b in items && a.key == b.key
      ensures a == b
    {
      var s: nat, r: nat :| r < n && a == PairItem(n, s, r);
      var s': nat, r': nat :| r' < n && b == PairItem(n, s', r');
      PairOrder(n, s, r, s', r');
      PairOrder(n, s', r', s, r);
    }
  }

  lemma {:induction false} PairsRead(x: Externals.External, items: set<Item>, pairs: seq<(nat, nat)>)
    requires ReadSo(|x.xrls|, items, pairs, None) && Collected(x, |x.xrls|, 0, items)
    ensures PairsAre(x, pairs)
  {
    var n := |x.xrls|;
    hide Mentions, Ascending, PairItem;
    forall s: nat, r: nat
      ensures (s, r) in pairs <==> r < n && s in Mentions(x.xrls[r])
    {
      if (s, r) in pairs {
        var k :| 0 <= k < |pairs| && pairs[k] == (s, r);
        var s': nat, q: nat :| IsPair(x, n, 0, s', q) && PairItem(n, s, r) == PairItem(n, s', q);
        SamePair(n, s, r, s', q);
      }
      if r < n && s in Mentions(x.xrls[r]) {
        assert IsPair(x, n, 0, s, r);
        assert PairItem(n, s, r) in items;
        assert Read(n, pairs, PairItem(n, s, r));
        var k :| 0 <= k < |pairs| && PairItem(n, s, r) == PairItem(n, pairs[k].0, pairs[k].1);
        SamePair(n, s, r, pairs[k].0, pairs[k].1);
      }
    }
  }

  lemma {:induction false} SamePair(n: nat, s: nat, r: nat, s': nat, r': nat)
    requires PairItem(n, s, r) == PairItem(n, s', r') && r < n && r' < n
    ensures s == s' && r == r'
  {
    PairSymbol(n, s, r);
    PairSymbol(n, s', r');
  }
}
