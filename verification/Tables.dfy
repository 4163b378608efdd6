/** The tables that the recognizer runs on: rules by left-hand side, dotted rules, the rules
    that each symbol predicts, and right recursion. */
module Tables {
  import opened Grammars
  import opened EventLists
  import opened BitVectors
  import opened Closures

  /** The sorted list of the set bits. */
  method ListBits(bv: BitVector) returns (list: seq<nat>)
    requires bv.Valid()
    modifies bv.words
    ensures bv.Elements() == old(bv.Elements()) && Listing(list, bv.Elements())
  {
    hide In, Listing;
    ghost var all := bv.Elements();
    list := [];
    var start: nat := 0;
    var found, min, max := bv.Scan(start);
    assert bv.Elements() == all;
    while found
      invariant bv.Elements() == all && ListedBelow(list, all, start)
      invariant found ==> start <= min <= max < bv.bits
      invariant found ==> forall i: nat :: start <= i < min ==> i !in all
      invariant found ==> (forall i: nat :: min <= i <= max ==> i in all) && max + 1 !in all
      invariant !found ==> forall i: nat :: start <= i ==> i !in all
      decreases found, bv.bits + 2 - start
    {
      for e := min to max + 1
        invariant ListedBelow(list, all, e) && bv.Elements() == all
      {
        NextListed(list, all, e);
        list := list + [e];
      }
      start := max + 2;
      found, min, max := bv.Scan(start);
      assert bv.Elements() == all;
    }
    AllListed(list, all, start);
  }

  /** The bits below `n` are listed. */
  ghost predicate ListedBelow(list: seq<nat>, bits: set<nat>, n: nat) {
    && (forall i, j :: 0 <= i < j < |list| ==> list[i] < list[j])
    && (forall e: nat :: e in list <==> e in bits && e < n)
  }

  lemma {:induction false} NextListed(list: seq<nat>, bits: set<nat>, e: nat)
    requires ListedBelow(list, bits, e) && e in bits
    ensures ListedBelow(list + [e], bits, e + 1)
  {
    var more := list + [e];
    assert more[|list|] == e;
    assert forall i :: 0 <= i < |list| ==> more[i] == list[i] && list[i] in list;
    assert forall d :: d in more <==> d in list || d == e;
  }

  lemma {:induction false} AllListed(list: seq<nat>, bits: set<nat>, n: nat)
    requires ListedBelow(list, bits, n) && forall i: nat :: n <= i ==> i !in bits
    ensures Listing(list, bits)
  {
  }

  // ---- Rules by left-hand side ----

  /** The rules that symbol `s` is the left-hand side of. */
  ghost function RulesOf(irls: seq<Irl>, s: nat): set<nat> {
    set r: nat | r < |irls| && irls[r].lhs == s
  }

  method LhsLists(nsyCount: nat, irls: seq<Irl>) returns (lists: seq<seq<nat>>)
    requires forall r :: 0 <= r < |irls| ==> irls[r].lhs < nsyCount
    ensures |lists| == nsyCount && forall s: nat :: s < nsyCount ==> Listing(lists[s], RulesOf(irls, s))
  {
    hide In, Listing;
    var matrix := new Matrix(nsyCount, |irls|);
    for r := 0 to |irls|
      invariant matrix.Tidy()
      invariant forall s: nat, q: nat :: (s, q) in matrix.Pairs() <==> q < r && irls[q].lhs == s
    {
      matrix.Set(irls[r].lhs, r);
    }
    ghost var pairs := matrix.Pairs();
    lists := [];
    for s := 0 to nsyCount
      invariant |lists| == s && matrix.Pairs() == pairs
      invariant forall t: nat :: t < s ==> Listing(lists[t], RulesOf(irls, t))
    {
      var list := ListRow(matrix, s);
      assert (set q: nat | q < |irls| && (s, q) in pairs) == RulesOf(irls, s);
      lists := lists + [list];
    }
  }

  /** The columns set in a row, in order. */
  method ListRow(matrix: Matrix, i: nat) returns (list: seq<nat>)
    requires matrix.Valid() && i < matrix.size
    modifies matrix.Footprint()
    ensures matrix.Pairs() == old(matrix.Pairs())
    ensures Listing(list, set j: nat | j < matrix.columns && (i, j) in matrix.Pairs())
  {
    hide In, Listing;
    ghost var pairs := matrix.Pairs();
    matrix.RowPairs(i);
    assert forall a: nat, b: nat :: a < matrix.size && b < matrix.columns ==> (matrix.rows[a].Has(b) <==> (a, b) in pairs);
    list := ListBits(matrix.rows[i]);
    assert forall b: nat :: matrix.rows[i].Has(b) <==> b in matrix.rows[i].Elements();
    forall a: nat, b: nat | a < matrix.size && b < matrix.columns
      ensures matrix.rows[a].Has(b) <==> (a, b) in pairs
    {
      if a != i {
        assert matrix.rows[a].words != matrix.rows[i].words;
      }
    }
    assert matrix.Pairs() == pairs;
    assert matrix.rows[i].Elements() == set j: nat | j < matrix.columns && (i, j) in pairs;
  }

  // ---- Dotted rules ----

  /** The dotted rule with identifier `a` is where its rule's dotted rules begin, plus its
      dot position, and has the symbol after the dot. */
  ghost predicate AhmAt(nulling: set<nat>, irls: seq<Irl>, h: Ahm, a: nat, bases: seq<nat>, n: nat) {
    && h.irl < n <= |irls| && h.irl < |bases|
    && var p := Proper(nulling, irls[h.irl].rhs);
    && h.quasi <= |p| && bases[h.irl] + h.quasi == a
    && h.postdot == (if h.quasi < |p| then p[h.quasi] else -1)
  }

  /** The dotted rules of the first `n` rules. */
  ghost predicate AhmsUpto(nulling: set<nat>, irls: seq<Irl>, ahms: seq<Ahm>, bases: seq<nat>, n: nat) {
    && n <= |irls| && |bases| == n
    && (forall a: nat :: a < |ahms| ==> AhmAt(nulling, irls, ahms[a], a, bases, n))
    && (forall r: nat :: r < n ==> BaseOk(nulling, irls, ahms, bases[r], r))
  }

  ghost predicate BaseOk(nulling: set<nat>, irls: seq<Irl>, ahms: seq<Ahm>, base: nat, r: nat)
    requires r < |irls|
  {
    var end := base + |Proper(nulling, irls[r].rhs)|;
    end < |ahms| && forall a: nat :: base <= a <= end ==> ahms[a].irl == r && ahms[a].quasi == a - base
  }

  /** The dotted rules of one rule so far, dots before proper symbols. */
  ghost predicate PartIs(r: nat, proper: seq<nat>, part: seq<Ahm>) {
    |part| == |proper| && forall q :: 0 <= q < |part| ==> part[q].irl == r && part[q].quasi == q && part[q].postdot == proper[q]
  }

  /** Where the dot is in the right-hand side itself: `position` is the place of the symbol after
      it, and just before that, or before the end, there are exactly `nulls` nulling symbols. */
  ghost predicate PlaceOk(nulling: set<nat>, rhs: seq<nat>, h: Ahm) {
    if h.postdot < 0 then
      h.position == -1 && DotBefore(nulling, rhs, |rhs|, h.quasi, h.nulls)
    else
      && 0 <= h.position < |rhs| && rhs[h.position] == h.postdot && rhs[h.position] !in nulling
      && DotBefore(nulling, rhs, h.position, h.quasi, h.nulls)
  }

  /** Before place `n` there are so many proper symbols, and so many nulling ones after the last of them. */
  ghost predicate DotBefore(nulling: set<nat>, rhs: seq<nat>, n: nat, proper: nat, nulls: nat) {
    && n <= |rhs| && proper == |Proper(nulling, rhs[..n])|
    && nulls <= n && (forall k :: n - nulls <= k < n ==> rhs[k] in nulling)
    && (nulls < n ==> rhs[n - nulls - 1] !in nulling)
  }

  ghost predicate PlacesOk(nulling: set<nat>, irls: seq<Irl>, ahms: seq<Ahm>) {
    forall a: nat :: a < |ahms| ==> ahms[a].irl < |irls| && PlaceOk(nulling, irls[ahms[a].irl].rhs, ahms[a])
  }

  method BuildAhms(nulling: set<nat>, irls: seq<Irl>) returns (ahms: seq<Ahm>, first: seq<nat>)
    ensures AhmsUpto(nulling, irls, ahms, first, |irls|)
    ensures PlacesOk(nulling, irls, ahms)
  {
    hide AhmsUpto, PartIs, Proper, DotBefore;
    ahms := [];
    ghost var bases: seq<nat> := [];
    NoAhms(nulling, irls);
    for r := 0 to |irls|
      invariant AhmsUpto(nulling, irls, ahms, bases, r) && PlacesOk(nulling, irls, ahms)
    {
      var rhs := irls[r].rhs;
      var part: seq<Ahm> := [];
      var leadingNulls := 0;
      NoPart(nulling, r, rhs);
      for ix := 0 to |rhs|
        invariant PartIs(r, Proper(nulling, rhs[..ix]), part)
        invariant DotBefore(nulling, rhs, ix, |part|, leadingNulls)
        invariant forall q :: 0 <= q < |part| ==> part[q].irl == r && PlaceOk(nulling, rhs, part[q])
      {
        ProperSnoc(nulling, rhs, ix);
        DotNext(nulling, rhs, ix, |part|, leadingNulls);
        if rhs[ix] !in nulling {
          PartNext(r, Proper(nulling, rhs[..ix]), part, Ahm(r, |part|, rhs[ix], ix, leadingNulls));
          part := part + [Ahm(r, |part|, rhs[ix], ix, leadingNulls)];
          leadingNulls := 0;
        } else {
          assert Proper(nulling, rhs[..ix]) + [] == Proper(nulling, rhs[..ix]);
          leadingNulls := leadingNulls + 1;
        }
      }
      assert rhs[..|rhs|] == rhs;
      AhmsNext(nulling, irls, ahms, bases, r, part, Ahm(r, |part|, -1, -1, leadingNulls));
      bases := bases + [|ahms|];
      ahms := ahms + part + [Ahm(r, |part|, -1, -1, leadingNulls)];
    }
    first := FirstAhms(nulling, irls, ahms, bases);
  }

  lemma {:induction false} NoAhms(nulling: set<nat>, irls: seq<Irl>)
    ensures AhmsUpto(nulling, irls, [], [], 0)
  {
  }

  lemma {:induction false} NoPart(nulling: set<nat>, r: nat, rhs: seq<nat>)
    ensures PartIs(r, Proper(nulling, rhs[..0]), [])
    ensures DotBefore(nulling, rhs, 0, 0, 0)
  {
  }

  lemma {:induction false} DotNext(nulling: set<nat>, rhs: seq<nat>, n: nat, proper: nat, nulls: nat)
    requires DotBefore(nulling, rhs, n, proper, nulls) && n < |rhs|
    ensures if rhs[n] in nulling then DotBefore(nulling, rhs, n + 1, proper, nulls + 1) else DotBefore(nulling, rhs, n + 1, proper + 1, 0)
  {
    ProperSnoc(nulling, rhs, n);
    hide Proper;
  }

  lemma {:induction false} PartNext(r: nat, proper: seq<nat>, part: seq<Ahm>, h: Ahm)
    requires PartIs(r, proper, part) && h.irl == r && h.quasi == |part| && h.postdot >= 0
    ensures PartIs(r, proper + [h.postdot], part + [h])
  {
  }

  lemma {:induction false} AhmsNext(nulling: set<nat>, irls: seq<Irl>, ahms: seq<Ahm>, bases: seq<nat>, r: nat, part: seq<Ahm>, last: Ahm)
    requires AhmsUpto(nulling, irls, ahms, bases, r) && r < |irls|
    requires PartIs(r, Proper(nulling, irls[r].rhs), part) && last.irl == r && last.quasi == |part| && last.postdot == -1
    ensures AhmsUpto(nulling, irls, ahms + part + [last], bases + [|ahms|], r + 1)
  {
    hide Proper;
    var all, bases' := ahms + part + [last], bases + [|ahms|];
    assert forall a: nat :: a < |ahms| ==> all[a] == ahms[a];
    assert forall q: nat :: q < |part| ==> all[|ahms| + q] == part[q];
    assert all[|ahms| + |part|] == last;
    forall a: nat | a < |all|
      ensures AhmAt(nulling, irls, all[a], a, bases', r + 1)
    {
      if a < |ahms| {
        assert AhmAt(nulling, irls, ahms[a], a, bases, r);
      } else if a < |ahms| + |part| {
        assert all[a] == part[a - |ahms|];
      }
    }
    forall s: nat | s < r + 1
      ensures BaseOk(nulling, irls, all, bases'[s], s)
    {
      if s < r {
        assert BaseOk(nulling, irls, ahms, bases[s], s);
      }
    }
  }

  /** The first dotted rule of each rule, found from the last dotted rule to the first. */
  method FirstAhms(nulling: set<nat>, irls: seq<Irl>, ahms: seq<Ahm>, ghost bases: seq<nat>) returns (first: seq<nat>)
    requires AhmsUpto(nulling, irls, ahms, bases, |irls|)
    ensures first == bases
  {
    hide Proper;
    first := seq(|irls|, _ => 0);
    forall r: nat | r < |irls|
      ensures bases[r] < |ahms|
    {
      assert BaseOk(nulling, irls, ahms, bases[r], r);
    }
    for id := |ahms| downto 0
      invariant |first| == |irls|
      invariant forall r: nat :: r < |irls| && id <= bases[r] ==> first[r] == bases[r]
    {
      assert AhmAt(nulling, irls, ahms[id], id, bases, |irls|);
      forall r: nat | r < |irls| && id == bases[r]
        ensures ahms[id].irl == r
      {
        assert BaseOk(nulling, irls, ahms, bases[r], r);
      }
      LastFirst(nulling, irls, ahms, bases, id);
      first := first[ahms[id].irl := id];
    }
  }

  /** A dotted rule is not before the first of its rule. */
  lemma {:induction false} LastFirst(nulling: set<nat>, irls: seq<Irl>, ahms: seq<Ahm>, bases: seq<nat>, id: nat)
    requires AhmsUpto(nulling, irls, ahms, bases, |irls|) && id < |ahms|
    ensures ahms[id].irl < |irls| && bases[ahms[id].irl] <= id
  {
    hide Proper;
    assert AhmAt(nulling, irls, ahms[id], id, bases, |irls|);
  }

  // ---- Predictions ----

  /** Left-hand sides lead to themselves and to the first symbols of their rules. */
  ghost predicate LeftStep(g: Grammar, s: nat, t: nat) {
    (s == t && exists r :: 0 <= r < |g.irls| && g.irls[r].lhs == s) || LeftEdge(g, s, t)
  }

  ghost predicate LeftSteps(g: Grammar, e: Relation) {
    forall s: nat, t: nat :: (s, t) in e <==> LeftStep(g, s, t)
  }

  lemma {:induction false} PathLeft(g: Grammar, e: Relation, path: seq<nat>, s: nat, t: nat)
    requires LeftSteps(g, e) && IsPath(e, path, s, t)
    ensures LeftReach(g, s, t)
    decreases |path|
  {
    hide LeftEdge, LeftReach;
    var n := |path| - 1;
    assert (path[n - 1], path[n - 1 + 1]) in e;
    assert LeftStep(g, path[n - 1], t);
    if n == 1 {
      LeftReachRefl(g, s);
    } else {
      assert IsPath(e, path[..n], s, path[n - 1]);
      PathLeft(g, e, path[..n], s, path[n - 1]);
    }
    if LeftEdge(g, path[n - 1], t) {
      LeftReachStep(g, s, path[n - 1], t);
    }
  }

  lemma {:induction false} LeftIsPath(g: Grammar, e: Relation, s: nat, t: nat)
    requires LeftSteps(g, e) && LeftReach(g, s, t) && exists r :: 0 <= r < |g.irls| && g.irls[r].lhs == t
    ensures Reaches(e, s, t)
  {
    hide LeftEdge;
    var path :| LeftPath(g, path, s, t);
    if |path| == 1 {
      assert (s, t) in e;
      assert IsPath(e, [s, t], s, t);
    } else {
      forall k | 0 <= k < |path| - 1
        ensures (path[k], path[k + 1]) in e
      {
        assert LeftEdge(g, path[k], path[k + 1]);
      }
      assert IsPath(e, path, s, t);
    }
  }

  /** The closed relation, followed to rules, is prediction. */
  lemma {:induction false} PathPredicts(g: Grammar, e: Relation, s: nat, r: nat)
    requires LeftSteps(g, e)
    ensures Predicts(g, s, r) <==> r < |g.irls| && Reaches(e, s, g.irls[r].lhs)
  {
    hide LeftSteps, LeftReach, IsPath;
    if r < |g.irls| && Reaches(e, s, g.irls[r].lhs) {
      var path :| IsPath(e, path, s, g.irls[r].lhs);
      PathLeft(g, e, path, s, g.irls[r].lhs);
    }
    if Predicts(g, s, r) {
      LeftIsPath(g, e, s, g.irls[r].lhs);
    }
  }

  /** Symbols are below the symbol count. */
  ghost predicate IrlsExist(g: Grammar) {
    forall r: nat :: r < |g.irls| ==> g.irls[r].lhs < g.nsyCount && forall q :: 0 <= q < |P(g, r)| ==> P(g, r)[q] < g.nsyCount
  }

  /** Which symbols lead to which by left corners, in one step. */
  method LeftMatrix(g: Grammar) returns (matrix: Matrix)
    requires RulesOk(g) && IrlsExist(g)
    ensures matrix.Valid() && matrix.size == matrix.columns == g.nsyCount && fresh(matrix.Footprint())
    ensures matrix.Tidy() && LeftSteps(g, matrix.Pairs())
  {
    hide P, RuleLeft, LeftStep;
    matrix := new Matrix(g.nsyCount, g.nsyCount);
    for r := 0 to |g.irls|
      invariant matrix.Tidy()
      invariant forall s: nat, t: nat :: (s, t) in matrix.Pairs() <==> SelfUpto(g, r, s, t)
    {
      SelfNext(g, r);
      matrix.Set(g.irls[r].lhs, g.irls[r].lhs);
    }
    hide SelfUpto;
    NoneLeft(g);
    for r := 0 to |g.irls|
      invariant matrix.Tidy()
      invariant forall s: nat, t: nat :: (s, t) in matrix.Pairs() <==> SelfUpto(g, |g.irls|, s, t) || LeftUpto(g, r, s, t)
    {
      LeftNext(g, r);
      matrix.Set(g.irls[r].lhs, P(g, r)[0]);
    }
    hide LeftUpto;
    forall s: nat, t: nat
      ensures (s, t) in matrix.Pairs() <==> LeftStep(g, s, t)
    {
      StepIs(g, s, t);
    }
  }

  ghost predicate SelfUpto(g: Grammar, r: nat, s: nat, t: nat) {
    s == t && exists q :: 0 <= q < r && q < |g.irls| && g.irls[q].lhs == s
  }

  ghost predicate LeftUpto(g: Grammar, r: nat, s: nat, t: nat) {
    exists q: nat :: q < r && RuleLeft(g, q, s, t)
  }

  lemma {:induction false} SelfNext(g: Grammar, r: nat)
    requires r < |g.irls|
    ensures forall s: nat, t: nat :: SelfUpto(g, r + 1, s, t) <==> SelfUpto(g, r, s, t) || (s == g.irls[r].lhs && t == g.irls[r].lhs)
  {
    forall s: nat, t: nat
      ensures SelfUpto(g, r + 1, s, t) <==> SelfUpto(g, r, s, t) || (s == g.irls[r].lhs && t == g.irls[r].lhs)
    {
      SelfNextAt(g, r, s, t);
    }
  }

  lemma {:induction false} SelfNextAt(g: Grammar, r: nat, s: nat, t: nat)
    requires r < |g.irls|
    ensures SelfUpto(g, r + 1, s, t) <==> SelfUpto(g, r, s, t) || (s == g.irls[r].lhs && t == g.irls[r].lhs)
  {
    if SelfUpto(g, r, s, t) {
      var q :| 0 <= q < r && q < |g.irls| && g.irls[q].lhs == s;
      assert 0 <= q < r + 1;
    }
    if SelfUpto(g, r + 1, s, t) {
      var q :| 0 <= q < r + 1 && q < |g.irls| && g.irls[q].lhs == s;
      assert q < r || q == r;
    }
    assert g.irls[r].lhs == s && s == t ==> SelfUpto(g, r + 1, s, t);
  }

  lemma {:induction false} NoneLeft(g: Grammar)
    ensures forall s: nat, t: nat :: !LeftUpto(g, 0, s, t)
  {
  }

  lemma {:induction false} LeftNext(g: Grammar, r: nat)
    requires RulesOk(g) && IrlsExist(g) && r < |g.irls|
    ensures |P(g, r)| > 0 && P(g, r)[0] < g.nsyCount && g.irls[r].lhs < g.nsyCount
    ensures forall s: nat, t: nat :: LeftUpto(g, r + 1, s, t) <==> LeftUpto(g, r, s, t) || (s == g.irls[r].lhs && t == P(g, r)[0])
  {
    hide P;
    forall s: nat, t: nat
      ensures LeftUpto(g, r + 1, s, t) <==> LeftUpto(g, r, s, t) || (s == g.irls[r].lhs && t == P(g, r)[0])
    {
      if LeftUpto(g, r + 1, s, t) {
        var q: nat :| q < r + 1 && RuleLeft(g, q, s, t);
        assert q < r || q == r;
      }
      if LeftUpto(g, r, s, t) {
        var q: nat :| q < r && RuleLeft(g, q, s, t);
        assert q < r + 1 && RuleLeft(g, q, s, t);
      }
      assert s == g.irls[r].lhs && t == P(g, r)[0] ==> r < r + 1 && RuleLeft(g, r, s, t);
    }
  }

  lemma {:induction false} StepIs(g: Grammar, s: nat, t: nat)
    ensures LeftStep(g, s, t) <==> SelfUpto(g, |g.irls|, s, t) || LeftUpto(g, |g.irls|, s, t)
  {
    hide P;
  }

  ghost predicate ListsAre(g: Grammar, lists: seq<seq<nat>>) {
    |lists| == g.nsyCount && forall s: nat :: s < g.nsyCount ==> Listing(lists[s], RulesOf(g.irls, s))
  }

  method PredictedRules(g: Grammar, lists: seq<seq<nat>>) returns (rows: seq<seq<nat>>)
    requires RulesOk(g) && IrlsExist(g) && ListsAre(g, lists)
    ensures |rows| == g.nsyCount && forall s: nat, r: nat :: s < g.nsyCount ==> (r in rows[s] <==> Predicts(g, s, r))
  {
    hide P, Reaches, Predicts, LeftStep, Listing, IrlsExist, RulesOk;
    var reach := LeftMatrix(g);
    ghost var e := reach.Pairs();
    reach.TransitiveClosure();
    LhsExist(g);
    var rules := RuleMatrix(g, lists, reach, e);
    rows := [];
    ghost var pairs := rules.Pairs();
    for s := 0 to g.nsyCount
      invariant |rows| == s && rules.Pairs() == pairs
      invariant forall t: nat, r: nat :: t < s ==> (r in rows[t] <==> Predicts(g, t, r))
    {
      var row := ListRow(rules, s);
      forall r: nat
        ensures r in row <==> Predicts(g, s, r)
      {
        PathPredicts(g, e, s, r);
        InListing(row, (set j: nat | j < rules.columns && (s, j) in rules.Pairs()), r);
      }
      rows := rows + [row];
    }
  }

  lemma {:induction false} LhsExist(g: Grammar)
    requires IrlsExist(g)
    ensures forall r :: 0 <= r < |g.irls| ==> g.irls[r].lhs < g.nsyCount
  {
    hide P;
  }

  lemma {:induction false} InListing(list: seq<nat>, bits: set<nat>, e: nat)
    requires Listing(list, bits)
    ensures e in list <==> e in bits
  {
  }

  /** Symbols by the rules of every symbol that they lead to. */
  method RuleMatrix(g: Grammar, lists: seq<seq<nat>>, reach: Matrix, ghost e: Relation) returns (rules: Matrix)
    requires ListsAre(g, lists) && reach.Valid() && reach.size == reach.columns == g.nsyCount
    requires forall s: nat, t: nat :: (s, t) in reach.Pairs() <==> s < g.nsyCount && t < g.nsyCount && Reaches(e, s, t)
    requires forall r :: 0 <= r < |g.irls| ==> g.irls[r].lhs < g.nsyCount
    modifies reach.Footprint()
    ensures rules.Valid() && rules.size == g.nsyCount && rules.columns == |g.irls| && fresh(rules.Footprint())
    ensures forall s: nat, r: nat :: (s, r) in rules.Pairs() <==> s < g.nsyCount && r < |g.irls| && Reaches(e, s, g.irls[r].lhs)
  {
    hide Reaches, ListsAre;
    rules := new Matrix(g.nsyCount, |g.irls|);
    ghost var pairs := reach.Pairs();
    for s := 0 to g.nsyCount
      invariant fresh(rules.Footprint()) && rules.Tidy() && reach.Pairs() == pairs
      invariant forall t: nat, r: nat :: (t, r) in rules.Pairs() <==> t < s && r < |g.irls| && Reaches(e, t, g.irls[r].lhs)
    {
      FillRow(g, lists, reach, rules, s, e);
    }
  }

  method FillRow(g: Grammar, lists: seq<seq<nat>>, reach: Matrix, rules: Matrix, s: nat, ghost e: Relation)
    requires ListsAre(g, lists) && reach.Valid() && reach.size == reach.columns == g.nsyCount && s < g.nsyCount
    requires forall t: nat :: (s, t) in reach.Pairs() <==> t < g.nsyCount && Reaches(e, s, t)
    requires forall r :: 0 <= r < |g.irls| ==> g.irls[r].lhs < g.nsyCount
    requires rules.Valid() && rules.size == g.nsyCount && rules.columns == |g.irls| && rules.Tidy()
    requires rules.Footprint() !! reach.Footprint()
    modifies reach.Footprint(), rules.Footprint()
    ensures reach.Pairs() == old(reach.Pairs()) && rules.Tidy()
    ensures forall t: nat, r: nat :: (t, r) in rules.Pairs() <==>
              (t, r) in old(rules.Pairs()) || (t == s && r < |g.irls| && Reaches(e, s, g.irls[r].lhs))
  {
    hide Reaches, ListsAre;
    var targets := ListReached(reach, s);
    RuleRow(g, lists, rules, s, targets);
  }

  method ListReached(reach: Matrix, s: nat) returns (targets: seq<nat>)
    requires reach.Valid() && s < reach.size
    modifies reach.Footprint()
    ensures reach.Pairs() == old(reach.Pairs())
    ensures forall j: nat :: j in targets <==> (s, j) in reach.Pairs()
    ensures forall k :: 0 <= k < |targets| ==> targets[k] < reach.columns
  {
    hide Listing;
    targets := ListRow(reach, s);
    ghost var bits := set j: nat | j < reach.columns && (s, j) in reach.Pairs();
    forall j: nat
      ensures j in targets <==> j in bits
    {
      InListing(targets, bits, j);
    }
    assert forall k :: 0 <= k < |targets| ==> targets[k] in targets;
  }

  method RuleRow(g: Grammar, lists: seq<seq<nat>>, rules: Matrix, s: nat, targets: seq<nat>)
    requires ListsAre(g, lists) && rules.Valid() && rules.size == g.nsyCount && rules.columns == |g.irls| && rules.Tidy()
    requires s < g.nsyCount && forall k :: 0 <= k < |targets| ==> targets[k] < g.nsyCount
    modifies rules.Footprint()
    ensures rules.Tidy()
    ensures forall t: nat, r: nat :: (t, r) in rules.Pairs() <==> (t, r) in old(rules.Pairs()) || (t == s && r < |g.irls| && g.irls[r].lhs in targets)
  {
    hide ListsAre;
    ghost var before := rules.Pairs();
    for k := 0 to |targets|
      invariant rules.Tidy()
      invariant forall t: nat, r: nat :: (t, r) in rules.Pairs() <==> (t, r) in before || (t == s && r < |g.irls| && g.irls[r].lhs in targets[..k])
    {
      AddRules(g, lists, rules, s, targets[k]);
      assert targets[..k + 1] == targets[..k] + [targets[k]];
    }
    assert targets[..|targets|] == targets;
  }

  method AddRules(g: Grammar, lists: seq<seq<nat>>, rules: Matrix, s: nat, target: nat)
    requires ListsAre(g, lists) && rules.Valid() && rules.size == g.nsyCount && rules.columns == |g.irls| && rules.Tidy()
    requires s < g.nsyCount && target < g.nsyCount
    modifies rules.Footprint()
    ensures rules.Tidy()
    ensures forall t: nat, r: nat :: (t, r) in rules.Pairs() <==> (t, r) in old(rules.Pairs()) || (t == s && r < |g.irls| && g.irls[r].lhs == target)
  {
    hide Listing;
    var list := lists[target];
    ghost var before := rules.Pairs();
    for k := 0 to |list|
      invariant rules.Tidy()
      invariant forall t: nat, r: nat :: (t, r) in rules.Pairs() <==> (t, r) in before || (t == s && r in list[..k])
    {
      assert list[k] in list;
      InListing(list, RulesOf(g.irls, target), list[k]);
      rules.Set(s, list[k]);
      assert list[..k + 1] == list[..k] + [list[k]];
    }
    assert list[..|list|] == list;
    forall r: nat
      ensures r in list <==> r < |g.irls| && g.irls[r].lhs == target
    {
      InListing(list, RulesOf(g.irls, target), r);
    }
  }

  // ---- Right recursion ----

  /** The last symbol of a rule's right-hand side that is not nulling. */
  method LastProper(nulling: set<nat>, rhs: seq<nat>) returns (s: nat)
    requires Proper(nulling, rhs) != []
    ensures s == Proper(nulling, rhs)[|Proper(nulling, rhs)| - 1]
  {
    hide Proper;
    var ix := |rhs|;
    assert rhs[..|rhs|] == rhs;
    LastBack(nulling, rhs, ix);
    while rhs[ix - 1] in nulling
      invariant 0 < ix <= |rhs| && Proper(nulling, rhs[..ix]) == Proper(nulling, rhs)
      decreases ix
    {
      LastBack(nulling, rhs, ix);
      ix := ix - 1;
      LastBack(nulling, rhs, ix);
    }
    LastBack(nulling, rhs, ix);
    s := rhs[ix - 1];
  }

  /** Going back over a nulling symbol loses no proper one. */
  lemma {:induction false} LastBack(nulling: set<nat>, rhs: seq<nat>, ix: nat)
    requires ix <= |rhs| && Proper(nulling, rhs[..ix]) != []
    ensures ix > 0
    ensures rhs[ix - 1] in nulling ==> Proper(nulling, rhs[..ix - 1]) == Proper(nulling, rhs[..ix])
    ensures rhs[ix - 1] !in nulling ==> var p := Proper(nulling, rhs[..ix]); p[|p| - 1] == rhs[ix - 1]
  {
    if ix > 0 {
      ProperSnoc(nulling, rhs, ix - 1);
      assert Proper(nulling, rhs[..ix - 1]) + [] == Proper(nulling, rhs[..ix - 1]);
    }
  }

  ghost predicate RightUpto(g: Grammar, r: nat, s: nat, t: nat) {
    exists q: nat :: q < r && IsRight(g, q, s, t)
  }

  ghost predicate IsRight(g: Grammar, r: nat, s: nat, t: nat) {
    r < |g.irls| && g.irls[r].lhs == s && LastOf(g, r) == t
  }

  ghost predicate RightSteps(g: Grammar, e: Relation) {
    forall s: nat, t: nat :: (s, t) in e <==> RightUpto(g, |g.irls|, s, t)
  }

  /** A rule is right recursive when its last symbol leads back, along last symbols, to its
      left-hand side. */
  ghost predicate RightRecursive(g: Grammar, e: Relation, r: nat) {
    r < |g.irls| && Reaches(e, LastOf(g, r), g.irls[r].lhs)
  }

  method RightRecursions(g: Grammar) returns (flags: seq<bool>, ghost e: Relation)
    requires RulesOk(g) && IrlsExist(g)
    ensures RightSteps(g, e) && |flags| == |g.irls|
    ensures forall r: nat :: r < |g.irls| ==> (flags[r] <==> RightRecursive(g, e, r))
  {
    hide P, Reaches, LastOf, RightUpto, RulesOk, IrlsExist;
    var matrix, lasts := RightMatrix(g);
    e := matrix.Pairs();
    matrix.TransitiveClosure();
    ghost var closed := matrix.Pairs();
    flags := [];
    for r := 0 to |g.irls|
      invariant |flags| == r && matrix.Pairs() == closed
      invariant forall q: nat :: q < r ==> (flags[q] <==> RightRecursive(g, e, q))
    {
      RightNext(g, r);
      matrix.RowPairs(lasts[r]);
      var flag := matrix.rows[lasts[r]].Test(g.irls[r].lhs);
      flags := flags + [flag];
    }
  }

  /** Left-hand sides by the last symbols of their rules. */
  method RightMatrix(g: Grammar) returns (matrix: Matrix, lasts: seq<nat>)
    requires RulesOk(g) && IrlsExist(g)
    ensures matrix.Valid() && matrix.size == matrix.columns == g.nsyCount && fresh(matrix.Footprint()) && matrix.Tidy()
    ensures RightSteps(g, matrix.Pairs())
    ensures |lasts| == |g.irls| && forall q: nat :: q < |g.irls| ==> lasts[q] == LastOf(g, q)
  {
    hide P, Proper, LastOf, RightPairs, RulesOk, IrlsExist;
    matrix := new Matrix(g.nsyCount, g.nsyCount);
    lasts := [];
    NoneRight(g);
    for r := 0 to |g.irls|
      invariant matrix.Tidy() && |lasts| == r && RightPairs(g, r, matrix.Pairs())
      invariant forall q: nat :: q < r ==> lasts[q] == LastOf(g, q)
    {
      RightNext(g, r);
      RightGrows(g, r, matrix.Pairs());
      var last := LastProper(g.nulling, g.irls[r].rhs);
      matrix.Set(g.irls[r].lhs, last);
      lasts := lasts + [last];
    }
    RightDone(g, matrix.Pairs());
  }

  ghost predicate RightPairs(g: Grammar, r: nat, pairs: Relation) {
    forall s: nat, t: nat :: (s, t) in pairs <==> RightUpto(g, r, s, t)
  }

  lemma {:induction false} RightGrows(g: Grammar, r: nat, pairs: Relation)
    requires r < |g.irls| && RightPairs(g, r, pairs)
    ensures RightPairs(g, r + 1, pairs + {(g.irls[r].lhs, LastOf(g, r))})
  {
    hide LastOf;
    forall s: nat, t: nat
      ensures RightUpto(g, r + 1, s, t) <==> RightUpto(g, r, s, t) || (s == g.irls[r].lhs && t == LastOf(g, r))
    {
      if RightUpto(g, r, s, t) {
        var q: nat :| q < r && IsRight(g, q, s, t);
        assert q < r + 1;
      }
      assert IsRight(g, r, s, t) ==> RightUpto(g, r + 1, s, t);
    }
  }

  lemma {:induction false} RightDone(g: Grammar, pairs: Relation)
    requires RightPairs(g, |g.irls|, pairs)
    ensures RightSteps(g, pairs)
  {
    hide RightUpto;
  }

  lemma {:induction false} NoneRight(g: Grammar)
    ensures RightPairs(g, 0, {})
  {
  }

  lemma {:induction false} RightNext(g: Grammar, r: nat)
    requires RulesOk(g) && IrlsExist(g) && r < |g.irls|
    ensures Proper(g.nulling, g.irls[r].rhs) != [] && LastOf(g, r) < g.nsyCount && g.irls[r].lhs < g.nsyCount
    ensures LastOf(g, r) == Proper(g.nulling, g.irls[r].rhs)[|Proper(g.nulling, g.irls[r].rhs)| - 1]
  {
    hide Proper;
  }

  /** The start rule is never right recursive: its symbol ends no rule. */
  lemma {:induction false} StartNotRight(g: Grammar, e: Relation)
    requires RulesOk(g) && StartOk(g) && RightSteps(g, e)
    ensures !RightRecursive(g, e, g.startIrl)
  {
    var start := g.irls[g.startIrl].lhs;
    forall s: nat
      ensures (s, start) !in e
    {
      NoneToStart(g, s);
    }
    hide P, RightSteps, LastOf;
    if RightRecursive(g, e, g.startIrl) {
      var path :| IsPath(e, path, LastOf(g, g.startIrl), start);
      PathEnds(e, path, LastOf(g, g.startIrl), start);
    }
  }

  lemma {:induction false} PathEnds(e: Relation, path: seq<nat>, s: nat, t: nat)
    requires IsPath(e, path, s, t)
    ensures exists m: nat :: (m, t) in e
  {
    var n := |path| - 2;
    assert (path[n], path[n + 1]) in e;
  }

  lemma {:induction false} NoneToStart(g: Grammar, s: nat)
    requires RulesOk(g) && StartOk(g)
    ensures g.startIrl < |g.irls| && !RightUpto(g, |g.irls|, s, g.irls[g.startIrl].lhs)
  {
    hide P;
    assert g.startIrl < |g.irls|;
    hide P, LastOf, IsRight, RulesOk, StartOk;
    var start := g.irls[g.startIrl].lhs;
    forall q: nat
      ensures !IsRight(g, q, s, start)
    {
      NotRight(g, q, s);
    }
  }

  lemma {:induction false} NotRight(g: Grammar, q: nat, s: nat)
    requires RulesOk(g) && StartOk(g)
    ensures g.startIrl < |g.irls| && !IsRight(g, q, s, g.irls[g.startIrl].lhs)
  {
    hide P;
    if q < |g.irls| {
      assert IsItem(g, q, |P(g, q)| - 1);
      assert P(g, q)[|P(g, q)| - 1] != g.irls[g.startIrl].lhs;
    }
  }
}
