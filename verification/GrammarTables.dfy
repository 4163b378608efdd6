/** The internal grammar with all its tables. */
module GrammarTables {
  import opened Grammars
  import opened EventLists
  import opened Closures
  import opened Tables
  import opened LeoEvents

  /** The tables that the recognizer's correctness leaves room for are what they should be: the
      raw places of dots, the flags of right recursion and the sizes of the event groups. */
  ghost predicate TablesExact(g: Grammar, full: Relation, e: Relation) {
    && PlacesOk(g.nulling, g.irls, g.ahms) && LeoFlags(g, full) && RecursiveSteps(g, |g.irls|, e)
    && |g.eventSizes| == |g.ahms| && forall a: nat :: a < |g.ahms| ==> g.eventSizes[a] == GroupSize(g, e, g.events, a)
  }

  /** The grammar with its tables; the start rule comes last. */
  method BuildTables(nsyCount: nat, nulling: set<nat>, irls: seq<Irl>, terminals: set<nat>, events: set<nat>)
    returns (g: Grammar, ghost full: Relation, ghost e: Relation)
    requires irls != []
    requires var g0 := Grammar(nsyCount, nulling, irls, |irls| - 1, terminals, [], [], map[], [], [], events, []);
             RulesOk(g0) && StartOk(g0) && IrlsExist(g0)
    ensures g.nsyCount == nsyCount && g.nulling == nulling && g.irls == irls && g.startIrl == |irls| - 1 && g.terminals == terminals
    ensures g.events == events && GrammarOk(g)
    ensures TablesExact(g, full, e)
  {
    hide PlacesOk, RecursiveSteps, GroupSize, P, RulesOk, StartOk, IrlsExist, CoreOk, EventsOk, RightSteps, RightRecursive, AhmsUpto, RulesOf, Listing;
    g := Grammar(nsyCount, nulling, irls, |irls| - 1, terminals, [], [], map[], [], [], events, []);
    LhsExist(g);
    var lists := LhsLists(nsyCount, irls);
    var ahms, first := BuildAhms(nulling, irls);
    var rows := PredictedRules(g, lists);
    var leo;
    leo, full := RightRecursions(g);
    var predicted := [];
    AhmsExist(g, ahms, first);
    for a := 0 to |ahms|
      invariant |predicted| == a
      invariant forall b: nat :: b < a ==> predicted[b] == if ahms[b].postdot < 0 then [] else rows[ahms[b].postdot]
    {
      if ahms[a].postdot < 0 {
        predicted := predicted + [[]];
      } else {
        predicted := predicted + [rows[ahms[a].postdot]];
      }
    }
    StartNotRight(g, full);
    ghost var g0 := g;
    g := Grammar(nsyCount, nulling, irls, |irls| - 1, terminals, ahms, first, map s: nat | s < nsyCount :: lists[s], predicted, leo, events, []);
    TablesOk(g0, g, lists, rows);
    SameRight(g0, g, full);
    var sizes;
    sizes, e := EventSizes(g, full);
    g := Grammar(nsyCount, nulling, irls, |irls| - 1, terminals, ahms, first, map s: nat | s < nsyCount :: lists[s], predicted, leo, events, sizes);
    TablesOk(g0, g, lists, rows);
    SameRight(g0, g, full);
  }

  /** The size of every event group. */
  method EventSizes(g: Grammar, ghost full: Relation) returns (sizes: seq<nat>, ghost e: Relation)
    requires CoreOk(g) && IrlsExist(g) && LeoFlags(g, full)
    ensures var g' := g.(eventSizes := sizes);
            && EventsOk(g') && RecursiveSteps(g', |g.irls|, e)
            && |sizes| == |g.ahms| && forall a: nat :: a < |g.ahms| ==> sizes[a] == GroupSize(g', e, g.events, a)
  {
    hide LeoFlags, RecursiveSteps, IrlsExist, EventsOk, Reaches, CoreOk, GroupSize;
    CoreParts(g);
    var matrix;
    matrix, e := RecursiveMatrix(g);
    sizes := GroupSizes(g, matrix, e, g.events);
    SizesToo(g, sizes, full, e);
    CountedGroups(g.(eventSizes := sizes), full, e);
  }

  lemma {:induction false} CoreParts(g: Grammar)
    requires CoreOk(g)
    ensures RulesOk(g) && AhmsOk(g) && |g.leo| == |g.irls|
  {
  }

  /** The sizes are of the groups that the grammar had without them. */
  lemma {:induction false} SizesToo(g0: Grammar, sizes: seq<nat>, full: Relation, e: Relation)
    requires RulesOk(g0) && AhmsOk(g0) && LeoFlags(g0, full) && RecursiveSteps(g0, |g0.irls|, e)
    ensures var g := g0.(eventSizes := sizes);
            && RulesOk(g) && AhmsOk(g) && LeoFlags(g, full) && RecursiveSteps(g, |g.irls|, e)
            && forall a: nat :: GroupSize(g, e, g.events, a) == GroupSize(g0, e, g0.events, a)
  {
    var g := g0.(eventSizes := sizes);
    SameP(g0, g);
    SameRight(g0, g, full);
    hide P, Reaches, RightRecursive, RightSteps, LastOf;
    assert forall r: nat :: LastOf(g, r) == LastOf(g0, r);
    assert forall a: nat :: a < |g.ahms| && |g.first| == |g.irls| ==> AhmOk(g0, a) == AhmOk(g, a);
    assert forall r: nat, q: nat :: IsItem(g, r, q) <==> IsItem(g0, r, q);
    forall s: nat, t: nat
      ensures RecursiveUpto(g, |g.irls|, s, t) <==> RecursiveUpto(g0, |g0.irls|, s, t)
    {
      assert forall q: nat :: IsRecursive(g, q, s, t) <==> IsRecursive(g0, q, s, t);
    }
    forall a: nat
      ensures GroupSize(g, e, g.events, a) == GroupSize(g0, e, g0.events, a)
    {
      assert forall b: nat :: InGroup(g, e, g.events, a, b) <==> InGroup(g0, e, g0.events, a, b);
      assert Group(g, e, g.events, a) == Group(g0, e, g0.events, a);
    }
  }

  lemma {:induction false} AhmsExist(g: Grammar, ahms: seq<Ahm>, first: seq<nat>)
    requires IrlsExist(g) && AhmsUpto(g.nulling, g.irls, ahms, first, |g.irls|)
    ensures forall a: nat :: a < |ahms| ==> ahms[a].postdot < g.nsyCount
  {
    hide Proper;
    forall a: nat | a < |ahms|
      ensures ahms[a].postdot < g.nsyCount
    {
      assert AhmAt(g.nulling, g.irls, ahms[a], a, first, |g.irls|);
      var p := P(g, ahms[a].irl);
    }
  }

  /** Two grammars with the same rules. */
  ghost predicate SameRulesAs(g0: Grammar, g: Grammar) {
    g.nsyCount == g0.nsyCount && g.nulling == g0.nulling && g.irls == g0.irls && g.startIrl == g0.startIrl
  }

  lemma {:induction false} SameP(g0: Grammar, g: Grammar)
    requires SameRulesAs(g0, g)
    ensures forall r: nat :: P(g, r) == P(g0, r)
  {
  }

  lemma {:induction false} SameShape(g0: Grammar, g: Grammar)
    requires SameRulesAs(g0, g) && RulesOk(g0) && StartOk(g0)
    ensures RulesOk(g) && StartOk(g)
  {
    SameP(g0, g);
    hide P;
    assert forall r: nat, q: nat :: IsItem(g, r, q) <==> IsItem(g0, r, q);
  }

  lemma {:induction false} SameReach(g0: Grammar, g: Grammar, s: nat, r: nat)
    requires SameRulesAs(g0, g)
    ensures Predicts(g, s, r) <==> Predicts(g0, s, r)
  {
    SameP(g0, g);
    hide P;
    forall path: seq<nat>, t: nat
      ensures LeftPath(g, path, s, t) <==> LeftPath(g0, path, s, t)
    {
      forall a: nat, b: nat
        ensures LeftEdge(g, a, b) <==> LeftEdge(g0, a, b)
      {
        assert forall q: nat :: RuleLeft(g, q, a, b) <==> RuleLeft(g0, q, a, b);
      }
    }
  }

  lemma {:induction false} SameRight(g0: Grammar, g: Grammar, e: Relation)
    requires SameRulesAs(g0, g) && RightSteps(g0, e)
    ensures RightSteps(g, e) && forall r: nat :: RightRecursive(g, e, r) <==> RightRecursive(g0, e, r)
  {
    SameP(g0, g);
    hide P, Reaches;
    assert forall r: nat :: LastOf(g, r) == LastOf(g0, r);
    assert forall r: nat, s: nat, t: nat :: IsRight(g, r, s, t) <==> IsRight(g0, r, s, t);
  }

  lemma {:induction false} TablesOk(g0: Grammar, g: Grammar, lists: seq<seq<nat>>, rows: seq<seq<nat>>)
    requires SameRulesAs(g0, g) && RulesOk(g0) && StartOk(g0) && IrlsExist(g0) && ListsAre(g0, lists)
    requires |rows| == g.nsyCount && forall s: nat, r: nat :: s < g.nsyCount ==> (r in rows[s] <==> Predicts(g0, s, r))
    requires AhmsUpto(g.nulling, g.irls, g.ahms, g.first, |g.irls|) && g.lhsIrls == map s: nat | s < g.nsyCount :: lists[s]
    requires |g.predicted| == |g.ahms| && forall a: nat :: a < |g.ahms| ==> g.ahms[a].postdot < g.nsyCount
    requires forall b: nat :: b < |g.ahms| ==> g.predicted[b] == if g.ahms[b].postdot < 0 then [] else rows[g.ahms[b].postdot]
    requires |g.leo| == |g.irls| && !g.leo[g.startIrl]
    ensures CoreOk(g) && IrlsExist(g)
  {
    SameShape(g0, g);
    SameBounds(g0, g);
    AhmTable(g);
    hide RulesOk, StartOk, AhmsOk, AhmsUpto, IrlsExist, LeftReach;
    forall a: nat, r: nat | a < |g.ahms| && g.ahms[a].postdot >= 0
      ensures r in g.predicted[a] <==> Predicts(g, g.ahms[a].postdot, r)
    {
      SameReach(g0, g, g.ahms[a].postdot, r);
    }
    hide Predicts;
    forall s: nat, r: nat
      ensures r in RulesFor(g, s) <==> r < |g.irls| && g.irls[r].lhs == s
    {
      LhsTable(g0, g, lists, s, r);
    }
  }

  lemma {:induction false} SameBounds(g0: Grammar, g: Grammar)
    requires SameRulesAs(g0, g) && IrlsExist(g0)
    ensures IrlsExist(g)
  {
    SameP(g0, g);
    hide P;
  }

  lemma {:induction false} LhsTable(g0: Grammar, g: Grammar, lists: seq<seq<nat>>, s: nat, r: nat)
    requires SameRulesAs(g0, g) && IrlsExist(g0) && ListsAre(g0, lists) && g.lhsIrls == map s: nat | s < g.nsyCount :: lists[s]
    ensures r in RulesFor(g, s) <==> r < |g.irls| && g.irls[r].lhs == s
  {
    hide P;
    if s < g.nsyCount {
      InListing(lists[s], RulesOf(g.irls, s), r);
    }
  }

  lemma {:induction false} AhmTable(g: Grammar)
    requires AhmsUpto(g.nulling, g.irls, g.ahms, g.first, |g.irls|)
    ensures AhmsOk(g)
  {
    hide Proper;
    forall a: nat | a < |g.ahms|
      ensures AhmOk(g, a)
    {
      assert AhmAt(g.nulling, g.irls, g.ahms[a], a, g.first, |g.irls|);
    }
    forall r: nat, q: nat | IsItem(g, r, q)
      ensures g.first[r] + q < |g.ahms| && g.ahms[g.first[r] + q].irl == r && g.ahms[g.first[r] + q].quasi == q
    {
      assert BaseOk(g.nulling, g.irls, g.ahms, g.first[r], r);
    }
  }
}
