/** Set 0: the start rule and everything it predicts. */
module StartSets {
  import opened Options
  import opened Grammars
  import opened Derivations
  import opened EarleySets
  import opened LeoItems
  import opened TokenQueue
  import opened Sources
  import opened SetBuilding
  import opened Predictions
  import opened States

  // ---- Set 0 ----

  ghost function AllIrls(g: Grammar): set<nat> {
    set r | 0 <= r < |g.irls| && IsItem(g, r, 0)
  }

  ghost predicate FirstItem(g: Grammar, seen: set<nat>, x: Item) {
    exists r :: r in seen && x == Item(AhmOf(g, r, 0), 0, 0)
  }

  /** Every rule for the first symbol of rule `r` has been seen. */
  ghost predicate Followed(g: Grammar, r: nat, seen: set<nat>) {
    P(g, r) != [] && forall r' :: r' in RulesFor(g, P(g, r)[0]) ==> r' in seen
  }

  /** The worklist: seen rules have their items, and their rules are seen or stacked. */
  ghost predicate Starting(g: Grammar, items: seq<Item>, seen: set<nat>, stack: seq<seq<nat>>) {
    && g.startIrl in seen && seen <= AllIrls(g) && Distinct(items)
    && (forall x :: x in items ==> FirstItem(g, seen, x))
    && (forall r :: r in seen ==> Item(AhmOf(g, r, 0), 0, 0) in items && Valid(g, {}, r, 0, 0, 0))
    && (forall r :: r in seen ==> Followed(g, r, seen) || (P(g, r) != [] && RulesFor(g, P(g, r)[0]) in stack))
    && (forall k :: 0 <= k < |stack| ==> ListOfSeen(g, seen, stack[k]))
  }

  ghost predicate ListOfSeen(g: Grammar, seen: set<nat>, cil: seq<nat>) {
    exists r :: r in seen && P(g, r) != [] && cil == RulesFor(g, P(g, r)[0])
  }

  /** As `Starting`, while the list `cil` is being gone through. */
  ghost predicate StartingCil(g: Grammar, items: seq<Item>, seen: set<nat>, stack: seq<seq<nat>>, cil: seq<nat>, n: nat) {
    && n <= |cil| && Starting(g, items, seen, stack + [cil])
    && (forall k :: 0 <= k < n ==> cil[k] in seen)
  }

  /** Set 0 as built: valid, closed under prediction, and with nothing complete. */
  ghost predicate StartClosed(g: Grammar, items: seq<Item>) {
    && ItemsOk(g, {}, items, 0) && Distinct(items) && PredictClosed(g, items, 0)
    && Item(AhmOf(g, g.startIrl, 0), 0, 0) in items
    && forall x :: x in items ==> x.ahm < |g.ahms| && !Complete(g, x.ahm)
  }

  lemma {:induction false} StartFacts(g: Grammar)
    requires GrammarOk(g)
    ensures RulesOk(g) && AhmsOk(g) && PredictionsOk(g)
    ensures g.startIrl < |g.irls| == |g.first| && g.first[g.startIrl] == AhmOf(g, g.startIrl, 0) && P(g, g.startIrl) != []
  {
  }

  lemma {:induction false} StartingFirst(g: Grammar)
    requires RulesOk(g) && AhmsOk(g)
    ensures Starting(g, [Item(AhmOf(g, g.startIrl, 0), 0, 0)], {g.startIrl}, [RulesFor(g, P(g, g.startIrl)[0])])
  {
    var r := g.startIrl;
    assert RouteFor(g, {}, Start, r, 0);
    assert ForestFor(g, {}, Nil, r, 0, 0, 0);
    assert FirstItem(g, {r}, Item(AhmOf(g, r, 0), 0, 0));
    assert ListOfSeen(g, {r}, RulesFor(g, P(g, r)[0]));
  }

  lemma {:induction false} StartingPop(g: Grammar, items: seq<Item>, seen: set<nat>, stack: seq<seq<nat>>)
    requires Starting(g, items, seen, stack) && stack != []
    ensures StartingCil(g, items, seen, stack[..|stack| - 1], stack[|stack| - 1], 0) && seen <= AllIrls(g)
  {
    assert stack[..|stack| - 1] + [stack[|stack| - 1]] == stack;
  }

  /** A listed rule is predicted at 0, and adding it keeps the worklist in order. */
  lemma {:induction false} StartingRule(g: Grammar, items: seq<Item>, seen: set<nat>, stack: seq<seq<nat>>, cil: seq<nat>, n: nat)
    requires RulesOk(g) && AhmsOk(g) && PredictionsOk(g)
    requires StartingCil(g, items, seen, stack, cil, n) && n < |cil|
    ensures var r := cil[n];
            && r < |g.irls| == |g.first| && P(g, r) != [] && g.first[r] == AhmOf(g, r, 0) && r in AllIrls(g)
            && (r in seen ==> StartingCil(g, items, seen, stack, cil, n + 1))
            && (r !in seen ==> StartingCil(g, items + [Item(AhmOf(g, r, 0), 0, 0)], seen + {r}, stack + [RulesFor(g, P(g, r)[0])], cil, n + 1))
  {
    var r := cil[n];
    StartingValid(g, items, seen, stack, cil, n);
    if r !in seen {
      StartingNew(g, items, seen, stack, cil, r);
    }
  }

  lemma {:induction false} StartingValid(g: Grammar, items: seq<Item>, seen: set<nat>, stack: seq<seq<nat>>, cil: seq<nat>, n: nat)
    requires RulesOk(g) && AhmsOk(g) && PredictionsOk(g)
    requires StartingCil(g, items, seen, stack, cil, n) && n < |cil|
    ensures cil[n] < |g.irls| && Valid(g, {}, cil[n], 0, 0, 0)
  {
    hide Valid, RulesOk, AhmsOk, PredictionsOk, Followed, FirstItem, Distinct, RulesFor;
    var all := stack + [cil];
    assert all[|stack|] == cil;
    assert ListOfSeen(g, seen, all[|stack|]);
    var r0 :| r0 in seen && P(g, r0) != [] && cil == RulesFor(g, P(g, r0)[0]);
    RulesForMeans(g, P(g, r0)[0], cil[n]);
    Predict(g, {}, r0, 0, 0, 0, cil[n]);
  }

  lemma {:induction false} StartingNew(g: Grammar, items: seq<Item>, seen: set<nat>, stack: seq<seq<nat>>, cil: seq<nat>, r: nat)
    requires RulesOk(g) && AhmsOk(g) && Starting(g, items, seen, stack + [cil])
    requires r < |g.irls| && r !in seen && Valid(g, {}, r, 0, 0, 0)
    ensures Starting(g, items + [Item(AhmOf(g, r, 0), 0, 0)], seen + {r}, stack + [RulesFor(g, P(g, r)[0])] + [cil])
  {
    hide Valid, RulesOk, AhmsOk, Followed, FirstItem, ListOfSeen, Distinct, RulesFor;
    assert P(g, r) != [] by {
      RuleNotEmpty(g, r);
    }
    NewFirstItem(g, items, seen, r);
    NewFirsts(g, items, seen, r);
    NewLists(g, seen, stack, cil, r);
    NewFollowed(g, seen, stack + [cil], stack + [RulesFor(g, P(g, r)[0])] + [cil], r);
  }

  lemma {:induction false} RuleNotEmpty(g: Grammar, r: nat)
    requires RulesOk(g) && r < |g.irls|
    ensures P(g, r) != [] && r in AllIrls(g)
  {
    assert IsItem(g, r, 0);
  }

  lemma {:induction false} NewFollowed(g: Grammar, seen: set<nat>, stack: seq<seq<nat>>, stack': seq<seq<nat>>, r: nat)
    requires forall r0 :: r0 in seen ==> Followed(g, r0, seen) || (P(g, r0) != [] && RulesFor(g, P(g, r0)[0]) in stack)
    requires forall c :: c in stack ==> c in stack'
    requires P(g, r) != [] && RulesFor(g, P(g, r)[0]) in stack'
    ensures forall r0 :: r0 in seen + {r} ==> Followed(g, r0, seen + {r}) || (P(g, r0) != [] && RulesFor(g, P(g, r0)[0]) in stack')
  {
    forall r0 | r0 in seen + {r}
      ensures Followed(g, r0, seen + {r}) || (P(g, r0) != [] && RulesFor(g, P(g, r0)[0]) in stack')
    {
      if r0 in seen && Followed(g, r0, seen) {
        assert Followed(g, r0, seen + {r});
      }
    }
  }

  lemma {:induction false} NewFirsts(g: Grammar, items: seq<Item>, seen: set<nat>, r: nat)
    requires forall x :: x in items ==> FirstItem(g, seen, x)
    ensures forall x :: x in items + [Item(AhmOf(g, r, 0), 0, 0)] ==> FirstItem(g, seen + {r}, x)
  {
    forall x | x in items + [Item(AhmOf(g, r, 0), 0, 0)]
      ensures FirstItem(g, seen + {r}, x)
    {
      if x in items {
        var r0 :| r0 in seen && x == Item(AhmOf(g, r0, 0), 0, 0);
        assert r0 in seen + {r};
      } else {
        assert r in seen + {r};
      }
    }
  }

  lemma {:induction false} NewLists(g: Grammar, seen: set<nat>, stack: seq<seq<nat>>, cil: seq<nat>, r: nat)
    requires P(g, r) != []
    requires forall k :: 0 <= k < |stack + [cil]| ==> ListOfSeen(g, seen, (stack + [cil])[k])
    ensures var stack' := stack + [RulesFor(g, P(g, r)[0])] + [cil];
            && (forall k :: 0 <= k < |stack'| ==> ListOfSeen(g, seen + {r}, stack'[k]))
            && stack'[|stack|] == RulesFor(g, P(g, r)[0])
            && (forall c :: c in stack + [cil] ==> c in stack')
  {
    var stack' := stack + [RulesFor(g, P(g, r)[0])] + [cil];
    forall k | 0 <= k < |stack'|
      ensures ListOfSeen(g, seen + {r}, stack'[k])
    {
      if k == |stack| {
        assert r in seen + {r};
      } else {
        var j := if k < |stack| then k else k - 1;
        assert stack'[k] == (stack + [cil])[j];
        assert ListOfSeen(g, seen, (stack + [cil])[j]);
        var r0 :| r0 in seen && P(g, r0) != [] && stack'[k] == RulesFor(g, P(g, r0)[0]);
        assert r0 in seen + {r};
      }
    }
  }

  lemma {:induction false} NewFirstItem(g: Grammar, items: seq<Item>, seen: set<nat>, r: nat)
    requires AhmsOk(g) && r < |g.irls| && r !in seen && seen <= AllIrls(g) && Distinct(items)
    requires forall x :: x in items ==> FirstItem(g, seen, x)
    ensures Distinct(items + [Item(AhmOf(g, r, 0), 0, 0)])
  {
    var x := Item(AhmOf(g, r, 0), 0, 0);
    forall r0 | r0 in seen
      ensures AhmOf(g, r0, 0) != AhmOf(g, r, 0)
    {
      assert IsItem(g, r0, 0);
      FirstAhm(g, r0);
      FirstAhm(g, r);
    }
    assert !FirstItem(g, seen, x);
    DistinctAppend(items, x);
  }

  lemma {:induction false} FirstAhm(g: Grammar, r: nat)
    requires AhmsOk(g) && r < |g.irls|
    ensures AhmOf(g, r, 0) < |g.ahms| && g.ahms[AhmOf(g, r, 0)].irl == r
  {
    assert IsItem(g, r, 0);
    assert g.first[r] + 0 == g.first[r];
  }

  lemma {:induction false} StartingDone(g: Grammar, items: seq<Item>, seen: set<nat>, stack: seq<seq<nat>>, cil: seq<nat>)
    requires StartingCil(g, items, seen, stack, cil, |cil|)
    ensures Starting(g, items, seen, stack)
  {
    hide Valid;
    forall r | r in seen
      ensures Followed(g, r, seen) || (P(g, r) != [] && RulesFor(g, P(g, r)[0]) in stack)
    {
      if P(g, r) != [] && RulesFor(g, P(g, r)[0]) == cil {
        assert Followed(g, r, seen);
      }
    }
    forall k | 0 <= k < |stack|
      ensures ListOfSeen(g, seen, stack[k])
    {
      assert (stack + [cil])[k] == stack[k];
    }
  }

  lemma {:induction false} StartingEnd(g: Grammar, items: seq<Item>, seen: set<nat>)
    requires RulesOk(g) && AhmsOk(g) && PredictionsOk(g) && Starting(g, items, seen, [])
    ensures StartClosed(g, items)
  {
    hide Valid;
    forall x | x in items
      ensures x.at == 0 && ItemOk(g, {}, x) && x.ahm < |g.ahms| && !Complete(g, x.ahm)
      ensures forall r :: 0 <= r < |g.irls| && g.irls[r].lhs == g.ahms[x.ahm].postdot ==> Item(AhmOf(g, r, 0), 0, 0) in items
    {
      var r0 :| r0 in seen && x == Item(AhmOf(g, r0, 0), 0, 0);
      assert IsItem(g, r0, 0);
      AhmCase(g, x.ahm);
      assert Followed(g, r0, seen);
      forall r | 0 <= r < |g.irls| && g.irls[r].lhs == g.ahms[x.ahm].postdot
        ensures Item(AhmOf(g, r, 0), 0, 0) in items
      {
        assert r in RulesFor(g, P(g, r0)[0]);
      }
    }
  }

  lemma {:induction false} StartPresent(g: Grammar, items: seq<Item>)
    requires GrammarOk(g) && StartClosed(g, items)
    ensures Past(g, {}, map[], 0) && AllPresent(g, {}, map[], items, 0)
    ensures ItemsOk(g, {}, items, 0) && Distinct(items)
  {
    hide Valid, GrammarOk;
    assert Settled(g, {}, map[], 0) by {
      hide Exact;
    }
    ClosedIsComplete(g, {}, map[], items, 0);
  }

  lemma {:induction false} RunningStart(g: Grammar, items: seq<Item>, postdot: map<nat, Postdot>)
    requires GrammarOk(g) && StartClosed(g, items) && AllPresent(g, {}, map[], items, 0)
    requires PimsOk(g, items, postdot) && forall s :: s in postdot ==> postdot[s].lim.None?
    ensures Running(g, {}, map[0 := EarleySet(items, postdot)], map[], [], 0, 0, 0)
    ensures NoLims(map[0 := EarleySet(items, postdot)])
  {
    hide Valid, AllPresent, PimsOk, Past, PredictClosed, EventsOk, ItemOk;
    var none: Sets := map[];
    var sets := none[0 := EarleySet(items, postdot)];
    assert sets == map[0 := EarleySet(items, postdot)];
    StartFacts(g);
    StartPresent(g, items);
    assert forall s :: LimAt(sets, 0, s).None?;
    PastSet(g, {}, none, 0, items, postdot);
    assert CompletedItems(g, items) == {};
    assert EndingAt({}, 0) == {};
    assert CompleteClosed(g, sets, items, 0);
  }
}
