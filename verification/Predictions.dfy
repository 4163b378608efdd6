/** One pass of predictions over the scanned and completed items. */
module Predictions {
  import opened Options
  import opened Grammars
  import opened Derivations
  import opened EarleySets
  import opened Soundness

  // ---- Prediction ----

  ghost predicate PredictedBy(g: Grammar, cur: nat, work: seq<Item>, y: Item) {
    exists x, r :: x in work && x.ahm < |g.predicted| && r in g.predicted[x.ahm] && y == Item(AhmOf(g, r, 0), cur, cur)
  }

  /** The first `n` items have had their predictions added; nothing else was. */
  ghost predicate Predicting(g: Grammar, cur: nat, work0: seq<Item>, work: seq<Item>, n: nat) {
    && work0 <= work && Distinct(work) && n <= |work0|
    && (forall y :: y in work ==> y in work0 || PredictedBy(g, cur, work0, y))
    && (forall k, r :: 0 <= k < n && work0[k].ahm < |g.predicted| && r in g.predicted[work0[k].ahm] ==> Item(AhmOf(g, r, 0), cur, cur) in work)
  }

  lemma {:induction false} PredictStart(g: Grammar, cur: nat, work: seq<Item>)
    requires Distinct(work)
    ensures Predicting(g, cur, work, work, 0)
  {
  }

  lemma {:induction false} PredictAt(g: Grammar, cur: nat, work0: seq<Item>, work: seq<Item>, n: nat)
    requires Predicting(g, cur, work0, work, n) && n < |work0| && PredictionsOk(g)
    requires forall x :: x in work0 ==> x.ahm < |g.ahms|
    ensures |work0| <= |work| && work[n] == work0[n] && work0[n].ahm < |g.predicted| == |g.ahms|
  {
    assert work0[n] in work0;
  }

  lemma {:induction false} PredictedAll(g: Grammar, cur: nat, work0: seq<Item>, work: seq<Item>, n: nat)
    requires Predicting(g, cur, work0, work, n) && n < |work0| && work0[n].ahm < |g.predicted|
    requires var cil := g.predicted[work0[n].ahm]; forall k :: 0 <= k < |cil| ==> Item(AhmOf(g, cil[k], 0), cur, cur) in work
    ensures Predicting(g, cur, work0, work, n + 1)
  {
    hide PredictedBy;
  }

  lemma {:induction false} PredictOne(g: Grammar, cur: nat, work0: seq<Item>, work: seq<Item>, work': seq<Item>, n: nat, r: nat, x: Item)
    requires Predicting(g, cur, work0, work, n) && n < |work0|
    requires work0[n].ahm < |g.predicted| && r in g.predicted[work0[n].ahm] && x == Item(AhmOf(g, r, 0), cur, cur)
    requires work' == if x in work then work else work + [x]
    ensures Predicting(g, cur, work0, work', n)
    ensures forall y :: y in work ==> y in work'
    ensures x in work' && AhmOf(g, r, 0) == x.ahm
  {
    assert work0[n] in work0;
    assert PredictedBy(g, cur, work0, x);
    hide PredictedBy;
  }

  ghost predicate AllPresent(g: Grammar, toks: set<Token>, sets: Sets, work: seq<Item>, cur: nat) {
    forall r: nat, q: nat, i: nat :: Valid(g, toks, r, q, i, cur) ==> PresentIn(g, sets, work, r, q, i, cur)
  }

  /** Each item's predictions are there after one pass, those of predictions included. */
  lemma {:induction false} PredictedClosed(g: Grammar, cur: nat, work0: seq<Item>, work: seq<Item>)
    requires RulesOk(g) && AhmsOk(g) && PredictionsOk(g)
    requires Predicting(g, cur, work0, work, |work0|)
    requires forall x :: x in work0 ==> x.ahm < |g.ahms|
    ensures PredictClosed(g, work, cur)
  {
    forall x, r: nat | x in work && x.ahm < |g.ahms| && r < |g.irls| && g.irls[r].lhs == g.ahms[x.ahm].postdot
      ensures Item(AhmOf(g, r, 0), cur, cur) in work
    {
      if x in work0 {
        PredictionOf(g, cur, work0, work, x, r);
      } else {
        assert PredictedBy(g, cur, work0, x);
        var x0, r0 :| x0 in work0 && x0.ahm < |g.predicted| && r0 in g.predicted[x0.ahm] && x == Item(AhmOf(g, r0, 0), cur, cur);
        PredictionOfPrediction(g, cur, work0, work, x0, r0, r);
      }
    }
  }

  lemma {:induction false} PredictionOf(g: Grammar, cur: nat, work0: seq<Item>, work: seq<Item>, x: Item, r: nat)
    requires AhmsOk(g) && PredictionsOk(g) && Predicting(g, cur, work0, work, |work0|)
    requires x in work0 && x.ahm < |g.ahms| && r < |g.irls| && g.irls[r].lhs == g.ahms[x.ahm].postdot
    ensures Item(AhmOf(g, r, 0), cur, cur) in work
  {
    PredictionsDirect(g, x.ahm, r);
    var k :| 0 <= k < |work0| && work0[k] == x;
    assert work0[k].ahm < |g.predicted|;
  }

  lemma {:induction false} PredictionOfPrediction(g: Grammar, cur: nat, work0: seq<Item>, work: seq<Item>, x0: Item, r0: nat, r: nat)
    requires RulesOk(g) && AhmsOk(g) && PredictionsOk(g) && Predicting(g, cur, work0, work, |work0|)
    requires x0 in work0 && x0.ahm < |g.ahms| && r0 in g.predicted[x0.ahm] && r < |g.irls|
    requires AhmOf(g, r0, 0) < |g.ahms| && g.ahms[AhmOf(g, r0, 0)].postdot == g.irls[r].lhs
    ensures Item(AhmOf(g, r, 0), cur, cur) in work
  {
    PredictedRule(g, x0.ahm, r0);
    PredictionsClosed(g, x0.ahm, r0, r);
    var k :| 0 <= k < |work0| && work0[k] == x0;
    assert work0[k].ahm < |g.predicted|;
  }

  lemma {:induction false} PredictedRule(g: Grammar, a: nat, r: nat)
    requires RulesOk(g) && AhmsOk(g) && PredictionsOk(g) && a < |g.ahms| && r in g.predicted[a]
    ensures r < |g.irls| && IsItem(g, r, 0) && AhmOf(g, r, 0) < |g.ahms|
    ensures |P(g, r)| > 0 && g.ahms[AhmOf(g, r, 0)].postdot == P(g, r)[0]
    ensures r < |g.first| && g.first[r] == AhmOf(g, r, 0)
  {
    assert g.ahms[a].postdot >= 0;
    assert Predicts(g, g.ahms[a].postdot, r);
    assert IsItem(g, r, 0);
    AhmCase(g, AhmOf(g, r, 0));
  }

  /** Predictions are valid, not complete, and come from no link. */
  lemma {:induction false} PredictedItem(g: Grammar, toks: set<Token>, cur: nat, work0: seq<Item>, y: Item)
    requires RulesOk(g) && AhmsOk(g) && PredictionsOk(g) && ItemsOk(g, toks, work0, cur)
    requires PredictedBy(g, cur, work0, y)
    ensures y.at == cur && ItemOk(g, toks, y) && !Complete(g, y.ahm) && y.ahm < |g.ahms|
  {
    var x, r :| x in work0 && x.ahm < |g.predicted| && r in g.predicted[x.ahm] && y == Item(AhmOf(g, r, 0), cur, cur);
    hide ItemOk;
    PredictionSound(g, toks, x, r);
    PredictedRule(g, x.ahm, r);
  }

  /** After prediction the set is closed under all three operations. */
  lemma {:induction false} PredictEnd(g: Grammar, toks: set<Token>, sets: Sets, cur: nat, work0: seq<Item>, work: seq<Item>)
    requires RulesOk(g) && AhmsOk(g) && PredictionsOk(g)
    requires ItemsOk(g, toks, work0, cur) && ScanClosed(toks, sets, work0, cur) && CompleteClosed(g, sets, work0, cur)
    requires Predicting(g, cur, work0, work, |work0|)
    ensures ItemsOk(g, toks, work, cur) && Distinct(work)
    ensures ScanClosed(toks, sets, work, cur) && CompleteClosed(g, sets, work, cur)
    ensures CompletedItems(g, work) == CompletedItems(g, work0)
  {
    hide ItemOk;
    forall y | y in work
      ensures y in work0 || (y.at == cur && ItemOk(g, toks, y) && !Complete(g, y.ahm) && y.ahm < |g.ahms|)
    {
      if y !in work0 {
        PredictedItem(g, toks, cur, work0, y);
      }
    }
    forall k | k in toks && k.to == cur
      ensures Scanned(sets, work, cur, k)
    {
      assert Scanned(sets, work0, cur, k);
    }
    forall x | x in work
      ensures x.ahm < |g.ahms| && (Complete(g, x.ahm) ==> Completed(g, sets, work, cur, x))
    {
      if x in work0 && Complete(g, x.ahm) {
        assert Completed(g, sets, work0, cur, x);
      }
    }
  }
}
