/** The state of the recognizer between two earlemes, and from one to the next. */
module States {
  import opened Options
  import opened Grammars
  import opened Derivations
  import opened EarleySets
  import opened LeoItems
  import opened Soundness
  import opened TokenQueue
  import opened Sources
  import opened SetBuilding
  import opened Predictions

  // ---- Whole states ----

  ghost function EndingAt(toks: set<Token>, e: nat): set<Token> {
    set k | k in toks && k.to == e
  }

  /** A finished set has no duplicates and records exactly how its items were made. */
  ghost predicate Recorded(g: Grammar, toks: set<Token>, sets: Sets, links: Links, e: nat) {
    && e in sets
    && Distinct(sets[e].items)
    && LinksExact(g, sets, links, e, EndingAt(toks, e), CompletedItems(g, sets[e].items))
    && ScanClosed(toks, sets, sets[e].items, e) && CompleteClosed(g, sets, sets[e].items, e)
  }

  /** The state between calls, once input has started. */
  ghost predicate Running(g: Grammar, toks: set<Token>, sets: Sets, links: Links, alts: seq<Alternative>, current: nat, furthest: nat, latest: nat) {
    && Past(g, toks, sets, current + 1)
    && (forall e :: e in sets ==> Recorded(g, toks, sets, links, e))
    && (forall x :: x in links ==> x.at <= current)
    && Queued(toks, alts, current, furthest)
    && 0 in sets && (forall s :: LimAt(sets, 0, s).None?)
    && latest in sets && (forall e :: e in sets ==> e <= latest)
  }

  // ---- From one state to the next ----

  lemma {:induction false} RunningParts(g: Grammar, toks: set<Token>, sets: Sets, links: Links, alts: seq<Alternative>, current: nat, furthest: nat, latest: nat)
    requires Running(g, toks, sets, links, alts, current, furthest, latest)
    ensures Past(g, toks, sets, current + 1) && Queued(toks, alts, current, furthest)
    ensures forall x :: x in links ==> x.at < current + 1
  {
  }

  /** There is a set at the current earleme only when it is the latest one. */
  lemma {:induction false} NoSetHere(g: Grammar, toks: set<Token>, sets: Sets, links: Links, alts: seq<Alternative>, current: nat, furthest: nat, latest: nat)
    requires Running(g, toks, sets, links, alts, current, furthest, latest) && latest != current
    ensures current !in sets
  {
  }

  /** Which symbols something waits for at the latest set. */
  lemma {:induction false} ListsHere(g: Grammar, toks: set<Token>, sets: Sets, links: Links, alts: seq<Alternative>, current: nat, furthest: nat, latest: nat)
    requires Running(g, toks, sets, links, alts, current, furthest, latest)
    ensures latest in sets
    ensures forall s :: s in sets[latest].postdot <==> Pims(sets, latest, s) != []
  {
    assert PimsOk(g, sets[latest].items, sets[latest].postdot);
  }

  /** A token is new exactly when it is not waiting in the queue. */
  lemma {:induction false} RunningQueue(g: Grammar, toks: set<Token>, sets: Sets, links: Links, alts: seq<Alternative>, current: nat, furthest: nat, latest: nat, tok: Token)
    requires Running(g, toks, sets, links, alts, current, furthest, latest) && tok.to > current
    ensures Sorted(alts) && (tok in toks <==> Has(alts, tok))
    ensures tok in toks ==> tok.to <= furthest
  {
  }

  /** The top of the queue tells whether a token ends at the next earleme. */
  lemma {:induction false} NoTokenEnds(toks: set<Token>, alts: seq<Alternative>, current: nat, furthest: nat)
    requires Queued(toks, alts, current, furthest)
    requires current + 1 > furthest || alts == [] || alts[|alts| - 1].tok.to != current + 1
    ensures EndingAt(toks, current + 1) == {} && Queued(toks, alts, current + 1, furthest)
  {
    forall i | 0 <= i < |alts|
      ensures alts[i].tok.to > current + 1
    {
      TopEndsFirst(alts, i, |alts| - 1);
    }
    forall k | k in toks
      ensures k.to != current + 1
    {
      assert k.to > current ==> Has(alts, k);
    }
  }

  lemma {:induction false} TokenEnds(toks: set<Token>, alts: seq<Alternative>, current: nat, furthest: nat)
    requires Queued(toks, alts, current, furthest)
    requires alts != [] && alts[|alts| - 1].tok.to == current + 1
    ensures alts[|alts| - 1].tok in EndingAt(toks, current + 1) && current + 1 <= furthest
  {
  }

  /** No token ends here: nothing is valid here, and no set is made. */
  lemma {:induction false} RunningNoSet(g: Grammar, toks: set<Token>, sets: Sets, links: Links, alts: seq<Alternative>, current: nat, furthest: nat, latest: nat)
    requires Running(g, toks, sets, links, alts, current, furthest, latest)
    requires EndingAt(toks, current + 1) == {} && Queued(toks, alts, current + 1, furthest)
    ensures Running(g, toks, sets, links, alts, current + 1, furthest, latest)
  {
    NothingEnds(g, toks, sets, current + 1);
    hide Recorded, Queued, Settled;
  }

  lemma {:induction false} NothingEnds(g: Grammar, toks: set<Token>, sets: Sets, cur: nat)
    requires cur > 0 && Past(g, toks, sets, cur) && EndingAt(toks, cur) == {}
    ensures Exact(g, toks, sets, cur)
  {
    assert forall k :: k in toks && k.to == cur ==> k in EndingAt(toks, cur);
    ClosedIsComplete(g, toks, sets, [], cur);
    hide Settled, Valid;
    forall r: nat, q: nat, i: nat
      ensures !Valid(g, toks, r, q, i, cur)
    {
      assert !PresentIn(g, sets, [], r, q, i, cur);
    }
  }

  /** The set that was built is closed, so it is complete. */
  lemma {:induction false} SetClosed(g: Grammar, toks: set<Token>, sets: Sets, cur: nat, work0: seq<Item>, work: seq<Item>)
    requires Past(g, toks, sets, cur) && (cur == 0 ==> Item(AhmOf(g, g.startIrl, 0), 0, 0) in work)
    requires ItemsOk(g, toks, work0, cur) && ScanClosed(toks, sets, work0, cur) && CompleteClosed(g, sets, work0, cur)
    requires Predicting(g, cur, work0, work, |work0|)
    ensures ItemsOk(g, toks, work, cur) && Distinct(work) && AllPresent(g, toks, sets, work, cur)
    ensures ScanClosed(toks, sets, work, cur) && CompleteClosed(g, sets, work, cur)
    ensures CompletedItems(g, work) == CompletedItems(g, work0)
  {
    hide Settled, ItemOk, ScanClosed, CompleteClosed, PredictClosed, Predicting, Valid;
    PastGrammar(g, toks, sets, cur);
    PredictEnd(g, toks, sets, cur, work0, work);
    WorkShape(g, toks, work0, cur);
    PredictedClosed(g, cur, work0, work);
    ClosedIsComplete(g, toks, sets, work, cur);
  }

  lemma {:induction false} BuildingShape(g: Grammar, toks: set<Token>, sets: Sets, cur: nat, work: seq<Item>, links: Links, popped: set<Token>, done: set<Item>)
    requires Building(g, toks, sets, cur, work, links, popped, done)
    ensures Distinct(work) && ItemsOk(g, toks, work, cur) && LinksExact(g, sets, links, cur, popped, done)
    ensures forall x :: x in work ==> x.ahm < |g.ahms|
  {
    hide LinksExact;
  }

  lemma {:induction false} ScanStillClosed(toks: set<Token>, sets: Sets, cur: nat, work: seq<Item>, links: Links, work': seq<Item>, links': Links)
    requires ScanClosed(toks, sets, work, cur) && Grown(cur, work, links, work', links')
    ensures ScanClosed(toks, sets, work', cur)
  {
    forall k | k in toks && k.to == cur
      ensures Scanned(sets, work', cur, k)
    {
      assert Scanned(sets, work, cur, k);
    }
  }

  /** Adding the finished set keeps everything about the earlier ones. */
  lemma {:induction false} RunningSet(g: Grammar, toks: set<Token>, sets: Sets, links0: Links, links1: Links, links: Links, alts0: seq<Alternative>, alts: seq<Alternative>,
                   cur: nat, furthest: nat, latest: nat, work1: seq<Item>, work2: seq<Item>, work: seq<Item>, postdot: map<nat, Postdot>)
    requires cur > 0 && Running(g, toks, sets, links0, alts0, cur - 1, furthest, latest)
    requires Delivered(toks, alts0, alts, cur, furthest)
    requires Grown(cur, [], links0, work1, links1) && Grown(cur, work1, links1, work2, links)
    requires ItemsOk(g, toks, work, cur) && Distinct(work) && AllPresent(g, toks, sets, work, cur)
    requires LinksExact(g, sets, links, cur, EndingAt(toks, cur), CompletedItems(g, work))
    requires ScanClosed(toks, sets, work, cur) && CompleteClosed(g, sets, work, cur)
    requires PimsOk(g, work, postdot) && LimsOk(g, sets[cur := EarleySet(work, postdot)], cur)
    ensures Running(g, toks, sets[cur := EarleySet(work, postdot)], links, alts, cur, furthest, cur)
    ensures forall x: Item :: x.at != cur ==> LinksOf(links, x) == LinksOf(links0, x)
  {
    hide Past, LinksExact, Queued, AllPresent, ItemsOk, PimsOk, LimsOk, Distinct, CompleteClosed, ScanClosed, GrammarOk;
    GrownTwice(cur, [], links0, work1, links1, work2, links);
    PastSet(g, toks, sets, cur, work, postdot);
    var sets' := sets[cur := EarleySet(work, postdot)];
    RunningParts(g, toks, sets, links0, alts0, cur - 1, furthest, latest);
    PastGrammar(g, toks, sets, cur);
    forall e | e in sets'
      ensures Recorded(g, toks, sets', links, e)
    {
      if e < cur {
        RecordedLater(g, toks, sets, sets', links0, links, cur, e);
      } else {
        RecordedNow(g, toks, sets, links, cur, work, postdot);
      }
    }
    assert forall s :: LimAt(sets', 0, s) == LimAt(sets, 0, s);
  }

  lemma {:induction false} RecordedLater(g: Grammar, toks: set<Token>, sets: Sets, sets': Sets, links: Links, links': Links, cur: nat, e: nat)
    requires Past(g, toks, sets, cur) && Recorded(g, toks, sets, links, e) && e < cur
    requires forall x: Item :: x.at == e ==> LinksOf(links', x) == LinksOf(links, x)
    requires forall m :: m < cur ==> (m in sets' <==> m in sets) && (m in sets ==> sets'[m] == sets[m])
    ensures Recorded(g, toks, sets', links', e)
  {
    hide Settled, LinksExact, Valid, CompleteClosed, ScanClosed;
    PastGrammar(g, toks, sets, cur);
    SetItemsOk(g, toks, sets, cur, e);
    CompletedEarlier(g, toks, sets[e].items, e);
    ClosedLater(g, toks, sets, sets', sets[e].items, e);
    LinksLater(g, sets, sets', links, links', e, EndingAt(toks, e), CompletedItems(g, sets[e].items));
  }

  lemma {:induction false} SetItemsOk(g: Grammar, toks: set<Token>, sets: Sets, cur: nat, e: nat)
    requires Past(g, toks, sets, cur) && e in sets
    ensures ItemsOk(g, toks, sets[e].items, e)
  {
    assert Exact(g, toks, sets, e);
  }

  lemma {:induction false} RecordedNow(g: Grammar, toks: set<Token>, sets: Sets, links: Links, cur: nat, work: seq<Item>, postdot: map<nat, Postdot>)
    requires RulesOk(g) && AhmsOk(g) && TokensOk(toks) && ItemsOk(g, toks, work, cur) && Distinct(work)
    requires LinksExact(g, sets, links, cur, EndingAt(toks, cur), CompletedItems(g, work))
    requires ScanClosed(toks, sets, work, cur) && CompleteClosed(g, sets, work, cur)
    requires forall e :: e in sets ==> e < cur
    ensures Recorded(g, toks, sets[cur := EarleySet(work, postdot)], links, cur)
  {
    hide LinksExact, Valid, CompleteClosed, ScanClosed;
    CompletedEarlier(g, toks, work, cur);
    ClosedLater(g, toks, sets, sets[cur := EarleySet(work, postdot)], work, cur);
    LinksLater(g, sets, sets[cur := EarleySet(work, postdot)], links, links, cur, EndingAt(toks, cur), CompletedItems(g, work));
  }

  /** What the scanner and completer did for a set does not depend on later sets. */
  lemma {:induction false} ClosedLater(g: Grammar, toks: set<Token>, sets: Sets, sets': Sets, items: seq<Item>, e: nat)
    requires ScanClosed(toks, sets, items, e) && CompleteClosed(g, sets, items, e) && TokensOk(toks)
    requires forall c :: c in CompletedItems(g, items) ==> c.origin < e
    requires forall m :: m < e ==> (m in sets' <==> m in sets) && (m in sets ==> sets'[m] == sets[m])
    ensures ScanClosed(toks, sets', items, e) && CompleteClosed(g, sets', items, e)
  {
    forall k | k in toks && k.to == e
      ensures Scanned(sets', items, e, k)
    {
      assert Scanned(sets, items, e, k);
    }
    forall x | x in items && Complete(g, x.ahm)
      ensures Completed(g, sets', items, e, x)
    {
      assert x in CompletedItems(g, items);
      assert Completed(g, sets, items, e, x);
    }
  }

  lemma {:induction false} CompletedEarlier(g: Grammar, toks: set<Token>, items: seq<Item>, e: nat)
    requires RulesOk(g) && AhmsOk(g) && TokensOk(toks) && ItemsOk(g, toks, items, e)
    ensures forall c :: c in CompletedItems(g, items) ==> c.origin < e
  {
    hide Valid;
    forall c | c in CompletedItems(g, items)
      ensures c.origin < e
    {
      assert c in items;
      AhmCase(g, c.ahm);
      ValidForward(g, toks, g.ahms[c.ahm].irl, g.ahms[c.ahm].quasi, c.origin, e);
    }
  }

  lemma {:induction false} PastSet(g: Grammar, toks: set<Token>, sets: Sets, cur: nat, work: seq<Item>, postdot: map<nat, Postdot>)
    requires Past(g, toks, sets, cur) && ItemsOk(g, toks, work, cur) && AllPresent(g, toks, sets, work, cur)
    requires PimsOk(g, work, postdot) && LimsOk(g, sets[cur := EarleySet(work, postdot)], cur)
    ensures Past(g, toks, sets[cur := EarleySet(work, postdot)], cur + 1)
  {
    hide AllPresent, ItemsOk, PimsOk, LimsOk, Exact;
    var sets' := sets[cur := EarleySet(work, postdot)];
    PastGrammar(g, toks, sets, cur);
    ExactNow(g, toks, sets, cur, work, postdot);
    forall e: nat | e < cur
      ensures Exact(g, toks, sets', e)
    {
      ExactLater(g, toks, toks, sets, sets', e);
    }
    forall e | e in sets' && e < cur
      ensures PimsOk(g, sets'[e].items, sets'[e].postdot) && LimsOk(g, sets', e)
    {
      LimsLater(g, sets, sets', e);
    }
  }

  lemma {:induction false} ExactNow(g: Grammar, toks: set<Token>, sets: Sets, cur: nat, work: seq<Item>, postdot: map<nat, Postdot>)
    requires RulesOk(g) && TokensOk(toks) && forall e :: e in sets ==> e < cur
    requires ItemsOk(g, toks, work, cur) && AllPresent(g, toks, sets, work, cur)
    ensures Exact(g, toks, sets[cur := EarleySet(work, postdot)], cur)
  {
    hide Valid, ItemsOk, PresentIn, RulesOk, TokensOk;
    var sets' := sets[cur := EarleySet(work, postdot)];
    forall r: nat, q: nat, i: nat | Valid(g, toks, r, q, i, cur)
      ensures PresentIn(g, sets', work, r, q, i, cur)
    {
      ValidForward(g, toks, r, q, i, cur);
      PresentNow(g, sets, sets', work, r, q, i, cur);
    }
  }

  lemma {:induction false} PresentNow(g: Grammar, sets: Sets, sets': Sets, work: seq<Item>, r: nat, q: nat, i: nat, cur: nat)
    requires PresentIn(g, sets, work, r, q, i, cur) && i <= cur && (i < cur || q == 0)
    requires RulesOk(g) && forall m :: m < cur ==> (m in sets' <==> m in sets) && (m in sets ==> sets'[m] == sets[m])
    ensures PresentIn(g, sets', work, r, q, i, cur)
  {
  }

  /** Reading a token does not change what is valid so far. */
  lemma {:induction false} RunningRead(g: Grammar, toks: set<Token>, sets: Sets, links: Links, alts: seq<Alternative>, current: nat, furthest: nat, latest: nat,
                    alt: Alternative, point: nat, furthest': nat)
    requires Running(g, toks, sets, links, alts, current, furthest, latest)
    requires point <= |alts| && Sorted(Inserted(alts, alt, point)) && alt.tok.from < alt.tok.to && current < alt.tok.to <= furthest' && furthest <= furthest'
    ensures Running(g, toks + {alt.tok}, sets, links, Inserted(alts, alt, point), current, furthest', latest)
  {
    hide Queued, Past, LinksExact, Distinct, Inserted, Sorted, CompleteClosed;
    InsertedQueued(toks, alts, current, furthest, alt, point, furthest');
    PastRead(g, toks, sets, current + 1, alt.tok);
    forall e | e in sets
      ensures Recorded(g, toks + {alt.tok}, sets, links, e)
    {
      assert Recorded(g, toks, sets, links, e) && e <= current by {
        RunningParts(g, toks, sets, links, alts, current, furthest, latest);
        PastGrammar(g, toks, sets, current + 1);
      }
      assert EndingAt(toks + {alt.tok}, e) == EndingAt(toks, e);
      assert ScanClosed(toks + {alt.tok}, sets, sets[e].items, e);
    }
  }

  lemma {:induction false} PastRead(g: Grammar, toks: set<Token>, sets: Sets, cur: nat, tok: Token)
    requires Past(g, toks, sets, cur) && tok.from < tok.to && cur <= tok.to
    ensures Past(g, toks + {tok}, sets, cur)
  {
    hide Exact, PimsOk, LimsOk;
    forall e: nat | e < cur
      ensures Exact(g, toks + {tok}, sets, e)
    {
      ExactLater(g, toks, toks + {tok}, sets, sets, e);
    }
  }

  // ---- Popping the queue ----

  lemma {:induction false} ScanNothing(g: Grammar, toks: set<Token>, sets: Sets, cur: nat, links: Links)
    requires forall x :: x in links ==> x.at < cur
    ensures Building(g, toks, sets, cur, [], links, {}, {})
    ensures Grown(cur, [], links, [], links)
  {
  }

  /** The tokens popped so far: a tail of the queue, all scanned. */
  ghost predicate Popping(toks: set<Token>, sets: Sets, alts0: seq<Alternative>, alts: seq<Alternative>, cur: nat, popped: set<Token>, work: seq<Item>) {
    && |alts| <= |alts0| && alts == alts0[..|alts|]
    && (forall k :: k in popped <==> exists i :: |alts| <= i < |alts0| && alts0[i].tok == k)
    && (|alts| < |alts0| ==> alts0[|alts|].tok.to <= cur)
    && (forall k :: k in popped ==> Scanned(sets, work, cur, k))
  }

  /** Exactly the tokens that end at `cur` have left the queue. */
  ghost predicate Delivered(toks: set<Token>, alts0: seq<Alternative>, alts: seq<Alternative>, cur: nat, furthest: nat) {
    && Queued(toks, alts, cur, furthest)
    && |alts| <= |alts0| && alts == alts0[..|alts|]
    && (forall i :: |alts| <= i < |alts0| ==> alts0[i].tok.to == cur)
    && (forall k :: k in EndingAt(toks, cur) <==> exists i :: |alts| <= i < |alts0| && alts0[i].tok == k)
  }

  lemma {:induction false} PopStart(toks: set<Token>, alts: seq<Alternative>, cur: nat, furthest: nat)
    ensures forall sets: Sets :: Popping(toks, sets, alts, alts, cur, {}, [])
  {
    assert alts[..|alts|] == alts;
  }

  lemma {:induction false} PopOne(toks: set<Token>, sets: Sets, alts0: seq<Alternative>, alts: seq<Alternative>, cur: nat, furthest: nat, popped: set<Token>, work: seq<Item>)
    requires cur > 0 && Queued(toks, alts0, cur - 1, furthest) && Popping(toks, sets, alts0, alts, cur, popped, work)
    requires alts != [] && alts[|alts| - 1].tok.to <= cur
    ensures var tok := alts[|alts| - 1].tok; tok in toks && tok.to == cur && tok !in popped
  {
    var k := |alts| - 1;
    assert alts[k] == alts0[k];
    assert forall i :: k < i < |alts0| ==> Cmp(alts0[k].tok, alts0[i].tok) < 0;
  }

  lemma {:induction false} PopScanned(toks: set<Token>, sets: Sets, alts0: seq<Alternative>, alts: seq<Alternative>, alts': seq<Alternative>, cur: nat, popped: set<Token>,
                   work: seq<Item>, links: Links, work': seq<Item>, links': Links)
    requires Popping(toks, sets, alts0, alts, cur, popped, work)
    requires alts != [] && alts' == alts[..|alts| - 1] && alts[|alts| - 1].tok.to <= cur
    requires Scanned(sets, work', cur, alts[|alts| - 1].tok) && Grown(cur, work, links, work', links')
    ensures Popping(toks, sets, alts0, alts', cur, popped + {alts[|alts| - 1].tok}, work')
  {
    var n := |alts| - 1;
    assert alts[n] == alts0[n];
    forall k
      ensures k in popped + {alts[n].tok} <==> exists i :: n <= i < |alts0| && alts0[i].tok == k
    {
      if k == alts[n].tok {
        assert alts0[n].tok == k;
      }
    }
    forall k | k in popped
      ensures Scanned(sets, work', cur, k)
    {
      assert Scanned(sets, work, cur, k);
    }
  }

  lemma {:induction false} PopEnd(toks: set<Token>, sets: Sets, alts0: seq<Alternative>, alts: seq<Alternative>, cur: nat, furthest: nat, popped: set<Token>, work: seq<Item>)
    requires cur > 0 && Queued(toks, alts0, cur - 1, furthest) && Popping(toks, sets, alts0, alts, cur, popped, work)
    requires alts == [] || alts[|alts| - 1].tok.to > cur
    ensures Delivered(toks, alts0, alts, cur, furthest)
    ensures popped == EndingAt(toks, cur) && ScanClosed(toks, sets, work, cur)
  {
    assert |alts| > 0 ==> alts[|alts| - 1] == alts0[|alts| - 1];
    PoppedQueued(toks, alts0, cur, furthest, |alts|);
  }

  lemma {:induction false} GrownTwice(cur: nat, work0: seq<Item>, links0: Links, work1: seq<Item>, links1: Links, work2: seq<Item>, links2: Links)
    requires Grown(cur, work0, links0, work1, links1) && Grown(cur, work1, links1, work2, links2)
    ensures Grown(cur, work0, links0, work2, links2)
  {
  }

  lemma {:induction false} GrownNot(cur: nat, work: seq<Item>, links: Links)
    ensures Grown(cur, work, links, work, links)
  {
  }
}
