/** The postdot lists and Leo items of a finished set. */
module PostdotSets {
  import opened Options
  import opened Grammars
  import opened Derivations
  import opened EarleySets
  import opened LeoItems
  import opened SetBuilding
  import opened Predictions

  // ---- Postdot items of the current set ----

  lemma {:induction false} ListsBounded(g: Grammar, work: seq<Item>, area: map<nat, seq<Item>>)
    requires Lists(g, work, area)
    ensures forall s :: s in area ==> s < g.nsyCount
  {
  }

  lemma {:induction false} NoLeoItems(g: Grammar, sets: Sets, area: map<nat, seq<Item>>, work: seq<Item>, cur: nat)
    ensures Chains(g, sets, area, work, cur, map[]) && AllPopulated(map[]) && AllJustified(g, sets, cur, map[])
  {
  }

  ghost predicate AllPopulated(lims: map<nat, Lim>) {
    forall s :: s in lims ==> lims[s].origin.Some?
  }

  lemma {:induction false} LimsKeys(lims0: map<nat, Lim>, lims: map<nat, Lim>)
    requires SameBases(lims0, lims) && forall s :: s in lims0 ==> lims[s].origin.Some?
    ensures AllPopulated(lims)
  {
  }

  /** The rule of an item is predicted where it starts, so something waits there. */
  lemma {:induction false} ParentWaits(g: Grammar, toks: set<Token>, sets: Sets, area: map<nat, seq<Item>>, work: seq<Item>, cur: nat, h: Item)
    requires Past(g, toks, sets, cur) && Lists(g, work, area) && AllPresent(g, toks, sets, work, cur)
    requires h in work && h.at == cur && ItemOk(g, toks, h) && g.ahms[h.ahm].irl != g.startIrl
    ensures if h.origin < cur then h.origin in sets && Lhs(g, h.ahm) in sets[h.origin].postdot
            else Lhs(g, h.ahm) in area
  {
    PastGrammar(g, toks, sets, cur);
    var r, i := g.ahms[h.ahm].irl, h.origin;
    ValidForward(g, toks, r, g.ahms[h.ahm].quasi, i, cur);
    var p :| RouteFor(g, toks, p, r, i);
    var r', q, from := p.irl, p.q, p.from;
    RouteIsPrediction(g, toks, p.up, r', from);
    assert Spans(g, toks, r', q, from, i);
    assert Valid(g, toks, r', q, from, i);
    ParentListed(g, toks, sets, area, work, cur, r', q, from, i);
  }

  lemma {:induction false} InSomeList(sets: Sets, m: nat, s: nat, x: Item)
    requires x in Pims(sets, m, s)
    ensures m in sets && s in sets[m].postdot
  {
  }

  lemma {:induction false} ParentListed(g: Grammar, toks: set<Token>, sets: Sets, area: map<nat, seq<Item>>, work: seq<Item>, cur: nat, r: nat, q: nat, from: nat, i: nat)
    requires Past(g, toks, sets, cur) && Lists(g, work, area) && AllPresent(g, toks, sets, work, cur)
    requires Valid(g, toks, r, q, from, i) && q < |P(g, r)| && i <= cur
    ensures if i < cur then i in sets && P(g, r)[q] in sets[i].postdot else P(g, r)[q] in area
  {
    hide *;
    PastGrammar(g, toks, sets, cur);
    if i < cur {
      ExactBefore(g, toks, sets, cur, i);
      Waiting(g, toks, sets, r, q, from, i);
      InSomeList(sets, i, P(g, r)[q], Item(AhmOf(g, r, q), from, i));
    } else {
      PresentWork(g, toks, sets, work, cur, r, q, from);
      InArea(g, work, area, r, q, Item(AhmOf(g, r, q), from, cur));
    }
  }

  lemma {:induction false} ExactBefore(g: Grammar, toks: set<Token>, sets: Sets, cur: nat, i: nat)
    requires Past(g, toks, sets, cur) && i < cur
    ensures Exact(g, toks, sets, i) && (i in sets ==> PimsOk(g, sets[i].items, sets[i].postdot))
  {
    hide Exact, PimsOk, LimsOk, GrammarOk;
  }

  lemma {:induction false} PresentWork(g: Grammar, toks: set<Token>, sets: Sets, work: seq<Item>, cur: nat, r: nat, q: nat, i: nat)
    requires AllPresent(g, toks, sets, work, cur) && Valid(g, toks, r, q, i, cur) && q < |P(g, r)|
    ensures Item(AhmOf(g, r, q), i, cur) in work && IsItem(g, r, q)
  {
    assert PresentIn(g, sets, work, r, q, i, cur);
    hide Valid, P;
  }

  lemma {:induction false} InArea(g: Grammar, work: seq<Item>, area: map<nat, seq<Item>>, r: nat, q: nat, x: Item)
    requires AhmsOk(g) && Lists(g, work, area) && x in work && IsItem(g, r, q) && q < |P(g, r)| && x.ahm == AhmOf(g, r, q)
    ensures P(g, r)[q] in area
  {
    AhmCase(g, AhmOf(g, r, q));
    hide P;
  }

  /** What populating the Leo items needs. */
  lemma {:induction false} LeoReady(g: Grammar, toks: set<Token>, sets: Sets, area: map<nat, seq<Item>>, work: seq<Item>, cur: nat, lims: map<nat, Lim>)
    requires Past(g, toks, sets, cur) && ItemsOk(g, toks, work, cur) && Lists(g, work, area) && AllPresent(g, toks, sets, work, cur)
    requires forall s :: s in lims <==> s in area && Eligible(g, area[s])
    requires forall s :: s in lims ==> s in area && area[s] != [] && lims[s] == Fresh(area[s][0])
    ensures Finished(g, sets, cur) && Chains(g, sets, area, work, cur, lims)
    ensures ParentsWait(g, sets, area, cur) && NotStart(g, lims) && AllJustified(g, sets, cur, lims)
  {
    hide Settled, ItemOk, Eligible, AllPresent, AhmsOk, EventsOk, LeoCompletion, LimRooted, Past;
    PastFinished(g, toks, sets, cur);
    WorkOrigins(g, toks, sets, work, cur);
    FreshBases(g, area, work, cur, lims);
    forall s, h | s in area && h in area[s] && h.ahm < |g.ahms| && g.ahms[h.ahm].irl < |g.irls| && g.ahms[h.ahm].irl != g.startIrl
      ensures if h.origin < cur then h.origin in sets && Lhs(g, h.ahm) in sets[h.origin].postdot else Lhs(g, h.ahm) in area
    {
      ParentWaits(g, toks, sets, area, work, cur, h);
    }
    EligibleNotStart(g, area, lims);
  }

  lemma {:induction false} PastFinished(g: Grammar, toks: set<Token>, sets: Sets, cur: nat)
    requires Past(g, toks, sets, cur)
    ensures Finished(g, sets, cur) && AhmsOk(g) && |g.leo| == |g.irls| && g.startIrl < |g.irls| && !g.leo[g.startIrl]
  {
  }

  lemma {:induction false} WorkOrigins(g: Grammar, toks: set<Token>, sets: Sets, work: seq<Item>, cur: nat)
    requires Past(g, toks, sets, cur) && ItemsOk(g, toks, work, cur)
    ensures forall x :: x in work ==> x.at == cur && x.origin <= cur
  {
    PastGrammar(g, toks, sets, cur);
    forall x | x in work
      ensures x.origin <= cur
    {
      ValidForward(g, toks, g.ahms[x.ahm].irl, g.ahms[x.ahm].quasi, x.origin, cur);
    }
  }

  lemma {:induction false} EligibleNotStart(g: Grammar, area: map<nat, seq<Item>>, lims: map<nat, Lim>)
    requires g.startIrl < |g.leo| && !g.leo[g.startIrl]
    requires forall s :: s in lims <==> s in area && Eligible(g, area[s])
    requires forall s :: s in lims ==> s in area && area[s] != [] && lims[s] == Fresh(area[s][0])
    ensures NotStart(g, lims)
  {
  }

  /** The finished lists and Leo items of the current set. */
  lemma {:induction false} PostdotOk(g: Grammar, sets: Sets, area: map<nat, seq<Item>>, work: seq<Item>, cur: nat, lims: map<nat, Lim>, postdot: map<nat, Postdot>)
    requires Lists(g, work, area) && Chains(g, sets, area, work, cur, lims) && AllPopulated(lims) && AllJustified(g, sets, cur, lims)
    requires forall e :: e in sets ==> e < cur
    requires postdot == map s | s in area :: Postdot(if s in lims then Some(lims[s]) else None, area[s])
    ensures PimsOk(g, work, postdot)
    ensures LimsOk(g, sets[cur := EarleySet(work, postdot)], cur)
    ensures lims == map[] ==> forall s :: s in postdot ==> postdot[s].lim.None?
  {
    hide Chains, LimLocal, LimRooted, LimExact, AllJustified, Distinct;
    var sets' := sets[cur := EarleySet(work, postdot)];
    forall s | LimAt(sets', cur, s).Some?
      ensures LimLocal(g, sets', cur, s, LimAt(sets', cur, s).value)
      ensures LimExact(g, sets', cur, s, LimAt(sets', cur, s).value)
      ensures LimRooted(g, sets', cur, s, LimAt(sets', cur, s).value)
    {
      LimPlaced(g, sets, area, work, cur, lims, postdot, s);
      LimIsExact(g, sets, area, work, cur, lims, postdot, s);
    }
  }

  // ---- Where Leo items are ----

  ghost predicate Waits(g: Grammar, h: Item, s: nat) {
    h.ahm < |g.ahms| && g.ahms[h.ahm].postdot == s
  }

  /** One item waits for the symbol and no other does, just before the end of a right-recursive rule. */
  ghost predicate LeoDue(g: Grammar, items: seq<Item>, s: nat) {
    exists h :: h in items && OnlyWaits(g, items, h, s) && LeoCompletion(g, h.ahm + 1)
  }

  ghost predicate OnlyWaits(g: Grammar, items: seq<Item>, h: Item, s: nat) {
    Waits(g, h, s) && forall x :: x in items && Waits(g, x, s) ==> x == h
  }

  /** A set has a Leo item exactly where one is due. */
  ghost predicate LimsWhereDue(g: Grammar, items: seq<Item>, postdot: map<nat, Postdot>) {
    forall s: nat :: s in postdot && postdot[s].lim.Some? <==> LeoDue(g, items, s)
  }

  /** That is so of every set after the first. */
  ghost predicate LimsDue(g: Grammar, sets: Sets) {
    forall e: nat :: e in sets && e > 0 ==> LimsWhereDue(g, sets[e].items, sets[e].postdot)
  }

  lemma {:induction false} LimsDueNow(g: Grammar, sets: Sets, cur: nat, work: seq<Item>, postdot: map<nat, Postdot>)
    requires LimsDue(g, sets) && LimsWhereDue(g, work, postdot)
    ensures LimsDue(g, sets[cur := EarleySet(work, postdot)])
  {
    hide LimsWhereDue;
  }

  lemma {:induction false} DueIsEligible(g: Grammar, work: seq<Item>, area: map<nat, seq<Item>>, s: nat)
    requires AhmsOk(g) && Lists(g, work, area)
    ensures LeoDue(g, work, s) <==> s in area && Eligible(g, area[s])
  {
    if s in area && Eligible(g, area[s]) {
      var h := area[s][0];
      assert area[s] == [h] && h in area[s];
      AhmCase(g, h.ahm);
      hide AhmsOk;
      assert OnlyWaits(g, work, h, s);
    }
    if h :| h in work && OnlyWaits(g, work, h, s) && LeoCompletion(g, h.ahm + 1) {
      AhmCase(g, h.ahm);
      hide AhmsOk;
      assert h in area[s];
      assert forall x :: x in area[s] ==> Waits(g, x, s);
      assert |area[s]| > 1 ==> area[s][0] in area[s] && area[s][1] in area[s] && area[s][0] != area[s][1];
    }
  }

  /** With Leo items made for the eligible symbols, they are where they are due. */
  lemma {:induction false} MadeWhereDue(g: Grammar, work: seq<Item>, area: map<nat, seq<Item>>, lims0: map<nat, Lim>, lims: map<nat, Lim>, postdot: map<nat, Postdot>)
    requires AhmsOk(g) && Lists(g, work, area) && SameBases(lims0, lims)
    requires forall s :: s in lims0 <==> s in area && Eligible(g, area[s])
    requires postdot == map s | s in area :: Postdot(if s in lims then Some(lims[s]) else None, area[s])
    ensures LimsWhereDue(g, work, postdot)
  {
    hide AhmsOk, Eligible, Lists, LeoDue;
    forall s: nat
      ensures s in postdot && postdot[s].lim.Some? <==> LeoDue(g, work, s)
    {
      DueIsEligible(g, work, area, s);
      assert s in lims <==> s in lims0;
    }
  }

  lemma {:induction false} LimPlaced(g: Grammar, sets: Sets, area: map<nat, seq<Item>>, work: seq<Item>, cur: nat, lims: map<nat, Lim>, postdot: map<nat, Postdot>, s: nat)
    requires Chains(g, sets, area, work, cur, lims) && AllPopulated(lims) && s in lims && s in area
    requires forall e :: e in sets ==> e < cur
    requires postdot == map x | x in area :: Postdot(if x in lims then Some(lims[x]) else None, area[x])
    ensures LimLocal(g, sets[cur := EarleySet(work, postdot)], cur, s, lims[s])
    ensures LimRooted(g, sets[cur := EarleySet(work, postdot)], cur, s, lims[s])
  {
    hide LimRooted, LeoCompletion, Chains, EventsOk;
    assert postdot == PostdotOf(area, lims);
    var lim := lims[s];
    ChainFacts(g, sets, area, work, cur, lims, s);
    if lim.pred.Some? {
      if lim.pred.value.sym in lims {
        ChainFacts(g, sets, area, work, cur, lims, lim.pred.value.sym);
      }
    }
  }

  lemma {:induction false} LimIsExact(g: Grammar, sets: Sets, area: map<nat, seq<Item>>, work: seq<Item>, cur: nat, lims: map<nat, Lim>, postdot: map<nat, Postdot>, s: nat)
    requires Chains(g, sets, area, work, cur, lims) && AllPopulated(lims) && AllJustified(g, sets, cur, lims) && s in lims
    requires forall e :: e in sets ==> e < cur
    requires postdot == map x | x in area :: Postdot(if x in lims then Some(lims[x]) else None, area[x])
    ensures LimExact(g, sets[cur := EarleySet(work, postdot)], cur, s, lims[s])
  {
    hide LimRooted, LeoCompletion, Linked, EventsOf;
    var sets' := sets[cur := EarleySet(work, postdot)];
    var up := PredKey(g, lims[s].trailhead);
    assert Base(g, area, cur, s, lims[s]) && Justified(g, sets, cur, lims, s);
    assert forall x :: x in lims ==> Base(g, area, cur, x, lims[x]) && x in area;
    hide Base, Chains, Justified;
    assert forall x :: x in lims ==> LimAt(sets', cur, x) == Some(lims[x]);
    if lims[s].pred.None? && LimAt(sets', up.at, up.sym).Some? {
      BackInSet(g, sets, cur, lims, s, sets');
    }
  }

  lemma {:induction false} BackInSet(g: Grammar, sets: Sets, cur: nat, lims: map<nat, Lim>, s: nat, sets': Sets)
    requires s in lims && lims[s].origin.Some? && lims[s].pred.None? && Justified(g, sets, cur, lims, s)
    requires forall x :: x in lims ==> LimAt(sets', cur, x) == Some(lims[x])
    requires var up := PredKey(g, lims[s].trailhead);
             up.at <= cur && LimAt(sets', up.at, up.sym).Some? && Lookup(sets, lims, cur, up) == LimAt(sets', up.at, up.sym)
    ensures PredKey(g, lims[s].trailhead).at == cur && LeadsBack(sets', cur, PredKey(g, lims[s].trailhead).sym, s)
  {
    var up := PredKey(g, lims[s].trailhead);
    var chain :| LinkChain(lims, cur, chain) && chain[0] == up.sym && chain[|chain| - 1] == s;
    assert PredChain(sets', cur, chain);
  }
}
