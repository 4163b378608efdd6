/** postdot_items_create: the lists of items by the symbol after the dot, and the
    Leo items with their chains. */
module LeoItems {
  import opened Options
  import opened Grammars
  import opened Derivations
  import opened EarleySets
  import opened EventLists

  // ---- Postdot items ----

  /** The items of a set by the symbol after the dot, latest first. */
  ghost predicate Lists(g: Grammar, items: seq<Item>, area: map<nat, seq<Item>>) {
    && (forall s :: s in area ==> area[s] != [] && s < g.nsyCount && Distinct(area[s]))
    && (forall s, x :: s in area && x in area[s] ==>
         x in items && x.ahm < |g.ahms| && g.ahms[x.ahm].postdot == s)
    && (forall x :: x in items && x.ahm < |g.ahms| && g.ahms[x.ahm].postdot >= 0 ==>
         g.ahms[x.ahm].postdot in area && x in area[g.ahms[x.ahm].postdot])
  }

  method PostdotLists(g: Grammar, work: seq<Item>) returns (area: map<nat, seq<Item>>)
    requires SymbolsOk(g) && Distinct(work) && forall x :: x in work ==> x.ahm < |g.ahms|
    ensures Lists(g, work, area)
  {
    area := map[];
    for ix := 0 to |work|
      invariant Lists(g, work[..ix], area)
    {
      var x := work[ix];
      var s := g.ahms[x.ahm].postdot;
      assert x in work;
      assert work[..ix + 1] == work[..ix] + [x];
      if s >= 0 {
        var listed := if s in area then area[s] else [];
        area := area[s := [x] + listed];
      }
    }
    assert work[..|work|] == work;
  }

  // ---- Leo items ----

  /** A Leo item by key: in a finished set, or among those of the current one. */
  function Lookup(sets: Sets, lims: map<nat, Lim>, cur: nat, key: LimKey): Option<Lim> {
    if key.at < cur then LimAt(sets, key.at, key.sym)
    else if key.sym in lims then Some(lims[key.sym]) else None
  }

  /** The trailhead is the only item of its list and is one step from completion. */
  ghost predicate Base(g: Grammar, area: map<nat, seq<Item>>, cur: nat, s: nat, lim: Lim) {
    var h := lim.trailhead;
    && s in area && area[s] == [h] && s < g.nsyCount
    && h.ahm < |g.ahms| && g.ahms[h.ahm].irl < |g.irls| && g.ahms[h.ahm].postdot == s
    && LeoCompletion(g, h.ahm + 1)
    && h.at == cur && h.origin <= cur
  }

  ghost predicate Bases(g: Grammar, area: map<nat, seq<Item>>, cur: nat, lims: map<nat, Lim>) {
    forall s :: s in lims ==> Base(g, area, cur, s, lims[s])
  }

  /** Some item waits for the left-hand side of each listed item's rule where that
      rule started, so the lookup of a predecessor always finds a list. */
  ghost predicate ParentsWait(g: Grammar, sets: Sets, area: map<nat, seq<Item>>, cur: nat) {
    forall s, h :: s in area && h in area[s] && h.ahm < |g.ahms| && g.ahms[h.ahm].irl < |g.irls| && g.ahms[h.ahm].irl != g.startIrl ==>
      if h.origin < cur then h.origin in sets && Lhs(g, h.ahm) in sets[h.origin].postdot
      else Lhs(g, h.ahm) in area
  }

  /** A symbol gets a Leo item when exactly one item waits for it, in a Leo rule,
      and is one step from completion. */
  predicate Eligible(g: Grammar, list: seq<Item>) {
    && |list| == 1
    && list[0].ahm + 1 < |g.ahms| && Complete(g, list[0].ahm + 1)
    && g.ahms[list[0].ahm].irl < |g.leo| && g.leo[g.ahms[list[0].ahm].irl]
  }

  /** A Leo item as first created: its own top, not yet populated. */
  function Fresh(base: Item): Lim {
    Lim(base, base.ahm + 1, None, None, [])
  }

  method PotentialLeoItems(g: Grammar, area: map<nat, seq<Item>>) returns (lims: map<nat, Lim>)
    requires forall s :: s in area ==> s < g.nsyCount
    ensures forall s :: s in lims <==> s in area && Eligible(g, area[s])
    ensures forall s :: s in lims ==> s in area && area[s] != [] && lims[s] == Fresh(area[s][0])
  {
    lims := map[];
    for nsy := 0 to g.nsyCount
      invariant forall s :: s in lims <==> s in area && s < nsy && Eligible(g, area[s])
      invariant forall s :: s in lims ==> s in area && area[s] != [] && lims[s] == Fresh(area[s][0])
    {
      if nsy in area && Eligible(g, area[nsy]) {
        lims := lims[nsy := Fresh(area[nsy][0])];
      }
    }
  }

  lemma {:induction false} FreshBases(g: Grammar, area: map<nat, seq<Item>>, work: seq<Item>, cur: nat, lims: map<nat, Lim>)
    requires AhmsOk(g) && |g.leo| == |g.irls| && Lists(g, work, area)
    requires forall x :: x in work ==> x.at == cur && x.origin <= cur
    requires forall s :: s in lims <==> s in area && Eligible(g, area[s])
    requires forall s :: s in lims ==> s in area && area[s] != [] && lims[s] == Fresh(area[s][0])
    ensures Bases(g, area, cur, lims)
    ensures forall s :: s in lims ==> lims[s].trailhead in work && Unpopulated(lims[s])
  {
    forall s | s in lims
      ensures Base(g, area, cur, s, lims[s]) && lims[s].trailhead in work && Unpopulated(lims[s])
    {
      FreshBase(g, area, work, cur, s);
    }
  }

  lemma {:induction false} FreshBase(g: Grammar, area: map<nat, seq<Item>>, work: seq<Item>, cur: nat, s: nat)
    requires AhmsOk(g) && Lists(g, work, area) && s in area && Eligible(g, area[s])
    requires forall x :: x in work ==> x.at == cur && x.origin <= cur
    ensures Base(g, area, cur, s, Fresh(area[s][0])) && area[s][0] in work
  {
    assert area[s][0] in area[s];
    AhmCase(g, area[s][0].ahm);
  }

  // ---- Populating the Leo items ----

  /** The postdot lists, with the Leo items that are populated. */
  function PostdotOf(area: map<nat, seq<Item>>, lims: map<nat, Lim>): map<nat, Postdot> {
    map s | s in area :: Postdot(if s in lims && lims[s].origin.Some? then Some(lims[s]) else None, area[s])
  }

  /** The sets with the one under construction as far as it has come. */
  ghost function WithLims(sets: Sets, cur: nat, area: map<nat, seq<Item>>, work: seq<Item>, lims: map<nat, Lim>): Sets {
    sets[cur := EarleySet(work, PostdotOf(area, lims))]
  }

  /** What is true of a populated Leo item of the current set. */
  ghost predicate Linked(g: Grammar, sets: Sets, lims: map<nat, Lim>, cur: nat, lim: Lim) {
    && lim.origin.Some?
    && match lim.pred
       case None => lim.top == lim.trailhead.ahm + 1 && lim.origin.value == lim.trailhead.origin
       case Some(key) =>
         && key == PredKey(g, lim.trailhead)
         && Lookup(sets, lims, cur, key).Some?
         && Lookup(sets, lims, cur, key).value.origin == lim.origin
         && Lookup(sets, lims, cur, key).value.top == lim.top
  }

  ghost predicate Unpopulated(lim: Lim) {
    lim.origin.None? && lim.pred.None? && lim.top == lim.trailhead.ahm + 1
  }

  /** The state of the Leo items while they are being populated. */
  ghost predicate Chains(g: Grammar, sets: Sets, area: map<nat, seq<Item>>, work: seq<Item>, cur: nat, lims: map<nat, Lim>) {
    && Bases(g, area, cur, lims)
    && (forall s :: s in lims ==> lims[s].trailhead in work)
    && (forall s :: s in lims && lims[s].origin.None? ==> Unpopulated(lims[s]))
    && (forall s :: s in lims && lims[s].origin.Some? ==>
         && Linked(g, sets, lims, cur, lims[s])
         && LimRooted(g, WithLims(sets, cur, area, work, lims), cur, s, lims[s]))
  }

  /** Finished sets have only well-formed Leo items, and the current one is new. */
  ghost predicate Finished(g: Grammar, sets: Sets, cur: nat) {
    && cur !in sets && AhmsOk(g) && EventsOk(g)
    && forall e :: e in sets && e < cur ==> LimsOk(g, sets, e)
  }

  /** Only origin, top and predecessor change while populating. */
  ghost predicate SameBases(lims: map<nat, Lim>, lims': map<nat, Lim>) {
    && lims'.Keys == lims.Keys
    && (forall s :: s in lims ==> lims'[s].trailhead == lims[s].trailhead)
    && (forall s :: s in lims && lims[s].origin.Some? ==> lims'[s] == lims[s])
  }

  /** Items and Leo items only get more. */
  ghost predicate Enlarges(sets: Sets, sets': Sets) {
    && (forall e :: e in sets ==> e in sets' && sets'[e].items == sets[e].items)
    && (forall m, s :: LimAt(sets, m, s).Some? ==> LimAt(sets', m, s) == LimAt(sets, m, s))
  }

  lemma {:induction false} LeoPathLater(g: Grammar, sets: Sets, sets': Sets, path: seq<Item>, m: nat, s: nat, top: nat, origin: nat)
    requires Enlarges(sets, sets')
    ensures LeoPath(g, sets, path, m, s, top, origin) ==> LeoPath(g, sets', path, m, s, top, origin)
    ensures PredPath(g, sets, path, m, s) ==> PredPath(g, sets', path, m, s)
    decreases |path|
  {
    if |path| > 1 {
      LeoPathLater(g, sets, sets', path[1..], path[0].origin, Lhs(g, path[0].ahm), top, origin);
    }
  }

  lemma {:induction false} LimRootedLater(g: Grammar, sets: Sets, sets': Sets, m: nat, s: nat, lim: Lim)
    requires Enlarges(sets, sets') && LimRooted(g, sets, m, s, lim)
    ensures LimRooted(g, sets', m, s, lim)
  {
    hide Enlarges;
    var path :| Rooted(g, sets, path, m, s, lim);
    LeoPathLater(g, sets, sets', path, m, s, lim.top, lim.origin.value);
    assert Rooted(g, sets', path, m, s, lim);
  }

  /** A Leo item that is its own top. */
  lemma {:induction false} RootOwn(g: Grammar, sets: Sets, m: nat, s: nat, h: Item, lim: Lim)
    requires h.at == m && m in sets && h in sets[m].items
    requires h.ahm < |g.ahms| && g.ahms[h.ahm].irl < |g.irls| && g.ahms[h.ahm].postdot == s
    requires LeoCompletion(g, h.ahm + 1)
    requires LimAt(sets, m, s) == Some(lim) && lim.trailhead == h && lim.pred == None
    requires lim.origin == Some(h.origin) && lim.top == h.ahm + 1 && Listing(lim.cil, EventsOf(g.events, [h.ahm + 1]))
    ensures LimRooted(g, sets, m, s, lim)
  {
    assert LeoPath(g, sets, [h], m, s, lim.top, h.origin);
    assert Trailheads([h]) == [h.ahm + 1] + Trailheads([]);
    assert Trailheads([h]) == [h.ahm + 1];
    assert Rooted(g, sets, [h], m, s, lim);
  }

  /** A Leo item that goes on to its predecessor. */
  lemma {:induction false} RootExtend(g: Grammar, sets: Sets, m: nat, s: nat, h: Item, lim: Lim, up: Lim, path: seq<Item>)
    requires h.at == m && m in sets && h in sets[m].items
    requires h.ahm < |g.ahms| && g.ahms[h.ahm].irl < |g.irls| && g.ahms[h.ahm].postdot == s
    requires LeoCompletion(g, h.ahm + 1)
    requires Rooted(g, sets, path, h.origin, Lhs(g, h.ahm), up)
    requires LimAt(sets, m, s) == Some(lim) && lim.trailhead == h && lim.pred == Some(PredKey(g, h))
    requires lim.origin == up.origin && lim.top == up.top && Listing(lim.cil, EventsOf(g.events, [h.ahm + 1] + Trailheads(path)))
    ensures LimRooted(g, sets, m, s, lim)
  {
    var longer := [h] + path;
    assert longer[1..] == path;
    hide Listing;
    assert LeoPath(g, sets, longer, m, s, lim.top, lim.origin.value);
    assert PredPath(g, sets, longer, m, s);
    assert Rooted(g, sets, longer, m, s, lim);
  }

  // ---- The chain of a Leo item ----

  /** The dotted rule after a trailhead completes the last symbol of its rule. */
  lemma {:induction false} TrailheadRule(g: Grammar, h: Item, s: nat)
    requires AhmsOk(g) && h.ahm < |g.ahms| && g.ahms[h.ahm].irl < |g.irls| && g.ahms[h.ahm].postdot == s
    requires LeoCompletion(g, h.ahm + 1)
    ensures h.ahm + 1 < |g.ahms| && g.ahms[h.ahm + 1].irl == g.ahms[h.ahm].irl
    ensures LastOf(g, g.ahms[h.ahm + 1].irl) == s && Lhs(g, h.ahm + 1) == Lhs(g, h.ahm)
  {
    AhmCase(g, h.ahm);
    AhmCase(g, h.ahm + 1);
  }

  /** The dotted rules that the trailheads of a path complete are a chain along right recursion. */
  lemma {:induction false} PathIsChain(g: Grammar, sets: Sets, path: seq<Item>, m: nat, s: nat, top: nat, origin: nat)
    requires AhmsOk(g) && LeoPath(g, sets, path, m, s, top, origin)
    ensures RightChain(g, Trailheads(path)) && Trailheads(path)[|Trailheads(path)| - 1] == top
    ensures Trailheads(path)[0] < |g.ahms| && LastOf(g, g.ahms[Trailheads(path)[0]].irl) == s
    decreases |path|
  {
    hide LastOf, AhmsOk, Lhs, LeoCompletion, Under;
    var h := path[0];
    TrailheadRule(g, h, s);
    if |path| > 1 {
      PathIsChain(g, sets, path[1..], h.origin, Lhs(g, h.ahm), top, origin);
      IsUnder(g, Trailheads(path[1..])[0], h.ahm + 1);
      ChainLonger(g, h.ahm + 1, Trailheads(path[1..]));
    } else {
      assert path[1..] == [];
      assert Trailheads(path) == [h.ahm + 1];
    }
  }

  lemma {:induction false} IsUnder(g: Grammar, upper: nat, lower: nat)
    requires upper < |g.ahms| && LastOf(g, g.ahms[upper].irl) == Lhs(g, lower)
    ensures Under(g, upper, lower)
  {
  }

  lemma {:induction false} ChainLonger(g: Grammar, a: nat, chain: seq<nat>)
    requires RightChain(g, chain) && LeoCompletion(g, a) && Under(g, chain[0], a)
    ensures RightChain(g, [a] + chain)
  {
    hide Under;
    var longer := [a] + chain;
    forall k | 0 <= k < |longer| - 1
      ensures Under(g, longer[k + 1], longer[k])
    {
      if k > 0 {
        assert Under(g, chain[k - 1 + 1], chain[k - 1]);
      }
    }
  }

  /** Populates one Leo item, from its predecessor if that is populated, otherwise
      with its own trailhead. */
  method PopulateOne(g: Grammar, sets: Sets, ghost area: map<nat, seq<Item>>, ghost work: seq<Item>, cur: nat,
                     lims: map<nat, Lim>, s: nat, pred: Option<LimKey>) returns (lims': map<nat, Lim>)
    requires Finished(g, sets, cur) && Chains(g, sets, area, work, cur, lims)
    requires s in lims && lims[s].origin.None?
    requires pred.Some? ==> pred.value == PredKey(g, lims[s].trailhead) && Lookup(sets, lims, cur, pred.value).Some?
    ensures Chains(g, sets, area, work, cur, lims') && SameBases(lims, lims')
    ensures lims'[s].origin.Some?
    ensures forall x :: x in lims && x != s ==> lims'[x] == lims[x]
    ensures lims'[s].pred == if IsPopulated(sets, lims, cur, pred) then pred else None
  {
    hide Finished, Chains, Listing, EventsOk, RightChain, PredKey, Rooted;
    var lim := lims[s];
    if pred.Some? && Lookup(sets, lims, cur, pred.value).value.origin.Some? {
      var up := Lookup(sets, lims, cur, pred.value).value;
      ghost var path := UpPath(g, sets, area, work, cur, lims, s, pred.value);
      var cil := EventList(g, lim.trailhead.ahm + 1, up.top, up.cil, Trailheads(path));
      lims' := lims[s := Lim(lim.trailhead, up.top, up.origin, pred, cil)];
      PopulatedFrom(g, sets, area, work, cur, lims, s, pred.value, path, cil);
    } else {
      var cil := OwnEvents(g, lim.trailhead.ahm + 1);
      lims' := lims[s := Lim(lim.trailhead, lim.top, Some(lim.trailhead.origin), None, cil)];
      PopulatedOwn(g, sets, area, work, cur, lims, s, cil);
    }
  }

  /** What the state says of one Leo item. */
  lemma {:induction false} ChainFacts(g: Grammar, sets: Sets, area: map<nat, seq<Item>>, work: seq<Item>, cur: nat, lims: map<nat, Lim>, s: nat)
    requires Chains(g, sets, area, work, cur, lims) && s in lims
    ensures Base(g, area, cur, s, lims[s]) && lims[s].trailhead in work && s in area
    ensures lims[s].origin.None? ==> Unpopulated(lims[s])
    ensures lims[s].origin.Some? ==> LimRooted(g, WithLims(sets, cur, area, work, lims), cur, s, lims[s])
    ensures lims[s].origin.Some? ==> Linked(g, sets, lims, cur, lims[s])
  {
    assert Base(g, area, cur, s, lims[s]);
  }

  lemma {:induction false} FinishedFacts(g: Grammar, sets: Sets, area: map<nat, seq<Item>>, work: seq<Item>, cur: nat, lims: map<nat, Lim>)
    requires Finished(g, sets, cur)
    ensures AhmsOk(g) && EventsOk(g) && Enlarges(sets, WithLims(sets, cur, area, work, lims))
    ensures forall e: nat, x: nat :: e < cur && LimAt(sets, e, x).Some? ==> LimRooted(g, sets, e, x, LimAt(sets, e, x).value)
  {
    hide LimRooted, LimLocal, AhmsOk, EventsOk;
    forall e: nat, x: nat | e < cur && LimAt(sets, e, x).Some?
      ensures LimRooted(g, sets, e, x, LimAt(sets, e, x).value)
    {
      assert LimsOk(g, sets, e);
    }
  }

  /** The predecessor path of a populated predecessor, and the chain that it and the new one make. */
  lemma {:induction false} UpPath(g: Grammar, sets: Sets, area: map<nat, seq<Item>>, work: seq<Item>, cur: nat, lims: map<nat, Lim>, s: nat, key: LimKey)
    returns (path: seq<Item>)
    requires Finished(g, sets, cur) && Chains(g, sets, area, work, cur, lims) && s in lims
    requires key == PredKey(g, lims[s].trailhead) && Lookup(sets, lims, cur, key).Some? && Lookup(sets, lims, cur, key).value.origin.Some?
    ensures var up, a := Lookup(sets, lims, cur, key).value, lims[s].trailhead.ahm + 1;
            && Rooted(g, WithLims(sets, cur, area, work, lims), path, key.at, key.sym, up)
            && RightChain(g, Trailheads(path)) && RightChain(g, [a] + Trailheads(path))
            && up.top == Trailheads(path)[|Trailheads(path)| - 1] && Listing(up.cil, EventsOf(g.events, Trailheads(path)))
            && EventsOk(g)
  {
    hide Chains, Finished, RightChain, Listing, EventsOk, Trailheads, LastOf, AhmsOk, WithLims, Enlarges, PredPath, LeoPath, LeoCompletion, Lhs;
    var all, up, h := WithLims(sets, cur, area, work, lims), Lookup(sets, lims, cur, key).value, lims[s].trailhead;
    ChainFacts(g, sets, area, work, cur, lims, s);
    FinishedFacts(g, sets, area, work, cur, lims);
    if key.at < cur {
      LimRootedLater(g, sets, all, key.at, key.sym, up);
    } else {
      ChainFacts(g, sets, area, work, cur, lims, key.sym);
    }
    path :| Rooted(g, all, path, key.at, key.sym, up);
    PathIsChain(g, all, path, key.at, key.sym, up.top, up.origin.value);
    TrailheadRule(g, h, s);
    ChainLonger(g, h.ahm + 1, Trailheads(path));
  }

  lemma {:induction false} PopulatedFrom(g: Grammar, sets: Sets, area: map<nat, seq<Item>>, work: seq<Item>, cur: nat, lims: map<nat, Lim>, s: nat,
                      key: LimKey, path: seq<Item>, cil: seq<nat>)
    requires Chains(g, sets, area, work, cur, lims) && s in lims && lims[s].origin.None?
    requires key == PredKey(g, lims[s].trailhead) && Lookup(sets, lims, cur, key).Some? && Lookup(sets, lims, cur, key).value.origin.Some?
    requires Rooted(g, WithLims(sets, cur, area, work, lims), path, key.at, key.sym, Lookup(sets, lims, cur, key).value)
    requires Listing(cil, EventsOf(g.events, [lims[s].trailhead.ahm + 1] + Trailheads(path)))
    ensures var up := Lookup(sets, lims, cur, key).value;
            Chains(g, sets, area, work, cur, lims[s := Lim(lims[s].trailhead, up.top, up.origin, Some(key), cil)])
  {
    hide Chains, Listing, Enlarges, WithLims, PredPath, LeoPath, LeoCompletion, Trailheads, EventsOf;
    var up, h := Lookup(sets, lims, cur, key).value, lims[s].trailhead;
    var lim := Lim(h, up.top, up.origin, Some(key), cil);
    var all, all' := WithLims(sets, cur, area, work, lims), WithLims(sets, cur, area, work, lims[s := lim]);
    ChainFacts(g, sets, area, work, cur, lims, s);
    OneMore(sets, area, work, cur, lims, s, lim);
    LeoPathLater(g, all, all', path, key.at, key.sym, up.top, up.origin.value);
    assert Rooted(g, all', path, key.at, key.sym, up);
    RootExtend(g, all', cur, s, h, lim, up, path);
    hide Rooted;
    ChainsGrow(g, sets, area, work, cur, lims, s, lim);
  }

  lemma {:induction false} PopulatedOwn(g: Grammar, sets: Sets, area: map<nat, seq<Item>>, work: seq<Item>, cur: nat, lims: map<nat, Lim>, s: nat, cil: seq<nat>)
    requires Chains(g, sets, area, work, cur, lims) && s in lims && lims[s].origin.None?
    requires Listing(cil, EventsOf(g.events, [lims[s].trailhead.ahm + 1]))
    ensures Chains(g, sets, area, work, cur, lims[s := Lim(lims[s].trailhead, lims[s].top, Some(lims[s].trailhead.origin), None, cil)])
  {
    hide Chains, Listing, Enlarges, WithLims, EventsOf, LeoCompletion;
    var h := lims[s].trailhead;
    var lim := Lim(h, lims[s].top, Some(h.origin), None, cil);
    ChainFacts(g, sets, area, work, cur, lims, s);
    OneMore(sets, area, work, cur, lims, s, lim);
    RootOwn(g, WithLims(sets, cur, area, work, lims[s := lim]), cur, s, h, lim);
    ChainsGrow(g, sets, area, work, cur, lims, s, lim);
  }

  /** One more Leo item is populated. */
  lemma {:induction false} OneMore(sets: Sets, area: map<nat, seq<Item>>, work: seq<Item>, cur: nat, lims: map<nat, Lim>, s: nat, lim: Lim)
    requires s in lims && lims[s].origin.None? && lim.origin.Some? && s in area
    ensures Enlarges(WithLims(sets, cur, area, work, lims), WithLims(sets, cur, area, work, lims[s := lim]))
    ensures LimAt(WithLims(sets, cur, area, work, lims[s := lim]), cur, s) == Some(lim)
    ensures cur in WithLims(sets, cur, area, work, lims[s := lim]) && WithLims(sets, cur, area, work, lims[s := lim])[cur].items == work
  {
  }

  lemma {:induction false} ChainsGrow(g: Grammar, sets: Sets, area: map<nat, seq<Item>>, work: seq<Item>, cur: nat, lims: map<nat, Lim>, s: nat, lim: Lim)
    requires Chains(g, sets, area, work, cur, lims) && s in lims && lims[s].origin.None?
    requires lim.origin.Some? && lim.trailhead == lims[s].trailhead
    requires Linked(g, sets, lims[s := lim], cur, lim) && LimRooted(g, WithLims(sets, cur, area, work, lims[s := lim]), cur, s, lim)
    ensures Chains(g, sets, area, work, cur, lims[s := lim])
  {
    hide LimRooted, WithLims;
    var lims' := lims[s := lim];
    assert Base(g, area, cur, s, lims[s]);
    OneMore(sets, area, work, cur, lims, s, lim);
    forall x | x in lims' && lims'[x].origin.Some?
      ensures Linked(g, sets, lims', cur, lims'[x]) && LimRooted(g, WithLims(sets, cur, area, work, lims'), cur, x, lims'[x])
    {
      if x != s {
        LimRootedLater(g, WithLims(sets, cur, area, work, lims), WithLims(sets, cur, area, work, lims'), cur, x, lims[x]);
      }
    }
    forall x | x in lims'
      ensures Base(g, area, cur, x, lims'[x])
    {
      assert Base(g, area, cur, x, lims[x]);
    }
  }

  // ---- Chains ----

  /** The key of a Leo item's predecessor, if there is a Leo item at that place.
      The list it looks in exists, because some item waits there. */
  method FindPredecessor(g: Grammar, sets: Sets, area: map<nat, seq<Item>>, cur: nat, lims: map<nat, Lim>, s: nat)
    returns (pred: Option<LimKey>)
    requires Bases(g, area, cur, lims) && s in lims
    requires ParentsWait(g, sets, area, cur) && g.ahms[lims[s].trailhead.ahm].irl != g.startIrl
    ensures pred == PredOf(g, sets, lims, cur, s)
  {
    var h := lims[s].trailhead;
    assert Base(g, area, cur, s, lims[s]);
    assert h in area[s];
    var key := PredKey(g, lims[s].trailhead);
    if key.at < cur {
      var postdot := sets[key.at].postdot[key.sym];
      pred := if postdot.lim.Some? then Some(key) else None;
    } else {
      assert key.sym in area;
      pred := if key.sym in lims then Some(key) else None;
    }
  }

  function PredOf(g: Grammar, sets: Sets, lims: map<nat, Lim>, cur: nat, s: nat): Option<LimKey> {
    if s in lims && Lookup(sets, lims, cur, PredKey(g, lims[s].trailhead)).Some? then Some(PredKey(g, lims[s].trailhead)) else None
  }

  predicate IsPopulated(sets: Sets, lims: map<nat, Lim>, cur: nat, key: Option<LimKey>) {
    key.Some? && Lookup(sets, lims, cur, key.value).Some? && Lookup(sets, lims, cur, key.value).value.origin.Some?
  }

  /** A chain of unpopulated Leo items of the current set, each the predecessor of
      the one before; no symbol enters it twice. */
  ghost predicate ChainOk(g: Grammar, sets: Sets, lims: map<nat, Lim>, cur: nat, chain: seq<nat>) {
    && (forall k :: 0 <= k < |chain| ==> chain[k] in lims && lims[chain[k]].origin.None?)
    && Distinct(chain)
    && (forall k :: 0 <= k < |chain| - 1 ==> PredOf(g, sets, lims, cur, chain[k]) == Some(LimKey(cur, chain[k + 1])))
  }

  ghost predicate NotStart(g: Grammar, lims: map<nat, Lim>) {
    forall s :: s in lims ==> lims[s].trailhead.ahm < |g.ahms| && g.ahms[lims[s].trailhead.ahm].irl != g.startIrl
  }

  /** Leo items of finished sets are all populated. */
  ghost predicate PastPopulated(sets: Sets, cur: nat) {
    forall e: nat, x: nat :: e < cur && LimAt(sets, e, x).Some? ==> LimAt(sets, e, x).value.origin.Some?
  }

  lemma {:induction false} FinishedPopulated(g: Grammar, sets: Sets, cur: nat)
    requires Finished(g, sets, cur)
    ensures PastPopulated(sets, cur)
  {
    forall e: nat, x: nat | e < cur && LimAt(sets, e, x).Some?
      ensures LimAt(sets, e, x).value.origin.Some?
    {
      assert LimsOk(g, sets, e);
    }
  }

  /** An unpopulated predecessor is a Leo item of the current set. */
  lemma {:induction false} UnpopulatedHere(g: Grammar, sets: Sets, area: map<nat, seq<Item>>, cur: nat, lims: map<nat, Lim>, s: nat, key: LimKey)
    requires Bases(g, area, cur, lims) && PastPopulated(sets, cur) && s in lims
    requires PredOf(g, sets, lims, cur, s) == Some(key) && !IsPopulated(sets, lims, cur, Some(key))
    ensures key.at == cur && key.sym in lims && lims[key.sym].origin.None?
  {
    assert Base(g, area, cur, s, lims[s]);
  }

  /** Follows predecessors from `s` until there is none, a populated one, or one
      already in the chain.  `ok` holds the symbols that may still enter a chain. */
  method BuildChain(g: Grammar, sets: Sets, area: map<nat, seq<Item>>, cur: nat, lims: map<nat, Lim>, s: nat, first: LimKey, ok: set<nat>)
    returns (chain: seq<nat>, pred: Option<LimKey>, ok': set<nat>)
    requires Bases(g, area, cur, lims) && ParentsWait(g, sets, area, cur) && NotStart(g, lims)
    requires PastPopulated(sets, cur)
    requires s in lims && lims[s].origin.None? && PredOf(g, sets, lims, cur, s) == Some(first)
    requires !IsPopulated(sets, lims, cur, Some(first))
    requires forall x :: x in lims && lims[x].origin.None? ==> x in ok
    ensures ChainOk(g, sets, lims, cur, chain) && chain != [] && chain[0] == s
    ensures |chain| <= |lims|
    ensures pred == PredOf(g, sets, lims, cur, chain[|chain| - 1])
    ensures pred.None? || IsPopulated(sets, lims, cur, pred) || (pred.value.at == cur && pred.value.sym in chain)
    ensures forall x :: x in ok ==> x in ok' || x in chain
  {
    hide Bases, ParentsWait, PastPopulated, PredOf, IsPopulated;
    chain := [s];
    ok' := ok - {s};
    pred := Some(first);
    while true
      invariant ChainOk(g, sets, lims, cur, chain) && chain != [] && chain[0] == s
      invariant pred.Some? && pred == PredOf(g, sets, lims, cur, chain[|chain| - 1])
      invariant !IsPopulated(sets, lims, cur, pred)
      invariant forall x :: x in ok ==> (x in ok' <==> x !in chain)
      decreases |ok'|
    {
      UnpopulatedHere(g, sets, area, cur, lims, chain[|chain| - 1], pred.value);
      var l := pred.value.sym;
      if l !in ok' {
        break;
      }
      pred := FindPredecessor(g, sets, area, cur, lims, l);
      chain := chain + [l];
      ok' := ok' - {l};
      if pred.None? || IsPopulated(sets, lims, cur, pred) {
        break;
      }
    }
    ChainShort(chain, lims.Keys);
  }

  lemma {:induction false} ChainShort(chain: seq<nat>, all: set<nat>)
    requires Distinct(chain) && forall k :: 0 <= k < |chain| ==> chain[k] in all
    ensures |chain| <= |all|
  {
    if chain != [] {
      var k := |chain| - 1;
      forall j | 0 <= j < k
        ensures chain[..k][j] in all - {chain[k]}
      {
      }
      ChainShort(chain[..k], all - {chain[k]});
    }
  }

  /** Populates a chain from its far end. */
  method PopulateChain(g: Grammar, sets: Sets, ghost area: map<nat, seq<Item>>, ghost work: seq<Item>, cur: nat,
                       lims: map<nat, Lim>, chain: seq<nat>, far: Option<LimKey>) returns (lims': map<nat, Lim>)
    requires Finished(g, sets, cur) && Chains(g, sets, area, work, cur, lims)
    requires ChainOk(g, sets, lims, cur, chain) && chain != []
    requires far == PredOf(g, sets, lims, cur, chain[|chain| - 1])
    ensures Chains(g, sets, area, work, cur, lims') && SameBases(lims, lims')
    ensures forall k :: 0 <= k < |chain| ==> lims'[chain[k]].origin.Some?
    ensures forall k :: 0 <= k < |chain| - 1 ==> lims'[chain[k]].pred == Some(LimKey(cur, chain[k + 1]))
    ensures lims'[chain[|chain| - 1]].pred == if IsPopulated(sets, lims, cur, far) then far else None
    ensures forall x :: x in lims && x !in chain ==> lims'[x] == lims[x]
  {
    hide *;
    SameBasesSelf(lims);
    lims' := lims;
    var pred := far;
    var ix := |chain|;
    PopulatingStart(g, sets, lims, cur, chain, far);
    while ix > 0
      invariant 0 <= ix <= |chain| && Chains(g, sets, area, work, cur, lims') && SameBases(lims, lims')
      invariant Populating(sets, lims, lims', cur, chain, ix, far)
      invariant pred == if ix == |chain| then far else Some(LimKey(cur, chain[ix]))
    {
      ix := ix - 1;
      ChainAt(g, sets, lims, cur, chain, ix, far);
      ghost var before := lims';
      PopulatingAt(sets, lims, lims', cur, chain, ix, far);
      SamePredOf(g, sets, area, work, lims, lims', cur, chain[ix]);
      lims' := PopulateOne(g, sets, area, work, cur, lims', chain[ix], pred);
      PopulatingNext(g, sets, lims, before, lims', cur, chain, ix, far);
      SameBasesThen(lims, before, lims');
      pred := Some(LimKey(cur, chain[ix]));
    }
    PopulatingEnd(sets, lims, lims', cur, chain, far);
  }

  /** The chain is populated from `ix` on: each from the next, the last from `far` if that can be. */
  ghost predicate Populating(sets: Sets, lims: map<nat, Lim>, lims': map<nat, Lim>, cur: nat, chain: seq<nat>, ix: nat, far: Option<LimKey>) {
    && ix <= |chain| && (forall k :: 0 <= k < |chain| ==> chain[k] in lims' && chain[k] in lims)
    && (forall k :: 0 <= k < ix ==> lims'[chain[k]].origin.None?)
    && (forall k :: ix <= k < |chain| ==> lims'[chain[k]].origin.Some?)
    && (forall k :: ix <= k < |chain| - 1 ==> lims'[chain[k]].pred == Some(LimKey(cur, chain[k + 1])))
    && (ix < |chain| ==> lims'[chain[|chain| - 1]].pred == if IsPopulated(sets, lims, cur, far) then far else None)
    && (ix == |chain| ==> lims' == lims)
    && (forall x :: x in lims && x !in chain ==> x in lims' && lims'[x] == lims[x])
  }

  lemma {:induction false} PopulatingStart(g: Grammar, sets: Sets, lims: map<nat, Lim>, cur: nat, chain: seq<nat>, far: Option<LimKey>)
    requires ChainOk(g, sets, lims, cur, chain)
    ensures Populating(sets, lims, lims, cur, chain, |chain|, far)
  {
  }

  lemma {:induction false} ChainAt(g: Grammar, sets: Sets, lims: map<nat, Lim>, cur: nat, chain: seq<nat>, ix: nat, far: Option<LimKey>)
    requires ChainOk(g, sets, lims, cur, chain) && ix < |chain| && far == PredOf(g, sets, lims, cur, chain[|chain| - 1])
    ensures PredOf(g, sets, lims, cur, chain[ix]) == if ix == |chain| - 1 then far else Some(LimKey(cur, chain[ix + 1]))
    ensures Distinct(chain)
  {
    hide PredOf;
  }

  lemma {:induction false} PopulatingAt(sets: Sets, lims: map<nat, Lim>, lims': map<nat, Lim>, cur: nat, chain: seq<nat>, ix: nat, far: Option<LimKey>)
    requires Populating(sets, lims, lims', cur, chain, ix + 1, far)
    ensures ix < |chain| && chain[ix] in lims && chain[ix] in lims' && lims'[chain[ix]].origin.None?
  {
  }

  lemma {:induction false} PopulatingNext(g: Grammar, sets: Sets, lims: map<nat, Lim>, lims1: map<nat, Lim>, lims2: map<nat, Lim>, cur: nat,
                                          chain: seq<nat>, ix: nat, far: Option<LimKey>)
    requires Populating(sets, lims, lims1, cur, chain, ix + 1, far) && ix < |chain| && Distinct(chain) && SameBases(lims1, lims2)
    requires lims2[chain[ix]].origin.Some? && forall x :: x in lims1 && x != chain[ix] ==> lims2[x] == lims1[x]
    requires var pred := if ix == |chain| - 1 then far else Some(LimKey(cur, chain[ix + 1]));
             lims2[chain[ix]].pred == if IsPopulated(sets, lims1, cur, pred) then pred else None
    ensures Populating(sets, lims, lims2, cur, chain, ix, far)
  {
    if ix < |chain| - 1 {
      assert IsPopulated(sets, lims1, cur, Some(LimKey(cur, chain[ix + 1])));
    }
    hide IsPopulated;
  }

  lemma {:induction false} PopulatingEnd(sets: Sets, lims: map<nat, Lim>, lims': map<nat, Lim>, cur: nat, chain: seq<nat>, far: Option<LimKey>)
    requires Populating(sets, lims, lims', cur, chain, 0, far) && chain != []
    ensures forall k :: 0 <= k < |chain| ==> lims'[chain[k]].origin.Some?
    ensures forall k :: 0 <= k < |chain| - 1 ==> lims'[chain[k]].pred == Some(LimKey(cur, chain[k + 1]))
    ensures lims'[chain[|chain| - 1]].pred == if IsPopulated(sets, lims, cur, far) then far else None
    ensures forall x :: x in lims && x !in chain ==> lims'[x] == lims[x]
  {
  }

  // ---- Who has no predecessor ----

  /** Leo items of the current set, each the predecessor of the one before. */
  ghost predicate LinkChain(lims: map<nat, Lim>, cur: nat, chain: seq<nat>) {
    chain != [] && forall k :: 0 <= k < |chain| - 1 ==> chain[k] in lims && lims[chain[k]].pred == Some(LimKey(cur, chain[k + 1]))
  }

  ghost predicate LinksBack(lims: map<nat, Lim>, cur: nat, from: nat, to: nat) {
    exists chain :: LinkChain(lims, cur, chain) && chain[0] == from && chain[|chain| - 1] == to
  }

  /** If the Leo item is populated without a predecessor, there is none to be had, or it is in a
      cycle that had to be cut. */
  ghost predicate Justified(g: Grammar, sets: Sets, cur: nat, lims: map<nat, Lim>, s: nat) {
    s in lims && lims[s].origin.Some? && lims[s].pred.None? ==>
      var up := PredKey(g, lims[s].trailhead);
      Lookup(sets, lims, cur, up).None? || (up.at == cur && LinksBack(lims, cur, up.sym, s))
  }

  ghost predicate AllJustified(g: Grammar, sets: Sets, cur: nat, lims: map<nat, Lim>) {
    forall s :: s in lims ==> Justified(g, sets, cur, lims, s)
  }

  ghost predicate PredsPopulated(lims: map<nat, Lim>) {
    forall s :: s in lims && lims[s].origin.None? ==> lims[s].pred.None?
  }

  lemma {:induction false} ChainsPopulated(g: Grammar, sets: Sets, area: map<nat, seq<Item>>, work: seq<Item>, cur: nat, lims: map<nat, Lim>)
    requires Chains(g, sets, area, work, cur, lims)
    ensures PredsPopulated(lims)
  {
    hide LimRooted, Linked, Base;
  }

  /** What has been justified stays so. */
  lemma {:induction false} StillJustified(g: Grammar, sets: Sets, cur: nat, lims: map<nat, Lim>, lims': map<nat, Lim>, s: nat)
    requires SameBases(lims, lims') && PredsPopulated(lims) && s in lims && lims[s].origin.Some? && Justified(g, sets, cur, lims, s)
    ensures Justified(g, sets, cur, lims', s)
  {
    var up := PredKey(g, lims[s].trailhead);
    if LinksBack(lims, cur, up.sym, s) {
      var chain :| LinkChain(lims, cur, chain) && chain[0] == up.sym && chain[|chain| - 1] == s;
      assert LinkChain(lims', cur, chain);
    }
  }

  /** One more Leo item, with its predecessor or with none to be had. */
  lemma {:induction false} OneJustified(g: Grammar, sets: Sets, cur: nat, lims: map<nat, Lim>, lims': map<nat, Lim>, s: nat)
    requires SameBases(lims, lims') && PredsPopulated(lims) && AllJustified(g, sets, cur, lims) && s in lims
    requires forall x :: x in lims && x != s ==> lims'[x] == lims[x]
    requires PredOf(g, sets, lims, cur, s).Some? ==> lims'[s].pred.Some?
    ensures AllJustified(g, sets, cur, lims')
  {
    hide Justified;
    forall x | x in lims'
      ensures Justified(g, sets, cur, lims', x)
    {
      if x == s {
        NothingThere(g, sets, cur, lims, lims', s);
      } else if lims[x].origin.Some? {
        StillJustified(g, sets, cur, lims, lims', x);
      } else {
        NotYetJustified(g, sets, cur, lims', x);
      }
    }
  }

  lemma {:induction false} NotYetJustified(g: Grammar, sets: Sets, cur: nat, lims: map<nat, Lim>, s: nat)
    requires s in lims && (lims[s].origin.None? || lims[s].pred.Some?)
    ensures Justified(g, sets, cur, lims, s)
  {
  }

  lemma {:induction false} NothingThere(g: Grammar, sets: Sets, cur: nat, lims: map<nat, Lim>, lims': map<nat, Lim>, s: nat)
    requires SameBases(lims, lims') && s in lims && (PredOf(g, sets, lims, cur, s).Some? ==> lims'[s].pred.Some?)
    ensures Justified(g, sets, cur, lims', s)
  {
  }

  /** A whole chain: only its far end can be without a predecessor, and if it could have had one,
      the chain leads from there to it. */
  lemma {:induction false} ChainJustified(g: Grammar, sets: Sets, cur: nat, lims: map<nat, Lim>, lims': map<nat, Lim>, chain: seq<nat>, far: Option<LimKey>)
    requires SameBases(lims, lims') && PredsPopulated(lims) && AllJustified(g, sets, cur, lims) && chain != []
    requires forall k :: 0 <= k < |chain| ==> chain[k] in lims
    requires forall x :: x in lims && x !in chain ==> lims'[x] == lims[x]
    requires forall k :: 0 <= k < |chain| - 1 ==> lims'[chain[k]].pred == Some(LimKey(cur, chain[k + 1]))
    requires far == PredOf(g, sets, lims, cur, chain[|chain| - 1])
    requires lims'[chain[|chain| - 1]].pred == if IsPopulated(sets, lims, cur, far) then far else None
    requires far.None? || IsPopulated(sets, lims, cur, far) || (far.value.at == cur && far.value.sym in chain)
    ensures AllJustified(g, sets, cur, lims')
  {
    hide Justified, PredOf, IsPopulated;
    var n := |chain| - 1;
    forall x | x in lims'
      ensures Justified(g, sets, cur, lims', x)
    {
      if x !in chain {
        if lims[x].origin.Some? {
          StillJustified(g, sets, cur, lims, lims', x);
        } else {
          NotYetJustified(g, sets, cur, lims', x);
        }
      } else {
        var k :| 0 <= k <= n && chain[k] == x;
        if k < n {
          assert lims'[chain[k]].pred == Some(LimKey(cur, chain[k + 1]));
          NotYetJustified(g, sets, cur, lims', x);
        } else if IsPopulated(sets, lims, cur, far) {
          IsSome(sets, lims, cur, far);
          NotYetJustified(g, sets, cur, lims', x);
        } else if far.None? {
          NothingThere(g, sets, cur, lims, lims', x);
        } else {
          var j :| 0 <= j <= n && chain[j] == far.value.sym;
          CutJustified(g, sets, cur, lims, lims', chain, far.value, j);
        }
      }
    }
  }

  lemma {:induction false} IsSome(sets: Sets, lims: map<nat, Lim>, cur: nat, far: Option<LimKey>)
    ensures IsPopulated(sets, lims, cur, far) ==> far.Some?
  {
  }

  lemma {:induction false} CutJustified(g: Grammar, sets: Sets, cur: nat, lims: map<nat, Lim>, lims': map<nat, Lim>, chain: seq<nat>, far: LimKey, j: nat)
    requires SameBases(lims, lims') && j < |chain| && chain[j] == far.sym && far.at == cur
    requires forall k :: 0 <= k < |chain| ==> chain[k] in lims
    requires forall k :: 0 <= k < |chain| - 1 ==> lims'[chain[k]].pred == Some(LimKey(cur, chain[k + 1]))
    requires PredOf(g, sets, lims, cur, chain[|chain| - 1]) == Some(far)
    ensures Justified(g, sets, cur, lims', chain[|chain| - 1])
  {
    hide Lookup;
    assert LinkChain(lims', cur, chain[j..]);
  }

  lemma {:induction false} SameBasesSelf(lims: map<nat, Lim>)
    ensures SameBases(lims, lims)
  {
  }

  lemma {:induction false} SameBasesThen(lims: map<nat, Lim>, lims1: map<nat, Lim>, lims2: map<nat, Lim>)
    requires SameBases(lims, lims1) && SameBases(lims1, lims2)
    ensures SameBases(lims, lims2) && lims2.Keys == lims.Keys
  {
  }

  /** Populating does not change which places are predecessors. */
  lemma {:induction false} SamePredOf(g: Grammar, sets: Sets, area: map<nat, seq<Item>>, work: seq<Item>, lims: map<nat, Lim>, lims': map<nat, Lim>, cur: nat, s: nat)
    requires Chains(g, sets, area, work, cur, lims) && SameBases(lims, lims') && s in lims
    ensures PredOf(g, sets, lims', cur, s) == PredOf(g, sets, lims, cur, s)
    ensures PredOf(g, sets, lims', cur, s).Some? ==>
              && PredOf(g, sets, lims', cur, s).value == PredKey(g, lims'[s].trailhead)
              && Lookup(sets, lims', cur, PredOf(g, sets, lims', cur, s).value).Some?
  {
    hide Chains;
    ChainFacts(g, sets, area, work, cur, lims, s);
  }

  /** Every Leo item of the set is populated when this returns, cycles of
      predecessors included. */
  method PopulateLeoItems(g: Grammar, sets: Sets, area: map<nat, seq<Item>>, ghost work: seq<Item>, cur: nat, lims: map<nat, Lim>)
    returns (lims': map<nat, Lim>)
    requires Finished(g, sets, cur) && Chains(g, sets, area, work, cur, lims)
    requires ParentsWait(g, sets, area, cur) && NotStart(g, lims) && AllJustified(g, sets, cur, lims)
    ensures Chains(g, sets, area, work, cur, lims') && SameBases(lims, lims')
    ensures AllJustified(g, sets, cur, lims')
    ensures forall s :: s in lims ==> lims'[s].origin.Some?
  {
    hide Chains, Finished, ParentsWait, PredOf, IsPopulated, AllJustified;
    FinishedPopulated(g, sets, cur);
    lims' := lims;
    var ok := lims.Keys;
    for nsy := 0 to g.nsyCount
      invariant Chains(g, sets, area, work, cur, lims') && SameBases(lims, lims') && AllJustified(g, sets, cur, lims')
      invariant forall s :: s in lims && s < nsy ==> lims'[s].origin.Some?
      invariant forall s :: s in lims' && lims'[s].origin.None? ==> s in ok
    {
      if nsy in lims' && lims'[nsy].origin.None? {
        lims', ok := PopulateFrom(g, sets, area, work, cur, lims', nsy, ok);
      }
    }
    ChainsBases(g, sets, area, work, cur, lims');
  }

  lemma {:induction false} ChainsBases(g: Grammar, sets: Sets, area: map<nat, seq<Item>>, work: seq<Item>, cur: nat, lims: map<nat, Lim>)
    requires Chains(g, sets, area, work, cur, lims)
    ensures Bases(g, area, cur, lims)
    ensures forall s :: s in lims ==> s < g.nsyCount
  {
    assert forall s :: s in lims ==> Base(g, area, cur, s, lims[s]);
  }

  /** One turn of the main loop: the Leo item of `s`, with its chain if need be. */
  method PopulateFrom(g: Grammar, sets: Sets, area: map<nat, seq<Item>>, ghost work: seq<Item>, cur: nat, lims: map<nat, Lim>, s: nat, ok: set<nat>)
    returns (lims': map<nat, Lim>, ok': set<nat>)
    requires Finished(g, sets, cur) && Chains(g, sets, area, work, cur, lims)
    requires ParentsWait(g, sets, area, cur) && NotStart(g, lims) && PastPopulated(sets, cur)
    requires s in lims && lims[s].origin.None? && AllJustified(g, sets, cur, lims)
    requires forall x :: x in lims && lims[x].origin.None? ==> x in ok
    ensures Chains(g, sets, area, work, cur, lims') && SameBases(lims, lims')
    ensures lims'[s].origin.Some? && AllJustified(g, sets, cur, lims')
    ensures forall x :: x in lims' && lims'[x].origin.None? ==> x in ok'
  {
    hide Chains, Finished, ParentsWait, PredOf, IsPopulated, PastPopulated, AllJustified;
    ok' := ok;
    ChainsPopulated(g, sets, area, work, cur, lims);
    ChainsBases(g, sets, area, work, cur, lims);
    SamePredOf(g, sets, area, work, lims, lims, cur, s);
    var pred := FindPredecessor(g, sets, area, cur, lims, s);
    if pred.None? || IsPopulated(sets, lims, cur, pred) {
      lims' := PopulateOne(g, sets, area, work, cur, lims, s, pred);
      IsSome(sets, lims, cur, pred);
      OneJustified(g, sets, cur, lims, lims', s);
    } else {
      var chain, far;
      chain, far, ok' := BuildChain(g, sets, area, cur, lims, s, pred.value, ok);
      lims' := PopulateChain(g, sets, area, work, cur, lims, chain, far);
      ChainJustified(g, sets, cur, lims, lims', chain, far);
      assert s == chain[0];
    }
  }
}
