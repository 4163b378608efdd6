/** Earley sets as values, and the two facts about a set that the recognizer
    maintains: everything in it is valid, and nothing valid is missing except
    completions that a Leo item stands for. */
module EarleySets {
  import opened Options
  import opened Grammars
  import opened Derivations
  import opened EventLists

  /** An Earley item (YIM): a dotted rule, the earleme where it starts and the
      earleme of the set it is in.  An item is identified by its key. */
  datatype Item = Item(ahm: nat, origin: nat, at: nat)

  /** The place of a Leo item: its earleme and its transition symbol. */
  datatype LimKey = LimKey(at: nat, sym: nat)

  /** A Leo item (LIM).  `origin` is absent until the item is populated; `cil` lists the dotted
      rules with events that its effect would complete. */
  datatype Lim = Lim(trailhead: Item, top: nat, origin: Option<nat>, pred: Option<LimKey>, cil: seq<nat>)

  /** What follows a set's dots for one symbol: an optional Leo item, then the
      ordinary postdot items (PIMs), latest first. */
  datatype Postdot = Postdot(lim: Option<Lim>, pims: seq<Item>)

  datatype EarleySet = EarleySet(items: seq<Item>, postdot: map<nat, Postdot>)

  /** The Earley sets by earleme; not every earleme has one. */
  type Sets = map<nat, EarleySet>

  function Pims(sets: Sets, m: nat, s: nat): seq<Item> {
    if m in sets && s in sets[m].postdot then sets[m].postdot[s].pims else []
  }

  function LimAt(sets: Sets, m: nat, s: nat): Option<Lim> {
    if m in sets && s in sets[m].postdot then sets[m].postdot[s].lim else None
  }

  function Next(x: Item, j: nat): Item {
    Item(x.ahm + 1, x.origin, j)
  }

  /** The completed item that a populated Leo item puts into set `j`. */
  function Effect(lim: Lim, j: nat): Item {
    Item(lim.top, if lim.origin.Some? then lim.origin.value else 0, j)
  }

  ghost predicate ItemOk(g: Grammar, toks: set<Token>, x: Item) {
    x.ahm < |g.ahms| && Valid(g, toks, g.ahms[x.ahm].irl, g.ahms[x.ahm].quasi, x.origin, x.at)
  }

  ghost predicate ItemsOk(g: Grammar, toks: set<Token>, items: seq<Item>, j: nat) {
    forall x :: x in items ==> x.at == j && ItemOk(g, toks, x)
  }

  ghost predicate Distinct<T(!new)>(s: seq<T>) {
    forall a, b :: 0 <= a < b < |s| ==> s[a] != s[b]
  }

  lemma {:induction false} WorkShape(g: Grammar, toks: set<Token>, work: seq<Item>, cur: nat)
    requires ItemsOk(g, toks, work, cur)
    ensures forall x :: x in work ==> x.at == cur && x.ahm < |g.ahms|
  {
  }

  ghost predicate NoLims(sets: Sets) {
    forall m, s :: LimAt(sets, m, s).None?
  }

  /** The postdot lists of a set hold exactly its items, by the symbol after the dot. */
  ghost predicate PimsOk(g: Grammar, items: seq<Item>, postdot: map<nat, Postdot>) {
    && (forall s :: s in postdot ==> postdot[s].pims != [] && Distinct(postdot[s].pims))
    && (forall s, x :: s in postdot && x in postdot[s].pims ==>
         x in items && x.ahm < |g.ahms| && g.ahms[x.ahm].postdot == s)
    && (forall x :: x in items && x.ahm < |g.ahms| && g.ahms[x.ahm].postdot >= 0 ==>
         g.ahms[x.ahm].postdot in postdot && x in postdot[g.ahms[x.ahm].postdot].pims)
  }

  /** A Leo item belongs to the only dotted rule before its symbol, one step from
      completion, and either is its own top or shares the top of the Leo item
      for that rule's left-hand side, where that rule started. */
  ghost predicate LimLocal(g: Grammar, sets: Sets, m: nat, s: nat, lim: Lim) {
    var h := lim.trailhead;
    && Pims(sets, m, s) == [h]
    && h.ahm < |g.ahms| && g.ahms[h.ahm].postdot == s
    && LeoCompletion(g, h.ahm + 1)
    && g.ahms[h.ahm].irl < |g.irls|
    && lim.origin.Some?
    && match lim.pred
       case None => lim.top == h.ahm + 1 && lim.origin.value == h.origin
       case Some(key) =>
         && key == PredKey(g, h)
         && LimAt(sets, key.at, key.sym).Some?
         && LimAt(sets, key.at, key.sym).value.origin == lim.origin
         && LimAt(sets, key.at, key.sym).value.top == lim.top
  }

  /** Where the predecessor of a Leo item with this trailhead would be. */
  function PredKey(g: Grammar, h: Item): LimKey {
    LimKey(h.origin, Lhs(g, h.ahm))
  }

  /** The trailhead items from a Leo item up to its top, each one step from
      completing the symbol that the next one waits for. */
  ghost predicate LeoPath(g: Grammar, sets: Sets, path: seq<Item>, m: nat, s: nat, top: nat, origin: nat)
    decreases |path|
  {
    && path != []
    && var h := path[0];
    && h.at == m && m in sets && h in sets[m].items
    && h.ahm < |g.ahms| && g.ahms[h.ahm].irl < |g.irls| && g.ahms[h.ahm].postdot == s
    && LeoCompletion(g, h.ahm + 1)
    && if |path| == 1 then top == h.ahm + 1 && origin == h.origin
       else LeoPath(g, sets, path[1..], h.origin, Lhs(g, h.ahm), top, origin)
  }

  /** The trailheads met by following predecessors from a Leo item, up to one that has none. */
  ghost predicate PredPath(g: Grammar, sets: Sets, path: seq<Item>, m: nat, s: nat)
    decreases |path|
  {
    && path != [] && LimAt(sets, m, s).Some?
    && var lim := LimAt(sets, m, s).value;
    && lim.trailhead == path[0]
    && if |path| == 1 then lim.pred == None
       else lim.pred == Some(PredKey(g, path[0])) && PredPath(g, sets, path[1..], path[0].origin, Lhs(g, path[0].ahm))
  }

  /** The dotted rules that the trailheads of a path complete. */
  ghost function Trailheads(path: seq<Item>): seq<nat> {
    if path == [] then [] else [path[0].ahm + 1] + Trailheads(path[1..])
  }

  /** Following predecessors ends; the trailheads met on the way lead to the Leo item's top and
      origin, and its list has exactly the events of the dotted rules they complete. */
  ghost predicate Rooted(g: Grammar, sets: Sets, path: seq<Item>, m: nat, s: nat, lim: Lim) {
    && lim.origin.Some? && PredPath(g, sets, path, m, s)
    && LeoPath(g, sets, path, m, s, lim.top, lim.origin.value)
    && Listing(lim.cil, EventsOf(g.events, Trailheads(path)))
  }

  ghost predicate LimRooted(g: Grammar, sets: Sets, m: nat, s: nat, lim: Lim) {
    exists path :: Rooted(g, sets, path, m, s, lim)
  }

  /** Leo items of one set, each the predecessor of the one before. */
  ghost predicate PredChain(sets: Sets, m: nat, chain: seq<nat>) {
    chain != [] && forall k :: 0 <= k < |chain| - 1 ==>
      LimAt(sets, m, chain[k]).Some? && LimAt(sets, m, chain[k]).value.pred == Some(LimKey(m, chain[k + 1]))
  }

  /** Following predecessors inside set `m` leads from one symbol to the other. */
  ghost predicate LeadsBack(sets: Sets, m: nat, from: nat, to: nat) {
    exists chain :: PredChain(sets, m, chain) && chain[0] == from && chain[|chain| - 1] == to
  }

  /** A Leo item goes without a predecessor only if there is none where its rule started, or if
      following predecessors from there would lead back to it. */
  ghost predicate LimExact(g: Grammar, sets: Sets, m: nat, s: nat, lim: Lim) {
    var up := PredKey(g, lim.trailhead);
    && up.at <= m
    && (lim.pred.None? ==> LimAt(sets, up.at, up.sym).None? || (up.at == m && LeadsBack(sets, m, up.sym, s)))
  }

  ghost predicate LimsOk(g: Grammar, sets: Sets, m: nat) {
    forall s :: LimAt(sets, m, s).Some? ==>
      && LimLocal(g, sets, m, s, LimAt(sets, m, s).value)
      && LimExact(g, sets, m, s, LimAt(sets, m, s).value)
      && LimRooted(g, sets, m, s, LimAt(sets, m, s).value)
  }

  /** What the recognizer owes a valid item: the item itself, or, when it is a
      completion for which a Leo item waits, that Leo item's effect. */
  ghost predicate PresentIn(g: Grammar, sets: Sets, items: seq<Item>, r: nat, q: nat, i: nat, j: nat)
  {
    && IsItem(g, r, q)
    && if q < |P(g, r)| || LimAt(sets, i, g.irls[r].lhs).None?
       then Item(AhmOf(g, r, q), i, j) in items
       else Effect(LimAt(sets, i, g.irls[r].lhs).value, j) in items
  }

  ghost predicate Exact(g: Grammar, toks: set<Token>, sets: Sets, j: nat)
  {
    && (j in sets ==> ItemsOk(g, toks, sets[j].items, j))
    && (forall r: nat, q: nat, i: nat :: Valid(g, toks, r, q, i, j) ==>
         j in sets && PresentIn(g, sets, sets[j].items, r, q, i, j))
  }

  /** Sets before `cur` are exact and well formed. */
  ghost predicate Settled(g: Grammar, toks: set<Token>, sets: Sets, cur: nat) {
    && GrammarOk(g) && TokensOk(toks)
    && (forall e: nat :: e < cur ==> Exact(g, toks, sets, e))
    && (forall e :: e in sets && e < cur ==>
         PimsOk(g, sets[e].items, sets[e].postdot) && LimsOk(g, sets, e))
  }

  /** All sets are before `cur`, and they are exact. */
  ghost predicate Past(g: Grammar, toks: set<Token>, sets: Sets, cur: nat) {
    && Settled(g, toks, sets, cur)
    && forall e :: e in sets ==> e < cur
  }

  lemma {:induction false} PastPims(g: Grammar, toks: set<Token>, sets: Sets, cur: nat, m: nat, s: nat)
    requires Past(g, toks, sets, cur)
    ensures Distinct(Pims(sets, m, s))
    ensures forall p :: p in Pims(sets, m, s) ==>
              p.at == m && m < cur && p.ahm < |g.ahms| && g.ahms[p.ahm].postdot == s && ItemOk(g, toks, p)
  {
    if m in sets {
      assert m < cur;
      assert Exact(g, toks, sets, m);
      assert PimsOk(g, sets[m].items, sets[m].postdot);
    }
  }

  lemma {:induction false} PastItems(g: Grammar, toks: set<Token>, sets: Sets, cur: nat)
    requires Past(g, toks, sets, cur)
    ensures forall e, x :: e in sets && x in sets[e].items ==> ItemOk(g, toks, x)
  {
    forall e, x | e in sets && x in sets[e].items
      ensures ItemOk(g, toks, x)
    {
      assert Exact(g, toks, sets, e);
    }
  }

  lemma {:induction false} PastLim(g: Grammar, toks: set<Token>, sets: Sets, cur: nat, m: nat, s: nat)
    requires Past(g, toks, sets, cur) && LimAt(sets, m, s).Some?
    ensures LimLocal(g, sets, m, s, LimAt(sets, m, s).value) && LimRooted(g, sets, m, s, LimAt(sets, m, s).value)
    ensures LimExact(g, sets, m, s, LimAt(sets, m, s).value)
  {
    hide LimLocal, LimRooted, LimExact, Exact;
    assert LimsOk(g, sets, m);
  }

  lemma {:induction false} PastGrammar(g: Grammar, toks: set<Token>, sets: Sets, cur: nat)
    requires Past(g, toks, sets, cur)
    ensures AhmsOk(g) && RulesOk(g) && PredictionsOk(g) && SymbolsOk(g) && TokensOk(toks)
    ensures forall e :: e in sets ==> e < cur
  {
  }

  lemma {:induction false} ExactHas(g: Grammar, toks: set<Token>, sets: Sets, j: nat, r: nat, q: nat, i: nat)
    requires Exact(g, toks, sets, j) && Valid(g, toks, r, q, i, j)
    ensures j in sets && PresentIn(g, sets, sets[j].items, r, q, i, j)
  {
    hide Valid, PresentIn, ItemsOk;
  }

  /** What no Leo item waits for is present as itself. */
  lemma {:induction false} PresentItself(g: Grammar, sets: Sets, items: seq<Item>, x: Item)
    requires AhmsOk(g) && x.ahm < |g.ahms| && PresentIn(g, sets, items, g.ahms[x.ahm].irl, g.ahms[x.ahm].quasi, x.origin, x.at)
    requires g.ahms[x.ahm].postdot >= 0 || forall s :: LimAt(sets, x.origin, s).None?
    ensures x in items
  {
    AhmCase(g, x.ahm);
    hide P, LimAt, AhmsOk;
  }

  // ---- Closure of the set under construction ----

  ghost predicate Scanned(sets: Sets, work: seq<Item>, cur: nat, tok: Token) {
    forall x :: x in Pims(sets, tok.from, tok.sym) ==> Next(x, cur) in work
  }

  ghost predicate ScanClosed(toks: set<Token>, sets: Sets, work: seq<Item>, cur: nat) {
    forall k :: k in toks && k.to == cur ==> Scanned(sets, work, cur, k)
  }

  /** The completer has done its work for the completed item `x`. */
  ghost predicate Completed(g: Grammar, sets: Sets, work: seq<Item>, cur: nat, x: Item) {
    var s := Lhs(g, x.ahm);
    match LimAt(sets, x.origin, s)
    case Some(lim) => Effect(lim, cur) in work
    case None => forall y :: y in Pims(sets, x.origin, s) ==> Next(y, cur) in work
  }

  ghost function CompletedItems(g: Grammar, items: seq<Item>): set<Item> {
    set x | x in items && Complete(g, x.ahm)
  }

  ghost predicate CompleteClosed(g: Grammar, sets: Sets, work: seq<Item>, cur: nat) {
    forall x :: x in work ==>
      x.ahm < |g.ahms| && (Complete(g, x.ahm) ==> Completed(g, sets, work, cur, x))
  }

  ghost predicate PredictClosed(g: Grammar, work: seq<Item>, cur: nat)
  {
    forall x, r: nat :: x in work && x.ahm < |g.ahms| && r < |g.irls| && g.irls[r].lhs == g.ahms[x.ahm].postdot ==>
      Item(AhmOf(g, r, 0), cur, cur) in work
  }

  // ---- Completeness of a closed set ----

  /** An incomplete valid item of a finished set is on its postdot list. */
  lemma {:induction false} Waiting(g: Grammar, toks: set<Token>, sets: Sets, r: nat, q: nat, i: nat, m: nat)
    requires AhmsOk(g) && Exact(g, toks, sets, m)
    requires m in sets ==> PimsOk(g, sets[m].items, sets[m].postdot)
    requires Valid(g, toks, r, q, i, m) && q < |P(g, r)|
    ensures AhmOf(g, r, q) < |g.ahms|
    ensures Item(AhmOf(g, r, q), i, m) in Pims(sets, m, P(g, r)[q])
  {
    hide Valid, PimsOk;
    assert PresentIn(g, sets, sets[m].items, r, q, i, m);
    Listed(g, sets[m].items, sets[m].postdot, r, q, Item(AhmOf(g, r, q), i, m));
  }

  lemma {:induction false} Listed(g: Grammar, items: seq<Item>, postdot: map<nat, Postdot>, r: nat, q: nat, x: Item)
    requires AhmsOk(g) && PimsOk(g, items, postdot)
    requires IsItem(g, r, q) && q < |P(g, r)| && x.ahm == AhmOf(g, r, q) && x in items
    ensures x.ahm < |g.ahms| && P(g, r)[q] in postdot && x in postdot[P(g, r)[q]].pims
  {
    AhmCase(g, x.ahm);
  }

  /** The item after the dot has moved, given that the completer or scanner moved it. */
  lemma {:induction false} Moved(g: Grammar, sets: Sets, work: seq<Item>, cur: nat, r: nat, q: nat, i: nat)
    requires AhmsOk(g) && IsItem(g, r, q)
    requires CompleteClosed(g, sets, work, cur)
    requires Item(AhmOf(g, r, q), i, cur) in work
    ensures PresentIn(g, sets, work, r, q, i, cur)
  {
    var x := Item(AhmOf(g, r, q), i, cur);
    assert x.ahm < |g.ahms|;
    AhmCase(g, x.ahm);
    if q == |P(g, r)| {
      assert Completed(g, sets, work, cur, x);
    }
  }

  lemma {:induction false} ByCompletion(g: Grammar, sets: Sets, work: seq<Item>, cur: nat, r: nat, q: nat, i: nat, m: nat, c: nat)
    requires AhmsOk(g) && IsItem(g, r, q) && q > 0 && c < |g.irls|
    requires CompleteClosed(g, sets, work, cur) && LimAt(sets, m, g.irls[c].lhs).None?
    requires Item(AhmOf(g, r, q - 1), i, m) in Pims(sets, m, g.irls[c].lhs)
    requires PresentIn(g, sets, work, c, |P(g, c)|, m, cur)
    ensures PresentIn(g, sets, work, r, q, i, cur)
  {
    var x := Item(AhmOf(g, c, |P(g, c)|), m, cur);
    assert IsItem(g, c, |P(g, c)|);
    AhmCase(g, x.ahm);
    assert Completed(g, sets, work, cur, x);
    assert Next(Item(AhmOf(g, r, q - 1), i, m), cur) in work;
    Moved(g, sets, work, cur, r, q, i);
  }

  lemma {:induction false} ByLeo(g: Grammar, sets: Sets, work: seq<Item>, cur: nat, r: nat, q: nat, i: nat, m: nat, c: nat, lim: Lim)
    requires AhmsOk(g) && IsItem(g, r, q) && q > 0 && c < |g.irls|
    requires CompleteClosed(g, sets, work, cur)
    requires LimAt(sets, m, g.irls[c].lhs) == Some(lim) && LimLocal(g, sets, m, g.irls[c].lhs, lim)
    requires Item(AhmOf(g, r, q - 1), i, m) in Pims(sets, m, g.irls[c].lhs)
    requires PresentIn(g, sets, work, c, |P(g, c)|, m, cur)
    ensures PresentIn(g, sets, work, r, q, i, cur)
  {
    hide *;
    EffectStored(g, sets, work, cur, m, c, lim);
    AhmIs(g, r, q);
    LeoCases(g, sets, cur, r, q, i, m, g.irls[c].lhs, lim);
    if lim.pred.None? {
      Moved(g, sets, work, cur, r, q, i);
    } else {
      EffectIsPresent(g, sets, work, cur, r, q, i, lim);
    }
  }

  lemma {:induction false} EffectStored(g: Grammar, sets: Sets, work: seq<Item>, cur: nat, m: nat, c: nat, lim: Lim)
    requires c < |g.irls| && LimAt(sets, m, g.irls[c].lhs) == Some(lim) && PresentIn(g, sets, work, c, |P(g, c)|, m, cur)
    ensures Effect(lim, cur) in work
  {
    hide P, LimAt, Effect;
  }

  /** The effect is the item moved over the symbol, or that of the predecessor. */
  lemma {:induction false} LeoCases(g: Grammar, sets: Sets, cur: nat, r: nat, q: nat, i: nat, m: nat, s: nat, lim: Lim)
    requires AhmsOk(g) && IsItem(g, r, q) && q > 0 && LimLocal(g, sets, m, s, lim)
    requires Item(AhmOf(g, r, q - 1), i, m) in Pims(sets, m, s)
    ensures lim.pred.None? ==> Effect(lim, cur) == Item(AhmOf(g, r, q), i, cur)
    ensures lim.pred.Some? ==> q == |P(g, r)| && LimAt(sets, i, g.irls[r].lhs).Some?
    ensures lim.pred.Some? ==> Effect(LimAt(sets, i, g.irls[r].lhs).value, cur) == Effect(lim, cur)
  {
    hide AhmsOk, P, LimAt, Pims;
    var y := Item(AhmOf(g, r, q - 1), i, m);
    assert y == lim.trailhead;
    assert IsItem(g, r, q - 1);
    AhmIs(g, r, q - 1);
    AhmIs(g, r, q);
    AhmCase(g, y.ahm + 1);
  }

  lemma {:induction false} EffectIsPresent(g: Grammar, sets: Sets, work: seq<Item>, cur: nat, r: nat, q: nat, i: nat, lim: Lim)
    requires IsItem(g, r, q) && q == |P(g, r)| && LimAt(sets, i, g.irls[r].lhs).Some?
    requires Effect(LimAt(sets, i, g.irls[r].lhs).value, cur) == Effect(lim, cur) && Effect(lim, cur) in work
    ensures PresentIn(g, sets, work, r, q, i, cur)
  {
    hide P, LimAt, Effect;
  }

  /** Everything with the dot past its start is in a set closed under scanning and
      completion.  The cause of a completion starts strictly before `cur`, because
      no rule is empty, so the item it moves is in a finished set. */
  lemma {:induction false} ForestPresent(g: Grammar, toks: set<Token>, sets: Sets, work: seq<Item>, cur: nat,
                                         f: Forest, r: nat, q: nat, i: nat)
    requires AhmsOk(g) && Settled(g, toks, sets, cur)
    requires ScanClosed(toks, sets, work, cur) && CompleteClosed(g, sets, work, cur)
    requires Predicted(g, toks, r, i) && q > 0 && ForestFor(g, toks, f, r, q, i, cur)
    ensures PresentIn(g, sets, work, r, q, i, cur)
    decreases f
  {
    hide Settled, CompleteClosed, Predicted, PresentIn;
    var m := f.mid;
    var s := P(g, r)[q - 1];
    LastStep(g, toks, sets, cur, f, r, q, i);
    match f.last
    case Leaf =>
      assert Scanned(sets, work, cur, Token(s, m, cur));
      assert Next(Item(AhmOf(g, r, q - 1), i, m), cur) in work;
      Moved(g, sets, work, cur, r, q, i);
    case Node(c, kids) =>
      ForestPresent(g, toks, sets, work, cur, kids, c, |P(g, c)|, m);
      match LimAt(sets, m, s) {
        case None => ByCompletion(g, sets, work, cur, r, q, i, m, c);
        case Some(lim) => ByLeo(g, sets, work, cur, r, q, i, m, c, lim);
      }
  }

  /** The item that the last step of a forest moved waits in an earlier set. */
  lemma {:induction false} LastStep(g: Grammar, toks: set<Token>, sets: Sets, cur: nat, f: Forest, r: nat, q: nat, i: nat)
    requires Settled(g, toks, sets, cur)
    requires Predicted(g, toks, r, i) && q > 0 && ForestFor(g, toks, f, r, q, i, cur)
    ensures f.mid < cur && AhmOf(g, r, q) <= |g.ahms|
    ensures Item(AhmOf(g, r, q - 1), i, f.mid) in Pims(sets, f.mid, P(g, r)[q - 1])
    ensures LimsOk(g, sets, f.mid)
    ensures f.last.Node? ==> f.last.irl < |g.irls| && |P(g, f.last.irl)| > 0 && Predicted(g, toks, f.last.irl, f.mid)
  {
    TreeForward(g, toks, f.last, P(g, r)[q - 1], f.mid, cur);
    assert Spans(g, toks, r, q - 1, i, f.mid);
    assert Exact(g, toks, sets, f.mid);
    Waiting(g, toks, sets, r, q - 1, i, f.mid);
    if f.last.Node? {
      Predict(g, toks, r, q - 1, i, f.mid, f.last.irl);
    }
  }

  /** Predictions at `cur`, by induction on how the rule came to be predicted. */
  lemma {:induction false} RoutePresent(g: Grammar, toks: set<Token>, sets: Sets, work: seq<Item>, cur: nat, p: Route, r: nat)
    requires AhmsOk(g) && RulesOk(g) && TokensOk(toks) && Settled(g, toks, sets, cur)
    requires ScanClosed(toks, sets, work, cur) && CompleteClosed(g, sets, work, cur) && PredictClosed(g, work, cur)
    requires cur == 0 ==> Item(AhmOf(g, g.startIrl, 0), 0, 0) in work
    requires RouteFor(g, toks, p, r, cur)
    ensures Item(AhmOf(g, r, 0), cur, cur) in work
    decreases p
  {
    hide Settled, ScanClosed, CompleteClosed, Predicted;
    match p
    case Start =>
    case Via(up, r', q, from, kids) =>
      ForestForward(g, toks, kids, r', q, from, cur);
      assert Predicted(g, toks, r', from) by {
        RouteIsPrediction(g, toks, up, r', from);
      }
      if q == 0 {
        RoutePresent(g, toks, sets, work, cur, up, r');
      } else {
        ForestPresent(g, toks, sets, work, cur, kids, r', q, from);
      }
      var x := Item(AhmOf(g, r', q), from, cur);
      AhmCase(g, x.ahm);
  }

  lemma {:induction false} ClosedIsComplete(g: Grammar, toks: set<Token>, sets: Sets, work: seq<Item>, cur: nat)
    requires Settled(g, toks, sets, cur)
    requires ScanClosed(toks, sets, work, cur) && CompleteClosed(g, sets, work, cur) && PredictClosed(g, work, cur)
    requires cur == 0 ==> Item(AhmOf(g, g.startIrl, 0), 0, 0) in work
    ensures forall r: nat, q: nat, i: nat :: Valid(g, toks, r, q, i, cur) ==> PresentIn(g, sets, work, r, q, i, cur)
  {
    forall r: nat, q: nat, i: nat | Valid(g, toks, r, q, i, cur)
      ensures PresentIn(g, sets, work, r, q, i, cur)
    {
      ValidForward(g, toks, r, q, i, cur);
      if q == 0 {
        var p :| RouteFor(g, toks, p, r, i);
        RoutePresent(g, toks, sets, work, cur, p, r);
      } else {
        var f :| ForestFor(g, toks, f, r, q, i, cur);
        ForestPresent(g, toks, sets, work, cur, f, r, q, i);
      }
    }
  }
}
