/** Every item that the recognizer adds is valid; finished sets stay exact while
    the parse goes on; and what acceptance means. */
module Soundness {
  import opened Options
  import opened Grammars
  import opened Derivations
  import opened EarleySets
  import opened LeoItems

  // ---- Soundness of the four ways to add an item ----

  lemma {:induction false} AdvanceItem(g: Grammar, toks: set<Token>, x: Item, j: nat)
    requires AhmsOk(g) && ItemOk(g, toks, x) && g.ahms[x.ahm].postdot >= 0
    requires Derives(g, toks, g.ahms[x.ahm].postdot, x.at, j)
    ensures ItemOk(g, toks, Next(x, j))
  {
    AhmCase(g, x.ahm);
    Advance(g, toks, g.ahms[x.ahm].irl, g.ahms[x.ahm].quasi, x.origin, x.at, j);
  }

  lemma {:induction false} ScanSound(g: Grammar, toks: set<Token>, x: Item, tok: Token)
    requires AhmsOk(g) && ItemOk(g, toks, x) && tok in toks
    requires g.ahms[x.ahm].postdot == tok.sym && x.at == tok.from
    ensures ItemOk(g, toks, Next(x, tok.to))
  {
    TokenDerives(g, toks, tok.sym, tok.from, tok.to);
    AdvanceItem(g, toks, x, tok.to);
  }

  lemma {:induction false} CauseDerives(g: Grammar, toks: set<Token>, cause: Item)
    requires AhmsOk(g) && ItemOk(g, toks, cause) && Complete(g, cause.ahm)
    ensures Derives(g, toks, Lhs(g, cause.ahm), cause.origin, cause.at)
  {
    AhmCase(g, cause.ahm);
    CompleteDerives(g, toks, g.ahms[cause.ahm].irl, cause.origin, cause.at);
  }

  lemma {:induction false} CompletionSound(g: Grammar, toks: set<Token>, x: Item, cause: Item)
    requires AhmsOk(g) && ItemOk(g, toks, x) && ItemOk(g, toks, cause) && Complete(g, cause.ahm)
    requires g.ahms[x.ahm].postdot == Lhs(g, cause.ahm) && x.at == cause.origin
    ensures ItemOk(g, toks, Next(x, cause.at))
  {
    CauseDerives(g, toks, cause);
    AdvanceItem(g, toks, x, cause.at);
  }

  /** The effect of a Leo item is what completing up its path would give. */
  lemma {:induction false} PathSound(g: Grammar, toks: set<Token>, sets: Sets, path: seq<Item>, m: nat, s: nat, top: nat, origin: nat, j: nat)
    requires AhmsOk(g) && LeoPath(g, sets, path, m, s, top, origin)
    requires forall e, x :: e in sets && x in sets[e].items ==> ItemOk(g, toks, x)
    requires Derives(g, toks, s, m, j)
    ensures ItemOk(g, toks, Item(top, origin, j)) && Complete(g, top)
    decreases |path|
  {
    hide Valid, Derives;
    var h := path[0];
    AdvanceItem(g, toks, h, j);
    if |path| > 1 {
      AhmCase(g, h.ahm);
      CauseDerives(g, toks, Next(h, j));
      PathSound(g, toks, sets, path[1..], h.origin, Lhs(g, h.ahm), top, origin, j);
    }
  }

  lemma {:induction false} LeoSound(g: Grammar, toks: set<Token>, sets: Sets, lim: Lim, cause: Item)
    requires AhmsOk(g) && LimRooted(g, sets, cause.origin, Lhs(g, cause.ahm), lim)
    requires forall e, x :: e in sets && x in sets[e].items ==> ItemOk(g, toks, x)
    requires ItemOk(g, toks, cause) && Complete(g, cause.ahm)
    ensures ItemOk(g, toks, Effect(lim, cause.at)) && Complete(g, lim.top)
  {
    CauseDerives(g, toks, cause);
    var path :| Rooted(g, sets, path, cause.origin, Lhs(g, cause.ahm), lim);
    PathSound(g, toks, sets, path, cause.origin, Lhs(g, cause.ahm), lim.top, lim.origin.value, cause.at);
  }

  lemma {:induction false} PredictionSound(g: Grammar, toks: set<Token>, x: Item, r: nat)
    requires AhmsOk(g) && PredictionsOk(g) && ItemOk(g, toks, x) && r in g.predicted[x.ahm]
    ensures r < |g.irls| && ItemOk(g, toks, Item(AhmOf(g, r, 0), x.at, x.at))
  {
    AhmCase(g, x.ahm);
    assert g.ahms[x.ahm].postdot >= 0;
    assert Predicts(g, g.ahms[x.ahm].postdot, r);
    var path :| LeftPath(g, path, g.ahms[x.ahm].postdot, g.irls[r].lhs);
    PredictPath(g, toks, g.ahms[x.ahm].irl, g.ahms[x.ahm].quasi, x.origin, x.at, path, r);
    assert IsItem(g, r, 0);
  }

  // ---- Finished sets stay as they are ----

  /** `sets'` only adds sets after `e`. */
  ghost predicate Extends(sets: Sets, sets': Sets, e: nat) {
    && (forall k :: k in sets ==> k in sets' && sets'[k] == sets[k])
    && (forall k :: k in sets' && k <= e ==> k in sets)
  }

  lemma {:induction false} ExactLater(g: Grammar, toks: set<Token>, toks': set<Token>, sets: Sets, sets': Sets, e: nat)
    requires RulesOk(g) && TokensOk(toks) && TokensOk(toks')
    requires Upto(toks, toks', e) && Upto(toks', toks, e) && Extends(sets, sets', e)
    requires Exact(g, toks, sets, e)
    ensures Exact(g, toks', sets', e)
  {
    if e in sets {
      ItemsLater(g, toks, toks', sets[e].items, e);
    }
    forall r: nat, q: nat, i: nat | Valid(g, toks', r, q, i, e)
      ensures e in sets' && PresentIn(g, sets', sets'[e].items, r, q, i, e)
    {
      ValidForward(g, toks', r, q, i, e);
      ValidUpto(g, toks', toks, e, r, q, i, e);
    }
  }

  lemma {:induction false} ItemsLater(g: Grammar, toks: set<Token>, toks': set<Token>, items: seq<Item>, e: nat)
    requires RulesOk(g) && TokensOk(toks) && Upto(toks, toks', e) && ItemsOk(g, toks, items, e)
    ensures ItemsOk(g, toks', items, e)
  {
    forall x | x in items
      ensures x.at == e && ItemOk(g, toks', x)
    {
      ValidUpto(g, toks, toks', e, g.ahms[x.ahm].irl, g.ahms[x.ahm].quasi, x.origin, e);
    }
  }

  lemma {:induction false} LimExactLater(g: Grammar, sets: Sets, sets': Sets, m: nat, s: nat, lim: Lim)
    requires m in sets && LimExact(g, sets, m, s, lim)
    requires forall k :: k in sets ==> k in sets' && sets'[k] == sets[k]
    requires forall k :: k in sets' && k <= m ==> k in sets
    ensures LimExact(g, sets', m, s, lim)
  {
    var up := PredKey(g, lim.trailhead);
    if LeadsBack(sets, m, up.sym, s) {
      var chain :| PredChain(sets, m, chain) && chain[0] == up.sym && chain[|chain| - 1] == s;
      assert PredChain(sets', m, chain);
    }
  }

  lemma {:induction false} LimsLater(g: Grammar, sets: Sets, sets': Sets, m: nat)
    requires m in sets && LimsOk(g, sets, m)
    requires forall k :: k in sets ==> k in sets' && sets'[k] == sets[k]
    requires forall k :: k in sets' && k <= m ==> k in sets
    ensures LimsOk(g, sets', m)
  {
    assert Enlarges(sets, sets');
    forall s | LimAt(sets', m, s).Some?
      ensures LimLocal(g, sets', m, s, LimAt(sets', m, s).value)
      ensures LimExact(g, sets', m, s, LimAt(sets', m, s).value)
      ensures LimRooted(g, sets', m, s, LimAt(sets', m, s).value)
    {
      assert LimAt(sets, m, s) == LimAt(sets', m, s);
      LimExactLater(g, sets, sets', m, s, LimAt(sets, m, s).value);
      LimRootedLater(g, sets, sets', m, s, LimAt(sets, m, s).value);
    }
  }

  // ---- Consequences for whole parses ----

  /** With no Leo items, a set is exactly the valid items. */
  lemma {:induction false} NoLeoExact(g: Grammar, toks: set<Token>, sets: Sets, j: nat, x: Item)
    requires AhmsOk(g) && Exact(g, toks, sets, j)
    requires forall m, s :: LimAt(sets, m, s).None?
    requires x.at == j
    ensures (j in sets && x in sets[j].items) <==> ItemOk(g, toks, x)
  {
    hide Valid, AhmsOk, PresentIn, LimAt;
    if ItemOk(g, toks, x) {
      hide Exact;
      ExactHas(g, toks, sets, j, g.ahms[x.ahm].irl, g.ahms[x.ahm].quasi, x.origin);
      PresentItself(g, sets, sets[j].items, x);
    }
  }

  /** Leo items or not, a set has exactly the valid incomplete items. */
  lemma {:induction false} IncompleteExact(g: Grammar, toks: set<Token>, sets: Sets, j: nat, x: Item)
    requires AhmsOk(g) && Exact(g, toks, sets, j)
    requires x.at == j && !Complete(g, x.ahm)
    ensures (j in sets && x in sets[j].items) <==> ItemOk(g, toks, x)
  {
    hide Valid, AhmsOk, PresentIn, LimAt;
    if ItemOk(g, toks, x) {
      hide Exact;
      ExactHas(g, toks, sets, j, g.ahms[x.ahm].irl, g.ahms[x.ahm].quasi, x.origin);
      PresentItself(g, sets, sets[j].items, x);
    }
  }

  /** Acceptance: the completed start rule is in set `j` exactly when the start
      symbol derives the tokens from 0 to `j`, whatever the Leo items. */
  lemma {:induction false} Accepts(g: Grammar, toks: set<Token>, sets: Sets, j: nat)
    requires GrammarOk(g) && TokensOk(toks) && Exact(g, toks, sets, j)
    requires forall s :: LimAt(sets, 0, s).None?
    requires |P(g, g.startIrl)| == 1
    ensures (j in sets && Item(AhmOf(g, g.startIrl, 1), 0, j) in sets[j].items)
            <==> Derives(g, toks, P(g, g.startIrl)[0], 0, j)
  {
    var r := g.startIrl;
    var x := Item(AhmOf(g, r, 1), 0, j);
    assert IsItem(g, r, 1);
    AhmCase(g, x.ahm);
    if j in sets && x in sets[j].items {
      var f :| ForestFor(g, toks, f, r, 1, 0, j);
      assert ForestFor(g, toks, f.init, r, 0, 0, f.mid);
      assert TreeFor(g, toks, f.last, P(g, r)[0], 0, j);
    }
    if Derives(g, toks, P(g, r)[0], 0, j) {
      assert RouteFor(g, toks, Start, r, 0);
      assert ForestFor(g, toks, Nil, r, 0, 0, 0);
      Advance(g, toks, r, 0, 0, 0, j);
    }
  }
}
