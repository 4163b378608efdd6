/** What is missing from finished sets with Leo items: completions on the paths of the Leo items,
    and nothing else. */
module LeoPaths {
  import opened Options
  import opened Grammars
  import opened Derivations
  import opened EarleySets
  import opened Soundness

  /** `x` is one step along the path of a Leo item that a completion in its set used. */
  ghost predicate OnPath(g: Grammar, sets: Sets, x: Item, cause: Item, path: seq<Item>, k: nat) {
    && x.at in sets && cause in sets[x.at].items && Complete(g, cause.ahm)
    && var lim := LimAt(sets, cause.origin, Lhs(g, cause.ahm));
    && lim.Some? && lim.value.origin.Some?
    && LeoPath(g, sets, path, cause.origin, Lhs(g, cause.ahm), lim.value.top, lim.value.origin.value)
    && k < |path| && x == Next(path[k], x.at)
  }

  ghost predicate OnSomePath(g: Grammar, sets: Sets, x: Item) {
    exists cause, path, k: nat :: OnPath(g, sets, x, cause, path, k)
  }

  /** Consecutive items of a Leo path: each waits where the one before started, for
      its left-hand side; the last one gives the top. */
  lemma {:induction false} PathStep(g: Grammar, sets: Sets, path: seq<Item>, m: nat, s: nat, top: nat, origin: nat, k: nat)
    requires LeoPath(g, sets, path, m, s, top, origin) && k < |path|
    ensures path[k].ahm < |g.ahms| && g.ahms[path[k].ahm].postdot >= 0
    ensures k + 1 == |path| ==> top == path[k].ahm + 1 && origin == path[k].origin
    ensures k + 1 < |path| ==>
              && path[k + 1].at == path[k].origin && path[k + 1].at in sets && path[k + 1] in sets[path[k + 1].at].items
              && path[k + 1].ahm < |g.ahms| && g.ahms[path[k + 1].ahm].postdot == Lhs(g, path[k].ahm)
    decreases |path|
  {
    if k > 0 {
      PathStep(g, sets, path[1..], path[0].origin, Lhs(g, path[0].ahm), top, origin, k - 1);
    }
  }

  /** Set `j` is finished: exact, and the completer has run on all of it. */
  ghost predicate SetFinished(g: Grammar, toks: set<Token>, sets: Sets, cur: nat, j: nat) {
    && j < cur && Past(g, toks, sets, cur)
    && (j in sets ==> ScanClosed(toks, sets, sets[j].items, j) && CompleteClosed(g, sets, sets[j].items, j))
  }

  /** A valid completion that is missing lies on the path of a Leo item that was used. */
  lemma {:induction false} MissingOnPath(g: Grammar, toks: set<Token>, sets: Sets, cur: nat, j: nat, f: Forest, r: nat, i: nat)
    requires AhmsOk(g) && RulesOk(g) && TokensOk(toks) && SetFinished(g, toks, sets, cur, j)
    requires r < |g.irls| && Predicted(g, toks, r, i) && ForestFor(g, toks, f, r, |P(g, r)|, i, j)
    requires j !in sets || Item(AhmOf(g, r, |P(g, r)|), i, j) !in sets[j].items
    ensures OnSomePath(g, sets, Item(AhmOf(g, r, |P(g, r)|), i, j))
    decreases f
  {
    hide SetFinished, Predicted, CompleteClosed, OnSomePath;
    var q := |P(g, r)|;
    assert q > 0;
    var y := Item(AhmOf(g, r, q - 1), i, f.mid);
    LastStepFinished(g, toks, sets, cur, j, f, r, q, i);
    match f.last
    case Leaf =>
      TokenStep(g, toks, sets, cur, j, r, q, i, f.mid);
    case Node(c, kids) =>
      var x := Item(AhmOf(g, c, |P(g, c)|), f.mid, j);
      if x in sets[j].items {
        CauseStep(g, toks, sets, cur, j, r, q, i, f.mid, c);
      } else {
        MissingOnPath(g, toks, sets, cur, j, kids, c, f.mid);
        MissingHasLim(g, toks, sets, cur, j, kids, c, f.mid);
        PathGoesOn(g, toks, sets, cur, j, r, q, i, f.mid, c);
      }
  }

  lemma {:induction false} LastStepFinished(g: Grammar, toks: set<Token>, sets: Sets, cur: nat, j: nat, f: Forest, r: nat, q: nat, i: nat)
    requires AhmsOk(g) && RulesOk(g) && TokensOk(toks) && SetFinished(g, toks, sets, cur, j)
    requires Predicted(g, toks, r, i) && q > 0 && ForestFor(g, toks, f, r, q, i, j)
    ensures f.mid < j && j in sets && IsItem(g, r, q - 1)
    ensures Item(AhmOf(g, r, q - 1), i, f.mid) in Pims(sets, f.mid, P(g, r)[q - 1])
    ensures f.last.Node? ==> f.last.irl < |g.irls| && Predicted(g, toks, f.last.irl, f.mid)
  {
    hide Predicted, CompleteClosed, LimsOk;
    TreeForward(g, toks, f.last, P(g, r)[q - 1], f.mid, j);
    assert Spans(g, toks, r, q - 1, i, f.mid);
    assert Spans(g, toks, r, q, i, j);
    assert Valid(g, toks, r, q - 1, i, f.mid) && Valid(g, toks, r, q, i, j);
    assert Exact(g, toks, sets, f.mid) && Exact(g, toks, sets, j);
    hide Spans, ForestFor;
    assert f.mid in sets ==> PimsOk(g, sets[f.mid].items, sets[f.mid].postdot);
    Waiting(g, toks, sets, r, q - 1, i, f.mid);
    if f.last.Node? {
      Predict(g, toks, r, q - 1, i, f.mid, f.last.irl);
    }
  }

  lemma {:induction false} TokenStep(g: Grammar, toks: set<Token>, sets: Sets, cur: nat, j: nat, r: nat, q: nat, i: nat, m: nat)
    requires SetFinished(g, toks, sets, cur, j) && j in sets && q > 0 && IsItem(g, r, q) && AhmsOk(g)
    requires Item(AhmOf(g, r, q - 1), i, m) in Pims(sets, m, P(g, r)[q - 1])
    requires Token(P(g, r)[q - 1], m, j) in toks
    ensures Item(AhmOf(g, r, q), i, j) in sets[j].items
  {
    hide Past, CompleteClosed;
    assert Scanned(sets, sets[j].items, j, Token(P(g, r)[q - 1], m, j));
    assert Next(Item(AhmOf(g, r, q - 1), i, m), j) in sets[j].items;
  }

  /** A stored cause would have moved the item, unless a Leo item waits for it. */
  lemma {:induction false} CauseStep(g: Grammar, toks: set<Token>, sets: Sets, cur: nat, j: nat, r: nat, q: nat, i: nat, m: nat, c: nat)
    requires SetFinished(g, toks, sets, cur, j) && j in sets && q > 0 && IsItem(g, r, q) && AhmsOk(g) && c < |g.irls|
    requires Item(AhmOf(g, r, q - 1), i, m) in Pims(sets, m, P(g, r)[q - 1]) && P(g, r)[q - 1] == g.irls[c].lhs
    requires Item(AhmOf(g, c, |P(g, c)|), m, j) in sets[j].items
    requires Item(AhmOf(g, r, q), i, j) !in sets[j].items
    ensures OnSomePath(g, sets, Item(AhmOf(g, r, q), i, j))
  {
    hide Settled, ScanClosed, LimLocal;
    var x := Item(AhmOf(g, c, |P(g, c)|), m, j);
    var y := Item(AhmOf(g, r, q - 1), i, m);
    assert IsItem(g, c, |P(g, c)|);
    AhmCase(g, x.ahm);
    assert Completed(g, sets, sets[j].items, j, x);
    assert Next(y, j) == Item(AhmOf(g, r, q), i, j);
    assert LimAt(sets, m, g.irls[c].lhs).Some?;
    PastLim(g, toks, sets, cur, m, g.irls[c].lhs);
    PimsAreHere(g, toks, sets, cur, m, g.irls[c].lhs);
    FirstOnPath(g, sets, x, m, g.irls[c].lhs, y, j);
  }

  lemma {:induction false} FirstOnPath(g: Grammar, sets: Sets, x: Item, m: nat, s: nat, y: Item, j: nat)
    requires j in sets && x in sets[j].items && x.origin == m && Complete(g, x.ahm) && Lhs(g, x.ahm) == s && x.at == j
    requires LimAt(sets, m, s).Some? && LimLocal(g, sets, m, s, LimAt(sets, m, s).value) && LimRooted(g, sets, m, s, LimAt(sets, m, s).value)
    requires y in Pims(sets, m, s) && PimsHere(g, sets, m, s)
    ensures OnSomePath(g, sets, Next(y, j))
  {
    var lim := LimAt(sets, m, s).value;
    var path :| Rooted(g, sets, path, m, s, lim);
    assert path[0] in Pims(sets, m, s);
    assert path[0] == y;
    assert OnPath(g, sets, Next(y, j), x, path, 0);
  }

  /** The items of set `m` before symbol `s` are those of its list. */
  ghost predicate PimsHere(g: Grammar, sets: Sets, m: nat, s: nat) {
    forall h :: m in sets && h in sets[m].items && h.ahm < |g.ahms| && g.ahms[h.ahm].postdot == s ==> h in Pims(sets, m, s)
  }

  lemma {:induction false} PimsAreHere(g: Grammar, toks: set<Token>, sets: Sets, cur: nat, m: nat, s: nat)
    requires Past(g, toks, sets, cur)
    ensures PimsHere(g, sets, m, s)
  {
    if m in sets {
      assert PimsOk(g, sets[m].items, sets[m].postdot);
    }
  }

  /** The path that passes through a missing cause goes on to the item it would move. */
  lemma {:induction false} PathGoesOn(g: Grammar, toks: set<Token>, sets: Sets, cur: nat, j: nat, r: nat, q: nat, i: nat, m: nat, c: nat)
    requires SetFinished(g, toks, sets, cur, j) && j in sets && q > 0 && IsItem(g, r, q) && AhmsOk(g) && c < |g.irls|
    requires Item(AhmOf(g, r, q - 1), i, m) in Pims(sets, m, P(g, r)[q - 1]) && P(g, r)[q - 1] == g.irls[c].lhs
    requires OnSomePath(g, sets, Item(AhmOf(g, c, |P(g, c)|), m, j))
    requires Item(AhmOf(g, c, |P(g, c)|), m, j) !in sets[j].items
    requires LimAt(sets, m, g.irls[c].lhs).Some?
    ensures OnSomePath(g, sets, Item(AhmOf(g, r, q), i, j))
  {
    hide SetFinished, CompleteClosed, OnPath, LimLocal, PimsHere, AhmsOk;
    var x := Item(AhmOf(g, c, |P(g, c)|), m, j);
    var cause, path, k: nat :| OnPath(g, sets, x, cause, path, k);
    hide OnSomePath;
    PathHasNext(g, toks, sets, cur, j, x, cause, path, k);
    PathNextIs(g, sets, c, m, j, cause, path, k);
    PimsAreHere(g, toks, sets, cur, m, g.irls[c].lhs);
    PastLim(g, toks, sets, cur, m, g.irls[c].lhs);
    InPims(g, sets, m, g.irls[c].lhs, path[k + 1]);
    OnlyOne(g, sets, m, g.irls[c].lhs, path[k + 1], Item(AhmOf(g, r, q - 1), i, m));
    NextAhm(g, r, q, i, m, j);
    SomePath(g, sets, Next(path[k + 1], j), cause, path, k + 1);
  }

  lemma {:induction false} NextAhm(g: Grammar, r: nat, q: nat, i: nat, m: nat, j: nat)
    requires AhmsOk(g) && IsItem(g, r, q) && q > 0
    ensures Next(Item(AhmOf(g, r, q - 1), i, m), j) == Item(AhmOf(g, r, q), i, j)
  {
  }

  lemma {:induction false} SomePath(g: Grammar, sets: Sets, x: Item, cause: Item, path: seq<Item>, k: nat)
    requires OnPath(g, sets, x, cause, path, k)
    ensures OnSomePath(g, sets, x)
  {
  }

  /** The next item of a path waits for the left-hand side of the one before. */
  lemma {:induction false} PathNextIs(g: Grammar, sets: Sets, c: nat, m: nat, j: nat, cause: Item, path: seq<Item>, k: nat)
    requires AhmsOk(g) && c < |g.irls| && OnPath(g, sets, Item(AhmOf(g, c, |P(g, c)|), m, j), cause, path, k) && k + 1 < |path|
    ensures m in sets && path[k + 1] in sets[m].items
    ensures path[k + 1].ahm < |g.ahms| && g.ahms[path[k + 1].ahm].postdot == g.irls[c].lhs
    ensures OnPath(g, sets, Next(path[k + 1], j), cause, path, k + 1)
  {
    var lim := LimAt(sets, cause.origin, Lhs(g, cause.ahm)).value;
    PathStep(g, sets, path, cause.origin, Lhs(g, cause.ahm), lim.top, lim.origin.value, k);
    AhmCase(g, path[k].ahm);
    assert IsItem(g, c, |P(g, c)|);
    AhmCase(g, AhmOf(g, c, |P(g, c)|));
  }

  lemma {:induction false} InPims(g: Grammar, sets: Sets, m: nat, s: nat, h: Item)
    requires PimsHere(g, sets, m, s) && m in sets && h in sets[m].items && h.ahm < |g.ahms| && g.ahms[h.ahm].postdot == s
    ensures h in Pims(sets, m, s)
  {
  }

  lemma {:induction false} OnlyOne(g: Grammar, sets: Sets, m: nat, s: nat, h: Item, y: Item)
    requires LimAt(sets, m, s).Some? && LimLocal(g, sets, m, s, LimAt(sets, m, s).value)
    requires h in Pims(sets, m, s) && y in Pims(sets, m, s)
    ensures h == y
  {
  }

  /** The top of a used path is stored, so a missing item is not its last one. */
  lemma {:induction false} PathHasNext(g: Grammar, toks: set<Token>, sets: Sets, cur: nat, j: nat, x: Item, cause: Item, path: seq<Item>, k: nat)
    requires SetFinished(g, toks, sets, cur, j) && x.at == j && j in sets && x !in sets[j].items
    requires OnPath(g, sets, x, cause, path, k)
    ensures k + 1 < |path|
    ensures Past(g, toks, sets, cur)
  {
    hide Past, ScanClosed;
    var lim := LimAt(sets, cause.origin, Lhs(g, cause.ahm)).value;
    PathStep(g, sets, path, cause.origin, Lhs(g, cause.ahm), lim.top, lim.origin.value, k);
    assert Completed(g, sets, sets[j].items, j, cause);
    assert Effect(lim, j) in sets[j].items;
  }

  lemma {:induction false} MissingHasLim(g: Grammar, toks: set<Token>, sets: Sets, cur: nat, j: nat, f: Forest, c: nat, m: nat)
    requires SetFinished(g, toks, sets, cur, j) && j in sets && c < |g.irls|
    requires Predicted(g, toks, c, m) && ForestFor(g, toks, f, c, |P(g, c)|, m, j)
    requires Item(AhmOf(g, c, |P(g, c)|), m, j) !in sets[j].items
    ensures LimAt(sets, m, g.irls[c].lhs).Some?
  {
    hide Predicted, CompleteClosed, ScanClosed, LimsOk, PimsOk;
    assert Spans(g, toks, c, |P(g, c)|, m, j);
    assert Valid(g, toks, c, |P(g, c)|, m, j);
    assert Exact(g, toks, sets, j);
  }

  // ---- The two parses side by side ----

  ghost predicate Stored(sets: Sets, x: Item) {
    x.at in sets && x in sets[x.at].items
  }

  /** Finished sets built with Leo items (`on`) and without (`off`) from the same tokens. */
  lemma {:induction false} SameParse(g: Grammar, toks: set<Token>, on: Sets, off: Sets, cur: nat, x: Item)
    requires SetFinished(g, toks, on, cur, x.at) && SetFinished(g, toks, off, cur, x.at) && NoLims(off)
    ensures !Complete(g, x.ahm) ==> (Stored(on, x) <==> Stored(off, x))
    ensures Stored(on, x) ==> Stored(off, x)
    ensures Stored(off, x) && !Stored(on, x) ==> Complete(g, x.ahm) && OnSomePath(g, on, x)
  {
    hide SetFinished, OnSomePath, ItemOk;
    FinishedExact(g, toks, on, cur, x.at);
    FinishedExact(g, toks, off, cur, x.at);
    NoLeoExact(g, toks, off, x.at, x);
    if Complete(g, x.ahm) {
      StoredIsOk(g, toks, on, x);
      if ItemOk(g, toks, x) && !Stored(on, x) {
        MissingItem(g, toks, on, cur, x);
      }
    } else {
      IncompleteExact(g, toks, on, x.at, x);
    }
  }

  lemma {:induction false} FinishedExact(g: Grammar, toks: set<Token>, sets: Sets, cur: nat, j: nat)
    requires SetFinished(g, toks, sets, cur, j)
    ensures AhmsOk(g) && RulesOk(g) && TokensOk(toks) && Exact(g, toks, sets, j)
  {
  }

  lemma {:induction false} StoredIsOk(g: Grammar, toks: set<Token>, sets: Sets, x: Item)
    requires Exact(g, toks, sets, x.at)
    ensures Stored(sets, x) ==> ItemOk(g, toks, x)
  {
  }

  lemma {:induction false} CompleteItem(g: Grammar, x: Item)
    requires AhmsOk(g) && Complete(g, x.ahm)
    ensures var r := g.ahms[x.ahm].irl;
            r < |g.irls| && g.ahms[x.ahm].quasi == |P(g, r)| && x == Item(AhmOf(g, r, |P(g, r)|), x.origin, x.at)
  {
    AhmCase(g, x.ahm);
  }

  lemma {:induction false} MissingItem(g: Grammar, toks: set<Token>, sets: Sets, cur: nat, x: Item)
    requires SetFinished(g, toks, sets, cur, x.at) && ItemOk(g, toks, x) && Complete(g, x.ahm) && !Stored(sets, x)
    ensures OnSomePath(g, sets, x)
  {
    FinishedExact(g, toks, sets, cur, x.at);
    CompleteItem(g, x);
    hide SetFinished, OnSomePath, Predicted, Exact, AhmsOk, RulesOk, ForestFor;
    var r := g.ahms[x.ahm].irl;
    var f :| ForestFor(g, toks, f, r, |P(g, r)|, x.origin, x.at);
    MissingOnPath(g, toks, sets, cur, x.at, f, r, x.origin);
  }

  /** The same symbols are expected, so the same tokens can be read next and the
      parse is exhausted at the same point. */
  lemma {:induction false} SameExpected(g: Grammar, toks: set<Token>, on: Sets, off: Sets, cur: nat, m: nat, s: nat)
    requires SetFinished(g, toks, on, cur, m) && SetFinished(g, toks, off, cur, m) && NoLims(off)
    ensures Pims(on, m, s) == [] <==> Pims(off, m, s) == []
  {
    hide SetFinished;
    ExpectedIn(g, toks, on, off, cur, m, s);
    ExpectedIn(g, toks, off, on, cur, m, s);
  }

  lemma {:induction false} ExpectedIn(g: Grammar, toks: set<Token>, sets: Sets, sets': Sets, cur: nat, m: nat, s: nat)
    requires SetFinished(g, toks, sets, cur, m) && SetFinished(g, toks, sets', cur, m)
    ensures Pims(sets, m, s) != [] ==> Pims(sets', m, s) != []
  {
    FinishedExact(g, toks, sets, cur, m);
    FinishedExact(g, toks, sets', cur, m);
    PastPims(g, toks, sets, cur, m, s);
    PimsAreHere(g, toks, sets', cur, m, s);
    hide SetFinished, Exact, ItemOk, PimsHere;
    if Pims(sets, m, s) != [] {
      var h := Pims(sets, m, s)[0];
      assert h in Pims(sets, m, s);
      IncompleteExact(g, toks, sets', m, h);
      InPims(g, sets', m, s, h);
    }
  }

  lemma {:induction false} SameSets(g: Grammar, toks: set<Token>, on: Sets, off: Sets, cur: nat, x: Item)
    requires SetFinished(g, toks, on, cur, x.at) && SetFinished(g, toks, off, cur, x.at) && NoLims(off)
    ensures !Complete(g, x.ahm) ==> (Stored(on, x) <==> Stored(off, x))
    ensures Stored(on, x) ==> Stored(off, x)
    ensures Stored(off, x) && !Stored(on, x) ==> Complete(g, x.ahm) && OnSomePath(g, on, x)
    ensures forall s :: Pims(on, x.at, s) == [] <==> Pims(off, x.at, s) == []
  {
    hide *;
    SameParse(g, toks, on, off, cur, x);
    forall s
      ensures Pims(on, x.at, s) == [] <==> Pims(off, x.at, s) == []
    {
      SameExpected(g, toks, on, off, cur, x.at, s);
    }
  }
}
