/** What is expected is what can go on: a terminal is expected at an earleme exactly when the
    tokens up to there, one token of it, and some tokens after that make a sentence. */
module Viability {
  import opened Options
  import opened Grammars
  import opened Derivations
  import opened Externals
  import opened Pieces
  import opened Encodings
  import opened Compilations
  import opened RewriteMeaning
  import opened RewriteComplete
  import opened RewriteShape
  import opened CensusMeaning
  import opened CensusTruth
  import opened Languages
  import opened Recognizers
  import opened Parsing
  import opened ParseSessions

  // ---- Completing what has been begun ----

  /** All of `toks`, and besides them only tokens that start at `m` or later. */
  ghost predicate Extends(toks: set<Token>, toks': set<Token>, m: nat) {
    toks <= toks' && TokensOk(toks') && forall t :: t in toks' && t !in toks ==> t.from >= m
  }

  ghost predicate AllDerive(x: External, symbols: set<nat>) {
    forall s: nat :: s in symbols ==> DerivesSomewhere(x, s)
  }

  lemma {:induction false} SpansMoved(x: External, toks: set<Token>, toks': set<Token>, syms: seq<nat>, j: nat, d: nat)
    requires XSpans(x, toks, syms, 0, j) && MovedTokens(toks, d) <= toks'
    ensures XSpans(x, toks', syms, d, j + d)
  {
    hide XDerives;
    var points :| SpansAt(x, toks, syms, points) && Between(points, |syms|, 0, j);
    var moved: seq<nat> := seq(|points|, k requires 0 <= k < |points| => points[k] + d);
    forall k | 0 <= k < |syms|
      ensures XDerives(x, toks', syms[k], moved[k], moved[k + 1])
    {
      MoreTokens(x, toks, toks', syms[k], points[k], points[k + 1], d);
    }
    assert SpansAt(x, toks', syms, moved) && Between(moved, |syms|, d, j + d);
  }

  /** Symbols that derive something or nothing somewhere can be derived from `m` on, with more tokens. */
  lemma {:induction false} SpansOn(x: External, toks: set<Token>, syms: seq<nat>, m: nat) returns (toks': set<Token>, m': nat)
    requires TokensOk(toks) && forall k :: 0 <= k < |syms| ==> DerivesSomewhere(x, syms[k])
    ensures Extends(toks, toks', m) && m <= m' && XSpans(x, toks', syms, m, m')
  {
    hide DerivesSomewhere, XSpans;
    AllSomewhere(x, syms);
    var more: set<Token>, j: nat := SomeSpan(x, syms);
    toks', m' := toks + MovedTokens(more, m), j + m;
    SpansMoved(x, more, toks', syms, j, m);
  }

  lemma {:induction false} SomeSpan(x: External, syms: seq<nat>) returns (toks: set<Token>, j: nat)
    requires SpansSomewhere(x, syms)
    ensures TokensOk(toks) && XSpans(x, toks, syms, 0, j)
  {
    hide XSpans, TokensOk;
    toks, j :| TokensOk(toks) && XSpans(x, toks, syms, 0, j);
  }

  /** Where a proper symbol is in the right-hand side. */
  lemma {:induction false} ProperAt(nulling: set<nat>, ns: seq<nat>, q: nat) returns (at: nat)
    requires q < |Proper(nulling, ns)|
    ensures at < |ns| && ns[at] == Proper(nulling, ns)[q] && Proper(nulling, ns[..at]) == Proper(nulling, ns)[..q]
    decreases |ns|
  {
    hide Proper;
    var n := |ns| - 1;
    assert ns[..n + 1] == ns;
    ProperSnoc(nulling, ns, n);
    if q == |Proper(nulling, ns[..n])| {
      at := n;
    } else {
      at := ProperAt(nulling, ns[..n], q);
      assert ns[..n][..at] == ns[..at];
    }
  }

  /** A used rule has only symbols that derive something or nothing somewhere. */
  lemma {:induction false} UsedDerive(k: Compiled, irl: nat)
    requires Rewrote(k) && irl < |k.irls| && AllDerive(k.x, k.c.known)
    ensures irl < |k.plans|
    ensures k.plans[irl].Piece? ==> forall q :: 0 <= q < |Rhs(k.x, k.plans[irl].rule)| ==> DerivesSomewhere(k.x, Rhs(k.x, k.plans[irl].rule)[q])
    ensures !k.plans[irl].Piece? && k.plans[irl] != StartPlan ==>
              && k.plans[irl].rule < |k.x.xrls| && k.x.xrls[k.plans[irl].rule].Sequence?
              && var s := k.x.xrls[k.plans[irl].rule];
              DerivesSomewhere(k.x, s.item) && (s.separator.Some? ==> DerivesSomewhere(k.x, s.separator.value))
  {
    hide DerivesSomewhere, SymbolsAre, Distinct, Rewritten, GrammarIs;
    assert IrlOk(k.x, k.c, k.nsys, k.irls[irl], k.plans[irl]) && PlanOk(k.x, k.c, k.plans[irl]);
    hide IrlOk;
    if k.plans[irl] != StartPlan {
      assert RuleReady(k.x, k.c, k.plans[irl].rule);
    }
  }

  /** A piece whose symbols up to one of its proper symbols are there, and that symbol too: the
      rest of the rule can follow. */
  lemma {:induction false} PieceUp(k: Compiled, toks: set<Token>, toks1: set<Token>, irl: nat, q: nat, i: nat, e: nat, m: nat) returns (toks2: set<Token>, m2: nat)
    requires Rewrote(k) && CensusOk(k.x, k.c) && AllDerive(k.x, k.c.known) && irl < |k.irls| && k.plans[irl].Piece?
    requires q < |P(k.g, irl)| && MeaningSpans(k, toks, P(k.g, irl)[..q], i, e)
    requires toks <= toks1 && TokensOk(toks1) && MeaningAt(k, toks1, P(k.g, irl)[q], e, m)
    ensures Extends(toks1, toks2, m) && m <= m2 && MeaningAt(k, toks2, k.irls[irl].lhs, i, m2)
  {
    hide *;
    PieceFacts(k, irl);
    PieceCut(k, toks1, irl);
    PieceStands(k, toks, irl);
    PieceStands(k, toks1, irl);
    RestIs(k, irl);
    UsedDerive(k, irl);
    var p, rhs, part := k.plans[irl], k.irls[irl].rhs, Part(k, irl);
    var syms := Rhs(k.x, p.rule);
    var n := |p.nulls|;
    var at := ProperAt(k.g.nulling, rhs, q);
    if at < n {
      SymbolsSpan(k, toks, rhs[..at], part[..at], i, e);
      SpansMore(k.x, toks, toks1, part[..at], i, e);
      ProperNot(k.g.nulling, rhs, q);
      StandsMeans(k, toks1, rhs[at], part[at], e, m);
      SpansOne(k.x, toks1, part[at], e, m);
      SpansConcat(k.x, toks1, part[..at], [part[at]], i, e, m);
      toks2, m2 := SpansOn(k.x, toks1, syms[p.start + at + 1..], m);
      ExtendsHas(toks1, toks2, m);
      SpansMore(k.x, toks1, toks2, part[..at] + [part[at]], i, m);
      SpansConcat(k.x, toks2, part[..at] + [part[at]], syms[p.start + at + 1..], i, m, m2);
      PartIs(k, irl, at);
    } else {
      toks2, m2 := toks1, m;
      ExtendsSame(toks1, m);
      assert rhs[..n] == rhs[..at];
      SymbolsSpan(k, toks, rhs[..n], part, i, e);
      SpansMore(k.x, toks, toks1, part, i, e);
      SpansConcat(k.x, toks1, part, syms[p.start + n..], i, e, m);
    }
    PieceLhsMeans(k, toks2, irl, i, m2);
  }

  lemma {:induction false} PartIs(k: Compiled, irl: nat, at: nat)
    requires irl < |k.plans| && k.plans[irl].Piece? && at < |Part(k, irl)|
    ensures var syms := Rhs(k.x, k.plans[irl].rule);
            var start := k.plans[irl].start;
            && start + at + 1 <= |syms|
            && syms[start..] == Part(k, irl)[..at] + [Part(k, irl)[at]] + syms[start + at + 1..]
  {
  }

  lemma {:induction false} ExtendsHas(toks: set<Token>, toks': set<Token>, m: nat)
    requires Extends(toks, toks', m)
    ensures toks <= toks' && TokensOk(toks')
  {
  }

  lemma {:induction false} ExtendsSame(toks: set<Token>, m: nat)
    requires TokensOk(toks)
    ensures Extends(toks, toks, m)
  {
  }

  lemma {:induction false} ProperNot(nulling: set<nat>, ns: seq<nat>, q: nat)
    requires q < |Proper(nulling, ns)|
    ensures Proper(nulling, ns)[q] !in nulling
  {
    assert Proper(nulling, ns)[q] in Proper(nulling, ns);
  }

  lemma {:induction false} StandsMeans(k: Compiled, toks: set<Token>, n: nat, s: nat, i: nat, j: nat)
    requires StandsFor(k, toks, n, s) && n !in k.g.nulling && MeaningAt(k, toks, n, i, j)
    ensures XDerives(k.x, toks, s, i, j)
  {
    hide MeaningAt, XDerives;
  }

  /** What follows the inner symbol in a rule of a sequence. */
  ghost function After(x: External, p: Plan): seq<nat> {
    if p == StartPlan || p.Piece? || p.rule >= |x.xrls| || !x.xrls[p.rule].Sequence? then []
    else
      var s := x.xrls[p.rule];
      if p.SequenceTrail? then Separators(s.separator)
      else if p.SequenceMore? then Separators(s.separator) + [s.item] else []
  }

  lemma {:induction false} SequenceShape(k: Compiled, irl: nat)
    requires Rewrote(k) && irl < |k.irls| && !k.plans[irl].Piece? && k.plans[irl] != StartPlan
    ensures irl < |k.plans|
    ensures var p, rhs := k.plans[irl], k.irls[irl].rhs;
            && p.rule < |k.x.xrls| && k.x.xrls[p.rule].Sequence?
            && SequenceRule(k.x, k.nsys, k.irls[irl], p) && P(k.g, irl) == rhs
            && (p.SequenceFirst? ==> |rhs| == 1 && Means(k.nsys, rhs[0], Whole(k.x.xrls[p.rule].item)))
            && (!p.SequenceFirst? ==>
                 && |rhs| == 1 + |After(k.x, p)| && Means(k.nsys, rhs[0], Inner(p.rule))
                 && forall q :: 0 <= q < |After(k.x, p)| ==> Means(k.nsys, rhs[q + 1], Whole(After(k.x, p)[q])))
            && (p.SequenceTrail? ==> !k.x.xrls[p.rule].proper)
  {
    hide Rewrote, P, Means;
    SequenceFacts(k, irl);
    SequenceP(k, irl);
  }

  lemma {:induction false} WholeMeans(k: Compiled, toks: set<Token>, n: nat, s: nat, i: nat, j: nat)
    requires Means(k.nsys, n, Whole(s)) && MeaningAt(k, toks, n, i, j)
    ensures XDerives(k.x, toks, s, i, j)
  {
    hide XDerives;
  }

  /** The same for the rules of a sequence: what was begun as one of its items can always end there. */
  lemma {:induction false} SequenceUp(k: Compiled, toks: set<Token>, toks1: set<Token>, irl: nat, q: nat, i: nat, e: nat, m: nat) returns (toks2: set<Token>, m2: nat)
    requires Rewrote(k) && AllDerive(k.x, k.c.known) && irl < |k.irls| && !k.plans[irl].Piece? && k.plans[irl] != StartPlan
    requires q < |P(k.g, irl)| && MeaningSpans(k, toks, P(k.g, irl)[..q], i, e)
    requires toks <= toks1 && TokensOk(toks1) && MeaningAt(k, toks1, P(k.g, irl)[q], e, m)
    ensures Extends(toks1, toks2, m) && m <= m2 && MeaningAt(k, toks2, k.irls[irl].lhs, i, m2)
  {
    hide *;
    SequenceShape(k, irl);
    toks2, m2 := toks1, m;
    ExtendsSame(toks1, m);
    var p, rhs := k.plans[irl], k.irls[irl].rhs;
    if p.SequenceFirst? {
      NoneBefore(k, toks, rhs, i, e);
      assert rhs == [rhs[0]];
      OneSpans(k, toks1, rhs[0], e, m);
      FirstPlan(k, toks1, irl, i, m);
    } else if q == 0 {
      NoneBefore(k, toks, rhs, i, e);
      InnerAlone(k, toks1, irl, i, m);
    } else {
      var syms := After(k.x, p);
      assert rhs[..q] == [rhs[0]] + rhs[1..q];
      var n := InnerThen(k, toks, rhs[0], p.rule, rhs[1..q], syms[..q - 1], i, e);
      toks2, m2 := AfterInner(k, toks, toks1, irl, q, n, i, e, m);
    }
  }

  lemma {:induction false} NoneBefore(k: Compiled, toks: set<Token>, ns: seq<nat>, i: nat, e: nat)
    requires MeaningSpans(k, toks, ns[..0], i, e)
    ensures i == e
  {
  }

  lemma {:induction false} OneSpans(k: Compiled, toks: set<Token>, n: nat, i: nat, j: nat)
    requires MeaningAt(k, toks, n, i, j)
    ensures MeaningSpans(k, toks, [n], i, j)
  {
    assert Init([n]) == [] && End([n]) == n;
    assert MeaningSpans(k, toks, Init([n]), i, i);
  }

  lemma {:induction false} FirstPlan(k: Compiled, toks: set<Token>, irl: nat, i: nat, j: nat)
    requires irl < |k.irls| && irl < |k.plans| && k.plans[irl].SequenceFirst? && SequenceRule(k.x, k.nsys, k.irls[irl], k.plans[irl])
    requires MeaningSpans(k, toks, k.irls[irl].rhs, i, j)
    ensures MeaningAt(k, toks, k.irls[irl].lhs, i, j)
  {
    FirstItem(k, toks, irl, k.plans[irl].rule, i, j);
  }

  /** Items alone are what the inner symbol and the sequence mean. */
  lemma {:induction false} InnerAlone(k: Compiled, toks: set<Token>, irl: nat, i: nat, j: nat)
    requires irl < |k.irls| && irl < |k.plans| && !k.plans[irl].Piece? && k.plans[irl] != StartPlan && !k.plans[irl].SequenceFirst?
    requires SequenceRule(k.x, k.nsys, k.irls[irl], k.plans[irl])
    requires MeaningAt(k, toks, k.irls[irl].rhs[0], i, j)
    ensures MeaningAt(k, toks, k.irls[irl].lhs, i, j)
  {
    hide XSpans, XDerives;
    var r := k.plans[irl].rule;
    var s := k.x.xrls[r];
    var n: nat :| XSpans(k.x, toks, Items(s.item, s.separator, n), i, j);
    if !k.plans[irl].SequenceMore? {
      assert Expands(s, Items(s.item, s.separator, n));
      RuleDerives(k.x, toks, r, Items(s.item, s.separator, n), i, j);
    }
  }

  lemma {:induction false} AfterInner(k: Compiled, toks: set<Token>, toks1: set<Token>, irl: nat, q: nat, n: nat, i: nat, e: nat, m: nat) returns (toks2: set<Token>, m2: nat)
    requires Rewrote(k) && AllDerive(k.x, k.c.known) && irl < |k.irls| && !k.plans[irl].Piece? && k.plans[irl] != StartPlan && !k.plans[irl].SequenceFirst?
    requires k.plans[irl].rule < |k.x.xrls| && k.x.xrls[k.plans[irl].rule].Sequence? && 0 < q <= |After(k.x, k.plans[irl])| && q < |k.irls[irl].rhs|
    requires var s := k.x.xrls[k.plans[irl].rule]; XSpans(k.x, toks, Items(s.item, s.separator, n) + After(k.x, k.plans[irl])[..q - 1], i, e)
    requires toks <= toks1 && TokensOk(toks1) && MeaningAt(k, toks1, k.irls[irl].rhs[q], e, m)
    ensures Extends(toks1, toks2, m) && m <= m2 && MeaningAt(k, toks2, k.irls[irl].lhs, i, m2)
  {
    hide *;
    SequenceShape(k, irl);
    UsedDerive(k, irl);
    var p, s, syms := k.plans[irl], k.x.xrls[k.plans[irl].rule], After(k.x, k.plans[irl]);
    var items := Items(s.item, s.separator, n);
    SpansMore(k.x, toks, toks1, items + syms[..q - 1], i, e);
    assert Means(k.nsys, k.irls[irl].rhs[(q - 1) + 1], Whole(syms[q - 1]));
    WholeMeans(k, toks1, k.irls[irl].rhs[q], syms[q - 1], e, m);
    SpansOne(k.x, toks1, syms[q - 1], e, m);
    SpansConcat(k.x, toks1, items + syms[..q - 1], [syms[q - 1]], i, e, m);
    AfterDerive(k.x, p, q);
    toks2, m2 := SpansOn(k.x, toks1, syms[q..], m);
    ExtendsHas(toks1, toks2, m);
    SpansMore(k.x, toks1, toks2, items + syms[..q - 1] + [syms[q - 1]], i, m);
    SpansConcat(k.x, toks2, items + syms[..q - 1] + [syms[q - 1]], syms[q..], i, m, m2);
    assert items + syms[..q - 1] + [syms[q - 1]] + syms[q..] == items + syms;
    AfterIs(k, irl);
    RewriteMeaning.SequenceLhs(k, toks2, irl, n, syms, i, m2);
  }

  lemma {:induction false} AfterDerive(x: External, p: Plan, q: nat)
    requires !p.Piece? && p != StartPlan && p.rule < |x.xrls| && x.xrls[p.rule].Sequence? && q <= |After(x, p)|
    requires var s := x.xrls[p.rule]; DerivesSomewhere(x, s.item) && (s.separator.Some? ==> DerivesSomewhere(x, s.separator.value))
    ensures forall n :: 0 <= n < |After(x, p)[q..]| ==> DerivesSomewhere(x, After(x, p)[q..][n])
  {
    hide DerivesSomewhere;
  }

  lemma {:induction false} AfterIs(k: Compiled, irl: nat)
    requires irl < |k.irls| && irl < |k.plans| && !k.plans[irl].Piece? && k.plans[irl] != StartPlan && !k.plans[irl].SequenceFirst?
    requires SequenceRule(k.x, k.nsys, k.irls[irl], k.plans[irl])
    ensures var s := k.x.xrls[k.plans[irl].rule];
            After(k.x, k.plans[irl]) == (if k.plans[irl].SequenceTop? then [] else if k.plans[irl].SequenceTrail? then [s.separator.value]
                                         else Separators(s.separator) + [s.item])
  {
  }

  /** One rule up: what was begun and whose next symbol is there can be ended. */
  lemma {:induction false} RuleUp(k: Compiled, toks: set<Token>, toks1: set<Token>, irl: nat, q: nat, i: nat, e: nat, m: nat) returns (toks2: set<Token>, m2: nat)
    requires Rewrote(k) && CensusOk(k.x, k.c) && AllDerive(k.x, k.c.known) && irl < |k.irls|
    requires q < |P(k.g, irl)| && MeaningSpans(k, toks, P(k.g, irl)[..q], i, e)
    requires toks <= toks1 && TokensOk(toks1) && MeaningAt(k, toks1, P(k.g, irl)[q], e, m)
    ensures irl < |k.g.irls| && Extends(toks1, toks2, m) && m <= m2 && MeaningAt(k, toks2, k.g.irls[irl].lhs, i, m2)
  {
    hide *;
    RuleShape(k, irl);
    if k.plans[irl].Piece? {
      toks2, m2 := PieceUp(k, toks, toks1, irl, q, i, e, m);
    } else if k.plans[irl] == StartPlan {
      RewriteMeaning.StartFacts(k, irl);
      NoneBefore(k, toks, P(k.g, irl), i, e);
      OneSpans(k, toks1, P(k.g, irl)[0], i, m);
      StartMeans(k, toks1, irl, i, m);
      toks2, m2 := toks1, m;
      ExtendsSame(toks1, m);
    } else {
      toks2, m2 := SequenceUp(k, toks, toks1, irl, q, i, e, m);
    }
  }

  lemma {:induction false} ExtendsTwice(toks: set<Token>, toks1: set<Token>, toks2: set<Token>, m: nat, m1: nat)
    requires Extends(toks, toks1, m) && Extends(toks1, toks2, m1) && m <= m1
    ensures Extends(toks, toks2, m)
  {
  }

  /** All the way up: the start rule can be ended. */
  lemma {:induction false} RouteUp(k: Compiled, toks: set<Token>, itoks: set<Token>, p: Route, r: nat, i: nat, toks1: set<Token>, m: nat) returns (toks2: set<Token>, m2: nat)
    requires Rewrote(k) && CensusOk(k.x, k.c) && AllDerive(k.x, k.c.known) && TokensAre(k, toks, itoks) && RouteFor(k.g, itoks, p, r, i)
    requires toks <= toks1 && TokensOk(toks1) && MeaningAt(k, toks1, k.g.irls[r].lhs, i, m)
    ensures Extends(toks1, toks2, m) && m <= m2 && XDerives(k.x, toks2, k.x.start, 0, m2)
    decreases p
  {
    hide Rewrote, CensusOk, AllDerive, TokensAre, MeaningAt, MeaningSpans, ForestFor, XDerives, Extends, P;
    match p
    case Start =>
      toks2, m2 := toks1, m;
      ExtendsSame(toks1, m);
      StartLhsMeans(k, toks1, i, m);
    case Via(up, r', q, from, kids) =>
      SameRules(k);
      ForestSound(k, toks, itoks, kids, r', q, from, i);
      var toks', m' := RuleUp(k, toks, toks1, r', q, from, i, m);
      ExtendsHas(toks1, toks', m);
      RouteRule(k.g, itoks, up, r', from);
      toks2, m2 := RouteUp(k, toks, itoks, up, r', from, toks', m');
      ExtendsTwice(toks1, toks', toks2, m, m');
  }

  lemma {:induction false} RouteRule(g: Grammar, itoks: set<Token>, p: Route, r: nat, i: nat)
    requires RouteFor(g, itoks, p, r, i)
    ensures r < |g.irls|
  {
  }

  lemma {:induction false} StartLhsMeans(k: Compiled, toks: set<Token>, i: nat, m: nat)
    requires Rewrote(k) && k.g.startIrl < |k.g.irls| && MeaningAt(k, toks, k.g.irls[k.g.startIrl].lhs, i, m)
    ensures XDerives(k.x, toks, k.x.start, i, m)
  {
    StartIsLast(k);
    RuleShape(k, k.g.startIrl);
    RewriteMeaning.StartFacts(k, k.g.startIrl);
    hide Rewrote, XDerives;
  }

  // ---- What goes on was awaited ----

  /** No token is under way at `e`. */
  ghost predicate Apart(itoks: set<Token>, e: nat) {
    forall t :: t in itoks ==> t.to <= e || t.from >= e
  }

  /** A tree that goes past `e` takes a token there, and its symbol is awaited. */
  lemma {:induction false} TreeAwaits(g: Grammar, itoks: set<Token>, e: nat, t: Tree, n: nat, i: nat, j: nat) returns (tok: Token)
    requires RulesOk(g) && TokensOk(itoks) && Apart(itoks, e) && TreeFor(g, itoks, t, n, i, j) && i <= e < j && Awaited(g, itoks, n, i)
    ensures tok in itoks && tok.from == e && Awaited(g, itoks, tok.sym, e)
    decreases t
  {
    hide RulesOk, Valid, P;
    match t
    case Leaf =>
      tok := Token(n, i, j);
    case Node(r, kids) =>
      var r0: nat, q0: nat, i0: nat :| Awaits(g, itoks, r0, q0, i0, n, i);
      Predict(g, itoks, r0, q0, i0, i, r);
      tok := ForestAwaits(g, itoks, e, kids, r, |P(g, r)|, i, j);
  }

  lemma {:induction false} ForestAwaits(g: Grammar, itoks: set<Token>, e: nat, f: Forest, r: nat, q: nat, i: nat, j: nat) returns (tok: Token)
    requires RulesOk(g) && TokensOk(itoks) && Apart(itoks, e) && ForestFor(g, itoks, f, r, q, i, j) && i <= e < j && Predicted(g, itoks, r, i)
    ensures tok in itoks && tok.from == e && Awaited(g, itoks, tok.sym, e)
    decreases f
  {
    hide RulesOk, P, Predicted, Awaited;
    match f
    case Snoc(init, mid, last) =>
      if mid > e {
        tok := ForestAwaits(g, itoks, e, init, r, q - 1, i, mid);
      } else {
        assert Spans(g, itoks, r, q - 1, i, mid);
        AwaitedHere(g, itoks, r, q - 1, i, mid);
        tok := TreeAwaits(g, itoks, e, last, P(g, r)[q - 1], mid, j);
      }
  }

  lemma {:induction false} AwaitedHere(g: Grammar, itoks: set<Token>, r: nat, q: nat, i: nat, e: nat)
    requires Predicted(g, itoks, r, i) && Spans(g, itoks, r, q, i, e) && q < |P(g, r)| && r < |g.irls|
    ensures Awaited(g, itoks, P(g, r)[q], e)
  {
    hide Predicted, Spans, P;
    assert Awaits(g, itoks, r, q, i, P(g, r)[q], e);
  }

  lemma {:induction false} StartAwaited(g: Grammar, itoks: set<Token>)
    requires g.startIrl < |g.irls| && |P(g, g.startIrl)| > 0
    ensures Awaited(g, itoks, P(g, g.startIrl)[0], 0)
  {
    hide P;
    assert RouteFor(g, itoks, Start, g.startIrl, 0);
    assert ForestFor(g, itoks, Nil, g.startIrl, 0, 0, 0);
    AwaitedHere(g, itoks, g.startIrl, 0, 0, 0);
  }

  // ---- Internal and external tokens ----

  ghost function Before(toks: set<Token>, e: nat): set<Token> {
    set t | t in toks && t.to <= e
  }

  /** How external tokens are read. */
  ghost function InternalTokens(k: Compiled, toks: set<Token>): set<Token> {
    set t | t in toks && t.sym in k.x.terminals && t.sym in k.nsyOf :: Token(k.nsyOf[t.sym], t.from, t.to)
  }

  /** An internal symbol of an external terminal is the one the terminal is read as. */
  lemma {:induction false} TerminalSymbol(k: Compiled, f: Findings, n: nat)
    requires CompiledWith(k, f) && n < |k.nsys| && k.nsys[n].Whole? && k.nsys[n].xsy in k.x.terminals
    ensures k.nsys[n].xsy in k.c.known && k.nsys[n].xsy in k.nsyOf && k.nsyOf[k.nsys[n].xsy] == n
  {
    CompiledParts(k, f);
    hide CompiledWith, Taken, RulesAre, Rewritten;
    assert Warranted(k.c, k.nsys[n]);
    assert k.nsys[n].xsy < k.x.xsyCount;
    assert Means(k.nsys, k.nsyOf[k.nsys[n].xsy], Whole(k.nsys[n].xsy));
  }

  lemma {:induction false} InternalAre(k: Compiled, f: Findings, toks: set<Token>)
    requires CompiledWith(k, f) && OnlyKnown(k)
    ensures TokensAre(k, toks, InternalTokens(k, toks))
  {
    hide CompiledWith, OnlyKnown;
    var itoks := InternalTokens(k, toks);
    forall t: Token
      ensures t in itoks <==> t.sym < |k.nsys| && k.nsys[t.sym].Whole? && k.nsys[t.sym].xsy in k.x.terminals
                              && Token(k.nsys[t.sym].xsy, t.from, t.to) in toks
    {
      if t in itoks {
        var u :| u in toks && u.sym in k.x.terminals && u.sym in k.nsyOf && t == Token(k.nsyOf[u.sym], u.from, u.to);
        TerminalWhole(k, f, u.sym);
      }
      if t.sym < |k.nsys| && k.nsys[t.sym].Whole? && k.nsys[t.sym].xsy in k.x.terminals && Token(k.nsys[t.sym].xsy, t.from, t.to) in toks {
        TerminalSymbol(k, f, t.sym);
      }
    }
  }

  lemma {:induction false} InternalOk(k: Compiled, toks: set<Token>)
    requires TokensOk(toks)
    ensures TokensOk(InternalTokens(k, toks))
  {
  }

  // ---- Sentences that go on ----

  /** The tokens up to `e`, one of `s` there, and some after it are derived from the start symbol. */
  ghost predicate Sentence(x: External, toks: set<Token>, s: nat, e: nat, more: set<Token>, m: nat) {
    && TokensOk(more) && (forall t :: t in more ==> t.from > e)
    && e < m && XDerives(x, Before(toks, e) + {Token(s, e, e + 1)} + more, x.start, 0, m)
  }

  ghost predicate GoesOn(x: External, toks: set<Token>, s: nat, e: nat) {
    exists more: set<Token>, m: nat :: Sentence(x, toks, s, e, more, m)
  }

  /** A terminal is expected if and only if the parse can go on with it: some tokens after it
      complete a sentence. */
  lemma {:induction false} ExpectedExact(k: Compiled, f: Findings, toks: set<Token>, s: nat, e: nat)
    requires CompiledWith(k, f) && OnlyKnown(k) && SeparatorsHarmless(k.x, f) && TokensOk(toks) && s in k.x.terminals
    ensures Expected(k, toks, s, e) <==> GoesOn(k.x, toks, s, e)
  {
    hide *;
    if Expected(k, toks, s, e) {
      ExpectedGoesOn(k, f, toks, s, e);
    }
    if GoesOn(k.x, toks, s, e) {
      GoesOnExpected(k, f, toks, s, e);
    }
  }

  lemma {:induction false} KnownDerive(k: Compiled, f: Findings)
    requires CompiledWith(k, f)
    ensures AllDerive(k.x, k.c.known)
  {
    CompiledParts(k, f);
    hide CompiledWith, GrammarGiven, Taken, Rewrote, DerivesSomewhere, Mentioned;
    forall s: nat | s in k.c.known
      ensures DerivesSomewhere(k.x, s)
    {
      CensusMeans(k.x, f, s);
    }
  }

  lemma {:induction false} AwaitedUpto(g: Grammar, itoks: set<Token>, itoks': set<Token>, n: nat, e: nat)
    requires RulesOk(g) && TokensOk(itoks) && Upto(itoks, itoks', e) && Awaited(g, itoks, n, e)
    ensures Awaited(g, itoks', n, e)
  {
    hide Valid, P, RulesOk;
    var r: nat, q: nat, i: nat :| Awaits(g, itoks, r, q, i, n, e);
    ValidUpto(g, itoks, itoks', e, r, q, i, e);
    assert Awaits(g, itoks', r, q, i, n, e);
  }

  lemma {:induction false} ExpectedGoesOn(k: Compiled, f: Findings, toks: set<Token>, s: nat, e: nat)
    requires CompiledWith(k, f) && OnlyKnown(k) && SeparatorsHarmless(k.x, f) && TokensOk(toks) && Expected(k, toks, s, e)
    ensures GoesOn(k.x, toks, s, e)
  {
    hide *;
    CompiledParts(k, f);
    CensusExact(k.x, f);
    KnownDerive(k, f);
    StartFresh(k);
    var itoks := ExpectedTokens(k, toks, s, e);
    var toks0 := Before(toks, e);
    BeforeOk(k, f, toks, itoks, e);
    var itoks0 := InternalTokens(k, toks0);
    AwaitedUpto(k.g, itoks, itoks0, k.nsyOf[s], e);
    TerminalWhole(k, f, s);
    var tok := Token(s, e, e + 1);
    TokenMeans(k, toks0 + {tok}, s, e);
    WithToken(toks0, tok);
    var toks2, m := UpFrom(k, toks0, itoks0, k.nsyOf[s], e, toks0 + {tok}, e + 1);
    SplitMore(k.x, toks, s, e, toks2, m);
  }

  lemma {:induction false} ExpectedTokens(k: Compiled, toks: set<Token>, s: nat, e: nat) returns (itoks: set<Token>)
    requires Expected(k, toks, s, e)
    ensures s in k.x.terminals && s in k.nsyOf && TokensAre(k, toks, itoks) && Awaited(k.g, itoks, k.nsyOf[s], e)
  {
    hide TokensAre, Awaited;
    itoks :| TokensAre(k, toks, itoks) && Awaited(k.g, itoks, k.nsyOf[s], e);
  }

  lemma {:induction false} BeforeOk(k: Compiled, f: Findings, toks: set<Token>, itoks: set<Token>, e: nat)
    requires CompiledWith(k, f) && OnlyKnown(k) && TokensOk(toks) && TokensAre(k, toks, itoks)
    ensures var itoks0 := InternalTokens(k, Before(toks, e));
            TokensOk(Before(toks, e)) && TokensOk(itoks) && TokensAre(k, Before(toks, e), itoks0) && Upto(itoks, itoks0, e)
  {
    InternalAre(k, f, Before(toks, e));
    hide CompiledWith, OnlyKnown, InternalTokens;
  }

  lemma {:induction false} TokenMeans(k: Compiled, toks: set<Token>, s: nat, e: nat)
    requires s in k.x.terminals && s in k.nsyOf && Means(k.nsys, k.nsyOf[s], Whole(s)) && Token(s, e, e + 1) in toks
    ensures MeaningAt(k, toks, k.nsyOf[s], e, e + 1)
  {
    assert XTreeFor(k.x, toks, XLeaf, s, e, e + 1);
  }

  lemma {:induction false} WithToken(toks: set<Token>, tok: Token)
    requires TokensOk(toks) && tok.from < tok.to
    ensures TokensOk(toks + {tok}) && toks <= toks + {tok} && tok in toks + {tok}
  {
  }

  /** From an awaited symbol all the way up. */
  lemma {:induction false} UpFrom(k: Compiled, toks: set<Token>, itoks: set<Token>, n: nat, e: nat, toks1: set<Token>, m: nat) returns (toks2: set<Token>, m2: nat)
    requires Rewrote(k) && CensusOk(k.x, k.c) && AllDerive(k.x, k.c.known) && TokensAre(k, toks, itoks) && Awaited(k.g, itoks, n, e)
    requires toks <= toks1 && TokensOk(toks1) && MeaningAt(k, toks1, n, e, m)
    ensures Extends(toks1, toks2, m) && m <= m2 && XDerives(k.x, toks2, k.x.start, 0, m2)
  {
    hide *;
    var r, q, i, p, kids := AwaitedParts(k.g, itoks, n, e);
    SameRules(k);
    ForestSound(k, toks, itoks, kids, r, q, i, e);
    var toks', m' := RuleUp(k, toks, toks1, r, q, i, e, m);
    ExtendsHas(toks1, toks', m);
    toks2, m2 := RouteUp(k, toks, itoks, p, r, i, toks', m');
    ExtendsTwice(toks1, toks', toks2, m, m');
  }

  lemma {:induction false} AwaitedParts(g: Grammar, itoks: set<Token>, n: nat, e: nat) returns (r: nat, q: nat, i: nat, p: Route, kids: Forest)
    requires Awaited(g, itoks, n, e)
    ensures r < |g.irls| && q < |P(g, r)| && P(g, r)[q] == n && RouteFor(g, itoks, p, r, i) && ForestFor(g, itoks, kids, r, q, i, e)
  {
    hide RouteFor, ForestFor, P;
    r, q, i :| Awaits(g, itoks, r, q, i, n, e);
    p :| RouteFor(g, itoks, p, r, i);
    kids :| ForestFor(g, itoks, kids, r, q, i, e);
  }

  lemma {:induction false} SplitMore(x: External, toks: set<Token>, s: nat, e: nat, toks2: set<Token>, m: nat)
    requires Extends(Before(toks, e) + {Token(s, e, e + 1)}, toks2, e + 1) && e < m && XDerives(x, toks2, x.start, 0, m)
    ensures GoesOn(x, toks, s, e)
  {
    hide XDerives, Before;
    var toks1 := Before(toks, e) + {Token(s, e, e + 1)};
    assert toks1 + (toks2 - toks1) == toks2;
    assert Sentence(x, toks, s, e, toks2 - toks1, m);
  }

  lemma {:induction false} GoesOnExpected(k: Compiled, f: Findings, toks: set<Token>, s: nat, e: nat)
    requires CompiledWith(k, f) && OnlyKnown(k) && SeparatorsHarmless(k.x, f) && TokensOk(toks) && s in k.x.terminals && GoesOn(k.x, toks, s, e)
    ensures Expected(k, toks, s, e)
  {
    hide *;
    CompiledParts(k, f);
    CensusExact(k.x, f);
    StartFresh(k);
    StartP(k);
    var all, m := SentenceParts(k.x, toks, s, e);
    var itoks := InternalTokens(k, all);
    InternalAre(k, f, all);
    InternalOk(k, all);
    SameLanguage(k, all, itoks, k.x.start, 0, m);
    var t := SomeTree(k.g, itoks, k.nsyOf[k.x.start], 0, m);
    StartHasRule(k);
    StartAwaited(k.g, itoks);
    InternalApart(k, all, e);
    var tok := TreeAwaits(k.g, itoks, e, t, k.nsyOf[k.x.start], 0, m);
    TokenIs(k, f, toks, all, s, e, tok);
    InternalAre(k, f, toks);
    InternalUpto(k, toks, all, e);
    AwaitedUpto(k.g, itoks, InternalTokens(k, toks), k.nsyOf[s], e);
    ExpectedIs(k, toks, InternalTokens(k, toks), s, e);
  }

  /** All the tokens of a sentence that goes on: nothing is under way at `e`, and only `s` starts there. */
  lemma {:induction false} SentenceParts(x: External, toks: set<Token>, s: nat, e: nat) returns (all: set<Token>, m: nat)
    requires TokensOk(toks) && GoesOn(x, toks, s, e)
    ensures TokensOk(all) && Apart(all, e) && e < m && XDerives(x, all, x.start, 0, m)
    ensures forall t :: t in all && t.to <= e ==> t in toks
    ensures forall t :: t in all && t.from == e ==> t.sym == s
  {
    hide XDerives;
    var more: set<Token>;
    more, m :| Sentence(x, toks, s, e, more, m);
    all := Before(toks, e) + {Token(s, e, e + 1)} + more;
  }

  lemma {:induction false} SomeTree(g: Grammar, itoks: set<Token>, n: nat, i: nat, j: nat) returns (t: Tree)
    requires Derives(g, itoks, n, i, j)
    ensures TreeFor(g, itoks, t, n, i, j)
  {
    t :| TreeFor(g, itoks, t, n, i, j);
  }

  lemma {:induction false} StartHasRule(k: Compiled)
    requires Rewrote(k)
    ensures k.g.startIrl < |k.g.irls| && |P(k.g, k.g.startIrl)| > 0
  {
    StartP(k);
    StartIsLast(k);
    SameRules(k);
    hide Rewrote;
  }

  lemma {:induction false} InternalApart(k: Compiled, toks: set<Token>, e: nat)
    requires Apart(toks, e)
    ensures Apart(InternalTokens(k, toks), e)
  {
  }

  lemma {:induction false} InternalUpto(k: Compiled, toks: set<Token>, all: set<Token>, e: nat)
    requires forall t :: t in all && t.to <= e ==> t in toks
    ensures Upto(InternalTokens(k, all), InternalTokens(k, toks), e)
  {
  }

  /** The token met at `e` is of the terminal that goes on. */
  lemma {:induction false} TokenIs(k: Compiled, f: Findings, toks: set<Token>, all: set<Token>, s: nat, e: nat, tok: Token)
    requires CompiledWith(k, f) && OnlyKnown(k) && tok in InternalTokens(k, all) && tok.from == e
    requires forall t :: t in all && t.from == e ==> t.sym == s
    ensures s in k.nsyOf && tok.sym == k.nsyOf[s] && s in k.c.known
  {
    hide CompiledWith;
  }

  /** So a token is accepted if and only if it is new, of a terminal with which the tokens up to
      there go on, with a value, and with a length in range. */
  lemma {:induction false} AcceptedGoesOn(k: Compiled, f: Findings, s: Input, symbol: nat, value: int, length: nat)
    requires CompiledWith(k, f) && OnlyKnown(k) && SeparatorsHarmless(k.x, f) && TokensOk(s.toks)
    ensures ReadFits(k, s, symbol, value, length, Accepted) <==>
              && s.phase == DuringInput && symbol in k.x.terminals && value != 0
              && 0 < length < JEARLEME_THRESHOLD && s.now + length < JEARLEME_THRESHOLD
              && GoesOn(k.x, s.toks, symbol, s.now) && Token(symbol, s.now, s.now + length) !in s.toks
  {
    hide CompiledWith, OnlyKnown, SeparatorsHarmless, GoesOn, Awaited, TokensAre;
    if symbol in k.x.terminals {
      TerminalExists(k, f, symbol);
      ExpectedExact(k, f, s.toks, symbol, s.now);
    }
  }

  /** And the input ends with a step if and only if all tokens have ended, or tokens end there,
      none later, and no terminal goes on. */
  lemma {:induction false} EndsWhenStuck(k: Compiled, f: Findings, toks: set<Token>, now: nat)
    requires CompiledWith(k, f) && OnlyKnown(k) && SeparatorsHarmless(k.x, f) && TokensOk(toks)
    ensures Ends(k, toks, now) <==>
              AllPast(toks, now) || (EndsAt(toks, now + 1) && AllPast(toks, now + 1) && NoneGoesOn(k.x, toks, now + 1))
  {
    hide CompiledWith, OnlyKnown, SeparatorsHarmless, GoesOn, Awaited, TokensAre, AllPast, EndsAt;
    forall s: nat | s in k.x.terminals
      ensures Expected(k, toks, s, now + 1) <==> GoesOn(k.x, toks, s, now + 1)
    {
      ExpectedExact(k, f, toks, s, now + 1);
    }
  }

  ghost predicate NoneGoesOn(x: External, toks: set<Token>, e: nat) {
    forall s: nat :: s in x.terminals ==> !GoesOn(x, toks, s, e)
  }

  lemma {:induction false} TerminalExists(k: Compiled, f: Findings, s: nat)
    requires CompiledWith(k, f) && s in k.x.terminals
    ensures s < k.x.xsyCount
  {
    CompiledParts(k, f);
    hide CompiledWith, Taken, Rewrote;
  }
}
