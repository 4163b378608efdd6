/** The rewrite preserves meaning: an internal symbol derives exactly what it stands for. */
module RewriteMeaning {
  import opened Options
  import opened Grammars
  import opened Derivations
  import opened InternalRules
  import opened Externals
  import opened Pieces
  import opened Encodings
  import opened Compilations

  /** What the internal symbol stands for derives the tokens from `i` to `j`. */
  ghost predicate Meaning(x: External, toks: set<Token>, m: Nsy, i: nat, j: nat) {
    match m
    case Whole(s) => XDerives(x, toks, s, i, j)
    case Null(_) => false
    case Rest(r, p) => p <= |Rhs(x, r)| && XSpans(x, toks, Rhs(x, r)[p..], i, j)
    case Inner(r) => r < |x.xrls| && x.xrls[r].Sequence? && exists n: nat :: XSpans(x, toks, Items(x.xrls[r].item, x.xrls[r].separator, n), i, j)
    case StartSymbol => XDerives(x, toks, x.start, i, j)
  }

  ghost predicate MeaningAt(k: Compiled, toks: set<Token>, n: nat, i: nat, j: nat) {
    n < |k.nsys| && Meaning(k.x, toks, k.nsys[n], i, j)
  }

  function Init(ns: seq<nat>): seq<nat> {
    if ns == [] then [] else ns[..|ns| - 1]
  }

  function End(ns: seq<nat>): nat {
    if ns == [] then 0 else ns[|ns| - 1]
  }

  /** One symbol after another. */
  ghost predicate MeaningSpans(k: Compiled, toks: set<Token>, ns: seq<nat>, i: nat, j: nat)
    decreases |ns|
  {
    if ns == [] then i == j
    else exists m: nat :: MeaningSpans(k, toks, Init(ns), i, m) && MeaningAt(k, toks, End(ns), m, j)
  }

  lemma {:induction false} MeaningSnoc(k: Compiled, toks: set<Token>, ns: seq<nat>, n: nat, i: nat, j: nat) returns (m: nat)
    requires MeaningSpans(k, toks, ns + [n], i, j)
    ensures MeaningSpans(k, toks, ns, i, m) && MeaningAt(k, toks, n, m, j)
  {
    hide MeaningAt;
    assert Init(ns + [n]) == ns && End(ns + [n]) == n;
    m :| MeaningSpans(k, toks, ns, i, m) && MeaningAt(k, toks, n, m, j);
  }

  // ---- Internal derivations mean external ones ----

  /** In its place in a rule, internal symbol `n` is external symbol `s`, empty or not. */
  ghost predicate StandsFor(k: Compiled, toks: set<Token>, n: nat, s: nat) {
    && (n in k.g.nulling ==> forall j: nat :: XDerives(k.x, toks, s, j, j))
    && (n !in k.g.nulling ==> forall i: nat, j: nat :: MeaningAt(k, toks, n, i, j) ==> XDerives(k.x, toks, s, i, j))
  }

  lemma {:induction false} SymbolsSpan(k: Compiled, toks: set<Token>, ns: seq<nat>, syms: seq<nat>, i: nat, j: nat)
    requires |ns| == |syms| && forall q :: 0 <= q < |ns| ==> StandsFor(k, toks, ns[q], syms[q])
    requires MeaningSpans(k, toks, Proper(k.g.nulling, ns), i, j)
    ensures XSpans(k.x, toks, syms, i, j)
    decreases |ns|
  {
    hide XSpans, XDerives, MeaningAt;
    if ns == [] {
      SpansNone(k.x, toks, i);
    } else {
      var n := |ns| - 1;
      var before := Proper(k.g.nulling, ns[..n]);
      assert syms == syms[..n] + [syms[n]] && ns[..n + 1] == ns;
      ProperSnoc(k.g.nulling, ns, n);
      assert StandsFor(k, toks, ns[n], syms[n]);
      var m := j;
      if ns[n] in k.g.nulling {
        assert before + [] == before;
      } else {
        m := MeaningSnoc(k, toks, before, ns[n], i, j);
      }
      SymbolsSpan(k, toks, ns[..n], syms[..n], i, m);
      SpansOne(k.x, toks, syms[n], m, j);
      SpansConcat(k.x, toks, syms[..n], [syms[n]], i, m, j);
    }
  }

  lemma {:induction false} PieceFacts(k: Compiled, irl: nat)
    requires Rewrote(k) && irl < |k.irls| && k.plans[irl].Piece?
    ensures var p := k.plans[irl];
            && PieceRule(k.x, k.c, k.nsys, k.irls[irl], p) && p.rule in k.c.used
            && p.rule < |k.x.xrls| && k.x.xrls[p.rule].Bnf? && PieceOk(k.c, p, Rhs(k.x, p.rule))
            && irl < |k.g.irls| && k.g.irls[irl].rhs == k.irls[irl].rhs && irl < |k.plans|
  {
    assert IrlOk(k.x, k.c, k.nsys, k.irls[irl], k.plans[irl]) && PlanOk(k.x, k.c, k.plans[irl]);
  }

  /** The symbols that a piece covers. */
  ghost function Part(k: Compiled, irl: nat): seq<nat> {
    if irl < |k.plans| && k.plans[irl].Piece? && k.plans[irl].start + |k.plans[irl].nulls| <= |Rhs(k.x, k.plans[irl].rule)|
    then Rhs(k.x, k.plans[irl].rule)[k.plans[irl].start..k.plans[irl].start + |k.plans[irl].nulls|] else []
  }

  lemma {:induction false} PieceStands(k: Compiled, toks: set<Token>, irl: nat)
    requires Rewrote(k) && CensusOk(k.x, k.c) && irl < |k.irls| && k.plans[irl].Piece?
    ensures |Part(k, irl)| == |k.plans[irl].nulls| <= |k.irls[irl].rhs|
    ensures forall q :: 0 <= q < |Part(k, irl)| ==> StandsFor(k, toks, k.irls[irl].rhs[q], Part(k, irl)[q])
  {
    PieceFacts(k, irl);
    var rhs, part := k.irls[irl].rhs, Part(k, irl);
    assert |part| == |k.plans[irl].nulls| <= |rhs|;
    hide *;
    forall q | 0 <= q < |part|
      ensures StandsFor(k, toks, rhs[q], part[q])
    {
      PieceStandsAt(k, toks, irl, q);
    }
  }

  lemma {:induction false} PieceStandsAt(k: Compiled, toks: set<Token>, irl: nat, q: nat)
    requires Rewrote(k) && CensusOk(k.x, k.c) && irl < |k.irls| && k.plans[irl].Piece? && q < |k.plans[irl].nulls|
    ensures q < |Part(k, irl)| && q < |k.irls[irl].rhs| && StandsFor(k, toks, k.irls[irl].rhs[q], Part(k, irl)[q])
  {
    hide Rewrote, CensusOk, StandsFor, AllNull, Means, SymbolMeaning, Rhs, MeaningSpans;
    PieceFacts(k, irl);
    var p := k.plans[irl];
    assert Part(k, irl)[q] == Rhs(k.x, p.rule)[p.start + q];
    SymbolStands(k, toks, k.irls[irl].rhs[q], Part(k, irl)[q], p.nulls[q]);
  }

  lemma {:induction false} SymbolStands(k: Compiled, toks: set<Token>, n: nat, s: nat, empty: bool)
    requires Rewrote(k) && CensusOk(k.x, k.c) && Means(k.nsys, n, SymbolMeaning(k.c, s, empty)) && (empty ==> s in k.c.nullable)
    ensures StandsFor(k, toks, n, s)
  {
    assert n in k.g.nulling <==> empty || s in k.c.nulling;
    forall j: nat | empty || s in k.c.nulling
      ensures XDerives(k.x, toks, s, j, j)
    {
      NothingAnywhere(k.x, toks, s, j);
    }
  }

  /** A piece means its symbols followed by the rest of the rule. */
  lemma {:induction false} PieceMeans(k: Compiled, toks: set<Token>, irl: nat, i: nat, j: nat)
    requires Rewrote(k) && CensusOk(k.x, k.c) && irl < |k.irls| && k.plans[irl].Piece?
    requires MeaningSpans(k, toks, P(k.g, irl), i, j)
    ensures MeaningAt(k, toks, k.irls[irl].lhs, i, j)
  {
    hide *;
    PieceRest(k, toks, irl, i, j);
    PieceLhsMeans(k, toks, irl, i, j);
  }

  /** The left-hand side of a piece means what its rule from there on spans. */
  lemma {:induction false} PieceLhsMeans(k: Compiled, toks: set<Token>, irl: nat, i: nat, j: nat)
    requires Rewrote(k) && irl < |k.irls| && k.plans[irl].Piece?
    requires k.plans[irl].start <= |Rhs(k.x, k.plans[irl].rule)|
    requires XSpans(k.x, toks, Rhs(k.x, k.plans[irl].rule)[k.plans[irl].start..], i, j)
    ensures MeaningAt(k, toks, k.irls[irl].lhs, i, j)
  {
    PieceFacts(k, irl);
    hide Rewrote, XSpans, PieceOk, StandsFor;
    var p := k.plans[irl];
    if p.start == 0 {
      assert Rhs(k.x, p.rule)[0..] == Rhs(k.x, p.rule);
      PieceRuleDerives(k, toks, p.rule, i, j);
    }
  }

  lemma {:induction false} PieceRest(k: Compiled, toks: set<Token>, irl: nat, i: nat, j: nat)
    requires Rewrote(k) && CensusOk(k.x, k.c) && irl < |k.irls| && k.plans[irl].Piece?
    requires MeaningSpans(k, toks, P(k.g, irl), i, j)
    ensures k.plans[irl].start <= |Rhs(k.x, k.plans[irl].rule)|
    ensures XSpans(k.x, toks, Rhs(k.x, k.plans[irl].rule)[k.plans[irl].start..], i, j)
  {
    hide *;
    PieceFacts(k, irl);
    PieceStands(k, toks, irl);
    PieceCut(k, toks, irl);
    RestIs(k, irl);
    var p := k.plans[irl];
    var rhs := k.irls[irl].rhs;
    var m := |p.nulls|;
    if p.more {
      assert rhs[..m + 1] == rhs;
      ProperSnoc(k.g.nulling, rhs, m);
      var mid := MeaningSnoc(k, toks, Proper(k.g.nulling, rhs[..m]), rhs[m], i, j);
      SymbolsSpan(k, toks, rhs[..m], Part(k, irl), i, mid);
      SpansConcat(k.x, toks, Part(k, irl), Rhs(k.x, p.rule)[p.start + m..], i, mid, j);
    } else {
      assert rhs[..m] == rhs;
      SymbolsSpan(k, toks, rhs, Part(k, irl), i, j);
    }
  }

  lemma {:induction false} RestIs(k: Compiled, irl: nat)
    requires Rewrote(k) && irl < |k.irls| && k.plans[irl].Piece?
    ensures var p := k.plans[irl];
            var syms := Rhs(k.x, p.rule);
            && p.start + |p.nulls| <= |syms| && syms[p.start..] == Part(k, irl) + syms[p.start + |p.nulls|..]
            && (!p.more ==> syms[p.start..] == Part(k, irl))
  {
    hide Rewrote, ValidNulls, AllNull, PieceRule, Rhs;
    PieceFacts(k, irl);
  }

  /** After the symbols of a piece comes the rest of the rule, or nothing. */
  lemma {:induction false} PieceCut(k: Compiled, toks: set<Token>, irl: nat)
    requires Rewrote(k) && irl < |k.irls| && k.plans[irl].Piece?
    ensures var p, rhs := k.plans[irl], k.irls[irl].rhs;
            var m := |p.nulls|;
            && P(k.g, irl) == Proper(k.g.nulling, rhs) && |rhs| == m + (if p.more then 1 else 0)
            && p.start + m <= |Rhs(k.x, p.rule)| && (!p.more ==> p.start + m == |Rhs(k.x, p.rule)|)
            && (p.more ==> rhs[m] !in k.g.nulling
                           && forall i: nat, j: nat :: MeaningAt(k, toks, rhs[m], i, j) ==> XSpans(k.x, toks, Rhs(k.x, p.rule)[p.start + m..], i, j))
  {
    hide Rewrote, XSpans, ValidNulls, AllNull;
    PieceFacts(k, irl);
    RestIsProper(k, irl);
  }

  lemma {:induction false} PieceRuleDerives(k: Compiled, toks: set<Token>, r: nat, i: nat, j: nat)
    requires r < |k.x.xrls| && k.x.xrls[r].Bnf? && XSpans(k.x, toks, Rhs(k.x, r), i, j)
    ensures XDerives(k.x, toks, k.x.xrls[r].lhs, i, j)
  {
    RuleDerives(k.x, toks, r, Rhs(k.x, r), i, j);
  }

  lemma {:induction false} RestIsProper(k: Compiled, irl: nat)
    requires Rewrote(k) && irl < |k.irls| && k.plans[irl].Piece?
    ensures k.plans[irl].more ==> |k.plans[irl].nulls| < |k.irls[irl].rhs| && k.irls[irl].rhs[|k.plans[irl].nulls|] !in k.g.nulling
  {
    PieceFacts(k, irl);
  }

  /** Sequence rules: the inner symbol means items with separators, the rule those with or
      without a separator at the end. */
  lemma {:induction false} SequenceFacts(k: Compiled, irl: nat)
    requires Rewrote(k) && irl < |k.irls| && !k.plans[irl].Piece? && k.plans[irl] != StartPlan
    ensures SequenceRule(k.x, k.nsys, k.irls[irl], k.plans[irl])
    ensures irl < |k.g.irls| && k.g.irls[irl].rhs == k.irls[irl].rhs && irl < |k.plans|
    ensures k.plans[irl].rule in k.c.used
    ensures k.plans[irl].SequenceTrail? ==> !k.x.xrls[k.plans[irl].rule].proper
    ensures forall n: nat, m: Nsy :: Means(k.nsys, n, m) && !m.Null? ==> n !in k.g.nulling
  {
    assert IrlOk(k.x, k.c, k.nsys, k.irls[irl], k.plans[irl]) && PlanOk(k.x, k.c, k.plans[irl]);
    hide IrlOk, CensusOk;
  }

  /** Symbols that never are empty are all proper. */
  lemma {:induction false} ProperAll(nulling: set<nat>, rhs: seq<nat>)
    requires forall q :: 0 <= q < |rhs| ==> rhs[q] !in nulling
    ensures Proper(nulling, rhs) == rhs
  {
    if rhs != [] {
      var n := |rhs| - 1;
      var init := rhs[..n];
      assert forall q :: 0 <= q < n ==> init[q] == rhs[q];
      ProperAll(nulling, init);
      assert rhs == init + [rhs[n]];
    }
  }

  lemma {:induction false} OneMeans(k: Compiled, toks: set<Token>, n: nat, i: nat, j: nat)
    requires MeaningSpans(k, toks, [n], i, j)
    ensures MeaningAt(k, toks, n, i, j)
  {
    hide MeaningAt;
    assert [] + [n] == [n];
    var m := MeaningSnoc(k, toks, [], n, i, j);
  }

  /** The inner symbol, then symbols that mean `syms`. */
  lemma {:induction false} InnerThen(k: Compiled, toks: set<Token>, inner: nat, r: nat, ns: seq<nat>, syms: seq<nat>, i: nat, j: nat) returns (n: nat)
    requires Means(k.nsys, inner, Inner(r)) && r < |k.x.xrls| && k.x.xrls[r].Sequence?
    requires |ns| == |syms| && forall q :: 0 <= q < |ns| ==> Means(k.nsys, ns[q], Whole(syms[q]))
    requires MeaningSpans(k, toks, [inner] + ns, i, j)
    ensures XSpans(k.x, toks, Items(k.x.xrls[r].item, k.x.xrls[r].separator, n) + syms, i, j)
    decreases |ns|
  {
    hide XSpans, XDerives, MeaningSpans, Items;
    var items := k.x.xrls[r];
    if ns == [] {
      assert [inner] + ns == [inner];
      OneMeans(k, toks, inner, i, j);
      n :| XSpans(k.x, toks, Items(items.item, items.separator, n), i, j);
      assert Items(items.item, items.separator, n) + syms == Items(items.item, items.separator, n);
    } else {
      var q := |ns| - 1;
      assert [inner] + ns == ([inner] + ns[..q]) + [ns[q]] && syms == syms[..q] + [syms[q]];
      var m := MeaningSnoc(k, toks, [inner] + ns[..q], ns[q], i, j);
      n := InnerThen(k, toks, inner, r, ns[..q], syms[..q], i, m);
      SpansOne(k.x, toks, syms[q], m, j);
      SpansConcat(k.x, toks, Items(items.item, items.separator, n) + syms[..q], [syms[q]], i, m, j);
      assert Items(items.item, items.separator, n) + syms[..q] + [syms[q]] == Items(items.item, items.separator, n) + syms;
    }
  }

  lemma {:induction false} SequenceMeans(k: Compiled, toks: set<Token>, irl: nat, i: nat, j: nat)
    requires Rewrote(k) && irl < |k.irls| && !k.plans[irl].Piece? && k.plans[irl] != StartPlan
    requires MeaningSpans(k, toks, P(k.g, irl), i, j)
    ensures MeaningAt(k, toks, k.irls[irl].lhs, i, j)
  {
    hide Rewrote, MeaningSpans, MeaningAt, Meaning;
    SequenceFacts(k, irl);
    SequenceP(k, irl);
    hide P, Items;
    var rhs := k.irls[irl].rhs;
    var r := k.plans[irl].rule;
    var s := k.x.xrls[r];
    if k.plans[irl].SequenceFirst? {
      FirstItem(k, toks, irl, r, i, j);
    } else {
      var rest := rhs[1..];
      var syms := if k.plans[irl].SequenceTop? then [] else if k.plans[irl].SequenceTrail? then [s.separator.value]
                  else Separators(s.separator) + [s.item];
      assert rhs == [rhs[0]] + rest;
      var n := InnerThen(k, toks, rhs[0], r, rest, syms, i, j);
      SequenceLhs(k, toks, irl, n, syms, i, j);
    }
  }

  lemma {:induction false} SequenceP(k: Compiled, irl: nat)
    requires Rewrote(k) && irl < |k.irls| && !k.plans[irl].Piece? && k.plans[irl] != StartPlan
    ensures P(k.g, irl) == k.irls[irl].rhs
  {
    hide Rewrote, SequenceRule;
    SequenceFacts(k, irl);
    SequenceProper(k, irl);
    ProperAll(k.g.nulling, k.irls[irl].rhs);
  }

  lemma {:induction false} SequenceProper(k: Compiled, irl: nat)
    requires Rewrote(k) && irl < |k.irls| && !k.plans[irl].Piece? && k.plans[irl] != StartPlan
    ensures forall q :: 0 <= q < |k.irls[irl].rhs| ==> k.irls[irl].rhs[q] !in k.g.nulling
  {
    hide Rewrote, Means;
    SequenceFacts(k, irl);
    var s, rhs := k.x.xrls[k.plans[irl].rule], k.irls[irl].rhs;
    assert Means(k.nsys, rhs[0], if k.plans[irl].SequenceFirst? then Whole(s.item) else Inner(k.plans[irl].rule));
    if k.plans[irl].SequenceMore? {
      assert Means(k.nsys, rhs[|rhs| - 1], Whole(s.item));
    }
  }

  lemma {:induction false} FirstItem(k: Compiled, toks: set<Token>, irl: nat, r: nat, i: nat, j: nat)
    requires irl < |k.irls| && irl < |k.plans| && k.plans[irl] == SequenceFirst(r) && SequenceRule(k.x, k.nsys, k.irls[irl], k.plans[irl])
    requires MeaningSpans(k, toks, k.irls[irl].rhs, i, j)
    ensures MeaningAt(k, toks, k.irls[irl].lhs, i, j)
  {
    hide MeaningSpans, XDerives, XSpans;
    var s := k.x.xrls[r];
    assert k.irls[irl].rhs == [k.irls[irl].rhs[0]];
    OneMeans(k, toks, k.irls[irl].rhs[0], i, j);
    SpansOne(k.x, toks, s.item, i, j);
    assert Items(s.item, s.separator, 0) == [s.item];
  }

  lemma {:induction false} SequenceLhs(k: Compiled, toks: set<Token>, irl: nat, n: nat, syms: seq<nat>, i: nat, j: nat)
    requires irl < |k.irls| && irl < |k.plans| && !k.plans[irl].Piece? && k.plans[irl] != StartPlan && !k.plans[irl].SequenceFirst?
    requires SequenceRule(k.x, k.nsys, k.irls[irl], k.plans[irl])
    requires k.plans[irl].SequenceTrail? ==> !k.x.xrls[k.plans[irl].rule].proper
    requires var s := k.x.xrls[k.plans[irl].rule];
             && syms == (if k.plans[irl].SequenceTop? then [] else if k.plans[irl].SequenceTrail? then [s.separator.value]
                     else Separators(s.separator) + [s.item])
             && XSpans(k.x, toks, Items(s.item, s.separator, n) + syms, i, j)
    ensures MeaningAt(k, toks, k.irls[irl].lhs, i, j)
  {
    hide XSpans, XDerives;
    var r := k.plans[irl].rule;
    var s := k.x.xrls[r];
    var all := Items(s.item, s.separator, n) + syms;
    if k.plans[irl].SequenceMore? {
      assert Items(s.item, s.separator, n + 1) == Items(s.item, s.separator, n) + Separators(s.separator) + [s.item];
      assert all == Items(s.item, s.separator, n + 1);
    } else {
      if k.plans[irl].SequenceTop? {
        assert all == Items(s.item, s.separator, n);
      }
      assert Expands(s, all);
      RuleDerives(k.x, toks, r, all, i, j);
    }
  }

  lemma {:induction false} StartMeans(k: Compiled, toks: set<Token>, irl: nat, i: nat, j: nat)
    requires Rewrote(k) && irl < |k.irls| && k.plans[irl] == StartPlan
    requires MeaningSpans(k, toks, P(k.g, irl), i, j)
    ensures MeaningAt(k, toks, k.irls[irl].lhs, i, j)
  {
    hide Rewrote, MeaningSpans, XDerives;
    StartFacts(k, irl);
    OneMeans(k, toks, k.irls[irl].rhs[0], i, j);
  }

  lemma {:induction false} StartFacts(k: Compiled, irl: nat)
    requires Rewrote(k) && irl < |k.irls| && k.plans[irl] == StartPlan
    ensures StartRule(k.x, k.nsys, k.irls[irl]) && irl < |k.g.irls| && P(k.g, irl) == [k.irls[irl].rhs[0]]
  {
    hide CensusOk, Ready, Rewritten, SymbolsAre, Distinct;
    assert IrlOk(k.x, k.c, k.nsys, k.irls[irl], k.plans[irl]);
    ProperAll(k.g.nulling, k.irls[irl].rhs);
  }

  /** A rule means what its proper symbols span. */
  lemma {:induction false} RuleMeans(k: Compiled, toks: set<Token>, irl: nat, i: nat, j: nat)
    requires Rewrote(k) && CensusOk(k.x, k.c) && irl < |k.irls| && MeaningSpans(k, toks, P(k.g, irl), i, j)
    ensures irl < |k.g.irls| && MeaningAt(k, toks, k.g.irls[irl].lhs, i, j)
  {
    RuleShape(k, irl);
    hide *;
    if k.plans[irl].Piece? {
      PieceMeans(k, toks, irl, i, j);
    } else if k.plans[irl] == StartPlan {
      StartMeans(k, toks, irl, i, j);
    } else {
      SequenceMeans(k, toks, irl, i, j);
    }
  }

  lemma {:induction false} RuleShape(k: Compiled, irl: nat)
    requires Rewrote(k) && irl < |k.irls|
    ensures irl < |k.plans| && irl < |k.g.irls| && k.g.irls[irl] == Irl(k.irls[irl].lhs, k.irls[irl].rhs)
    ensures |k.g.irls| == |k.irls| == |k.plans|
  {
    hide Ready, CensusOk, Rewritten, SymbolsAre, Distinct;
  }

  /** Whatever an internal symbol derives, what it stands for derives. */
  lemma {:induction false} TreeSound(k: Compiled, toks: set<Token>, itoks: set<Token>, t: Tree, n: nat, i: nat, j: nat)
    requires Rewrote(k) && CensusOk(k.x, k.c) && TokensAre(k, toks, itoks) && TreeFor(k.g, itoks, t, n, i, j)
    ensures MeaningAt(k, toks, n, i, j)
    decreases t
  {
    hide Rewrote, CensusOk, MeaningSpans;
    match t
    case Leaf =>
      LeafSound(k, toks, itoks, n, i, j);
    case Node(r, kids) =>
      SameRules(k);
      ForestSound(k, toks, itoks, kids, r, |P(k.g, r)|, i, j);
      assert P(k.g, r)[..|P(k.g, r)|] == P(k.g, r);
      RuleMeans(k, toks, r, i, j);
  }

  lemma {:induction false} SameRules(k: Compiled)
    requires Rewrote(k)
    ensures |k.g.irls| == |k.irls|
  {
    hide Ready, CensusOk, Rewritten, SymbolsAre, Distinct, RulesAre;
  }

  lemma {:induction false} LeafSound(k: Compiled, toks: set<Token>, itoks: set<Token>, n: nat, i: nat, j: nat)
    requires TokensAre(k, toks, itoks) && Token(n, i, j) in itoks
    ensures MeaningAt(k, toks, n, i, j)
  {
    assert XTreeFor(k.x, toks, XLeaf, k.nsys[n].xsy, i, j);
  }

  lemma {:induction false} ForestSound(k: Compiled, toks: set<Token>, itoks: set<Token>, f: Forest, r: nat, q: nat, i: nat, j: nat)
    requires Rewrote(k) && CensusOk(k.x, k.c) && TokensAre(k, toks, itoks) && ForestFor(k.g, itoks, f, r, q, i, j)
    ensures q <= |P(k.g, r)| && MeaningSpans(k, toks, P(k.g, r)[..q], i, j)
    decreases f
  {
    hide Rewrote, CensusOk, TokensAre, P, MeaningAt;
    match f
    case Nil =>
    case Snoc(init, mid, last) =>
      ForestSound(k, toks, itoks, init, r, q - 1, i, mid);
      TreeSound(k, toks, itoks, last, P(k.g, r)[q - 1], mid, j);
      assert Init(P(k.g, r)[..q]) == P(k.g, r)[..q - 1] && End(P(k.g, r)[..q]) == P(k.g, r)[q - 1];
  }
}
