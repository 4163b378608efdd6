/** When the whole of precomputation keeps the language: exactly when every sequence that the
    census drops would add nothing; and a grammar for which it loses a string. */
module Languages {
  import opened Options
  import opened Grammars
  import opened Derivations
  import opened InternalRules
  import opened Externals
  import opened Pieces
  import opened Encodings
  import opened Compilations
  import opened RewriteMeaning
  import opened RewriteComplete
  import opened RhsClosures
  import opened Closures
  import opened CensusMeaning
  import opened CensusTruth

  /** The grammar was compiled from these findings. */
  ghost predicate CompiledWith(k: Compiled, f: Findings) {
    GrammarGiven(k.x) && Taken(k.x, f) && Rewrote(k) && k.c == AsCensus(f)
  }

  /** A symbol's internal symbol derives exactly its own derivations of at least one token. */
  ghost predicate SymbolKept(k: Compiled, toks: set<Token>, itoks: set<Token>, s: nat, i: nat, j: nat) {
    s in k.nsyOf && (Derives(k.g, itoks, k.nsyOf[s], i, j) <==> XDerives(k.x, toks, s, i, j) && i < j)
  }

  /** That is so of every symbol with an internal symbol, over all tokens. */
  ghost predicate LanguageKept(k: Compiled) {
    forall toks: set<Token>, itoks: set<Token>, s: nat, i: nat, j: nat ::
      TokensOk(toks) && TokensAre(k, toks, itoks) && s in k.c.known && s !in k.c.nulling ==> SymbolKept(k, toks, itoks, s, i, j)
  }

  lemma {:induction false} LanguageExact(k: Compiled, f: Findings)
    requires CompiledWith(k, f)
    ensures LanguageKept(k) <==> SeparatorsHarmless(k.x, f)
    ensures NoSequenceTerminal(k.x) ==> (LanguageKept(k) <==> SeparatorsOk(k.x, f))
  {
    CensusExact(k.x, f);
    hide *;
    CompiledParts(k, f);
    if SeparatorsHarmless(k.x, f) {
      Kept(k, f);
    }
    if LanguageKept(k) {
      Harmless(k, f);
    }
    if NoSequenceTerminal(k.x) {
      HarmlessIsNone(k.x, f);
    }
  }

  lemma {:induction false} CompiledParts(k: Compiled, f: Findings)
    requires CompiledWith(k, f)
    ensures GrammarGiven(k.x) && Taken(k.x, f) && Rewrote(k) && k.c == AsCensus(f)
  {
  }

  lemma {:induction false} Kept(k: Compiled, f: Findings)
    requires CompiledWith(k, f) && SeparatorsHarmless(k.x, f)
    ensures LanguageKept(k)
  {
    CompiledParts(k, f);
    hide CompiledWith, GrammarGiven, Taken, Rewrote, CensusOk, SeparatorsHarmless, TokensAre, TokensOk, Derives, XDerives;
    CensusExact(k.x, f);
    forall toks: set<Token>, itoks: set<Token>, s: nat, i: nat, j: nat
      | TokensOk(toks) && TokensAre(k, toks, itoks) && s in k.c.known && s !in k.c.nulling
      ensures SymbolKept(k, toks, itoks, s, i, j)
    {
      SameLanguage(k, toks, itoks, s, i, j);
    }
  }

  lemma {:induction false} Harmless(k: Compiled, f: Findings)
    requires CompiledWith(k, f) && LanguageKept(k)
    ensures SeparatorsHarmless(k.x, f)
  {
    hide CompiledWith, LanguageKept, TokensOk, XDerives, OwnToken;
    forall r: nat | Dropped(k.x, f, r)
      ensures OnlyOwnTokens(k.x, r)
    {
      forall toks: set<Token>, i: nat, j: nat | TokensOk(toks) && XDerives(k.x, toks, k.x.xrls[r].item, i, j) && i < j
        ensures OwnToken(k.x, toks, k.x.xrls[r].lhs, i, j)
      {
        KeptItem(k, f, r, toks, i, j);
      }
    }
  }

  /** What the item of a dropped sequence derives, the sequence derives; no internal rule is left
      that could, so it must be a token. */
  lemma {:induction false} KeptItem(k: Compiled, f: Findings, r: nat, toks: set<Token>, i: nat, j: nat)
    requires CompiledWith(k, f) && LanguageKept(k) && Dropped(k.x, f, r)
    requires TokensOk(toks) && XDerives(k.x, toks, k.x.xrls[r].item, i, j) && i < j
    ensures OwnToken(k.x, toks, k.x.xrls[r].lhs, i, j)
  {
    var s, itoks := k.x.xrls[r].lhs, InternalTokens(k, toks);
    DroppedLhs(k, f, r, toks, i, j);
    InternalTokensAre(k, toks);
    assert SymbolKept(k, toks, itoks, s, i, j);
    hide LanguageKept, TokensAre;
    NoRuleLeft(k, f, r, toks, k.nsyOf[s], i, j);
  }

  lemma {:induction false} DroppedLhs(k: Compiled, f: Findings, r: nat, toks: set<Token>, i: nat, j: nat)
    requires CompiledWith(k, f) && Dropped(k.x, f, r)
    requires TokensOk(toks) && XDerives(k.x, toks, k.x.xrls[r].item, i, j) && i < j
    ensures k.x.xrls[r].lhs in k.c.known && k.x.xrls[r].lhs !in k.c.nulling && XDerives(k.x, toks, k.x.xrls[r].lhs, i, j)
    ensures k.x.xrls[r].lhs in k.nsyOf && Means(k.nsys, k.nsyOf[k.x.xrls[r].lhs], Whole(k.x.xrls[r].lhs))
  {
    var rule := k.x.xrls[r];
    CensusTruth.SequenceLhs(k.x, f, r);
    hide GrammarGiven, Taken, Rewrote, XDerives;
    SpansOne(k.x, toks, rule.item, i, j);
    OneItem(rule);
    RuleDerives(k.x, toks, r, [rule.item], i, j);
    SymbolNotMarked(k.x, f, toks, rule.lhs, i, j);
  }

  /** The tokens as the recognizer reads them. */
  ghost function InternalTokens(k: Compiled, toks: set<Token>): set<Token> {
    set t, n: nat | t in toks && n < |k.nsys| && k.nsys[n] == Whole(t.sym) && t.sym in k.x.terminals :: Token(n, t.from, t.to)
  }

  lemma {:induction false} InternalTokensAre(k: Compiled, toks: set<Token>)
    ensures TokensAre(k, toks, InternalTokens(k, toks))
  {
    forall t: Token
      ensures t in InternalTokens(k, toks) <==>
                && t.sym < |k.nsys| && k.nsys[t.sym].Whole? && k.nsys[t.sym].xsy in k.x.terminals
                && Token(k.nsys[t.sym].xsy, t.from, t.to) in toks
    {
      if t.sym < |k.nsys| && k.nsys[t.sym].Whole? {
        assert t == Token(t.sym, t.from, t.to);
        assert k.nsys[t.sym] == Whole(Token(k.nsys[t.sym].xsy, t.from, t.to).sym);
      }
    }
  }

  /** The internal symbol of a dropped sequence has no rules. */
  lemma {:induction false} NoRuleLeft(k: Compiled, f: Findings, r: nat, toks: set<Token>, n: nat, i: nat, j: nat)
    requires CompiledWith(k, f) && Dropped(k.x, f, r) && Means(k.nsys, n, Whole(k.x.xrls[r].lhs))
    requires Derives(k.g, InternalTokens(k, toks), n, i, j)
    ensures OwnToken(k.x, toks, k.x.xrls[r].lhs, i, j)
  {
    var t :| TreeFor(k.g, InternalTokens(k, toks), t, n, i, j);
    if t.Node? {
      RuleOf(k, f, t.irl, n, r);
    } else {
      assert Token(n, i, j) in InternalTokens(k, toks);
      var u, m: nat :| u in toks && m < |k.nsys| && k.nsys[m] == Whole(u.sym) && u.sym in k.x.terminals && Token(n, i, j) == Token(m, u.from, u.to);
      assert u == Token(k.x.xrls[r].lhs, i, j);
    }
  }

  /** An internal rule for the symbol would come from a used rule for it, and there is none. */
  lemma {:induction false} RuleOf(k: Compiled, f: Findings, irl: nat, n: nat, r: nat)
    requires CompiledWith(k, f) && Dropped(k.x, f, r) && Means(k.nsys, n, Whole(k.x.xrls[r].lhs))
    ensures irl < |k.g.irls| ==> k.g.irls[irl].lhs != n
  {
    CompiledParts(k, f);
    assert UsedIs(k.x, f.productive, f.accessible, f.nulling, f.used) && OneRulePerSequence(k.x);
    hide GrammarGiven, Taken, Rewrote;
    if irl < |k.g.irls| && k.g.irls[irl].lhs == n {
      SourceRule(k, irl, k.x.xrls[r].lhs);
    }
  }

  lemma {:induction false} SourceRule(k: Compiled, irl: nat, s: nat)
    requires Rewrote(k) && irl < |k.g.irls| && Means(k.nsys, k.g.irls[irl].lhs, Whole(s))
    ensures irl < |k.plans| && k.plans[irl] != StartPlan && k.plans[irl].rule in k.c.used
    ensures k.plans[irl].rule < |k.x.xrls| && k.x.xrls[k.plans[irl].rule].lhs == s
  {
    assert IrlOk(k.x, k.c, k.nsys, k.irls[irl], k.plans[irl]) && PlanOk(k.x, k.c, k.plans[irl]);
    assert k.g.irls[irl] == Irl(k.irls[irl].lhs, k.irls[irl].rhs);
    hide Rewrote, PieceOk;
  }
}
