/** From the external grammar to acceptance: a recognizer for what precomputation makes of a
    grammar accepts exactly the token lattices that the grammar derives. */
module Parsing {
  import opened Options
  import opened Grammars
  import opened Derivations
  import opened InternalRules
  import opened Externals
  import opened Pieces
  import opened Encodings
  import opened Compilations
  import opened RewriteMeaning
  import opened RewriteComplete
  import opened RewriteShape
  import opened EarleySets
  import opened Recognizers
  import opened LeoPaths
  import opened LeoEquivalence
  import opened RulePairs
  import opened CensusMeaning
  import opened CensusTruth
  import opened Languages
  import Censuses
  import opened Precomputations

  /** What the recognizer knows of the external symbols. */
  function XsyTable(x: External, nsyOf: map<nat, nat>): seq<Xsy> {
    seq(x.xsyCount, s requires 0 <= s < x.xsyCount => Xsy(if s in nsyOf then Some(nsyOf[s]) else None, s in x.terminals))
  }

  /** There is an entry for every external symbol: whether it is a terminal, and its internal
      symbol if the census knows it. */
  ghost predicate TableIs(symbols: seq<Xsy>, k: Compiled) {
    |symbols| == k.x.xsyCount && forall s: nat :: s < k.x.xsyCount ==> EntryIs(symbols[s], k, s)
  }

  ghost predicate EntryIs(entry: Xsy, k: Compiled, s: nat) {
    && (entry.terminal <==> s in k.x.terminals)
    && (entry.nsy.Some? <==> s in k.c.known)
    && (s in k.c.known ==> s in k.nsyOf && entry.nsy == Some(k.nsyOf[s]))
  }

  /** The symbols that the recognizer takes for terminals are those of external terminals. */
  ghost predicate TerminalsAre(k: Compiled) {
    forall n: nat :: n in k.g.terminals <==> OfTerminal(k.x, k.nsyOf, n)
  }

  /** Only known symbols have an internal symbol. */
  ghost predicate OnlyKnown(k: Compiled) {
    forall s: nat :: s in k.nsyOf ==> s in k.c.known
  }

  /** The tokens that the application read, by their external symbols. */
  ghost function ExternalTokens(k: Compiled, itoks: set<Token>): set<Token> {
    set t | t in itoks && t.sym < |k.nsys| && k.nsys[t.sym].Whole? :: Token(k.nsys[t.sym].xsy, t.from, t.to)
  }

  /** The recognizer is one for this grammar. */
  ghost predicate RunsOn(r: Recognizer, k: Compiled, f: Findings) {
    CompiledWith(k, f) && OnlyKnown(k) && TerminalsAre(k) && TablesBuilt(k.g) && r.g == k.g && TableIs(r.symbols, k)
  }

  /** A recognizer for the grammar, unless the grammar is refused. */
  method NewRecognizer(x: External, events: set<nat>, useLeo: bool) returns (status: Censuses.Status, r: Option<Recognizer>, ghost k: Compiled, ghost f: Findings)
    requires GrammarGiven(x) && PairsFit(x)
    ensures r.Some? <==> Acceptable(x)
    ensures status == Censuses.Accepted <==> Acceptable(x)
    ensures r.Some? ==> fresh(r.value) && fresh(r.value.psar) && r.value.Valid() && r.value.phase == BeforeInput && r.value.useLeo == useLeo
    ensures r.Some? ==> RunsOn(r.value, k, f) && k.x == x && r.value.g.events == events
  {
    hide *;
    var g, nsyOf;
    status, g, nsyOf, k, f := Precompute(x, events);
    r := None;
    if status == Censuses.Accepted {
      var recognizer := new Recognizer(g, XsyTable(x, nsyOf), useLeo);
      RunsIs(recognizer, k, f);
      r := Some(recognizer);
    }
  }

  lemma {:induction false} RunsIs(r: Recognizer, k: Compiled, f: Findings)
    requires CompiledWith(k, f) && TablesBuilt(k.g) && r.g == k.g && r.symbols == XsyTable(k.x, k.nsyOf)
    requires forall s: nat :: s in k.nsyOf <==> s in k.c.known && s < k.x.xsyCount
    requires forall n: nat :: n in k.g.terminals <==> OfTerminal(k.x, k.nsyOf, n)
    ensures RunsOn(r, k, f)
  {
    hide CompiledWith, TablesBuilt, OfTerminal;
  }

  /** Acceptance, of any recognizer for a grammar that loses no sequence, at any time: the
      completed start rule is at earleme `j` if and only if the start symbol of the grammar
      derives the tokens read, from the beginning to `j`, at least one of them. */
  lemma {:induction false} Recognizes(r: Recognizer, k: Compiled, f: Findings, j: nat)
    requires RunsOn(r, k, f) && SeparatorsHarmless(k.x, f) && r.Valid() && r.phase != BeforeInput && j <= r.currentEarleme
    ensures Stored(r.sets, Item(AhmOf(k.g, k.g.startIrl, 1), 0, j)) <==> 0 < j && XDerives(k.x, ExternalTokens(k, r.toks), k.x.start, 0, j)
  {
    assert CompiledWith(k, f) && r.g == k.g;
    CompiledParts(k, f);
    CensusExact(k.x, f);
    TokensRead(r, k, f);
    hide *;
    AcceptsExactly(k, ExternalTokens(k, r.toks), r, j);
  }

  /** The external tokens are read as the recognizer's. */
  lemma {:induction false} TokensRead(r: Recognizer, k: Compiled, f: Findings)
    requires RunsOn(r, k, f) && r.Valid()
    ensures TokensOk(ExternalTokens(k, r.toks)) && TokensAre(k, ExternalTokens(k, r.toks), r.toks)
  {
    assert CompiledWith(k, f) && OnlyKnown(k) && TableIs(r.symbols, k);
    CompiledParts(k, f);
    hide *;
    TokensWhole(k, f, r.symbols, r.toks);
    WholeTokens(k, r.toks);
  }

  ghost predicate IsWhole(k: Compiled, t: Token) {
    t.sym < |k.nsys| && k.nsys[t.sym].Whole? && k.nsys[t.sym].xsy in k.x.terminals
  }

  lemma {:induction false} TokensWhole(k: Compiled, f: Findings, symbols: seq<Xsy>, itoks: set<Token>)
    requires CompiledWith(k, f) && OnlyKnown(k) && TableIs(symbols, k) && TokensOfTerminals(symbols, itoks)
    ensures forall t :: t in itoks ==> IsWhole(k, t)
  {
    hide CompiledWith, OnlyKnown;
    forall t: Token | t in itoks
      ensures IsWhole(k, t)
    {
      assert IsTerminal(symbols, t.sym);
      var s :| 0 <= s < |symbols| && symbols[s] == Xsy(Some(t.sym), true);
      assert EntryIs(symbols[s], k, s);
      TerminalWhole(k, f, s);
    }
  }

  lemma {:induction false} WholeTokens(k: Compiled, itoks: set<Token>)
    requires Encodings.Distinct(k.nsys) && TokensOk(itoks) && forall t :: t in itoks ==> IsWhole(k, t)
    ensures TokensOk(ExternalTokens(k, itoks)) && TokensAre(k, ExternalTokens(k, itoks), itoks)
  {
    forall t: Token | IsWhole(k, t) && Token(k.nsys[t.sym].xsy, t.from, t.to) in ExternalTokens(k, itoks)
      ensures t in itoks
    {
      var u :| u in itoks && u.sym < |k.nsys| && k.nsys[u.sym].Whole? && Token(k.nsys[t.sym].xsy, t.from, t.to) == Token(k.nsys[u.sym].xsy, u.from, u.to);
      assert u == t;
    }
  }

  lemma {:induction false} TerminalWhole(k: Compiled, f: Findings, s: nat)
    requires CompiledWith(k, f) && OnlyKnown(k) && s in k.nsyOf && s in k.x.terminals
    ensures Means(k.nsys, k.nsyOf[s], Whole(s))
  {
    assert s in k.c.known && s !in k.c.nulling;
    CompiledParts(k, f);
    hide CompiledWith, OnlyKnown, Taken, GrammarGiven, Rewrote;
  }

  /** A token that is read is added, by its external symbol, to those of the application. */
  lemma {:induction false} TokenRead(k: Compiled, f: Findings, itoks: set<Token>, s: nat, i: nat, j: nat)
    requires CompiledWith(k, f) && OnlyKnown(k) && s in k.nsyOf && s in k.x.terminals
    ensures ExternalTokens(k, itoks + {Token(k.nsyOf[s], i, j)}) == ExternalTokens(k, itoks) + {Token(s, i, j)}
  {
    TerminalWhole(k, f, s);
    hide CompiledWith, OnlyKnown;
    var more := itoks + {Token(k.nsyOf[s], i, j)};
    assert Token(k.nsyOf[s], i, j) in more;
    forall t | t in ExternalTokens(k, more)
      ensures t in ExternalTokens(k, itoks) + {Token(s, i, j)}
    {
      var u :| u in more && u.sym < |k.nsys| && k.nsys[u.sym].Whole? && t == Token(k.nsys[u.sym].xsy, u.from, u.to);
      assert u in itoks || u == Token(k.nsyOf[s], i, j);
    }
  }

  /** The completed start rule is in the set at earleme `j` if and only if the external start
      symbol derives the tokens from the beginning to `j`, at least one of them. */
  lemma {:induction false} AcceptsExactly(k: Compiled, toks: set<Token>, r: Recognizer, j: nat)
    requires Rewrote(k) && CensusOk(k.x, k.c) && r.Valid() && r.g == k.g && r.phase != BeforeInput && j <= r.currentEarleme
    requires TokensOk(toks) && TokensAre(k, toks, r.toks)
    ensures Stored(r.sets, Item(AhmOf(k.g, k.g.startIrl, 1), 0, j)) <==> 0 < j && XDerives(k.x, toks, k.x.start, 0, j)
  {
    hide Rewrote, CensusOk, Stored, Derives, XDerives, TokensAre;
    StartP(k);
    var start := k.g.startIrl;
    Acceptance(r, j);
    SameLanguage(k, toks, r.toks, k.x.start, 0, j);
  }

  lemma {:induction false} StartP(k: Compiled)
    requires Rewrote(k)
    ensures k.x.start in k.c.known && k.x.start !in k.c.nulling && k.x.start in k.nsyOf
    ensures P(k.g, k.g.startIrl) == [k.nsyOf[k.x.start]]
  {
    StartIsLast(k);
    hide Rewrote;
    StartFacts(k, k.g.startIrl);
  }

}
