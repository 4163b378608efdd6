/** Precomputation from the external grammar to the tables that the recognizer runs on. */
module Precomputations {
  import opened Options
  import opened Grammars
  import opened InternalRules
  import opened Externals
  import opened Pieces
  import opened Encodings
  import opened Compilations
  import opened Rewriters
  import opened RewriteMeaning
  import opened RewriteComplete
  import opened RewriteShape
  import opened RhsClosures
  import opened RulePairs
  import opened CensusMeaning
  import opened CensusTruth
  import opened Languages
  import opened Censuses
  import opened Closures
  import opened Tables
  import opened GrammarTables

  function Irls(rules: seq<Rule>): (r: seq<Irl>)
    ensures |r| == |rules| && forall i :: 0 <= i < |r| ==> r[i] == Irl(rules[i].lhs, rules[i].rhs)
  {
    seq(|rules|, i requires 0 <= i < |rules| => Irl(rules[i].lhs, rules[i].rhs))
  }

  function NullingSet(nsys: seq<Nsy>): (r: set<nat>)
    ensures forall n: nat :: n in r <==> n < |nsys| && nsys[n].Null?
  {
    set n: nat | n < |nsys| && nsys[n].Null?
  }

  /** Internal symbol `n` is that of a terminal. */
  ghost predicate OfTerminal(x: External, nsyOf: map<nat, nat>, n: nat) {
    exists s: nat :: s in x.terminals && s in nsyOf && nsyOf[s] == n
  }

  /** The internal symbols of the terminals that have one. */
  method MarkTerminals(x: External, nsyOf: map<nat, nat>) returns (terminals: set<nat>)
    requires forall s :: s in x.terminals ==> s < x.xsyCount
    ensures forall n: nat :: n in terminals <==> OfTerminal(x, nsyOf, n)
  {
    terminals := {};
    for xsyId := 0 to x.xsyCount
      invariant forall n: nat :: n in terminals <==> exists s: nat :: s < xsyId && s in x.terminals && s in nsyOf && nsyOf[s] == n
    {
      if xsyId in x.terminals && xsyId in nsyOf {
        terminals := terminals + {nsyOf[xsyId]};
      }
    }
  }

  ghost predicate TablesBuilt(g: Grammar) {
    exists full, e :: TablesExact(g, full, e)
  }

  /** The rules and the nulling symbols, without tables yet. */
  function Bare(nsys: seq<Nsy>, irls: seq<Rule>, terminals: set<nat>, events: set<nat>): Grammar
    requires irls != []
  {
    Grammar(|nsys|, NullingSet(nsys), Irls(irls), |irls| - 1, terminals, [], [], map[], [], [], events, [])
  }

  /** The census, the rewrite and the tables; `events` are the dotted rules that have events.
      The grammar is refused exactly when it must be.  Otherwise what comes out is ready for the
      recognizer, and means what the external grammar means exactly when no sequence is lost. */
  method Precompute(x: External, events: set<nat>) returns (status: Status, g: Grammar, nsyOf: map<nat, nat>, ghost k: Compiled, ghost f: Findings)
    requires GrammarGiven(x) && PairsFit(x)
    ensures status == CountedNullable <==> exists r: nat :: CountsNothing(x, r)
    ensures status == UnproductiveStart <==> (forall r: nat :: !CountsNothing(x, r)) && !DerivesSomewhere(x, x.start)
    ensures status == Accepted <==> Acceptable(x)
    ensures status == Accepted ==> GrammarOk(g) && g.events == events && g.nsyCount == |k.nsys| && TablesBuilt(g)
    ensures status == Accepted ==> forall n: nat :: n in g.terminals <==> OfTerminal(x, nsyOf, n)
    ensures status == Accepted ==> CompiledWith(k, f) && k.x == x && k.g == g && k.nsyOf == nsyOf
    ensures status == Accepted ==> forall s: nat :: s in nsyOf <==> s in k.c.known && s < x.xsyCount
    ensures status == Accepted ==> (LanguageKept(k) <==> SeparatorsHarmless(x, f))
  {
    hide *;
    var census;
    status, census, f := TakeCensus(x);
    g := Grammar(0, {}, [], 0, {}, [], [], map[], [], [], {}, []);
    nsyOf := map[];
    k := Compiled(x, census, [], map[], map[], [], [], g);
    if status != Accepted {
      return;
    }
    CensusExact(x, f);
    var w := new Rewriter(x, census);
    w.Rewrite();
    RewriterParts(w);
    SomeRule(x, census, w.nsys, w.irls, w.plans);
    nsyOf := w.nsyOf;
    TerminalsExist(x);
    var terminals := MarkTerminals(x, nsyOf);
    k := Compiled(x, census, w.nsys, w.nsyOf, w.nullOf, w.irls, w.plans, Bare(w.nsys, w.irls, terminals, events));
    BareIs(k, terminals, events);
    StartFresh(k);
    BareShape(w.nsys, w.irls, terminals, events);
    BareExists(k, terminals, events);
    ghost var full, e;
    g, full, e := BuildTables(|w.nsys|, NullingSet(w.nsys), Irls(w.irls), terminals, events);
    TablesAre(g, full, e);
    TablesAreToo(k, g);
    k := k.(g := g);
    CompiledIs(k, f);
    LanguageExact(k, f);
  }

  lemma {:induction false} RewriterParts(w: Rewriter)
    requires w.Valid()
    ensures Distinct(w.nsys) && SymbolsAre(w.c, w.nsys, w.nsyOf, w.nullOf, w.x.xsyCount) && RulesAre(w.x, w.c, w.nsys, w.irls, w.plans)
  {
    hide Distinct, SymbolsAre, RulesAre;
  }

  lemma {:induction false} TablesAre(g: Grammar, full: Relation, e: Relation)
    requires TablesExact(g, full, e)
    ensures TablesBuilt(g)
  {
    hide TablesExact;
  }

  lemma {:induction false} TerminalsExist(x: External)
    requires GrammarGiven(x)
    ensures forall s :: s in x.terminals ==> s < x.xsyCount
  {
  }

  lemma {:induction false} BareShape(nsys: seq<Nsy>, irls: seq<Rule>, terminals: set<nat>, events: set<nat>)
    requires irls != []
    ensures Bare(nsys, irls, terminals, events)
         == Grammar(|nsys|, NullingSet(nsys), Irls(irls), |irls| - 1, terminals, [], [], map[], [], [], events, [])
    ensures |Irls(irls)| == |irls|
  {
  }

  lemma {:induction false} CompiledIs(k: Compiled, f: Findings)
    requires GrammarGiven(k.x) && Taken(k.x, f) && Rewrote(k) && k.c == AsCensus(f)
    ensures CompiledWith(k, f)
  {
  }

  lemma {:induction false} SomeRule(x: External, c: Census, nsys: seq<Nsy>, irls: seq<Rule>, plans: seq<Plan>)
    requires RulesAre(x, c, nsys, irls, plans) && Rewritten(x, c, nsys, plans)
    ensures irls != []
  {
  }

  lemma {:induction false} BareIs(k: Compiled, terminals: set<nat>, events: set<nat>)
    requires Ready(k.x, k.c) && Distinct(k.nsys) && SymbolsAre(k.c, k.nsys, k.nsyOf, k.nullOf, k.x.xsyCount)
    requires RulesAre(k.x, k.c, k.nsys, k.irls, k.plans) && Rewritten(k.x, k.c, k.nsys, k.plans)
    requires k.irls != [] && k.g == Bare(k.nsys, k.irls, terminals, events)
    ensures Rewrote(k)
  {
    hide Ready, Distinct, SymbolsAre, RulesAre, Rewritten;
  }

  lemma {:induction false} BareExists(k: Compiled, terminals: set<nat>, events: set<nat>)
    requires Rewrote(k) && k.irls != [] && k.g == Bare(k.nsys, k.irls, terminals, events)
    ensures IrlsExist(k.g)
  {
    SamePlans(k);
    hide Rewrote, P;
    forall r: nat | r < |k.g.irls|
      ensures k.g.irls[r].lhs < k.g.nsyCount
      ensures forall q :: 0 <= q < |P(k.g, r)| ==> P(k.g, r)[q] < k.g.nsyCount
    {
      LhsMeans(k, r);
      forall q: nat | q < |P(k.g, r)|
        ensures P(k.g, r)[q] < k.g.nsyCount
      {
        RhsExists(k, r, q);
      }
    }
  }

  lemma {:induction false} RhsExists(k: Compiled, r: nat, q: nat)
    requires Rewrote(k) && r < |k.irls| && r < |k.g.irls| && k.g.irls[r] == Irl(k.irls[r].lhs, k.irls[r].rhs) && q < |P(k.g, r)|
    ensures P(k.g, r)[q] < |k.nsys|
  {
    hide Rewrote;
    ProperFrom(k.g.nulling, k.g.irls[r].rhs, q);
    var q' :| 0 <= q' < |k.irls[r].rhs| && k.irls[r].rhs[q'] == P(k.g, r)[q];
    RhsMeans(k, r, q');
  }

  lemma {:induction false} TablesAreToo(k: Compiled, g: Grammar)
    requires Rewrote(k) && g.irls == k.g.irls && g.nulling == k.g.nulling && g.startIrl == k.g.startIrl
    ensures Rewrote(k.(g := g))
  {
    hide Ready, Distinct, SymbolsAre, RulesAre, Rewritten;
  }
}
