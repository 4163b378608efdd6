/** What the later phases count on: a fresh start symbol, and counts of real symbols. */
module RewriteShape {
  import opened Options
  import opened Grammars
  import opened Derivations
  import opened InternalRules
  import opened Externals
  import opened Pieces
  import opened Encodings
  import opened Compilations
  import opened RewriteMeaning
  import opened RewriteComplete

  /** The symbols that stand for parts of rules, and the start symbol. */
  ghost function VirtualSymbols(nsys: seq<Nsy>): set<nat> {
    set n: nat | n < |nsys| && (nsys[n].Rest? || nsys[n].Inner? || nsys[n] == StartSymbol)
  }

  lemma {:induction false} MeansVirtual(nsys: seq<Nsy>, n: nat, m: Nsy)
    requires Means(nsys, n, m)
    ensures n in VirtualSymbols(nsys) <==> m.Rest? || m.Inner? || m == StartSymbol
  {
  }

  // ---- The start symbol is fresh ----

  /** What a symbol of a right-hand side can be. */
  lemma {:induction false} RhsMeans(k: Compiled, r: nat, q: nat)
    requires Rewrote(k) && r < |k.irls| && q < |k.irls[r].rhs|
    ensures k.irls[r].rhs[q] < |k.nsys| && k.nsys[k.irls[r].rhs[q]] != StartSymbol
  {
    hide Rewrote;
    SamePlans(k);
    if k.plans[r].Piece? {
      PieceRhs(k, r, q);
    } else if k.plans[r] == StartPlan {
      StartFacts(k, r);
    } else {
      SequenceFacts(k, r);
    }
  }

  lemma {:induction false} PieceRhs(k: Compiled, r: nat, q: nat)
    requires Rewrote(k) && r < |k.irls| && r < |k.plans| && k.plans[r].Piece? && q < |k.irls[r].rhs|
    ensures k.irls[r].rhs[q] < |k.nsys| && k.nsys[k.irls[r].rhs[q]] != StartSymbol
    ensures k.nsys[k.irls[r].rhs[q]].Inner? ==> false
    ensures k.nsys[k.irls[r].rhs[q]].Rest? <==> q >= |k.plans[r].nulls|
  {
    hide Rewrote, PieceOk;
    PieceFacts(k, r);
    var p, rhs := k.plans[r], k.irls[r].rhs;
    if q < |p.nulls| {
      assert Means(k.nsys, rhs[q], SymbolMeaning(k.c, Rhs(k.x, p.rule)[p.start + q], p.nulls[q]));
    }
  }

  lemma {:induction false} LhsMeans(k: Compiled, r: nat)
    requires Rewrote(k) && r < |k.irls| && r < |k.plans|
    ensures k.irls[r].lhs < |k.nsys| && (k.nsys[k.irls[r].lhs] == StartSymbol <==> k.plans[r] == StartPlan)
  {
    hide Rewrote;
    if k.plans[r].Piece? {
      PieceLhs(k, r);
    } else if k.plans[r] == StartPlan {
      StartFacts(k, r);
    } else {
      SequenceFacts(k, r);
    }
  }

  /** Nothing else produces or uses the start symbol. */
  lemma {:induction false} StartFresh(k: Compiled)
    requires Rewrote(k)
    ensures RulesOk(k.g) && StartOk(k.g)
  {
    NoRuleEmpty(k);
    StartIsLast(k);
    hide Rewrote;
    var start := k.g.startIrl;
    RuleShape(k, start);
    LhsMeans(k, start);
    forall r: nat | r < |k.g.irls| && k.g.irls[r].lhs == k.g.irls[start].lhs
      ensures r == start
    {
      RuleShape(k, r);
      LhsMeans(k, r);
    }
    forall r: nat, q: nat | IsItem(k.g, r, q) && q < |P(k.g, r)|
      ensures P(k.g, r)[q] != k.g.irls[start].lhs
    {
      RuleShape(k, r);
      ProperFrom(k.g.nulling, k.g.irls[r].rhs, q);
      var q' :| 0 <= q' < |k.irls[r].rhs| && k.irls[r].rhs[q'] == P(k.g, r)[q];
      RhsMeans(k, r, q');
    }
  }

  lemma {:induction false} ProperFrom(nulling: set<nat>, rhs: seq<nat>, q: nat)
    requires q < |Proper(nulling, rhs)|
    ensures exists q' :: 0 <= q' < |rhs| && rhs[q'] == Proper(nulling, rhs)[q]
  {
    assert Proper(nulling, rhs)[q] in Proper(nulling, rhs);
  }

  // ---- Counts of real symbols ----

  lemma {:induction false} VirtualNone(virtual: set<nat>, rhs: seq<nat>)
    requires forall q :: 0 <= q < |rhs| ==> rhs[q] !in virtual
    ensures Virtuals(virtual, rhs) == 0 && Reals(virtual, rhs) == |rhs|
  {
    if rhs != [] {
      var init := rhs[..|rhs| - 1];
      assert forall q :: 0 <= q < |init| ==> init[q] == rhs[q];
      VirtualNone(virtual, init);
    }
  }

  lemma {:induction false} VirtualSnoc(virtual: set<nat>, rhs: seq<nat>, n: nat)
    ensures Virtuals(virtual, rhs + [n]) == Virtuals(virtual, rhs) + if n in virtual then 1 else 0
    ensures Reals(virtual, rhs + [n]) == Reals(virtual, rhs) + if n in virtual then 0 else 1
  {
    assert (rhs + [n])[..|rhs|] == rhs;
  }

  /** In every internal rule at most one symbol is virtual, and the real ones are counted. */
  lemma {:induction false} RuleCounts(k: Compiled, r: nat)
    requires Rewrote(k) && r < |k.irls|
    ensures CountsOk(VirtualSymbols(k.nsys), k.irls[r])
  {
    SamePlans(k);
    hide Rewrote;
    if k.plans[r].Piece? {
      PieceCounts(k, r);
    } else if k.plans[r] == StartPlan {
      StartCounts(k, r);
    } else {
      SequenceCounts(k, r);
    }
  }

  lemma {:induction false} PieceCounts(k: Compiled, r: nat)
    requires Rewrote(k) && r < |k.irls| && r < |k.plans| && k.plans[r].Piece?
    ensures CountsOk(VirtualSymbols(k.nsys), k.irls[r])
  {
    hide Rewrote, ValidNulls, Means;
    PieceFacts(k, r);
    var p, rhs, m := k.plans[r], k.irls[r].rhs, |k.plans[r].nulls|;
    var virtual := VirtualSymbols(k.nsys);
    MeansVirtual(k.nsys, k.irls[r].lhs, LhsMeaning(k.x, p.rule, p.start));
    forall q | 0 <= q < |rhs|
      ensures rhs[q] in virtual <==> q >= m
    {
      PieceRhs(k, r, q);
    }
    hide VirtualSymbols;
    VirtualNone(virtual, rhs[..m]);
    if p.more {
      assert rhs == rhs[..m] + [rhs[m]];
      VirtualSnoc(virtual, rhs[..m], rhs[m]);
    } else {
      assert rhs == rhs[..m];
    }
  }

  lemma {:induction false} StartCounts(k: Compiled, r: nat)
    requires Rewrote(k) && r < |k.irls| && r < |k.plans| && k.plans[r] == StartPlan
    ensures CountsOk(VirtualSymbols(k.nsys), k.irls[r])
  {
    hide Rewrote;
    StartFacts(k, r);
    var rhs := k.irls[r].rhs;
    VirtualNone(VirtualSymbols(k.nsys), rhs);
  }

  lemma {:induction false} SequenceCounts(k: Compiled, r: nat)
    requires Rewrote(k) && r < |k.irls| && r < |k.plans| && !k.plans[r].Piece? && k.plans[r] != StartPlan
    ensures CountsOk(VirtualSymbols(k.nsys), k.irls[r])
  {
    hide Rewrote;
    SequenceFacts(k, r);
    var rhs := k.irls[r].rhs;
    var virtual := VirtualSymbols(k.nsys);
    if k.plans[r].SequenceFirst? {
      VirtualNone(virtual, rhs);
    } else {
      hide SequenceRule, VirtualSymbols;
      assert rhs == [rhs[0]] + rhs[1..];
      FirstVirtual(virtual, rhs[0], rhs[1..]);
    }
    hide VirtualSymbols;
  }

  lemma {:induction false} FirstVirtual(virtual: set<nat>, n: nat, ns: seq<nat>)
    requires n in virtual && forall q :: 0 <= q < |ns| ==> ns[q] !in virtual
    ensures Virtuals(virtual, [n] + ns) == 1 && Reals(virtual, [n] + ns) == |ns|
    decreases |ns|
  {
    if ns == [] {
      assert [n] + ns == [] + [n];
      VirtualSnoc(virtual, [], n);
    } else {
      var q := |ns| - 1;
      FirstVirtual(virtual, n, ns[..q]);
      assert [n] + ns == [n] + ns[..q] + [ns[q]];
      VirtualSnoc(virtual, [n] + ns[..q], ns[q]);
    }
  }
}
