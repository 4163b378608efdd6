/** What the census of symbols and rules says, as sets, and what that means for derivations. */
module CensusMeaning {
  import opened Options
  import opened Derivations
  import opened Externals
  import opened Pieces
  import opened Encodings
  import opened Compilations
  import opened RhsClosures
  import opened Closures

  ghost predicate GrammarGiven(x: External) {
    && SymbolsExist(x) && x.start < x.xsyCount && (forall s :: s in x.terminals ==> s < x.xsyCount)
    && (forall r :: 0 <= r < |x.xrls| && x.xrls[r].Sequence? ==> x.xrls[r].minimum <= 1)
    && OneRulePerSequence(x)
  }

  /** The left-hand side of a sequence has no other rule. */
  ghost predicate OneRulePerSequence(x: External) {
    forall r, q :: 0 <= r < |x.xrls| && 0 <= q < |x.xrls| && x.xrls[r].Sequence? && x.xrls[q].lhs == x.xrls[r].lhs ==> q == r
  }

  /** Rules that can be empty by themselves. */
  predicate CanBeEmpty(r: Xrl) {
    if r.Sequence? then r.minimum <= 0 else r.rhs == []
  }

  ghost predicate EmptyLhs(x: External, s: nat) {
    exists r :: 0 <= r < |x.xrls| && x.xrls[r].lhs == s && CanBeEmpty(x.xrls[r])
  }

  ghost predicate IsLhs(x: External, s: nat) {
    exists r :: 0 <= r < |x.xrls| && x.xrls[r].lhs == s
  }

  ghost predicate Edge(x: External, s: nat, t: nat) {
    exists r :: 0 <= r < |x.xrls| && x.xrls[r].lhs == s && t in Mentions(x.xrls[r])
  }

  ghost predicate EdgesAre(x: External, e: Relation) {
    forall s: nat, t: nat :: (s, t) in e <==> Edge(x, s, t)
  }

  /** The symbol leads to a terminal. */
  ghost predicate LeadsTo(x: External, e: Relation, s: nat) {
    exists t :: t in x.terminals && (s == t || Reaches(e, s, t))
  }

  ghost predicate BaseIs(x: External, base: set<nat>) {
    forall s: nat :: s in base <==> EmptyLhs(x, s)
  }

  ghost predicate NullableIs(x: External, nullable: set<nat>) {
    && (forall s: nat :: EmptyLhs(x, s) ==> s in nullable)
    && Closed(x, nullable)
    && exists base: set<nat> :: BaseIs(x, base) && Least(x, base, nullable)
  }

  ghost predicate ProductiveIs(x: External, nullable: set<nat>, productive: set<nat>) {
    nullable + x.terminals <= productive && Closed(x, productive) && Least(x, nullable + x.terminals, productive)
  }

  ghost predicate NoTerminal(x: External, e: Relation, s: nat) {
    forall t: nat :: t in x.terminals ==> !Reaches(e, s, t)
  }

  /** The symbols that never derive anything but nothing, as the census marks them. */
  ghost predicate NullingIs(x: External, e: Relation, nulling: set<nat>) {
    forall s: nat :: s in nulling <==> IsLhs(x, s) && NoTerminal(x, e, s)
  }

  ghost predicate AccessibleIs(x: External, e: Relation, accessible: set<nat>) {
    forall s: nat :: s in accessible <==> s == x.start || Reaches(e, x.start, s)
  }

  /** Every symbol of the rule is in the set. */
  predicate All(syms: seq<nat>, symbols: set<nat>) {
    forall k :: 0 <= k < |syms| ==> syms[k] in symbols
  }

  /** The rule is nulling: nothing on its right-hand side is not. */
  predicate RuleNulling(r: Xrl, nulling: set<nat>) {
    All(RhsOf(r), nulling) && (r.Sequence? && r.separator.Some? ==> r.separator.value in nulling)
  }

  /** Accessible, productive, and not nulling; for a sequence also a productive separator. */
  predicate RuleUsed(r: Xrl, productive: set<nat>, accessible: set<nat>, nulling: set<nat>) {
    && r.lhs in accessible && All(RhsOf(r), productive) && !RuleNulling(r, nulling)
    && (r.Sequence? && r.separator.Some? ==> r.separator.value in productive)
  }

  ghost predicate UsedIs(x: External, productive: set<nat>, accessible: set<nat>, nulling: set<nat>, used: set<nat>) {
    forall r: nat :: r in used <==> r < |x.xrls| && RuleUsed(x.xrls[r], productive, accessible, nulling)
  }

  predicate NoneIn(syms: seq<nat>, symbols: set<nat>) {
    forall k :: 0 <= k < |syms| ==> syms[k] !in symbols
  }

  /** What a sequence repeats, or is separated by, may not be nullable. */
  ghost predicate NoCountedNullable(x: External, nullable: set<nat>) {
    forall r :: 0 <= r < |x.xrls| && x.xrls[r].Sequence? ==> NoneIn(Mentions(x.xrls[r]), nullable)
  }

  /** A census that was taken without complaint. */
  ghost predicate CensusTaken(x: External, e: Relation, nullable: set<nat>, productive: set<nat>, accessible: set<nat>, nulling: set<nat>, used: set<nat>) {
    && EdgesAre(x, e) && NullableIs(x, nullable) && ProductiveIs(x, nullable, productive)
    && AccessibleIs(x, e, accessible) && NullingIs(x, e, nulling) && UsedIs(x, productive, accessible, nulling, used)
    && NoCountedNullable(x, nullable)
    && x.start in productive && x.start !in nulling
    && (forall s :: s in nulling ==> s !in x.terminals)
  }

  /** As the rewrite uses it: only symbols that are accessible and productive matter. */
  function CensusOf(nullable: set<nat>, productive: set<nat>, accessible: set<nat>, nulling: set<nat>, used: set<nat>): Census {
    Census(nullable, nulling * productive, accessible * productive, used)
  }

  // ---- The symbols of an expansion are those of the rule ----

  lemma {:induction false} ExpandsFrom(r: Xrl, syms: seq<nat>)
    requires Expands(r, syms)
    ensures forall k :: 0 <= k < |syms| ==> syms[k] in Mentions(r)
    ensures r.Sequence? && syms != [] ==> r.item in syms
  {
    if r.Sequence? && syms != [] {
      hide Mentions;
      SequenceMentions(r);
      if n: nat :| syms == Items(r.item, r.separator, n) {
        ItemsFrom(r.item, r.separator, n);
      } else {
        var n: nat :| syms == Items(r.item, r.separator, n) + [r.separator.value];
        ItemsFrom(r.item, r.separator, n);
        var items := Items(r.item, r.separator, n);
        assert syms[|items| - 1] == items[|items| - 1];
      }
    }
  }

  lemma {:induction false} SequenceMentions(r: Xrl)
    requires r.Sequence?
    ensures r.item in Mentions(r) && (r.separator.Some? ==> r.separator.value in Mentions(r))
  {
    assert Mentions(r)[0] == r.item;
    assert r.separator.Some? ==> Mentions(r)[1] == r.separator.value;
  }

  /** One item is an expansion of a sequence. */
  lemma {:induction false} OneItem(r: Xrl)
    requires r.Sequence?
    ensures Expands(r, [r.item])
  {
    assert Items(r.item, r.separator, 0) == [r.item];
  }

  // ---- Nullable means deriving nothing ----

  lemma {:induction false} NothingIsNullable(x: External, nullable: set<nat>, t: XTree, s: nat, i: nat)
    requires GrammarGiven(x) && NullableIs(x, nullable) && XTreeFor(x, {}, t, s, i, i)
    ensures s in nullable
    decreases t
  {
    assert TokensOk({});
    match t
    case XLeaf =>
    case XNode(r, syms, points, kids) =>
      hide NullableIs, GrammarGiven, Expands;
      NodeSpans(x, {}, t, s, i, i);
      forall k | 0 <= k < |syms|
        ensures syms[k] in nullable
      {
        SpansForward(x, {}, syms, points, 0, k);
        SpansForward(x, {}, syms, points, k, k + 1);
        SpansForward(x, {}, syms, points, k + 1, |syms|);
        NothingIsNullable(x, nullable, kids[k], syms[k], i);
      }
      AllNullable(x, nullable, r, syms);
  }

  /** A rule whose symbols are all nullable has a nullable left-hand side. */
  lemma {:induction false} AllNullable(x: External, nullable: set<nat>, r: nat, syms: seq<nat>)
    requires GrammarGiven(x) && NullableIs(x, nullable) && r < |x.xrls| && Expands(x.xrls[r], syms)
    requires forall k :: 0 <= k < |syms| ==> syms[k] in nullable
    ensures x.xrls[r].lhs in nullable
  {
    assert Closed(x, nullable);
    if CanBeEmpty(x.xrls[r]) {
      assert EmptyLhs(x, x.xrls[r].lhs);
    } else {
      hide NullableIs, SymbolsExist;
      ExpandsFrom(x.xrls[r], syms);
      hide Expands, Mentions;
      assert Covered(x.xrls[r], nullable);
    }
  }

  lemma {:induction false} NullableIsNothing(x: External, nullable: set<nat>, s: nat)
    requires GrammarGiven(x) && NullableIs(x, nullable) && s in nullable
    ensures DerivesNothing(x, s)
  {
    var base: set<nat> :| BaseIs(x, base) && Least(x, base, nullable);
    hide NullableIs, DerivesNothing;
    var z := set s: nat | s < x.xsyCount && DerivesNothing(x, s);
    forall s | s in base
      ensures s in z
    {
      EmptyDerives(x, s);
    }
    forall r | 0 <= r < |x.xrls| && Covered(x.xrls[r], z)
      ensures x.xrls[r].lhs in z
    {
      CoveredNothing(x, r, z);
    }
    assert Closed(x, z);
  }

  lemma {:induction false} EmptyDerives(x: External, s: nat)
    requires GrammarGiven(x) && EmptyLhs(x, s)
    ensures DerivesNothing(x, s) && s < x.xsyCount
  {
    var r :| 0 <= r < |x.xrls| && x.xrls[r].lhs == s && CanBeEmpty(x.xrls[r]);
    SpansNone(x, {}, 0);
    RuleDerives(x, {}, r, [], 0, 0);
  }

  lemma {:induction false} CoveredNothing(x: External, r: nat, z: set<nat>)
    requires GrammarGiven(x) && r < |x.xrls| && Covered(x.xrls[r], z) && forall s :: s in z ==> DerivesNothing(x, s)
    ensures DerivesNothing(x, x.xrls[r].lhs) && x.xrls[r].lhs < x.xsyCount
  {
    var syms := RhsOf(x.xrls[r]);
    assert Expands(x.xrls[r], syms) by {
      if x.xrls[r].Sequence? {
        OneItem(x.xrls[r]);
      }
    }
    hide Expands, DerivesNothing;
    var points := seq(|syms| + 1, _ => 0);
    forall k | 0 <= k < |syms|
      ensures XDerives(x, {}, syms[k], points[k], points[k + 1])
    {
      assert syms[k] in syms;
      NothingAnywhere(x, {}, syms[k], 0);
    }
    assert SpansAt(x, {}, syms, points) && Between(points, |syms|, 0, 0);
    RuleDerives(x, {}, r, syms, 0, 0);
    EmptyIsNothing(x, {}, x.xrls[r].lhs, 0);
  }

  // ---- What derives anything is productive ----

  lemma {:induction false} DerivedIsProductive(x: External, nullable: set<nat>, productive: set<nat>, toks: set<Token>, t: XTree, s: nat, i: nat, j: nat)
    requires GrammarGiven(x) && NullableIs(x, nullable) && ProductiveIs(x, nullable, productive) && XTreeFor(x, toks, t, s, i, j)
    ensures s in productive
    decreases t
  {
    match t
    case XLeaf =>
    case XNode(r, syms, points, kids) =>
      hide NullableIs, GrammarGiven, Expands, ProductiveIs;
      NodeSpans(x, toks, t, s, i, j);
      forall k | 0 <= k < |syms|
        ensures syms[k] in productive
      {
        DerivedIsProductive(x, nullable, productive, toks, kids[k], syms[k], points[k], points[k + 1]);
      }
      AllProductive(x, nullable, productive, r, syms);
  }

  lemma {:induction false} AllProductive(x: External, nullable: set<nat>, productive: set<nat>, r: nat, syms: seq<nat>)
    requires GrammarGiven(x) && NullableIs(x, nullable) && ProductiveIs(x, nullable, productive) && r < |x.xrls| && Expands(x.xrls[r], syms)
    requires forall k :: 0 <= k < |syms| ==> syms[k] in productive
    ensures x.xrls[r].lhs in productive
  {
    assert Closed(x, productive);
    if CanBeEmpty(x.xrls[r]) {
      assert EmptyLhs(x, x.xrls[r].lhs);
    } else {
      hide NullableIs, SymbolsExist, ProductiveIs;
      ExpandsFrom(x.xrls[r], syms);
      hide Expands, Mentions;
      assert Covered(x.xrls[r], productive);
    }
  }

  // ---- What derives something leads to a terminal ----

  lemma {:induction false} PathStart(e: Relation, s: nat, m: nat, t: nat)
    requires (s, m) in e && (m == t || Reaches(e, m, t))
    ensures Reaches(e, s, t)
  {
    assert IsPath(e, [s, m], s, m);
    if m != t {
      var p :| IsPath(e, p, m, t);
      PathJoin(e, [s, m], p, s, m, t);
    }
  }

  lemma {:induction false} EdgeLeads(x: External, e: Relation, r: nat, s: nat)
    requires EdgesAre(x, e) && r < |x.xrls| && s in Mentions(x.xrls[r]) && LeadsTo(x, e, s)
    ensures exists t :: t in x.terminals && Reaches(e, x.xrls[r].lhs, t)
  {
    assert Edge(x, x.xrls[r].lhs, s);
    var t :| t in x.terminals && (s == t || Reaches(e, s, t));
    PathStart(e, x.xrls[r].lhs, s, t);
  }

  lemma {:induction false} SomeStep(points: seq<nat>)
    requires |points| > 0 && points[0] < points[|points| - 1]
    ensures exists k :: 0 <= k < |points| - 1 && points[k] < points[k + 1]
  {
    var n := |points| - 1;
    if points[n - 1] >= points[n] {
      SomeStep(points[..n]);
      var k :| 0 <= k < n - 1 && points[..n][k] < points[..n][k + 1];
      assert points[k] < points[k + 1];
    }
  }

  lemma {:induction false} SomethingLeads(x: External, e: Relation, toks: set<Token>, t: XTree, s: nat, i: nat, j: nat)
    requires EdgesAre(x, e) && XTreeFor(x, toks, t, s, i, j) && i < j
    ensures LeadsTo(x, e, s)
    ensures t.XNode? ==> exists u :: u in x.terminals && Reaches(e, s, u)
    decreases t
  {
    hide EdgesAre, Expands;
    match t
    case XLeaf =>
    case XNode(r, syms, points, kids) =>
      SomeStep(points);
      var k :| 0 <= k < |points| - 1 && points[k] < points[k + 1];
      SomethingLeads(x, e, toks, kids[k], syms[k], points[k], points[k + 1]);
      ExpandsFrom(x.xrls[r], syms);
      hide LeadsTo, Mentions;
      EdgeLeads(x, e, r, syms[k]);
  }

}
