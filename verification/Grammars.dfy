/** The internal grammar that the recognizer runs on, after precomputation.

    An internal rule (IRL) is a left-hand side and a string of internal symbols
    (NSYs).  Nulling symbols match nothing and are skipped by the dot, so the
    dotted rules (AHMs) of a rule run over its proper, non-nulling symbols. */
module Grammars {

  datatype Irl = Irl(lhs: nat, rhs: seq<nat>)

  /** A dotted rule.  `quasi` counts the proper symbols before the dot, `position`
      is the raw index of the symbol after it (-1 when complete), `postdot` that
      symbol (-1 when complete), `nulls` the nulling symbols just before the dot. */
  datatype Ahm = Ahm(irl: nat, quasi: nat, postdot: int, position: int, nulls: nat)

  datatype Grammar = Grammar(
    nsyCount: nat,
    nulling: set<nat>,
    irls: seq<Irl>,
    startIrl: nat,
    terminals: set<nat>,
    ahms: seq<Ahm>,
    first: seq<nat>,
    lhsIrls: map<nat, seq<nat>>,
    predicted: seq<seq<nat>>,
    leo: seq<bool>,
    events: set<nat>,
    eventSizes: seq<nat>)

  /** The non-nulling symbols of a right-hand side, in order. */
  function Proper(nulling: set<nat>, rhs: seq<nat>): (r: seq<nat>)
    ensures |r| <= |rhs|
    ensures forall s :: s in r ==> s in rhs && s !in nulling
  {
    if rhs == [] then []
    else
      var k := |rhs| - 1;
      Proper(nulling, rhs[..k]) + if rhs[k] in nulling then [] else [rhs[k]]
  }

  /** The symbols of a rule, with nulling ones left in, up to raw position `n`. */
  lemma {:induction false} ProperSnoc(nulling: set<nat>, rhs: seq<nat>, n: nat)
    requires n < |rhs|
    ensures Proper(nulling, rhs[..n + 1]) == Proper(nulling, rhs[..n]) + if rhs[n] in nulling then [] else [rhs[n]]
  {
    assert rhs[..n + 1][..n] == rhs[..n];
  }

  /** The proper symbols of rule `r`. */
  function P(g: Grammar, r: nat): seq<nat> {
    if r < |g.irls| then Proper(g.nulling, g.irls[r].rhs) else []
  }

  predicate IsItem(g: Grammar, r: nat, q: nat) {
    r < |g.irls| && q <= |P(g, r)|
  }

  /** Every rule has a proper symbol: no internal rule derives the empty string. */
  ghost predicate RulesOk(g: Grammar) {
    && g.startIrl < |g.irls|
    && (forall r :: 0 <= r < |g.irls| ==> |P(g, r)| > 0)
  }

  /** The start symbol is fresh: nothing else produces or uses it. */
  ghost predicate StartOk(g: Grammar)
    requires g.startIrl < |g.irls|
  {
    && (forall r: nat, q: nat :: IsItem(g, r, q) && q < |P(g, r)| ==> P(g, r)[q] != g.irls[g.startIrl].lhs)
    && (forall r :: 0 <= r < |g.irls| && g.irls[r].lhs == g.irls[g.startIrl].lhs ==> r == g.startIrl)
  }

  /** The dotted rule with identifier `a` is what its place in the table says. */
  ghost predicate AhmOk(g: Grammar, a: nat)
    requires a < |g.ahms| && |g.first| == |g.irls|
  {
    var h := g.ahms[a];
    && IsItem(g, h.irl, h.quasi)
    && g.first[h.irl] + h.quasi == a
    && h.postdot == (if h.quasi < |P(g, h.irl)| then P(g, h.irl)[h.quasi] else -1)
  }

  /** The dotted rules of each rule are consecutive, in dot order. */
  ghost predicate AhmsOk(g: Grammar) {
    && |g.first| == |g.irls|
    && (forall a :: 0 <= a < |g.ahms| ==> AhmOk(g, a))
    && (forall r: nat, q: nat :: IsItem(g, r, q) ==>
         g.first[r] + q < |g.ahms| && g.ahms[g.first[r] + q].irl == r && g.ahms[g.first[r] + q].quasi == q)
  }

  /** A chain of symbols, each the first proper symbol of a rule for the one before. */
  ghost predicate LeftPath(g: Grammar, path: seq<nat>, s: nat, t: nat) {
    && |path| > 0 && path[0] == s && path[|path| - 1] == t
    && (forall k :: 0 <= k < |path| - 1 ==> LeftEdge(g, path[k], path[k + 1]))
  }

  ghost predicate LeftEdge(g: Grammar, s: nat, t: nat) {
    exists r :: RuleLeft(g, r, s, t)
  }

  ghost predicate RuleLeft(g: Grammar, r: nat, s: nat, t: nat) {
    r < |g.irls| && g.irls[r].lhs == s && |P(g, r)| > 0 && P(g, r)[0] == t
  }

  ghost predicate LeftReach(g: Grammar, s: nat, t: nat) {
    exists path :: LeftPath(g, path, s, t)
  }

  ghost predicate Predicts(g: Grammar, s: nat, r: nat) {
    r < |g.irls| && LeftReach(g, s, g.irls[r].lhs)
  }

  /** `lhsIrls` lists the rules of a symbol; `predicted` lists, for a dotted rule,
      the rules of every symbol reachable through left corners. */
  ghost predicate PredictionsOk(g: Grammar) {
    && |g.predicted| == |g.ahms|
    && (forall a :: 0 <= a < |g.ahms| && g.ahms[a].postdot < 0 ==> g.predicted[a] == [])
    && (forall a: nat, r: nat :: a < |g.ahms| && g.ahms[a].postdot >= 0 ==>
         (r in g.predicted[a] <==> Predicts(g, g.ahms[a].postdot, r)))
    && (forall s: nat, r: nat :: r in RulesFor(g, s) <==> r < |g.irls| && g.irls[r].lhs == s)
  }

  function RulesFor(g: Grammar, s: nat): seq<nat> {
    if s in g.lhsIrls then g.lhsIrls[s] else []
  }

  /** Symbol identifiers are below the symbol count. */
  ghost predicate SymbolsOk(g: Grammar) {
    forall a :: 0 <= a < |g.ahms| ==> g.ahms[a].postdot < g.nsyCount
  }

  lemma {:induction false} RulesForMeans(g: Grammar, s: nat, r: nat)
    requires PredictionsOk(g)
    ensures r in RulesFor(g, s) <==> r < |g.irls| && g.irls[r].lhs == s
  {
  }

  /** Everything but the sizes of the event groups. */
  ghost predicate CoreOk(g: Grammar) {
    && SymbolsOk(g)
    && RulesOk(g) && StartOk(g) && AhmsOk(g) && PredictionsOk(g)
    && |g.leo| == |g.irls| && !g.leo[g.startIrl]
  }

  ghost predicate GrammarOk(g: Grammar) {
    CoreOk(g) && EventsOk(g)
  }

  /** AHM_is_Completion, LHS and the symbol after the dot, by identifier. */
  predicate Complete(g: Grammar, a: nat) {
    a < |g.ahms| && g.ahms[a].postdot < 0
  }

  /** The identifier of rule `r` with the dot after `q` proper symbols. */
  function AhmOf(g: Grammar, r: nat, q: nat): nat {
    if r < |g.first| then g.first[r] + q else 0
  }

  function Lhs(g: Grammar, a: nat): nat {
    if a < |g.ahms| && g.ahms[a].irl < |g.irls| then g.irls[g.ahms[a].irl].lhs else 0
  }

  /** The last proper symbol of a rule. */
  ghost function LastOf(g: Grammar, r: nat): nat {
    if r < |g.irls| && |P(g, r)| > 0 then P(g, r)[|P(g, r)| - 1] else 0
  }

  // ---- Events ----

  /** A completed dotted rule of a right-recursive rule. */
  predicate LeoCompletion(g: Grammar, a: nat) {
    Complete(g, a) && g.ahms[a].irl < |g.leo| && g.leo[g.ahms[a].irl]
  }

  /** The completed dotted rules that a Leo item stands for, from its own up to the top: each
      completes the last symbol of the one above. */
  ghost predicate RightChain(g: Grammar, chain: seq<nat>) {
    && chain != []
    && (forall k :: 0 <= k < |chain| ==> LeoCompletion(g, chain[k]))
    && (forall k :: 0 <= k < |chain| - 1 ==> Under(g, chain[k + 1], chain[k]))
  }

  ghost predicate Under(g: Grammar, upper: nat, lower: nat) {
    upper < |g.ahms| && LastOf(g, g.ahms[upper].irl) == Lhs(g, lower)
  }

  /** The dotted rules of a chain that have events. */
  ghost function EventsOf(events: set<nat>, chain: seq<nat>): set<nat> {
    set a: nat | a in chain && a in events
  }

  /** `group` holds, for every dotted rule that a chain can end at, all events of such chains,
      and the sizes in the grammar are those of the groups. */
  ghost predicate Groups(g: Grammar, group: seq<set<nat>>) {
    && |group| == |g.eventSizes| == |g.ahms|
    && (forall a: nat :: a < |g.ahms| && LeoCompletion(g, a) ==> |group[a]| == g.eventSizes[a])
    && (forall chain :: RightChain(g, chain) ==> EventsOf(g.events, chain) <= group[chain[|chain| - 1]])
  }

  ghost predicate EventsOk(g: Grammar) {
    exists group :: Groups(g, group)
  }

  /** Every place in a rule has its dotted rule. */
  lemma {:induction false} AhmIs(g: Grammar, r: nat, q: nat)
    requires AhmsOk(g) && IsItem(g, r, q)
    ensures AhmOf(g, r, q) < |g.ahms| && g.ahms[AhmOf(g, r, q)].irl == r && g.ahms[AhmOf(g, r, q)].quasi == q
  {
    hide P;
  }

  lemma {:induction false} AhmCase(g: Grammar, a: nat)
    requires AhmsOk(g) && a < |g.ahms|
    ensures var h := g.ahms[a];
            && IsItem(g, h.irl, h.quasi) && g.first[h.irl] + h.quasi == a
            && (h.postdot < 0 <==> h.quasi == |P(g, h.irl)|)
            && (h.postdot >= 0 ==> h.quasi < |P(g, h.irl)| && h.postdot == P(g, h.irl)[h.quasi]
                                   && IsItem(g, h.irl, h.quasi + 1)
                                   && a + 1 < |g.ahms|
                                   && g.ahms[a + 1].irl == h.irl && g.ahms[a + 1].quasi == h.quasi + 1)
  {
    assert AhmOk(g, a);
    var h := g.ahms[a];
    if h.quasi < |P(g, h.irl)| {
      assert IsItem(g, h.irl, h.quasi + 1);
      assert g.first[h.irl] + (h.quasi + 1) == a + 1;
    }
  }

  lemma {:induction false} LeftReachRefl(g: Grammar, s: nat)
    ensures LeftReach(g, s, s)
  {
    assert LeftPath(g, [s], s, s);
  }

  lemma {:induction false} LeftReachStep(g: Grammar, s: nat, t: nat, u: nat)
    requires LeftReach(g, s, t) && LeftEdge(g, t, u)
    ensures LeftReach(g, s, u)
  {
    var path :| LeftPath(g, path, s, t);
    var longer := path + [u];
    forall k | 0 <= k < |longer| - 1
      ensures LeftEdge(g, longer[k], longer[k + 1])
    {
      if k < |path| - 1 {
        assert LeftEdge(g, path[k], path[k + 1]);
      }
    }
    assert LeftPath(g, longer, s, u);
  }

  /** One pass suffices: what a predicted rule itself predicts is already in the list. */
  lemma {:induction false} PredictionsClosed(g: Grammar, a: nat, r: nat, r': nat)
    requires RulesOk(g) && AhmsOk(g) && PredictionsOk(g)
    requires a < |g.ahms| && r in g.predicted[a]
    requires r' < |g.irls| && r < |g.irls| && g.irls[r'].lhs == P(g, r)[0]
    ensures r' in g.predicted[a]
  {
    assert g.ahms[a].postdot >= 0;
    assert RuleLeft(g, r, g.irls[r].lhs, g.irls[r'].lhs);
    LeftReachStep(g, g.ahms[a].postdot, g.irls[r].lhs, g.irls[r'].lhs);
  }

  lemma {:induction false} PredictionsDirect(g: Grammar, a: nat, r: nat)
    requires AhmsOk(g) && PredictionsOk(g)
    requires a < |g.ahms| && g.ahms[a].postdot >= 0
    requires r < |g.irls| && g.irls[r].lhs == g.ahms[a].postdot
    ensures r in g.predicted[a]
  {
    LeftReachRefl(g, g.ahms[a].postdot);
  }
}
