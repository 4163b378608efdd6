/** The internal symbols and the internal rules that the rewrite makes, and what each
    of them stands for. */
module Encodings {
  import opened Options
  import opened InternalRules
  import opened Externals
  import opened Pieces

  /** An internal symbol: an external symbol when it is not empty, one that is empty, the
      rest of a rule from an offset, the repeated part of a sequence rule, or the start. */
  datatype Nsy = Whole(xsy: nat) | Null(xsy: nat) | Rest(rule: nat, offset: nat) | Inner(rule: nat) | StartSymbol

  ghost predicate Means(nsys: seq<Nsy>, n: nat, m: Nsy) {
    n < |nsys| && nsys[n] == m
  }

  ghost predicate Distinct(nsys: seq<Nsy>) {
    forall a, b :: 0 <= a < b < |nsys| ==> nsys[a] != nsys[b]
  }

  function SymbolMeaning(c: Census, s: nat, empty: bool): Nsy {
    if empty || s in c.nulling then Null(s) else Whole(s)
  }

  function Rhs(x: External, r: nat): seq<nat> {
    if r < |x.xrls| && x.xrls[r].Bnf? then x.xrls[r].rhs else []
  }

  function LhsMeaning(x: External, r: nat, start: nat): Nsy {
    if start > 0 then Rest(r, start) else Whole(if r < |x.xrls| then x.xrls[r].lhs else 0)
  }

  // ---- What an internal rule must look like ----

  ghost predicate PieceRule(x: External, c: Census, nsys: seq<Nsy>, irl: Rule, p: Plan)
    requires p.Piece?
  {
    var m := |p.nulls|;
    && p.start + m <= |Rhs(x, p.rule)|
    && Means(nsys, irl.lhs, LhsMeaning(x, p.rule, p.start))
    && |irl.rhs| == m + (if p.more then 1 else 0)
    && (forall k :: 0 <= k < m ==> Means(nsys, irl.rhs[k], SymbolMeaning(c, Rhs(x, p.rule)[p.start + k], p.nulls[k])))
    && (p.more ==> Means(nsys, irl.rhs[m], Rest(p.rule, p.start + m)))
    && (irl.virtualLhs <==> p.start > 0) && (irl.virtualRhs <==> p.more)
    && (p.start > 0 || p.more ==> irl.realCount == m)
  }

  ghost predicate Flags(irl: Rule, left: bool, right: bool, count: nat) {
    irl.virtualLhs == left && irl.virtualRhs == right && irl.realCount == count
  }

  ghost predicate SequenceRule(x: External, nsys: seq<Nsy>, irl: Rule, p: Plan)
    requires p.SequenceTop? || p.SequenceTrail? || p.SequenceFirst? || p.SequenceMore?
  {
    && p.rule < |x.xrls| && x.xrls[p.rule].Sequence?
    && var s := x.xrls[p.rule];
    && (p.SequenceTop? ==>
         && Means(nsys, irl.lhs, Whole(s.lhs)) && |irl.rhs| == 1 && Means(nsys, irl.rhs[0], Inner(p.rule))
         && Flags(irl, false, true, 0))
    && (p.SequenceTrail? ==>
         && s.separator.Some?
         && Means(nsys, irl.lhs, Whole(s.lhs)) && |irl.rhs| == 2 && Means(nsys, irl.rhs[0], Inner(p.rule))
         && Means(nsys, irl.rhs[1], Whole(s.separator.value)) && Flags(irl, false, true, 1))
    && (p.SequenceFirst? ==>
         && Means(nsys, irl.lhs, Inner(p.rule)) && |irl.rhs| == 1 && Means(nsys, irl.rhs[0], Whole(s.item))
         && Flags(irl, true, false, 1))
    && (p.SequenceMore? ==>
         && var n := if s.separator.Some? then 2 else 1;
         && Means(nsys, irl.lhs, Inner(p.rule)) && |irl.rhs| == n + 1 && Means(nsys, irl.rhs[0], Inner(p.rule))
         && Means(nsys, irl.rhs[n], Whole(s.item)) && Flags(irl, true, true, n)
         && (s.separator.Some? ==> Means(nsys, irl.rhs[1], Whole(s.separator.value))))
  }

  ghost predicate StartRule(x: External, nsys: seq<Nsy>, irl: Rule) {
    && Means(nsys, irl.lhs, StartSymbol) && |irl.rhs| == 1 && Means(nsys, irl.rhs[0], Whole(x.start))
    && Flags(irl, true, false, 1)
  }

  ghost predicate IrlOk(x: External, c: Census, nsys: seq<Nsy>, irl: Rule, p: Plan) {
    match p
    case Piece(r, start, nulls, more) => PieceRule(x, c, nsys, irl, p) && irl.source == r
    case StartPlan => StartRule(x, nsys, irl)
    case _ => SequenceRule(x, nsys, irl, p) && irl.source == p.rule
  }

  /** The plan is for a used rule, and a piece is never all empty. */
  ghost predicate PlanOk(x: External, c: Census, p: Plan) {
    match p
    case StartPlan => true
    case Piece(r, _, _, _) => r in c.used && r < |x.xrls| && x.xrls[r].Bnf? && PieceOk(c, p, Rhs(x, r))
    case SequenceTrail(r) => r in c.used && r < |x.xrls| && x.xrls[r].Sequence? && !x.xrls[r].proper && x.xrls[r].separator.Some?
    case _ => p.rule in c.used && p.rule < |x.xrls| && x.xrls[p.rule].Sequence?
  }

  ghost predicate RulesAre(x: External, c: Census, nsys: seq<Nsy>, irls: seq<Rule>, plans: seq<Plan>) {
    && |irls| == |plans|
    && forall k: nat :: k < |plans| ==> IrlOk(x, c, nsys, irls[k], plans[k]) && PlanOk(x, c, plans[k])
  }

  /** Only external symbols that can matter have internal ones, and empty ones only if they can be empty. */
  ghost predicate Warranted(c: Census, m: Nsy) {
    && (m.Whole? ==> m.xsy in c.known && m.xsy !in c.nulling)
    && (m.Null? ==> m.xsy in c.known && m.xsy in c.nullable)
  }

  /** Every external symbol that can matter has its internal symbols. */
  ghost predicate SymbolsAre(c: Census, nsys: seq<Nsy>, nsyOf: map<nat, nat>, nullOf: map<nat, nat>, count: nat) {
    && (forall n: nat :: n < |nsys| ==> Warranted(c, nsys[n]))
    && (forall s: nat :: s in c.known && s < count ==>
         && s in nsyOf && Means(nsys, nsyOf[s], SymbolMeaning(c, s, false))
         && (s in c.nullable ==> s in nullOf && Means(nsys, nullOf[s], Null(s))))
  }

  /** What precomputation has made sure of before the rewrite: used rules have known symbols
      and are not always empty, and what a sequence repeats is never empty. */
  ghost predicate RuleReady(x: External, c: Census, r: nat) {
    && r < |x.xrls|
    && var rule := x.xrls[r];
    && rule.lhs in c.known && rule.lhs !in c.nulling
    && (rule.Bnf? ==> (forall k :: 0 <= k < |rule.rhs| ==> rule.rhs[k] in c.known) && exists k :: 0 <= k < |rule.rhs| && rule.rhs[k] !in c.nulling)
    && (rule.Sequence? ==>
         && rule.item in c.known && rule.item !in c.nullable
         && (rule.separator.Some? ==> rule.separator.value in c.known && rule.separator.value !in c.nullable))
  }

  ghost predicate Ready(x: External, c: Census) {
    && NullsOk(c)
    && (forall s :: s in c.known ==> s < x.xsyCount)
    && (forall r :: r in c.used ==> RuleReady(x, c, r))
    && x.start in c.known && x.start !in c.nulling
  }

  // ---- Which choices have been provided for ----

  /** Rule `r` is done: its own left-hand side and every rest that a piece refers to. */
  ghost predicate RuleDone(x: External, c: Census, plans: seq<Plan>, r: nat) {
    && r < |x.xrls|
    && if x.xrls[r].Bnf? then
         && Covers(c, plans, r, Rhs(x, r), 0)
         && forall k: nat :: k < |plans| && IsMore(plans[k], r) ==> Covers(c, plans, r, Rhs(x, r), EndOf(plans[k]))
       else
         && SequenceTop(r) in plans && SequenceFirst(r) in plans && SequenceMore(r) in plans
         && (!x.xrls[r].proper && x.xrls[r].separator.Some? ==> SequenceTrail(r) in plans)
  }

  predicate IsMore(p: Plan, r: nat) {
    p.Piece? && p.rule == r && p.more
  }

  function EndOf(p: Plan): nat {
    if p.Piece? then p.start + |p.nulls| else 0
  }

  /** Only rules before `r`, and `r` itself up to `offset`, have symbols of their own so far. */
  ghost predicate Below(nsys: seq<Nsy>, r: nat, offset: nat) {
    forall n: nat :: n < |nsys| ==>
      && nsys[n] != StartSymbol
      && (nsys[n].Inner? ==> nsys[n].rule < r)
      && (nsys[n].Rest? ==> nsys[n].rule < r || (nsys[n].rule == r && nsys[n].offset <= offset))
  }

  /** No internal rule has been made twice. */
  ghost predicate Unrepeated(plans: seq<Plan>) {
    forall a, b :: 0 <= a < b < |plans| ==> plans[a] != plans[b]
  }

  /** No rule from `r` on has been rewritten. */
  ghost predicate NotYet(plans: seq<Plan>, r: nat) {
    Unrepeated(plans) && forall k: nat :: k < |plans| ==> plans[k] != StartPlan && plans[k].rule < r
  }

  ghost predicate DoneBefore(x: External, c: Census, plans: seq<Plan>, r: nat) {
    forall r' :: r' in c.used && r' < r ==> RuleDone(x, c, plans, r')
  }

  /** Every used rule is provided for, no internal rule is there twice, and the start rule comes last. */
  ghost predicate Rewritten(x: External, c: Census, nsys: seq<Nsy>, plans: seq<Plan>) {
    && DoneBefore(x, c, plans, |x.xrls|)
    && plans != [] && nsys != []
    && plans[|plans| - 1] == StartPlan && nsys[|nsys| - 1] == StartSymbol
    && NotYet(plans[..|plans| - 1], |x.xrls|) && Below(nsys[..|nsys| - 1], |x.xrls|, 0)
  }

  /** Pieces of rule `r` before `start` are all there; those that refer on refer to `start`. */
  ghost predicate SoFar(c: Census, plans: seq<Plan>, r: nat, syms: seq<nat>, start: nat) {
    && (start > 0 ==> Covers(c, plans, r, syms, 0))
    && (forall k: nat :: k < |plans| && IsMore(plans[k], r) ==> EndOf(plans[k]) == start || Covers(c, plans, r, syms, EndOf(plans[k])))
    && (forall k: nat :: k < |plans| && plans[k].Piece? && plans[k].rule == r ==> plans[k].start < start)
  }

  // ---- Adding symbols and rules ----

  lemma {:induction false} MeansGrows(nsys: seq<Nsy>, m: Nsy)
    ensures forall n: nat, m': Nsy :: Means(nsys, n, m') ==> Means(nsys + [m], n, m')
    ensures Means(nsys + [m], |nsys|, m)
  {
  }

  lemma {:induction false} IrlGrows(x: External, c: Census, nsys: seq<Nsy>, m: Nsy, irl: Rule, p: Plan)
    requires IrlOk(x, c, nsys, irl, p)
    ensures IrlOk(x, c, nsys + [m], irl, p)
  {
    MeansGrows(nsys, m);
    hide Means;
  }

  lemma {:induction false} RulesGrow(x: External, c: Census, nsys: seq<Nsy>, m: Nsy, irls: seq<Rule>, plans: seq<Plan>)
    requires RulesAre(x, c, nsys, irls, plans)
    ensures RulesAre(x, c, nsys + [m], irls, plans)
  {
    hide IrlOk, PlanOk;
    forall k: nat | k < |plans|
      ensures IrlOk(x, c, nsys + [m], irls[k], plans[k])
    {
      IrlGrows(x, c, nsys, m, irls[k], plans[k]);
    }
  }

  lemma {:induction false} SymbolsGrow(c: Census, nsys: seq<Nsy>, nsyOf: map<nat, nat>, nullOf: map<nat, nat>, count: nat, m: Nsy)
    requires SymbolsAre(c, nsys, nsyOf, nullOf, count) && Warranted(c, m)
    ensures SymbolsAre(c, nsys + [m], nsyOf, nullOf, count)
  {
    MeansGrows(nsys, m);
    hide Means, Warranted;
  }

  lemma {:induction false} DistinctGrows(nsys: seq<Nsy>, m: Nsy)
    requires Distinct(nsys) && m !in nsys
    ensures Distinct(nsys + [m])
  {
  }

  lemma {:induction false} RulesAdd(x: External, c: Census, nsys: seq<Nsy>, irls: seq<Rule>, plans: seq<Plan>, irl: Rule, p: Plan)
    requires RulesAre(x, c, nsys, irls, plans) && IrlOk(x, c, nsys, irl, p) && PlanOk(x, c, p)
    ensures RulesAre(x, c, nsys, irls + [irl], plans + [p])
  {
    hide IrlOk, PlanOk;
  }

  // ---- The groups of one rule, one after another ----

  /** Plans for other rules do not matter to rule `r`. */
  lemma {:induction false} RuleDoneGrows(x: External, c: Census, plans: seq<Plan>, group: seq<Plan>, r: nat, r': nat)
    requires RuleDone(x, c, plans, r) && r != r'
    requires forall k :: 0 <= k < |group| ==> group[k] != StartPlan ==> group[k].rule == r'
    ensures RuleDone(x, c, plans + group, r)
  {
    var all := plans + group;
    assert forall k: nat :: |plans| <= k < |all| ==> all[k] == group[k - |plans|];
    assert forall k: nat :: k < |plans| ==> all[k] == plans[k];
    if x.xrls[r].Bnf? {
      forall start: nat | Covers(c, plans, r, Rhs(x, r), start)
        ensures Covers(c, all, r, Rhs(x, r), start)
      {
        CoversAfter(c, plans, group, r, Rhs(x, r), start);
      }
      hide Covers;
    } else {
      assert forall p :: p in plans ==> p in all;
    }
  }

  /** A group for `start` is complete; what it refers to is `next`. */
  lemma {:induction false} GroupDone(c: Census, plans: seq<Plan>, group: seq<Plan>, r: nat, syms: seq<nat>, start: nat, next: nat)
    requires SoFar(c, plans, r, syms, start) && start < next && start <= |syms|
    requires forall k: nat :: k < |group| ==> group[k].Piece? && group[k].rule == r && group[k].start == start
    requires forall k: nat :: k < |group| && group[k].more ==> EndOf(group[k]) == next
    requires forall nulls :: ValidNulls(c, syms[start..], nulls) && !AllNull(nulls) ==> ExactlyOne(group, r, start, nulls)
    ensures SoFar(c, plans + group, r, syms, next)
  {
    var all := plans + group;
    assert forall k: nat :: |plans| <= k < |all| ==> all[k] == group[k - |plans|];
    assert forall k: nat :: k < |plans| ==> all[k] == plans[k];
    forall nulls | ValidNulls(c, syms[start..], nulls) && !AllNull(nulls)
      ensures ExactlyOne(all, r, start, nulls)
    {
      ExactlyOneBefore(plans, group, r, start, nulls);
    }
    assert Covers(c, all, r, syms, start);
    forall s: nat | s != start && Covers(c, plans, r, syms, s)
      ensures Covers(c, all, r, syms, s)
    {
      CoversAfter(c, plans, group, r, syms, s);
    }
    hide Covers;
  }
}
