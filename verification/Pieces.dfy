/** How a rule with symbols that may be empty is cut into pieces, and why every choice of
    empty symbols is covered by exactly one piece. */
module Pieces {
  import opened Options
  import opened Externals

  /** What is known of the symbols before the rewrite. */
  datatype Census = Census(nullable: set<nat>, nulling: set<nat>, known: set<nat>, used: set<nat>)

  /** Symbols that must be empty may be empty. */
  ghost predicate NullsOk(c: Census) {
    c.nulling <= c.nullable
  }

  /** What an internal rule was made for.  A piece covers the symbols of `rule` from `start`
      on, some of them empty; if there is `more`, a virtual symbol stands for the rest. */
  datatype Plan =
    | Piece(rule: nat, start: nat, nulls: seq<bool>, more: bool)
    | SequenceTop(rule: nat)
    | SequenceTrail(rule: nat)
    | SequenceFirst(rule: nat)
    | SequenceMore(rule: nat)
    | StartPlan

  /** A choice of which symbols are empty. */
  ghost predicate ValidNulls(c: Census, syms: seq<nat>, nulls: seq<bool>) {
    && |nulls| == |syms|
    && (forall k :: 0 <= k < |syms| ==> (syms[k] in c.nulling ==> nulls[k]) && (nulls[k] ==> syms[k] in c.nullable))
  }

  ghost predicate AllNull(nulls: seq<bool>) {
    forall k :: 0 <= k < |nulls| ==> nulls[k]
  }

  /** The piece makes this choice for its own symbols; a virtual symbol is never empty. */
  ghost predicate Matches(p: Plan, r: nat, start: nat, nulls: seq<bool>) {
    && p.Piece? && p.rule == r && p.start == start
    && |p.nulls| <= |nulls| && nulls[..|p.nulls|] == p.nulls
    && (if p.more then !AllNull(nulls[|p.nulls|..]) else |p.nulls| == |nulls|)
  }

  ghost predicate ExactlyOne(plans: seq<Plan>, r: nat, start: nat, nulls: seq<bool>) {
    && (exists k :: 0 <= k < |plans| && Matches(plans[k], r, start, nulls))
    && (forall k, m :: 0 <= k < |plans| && 0 <= m < |plans| && Matches(plans[k], r, start, nulls) && Matches(plans[m], r, start, nulls) ==> k == m)
  }

  /** Every choice of empty symbols from `start` on, except all of them, has exactly one piece. */
  ghost predicate Covers(c: Census, plans: seq<Plan>, r: nat, syms: seq<nat>, start: nat) {
    && start <= |syms|
    && forall nulls :: ValidNulls(c, syms[start..], nulls) && !AllNull(nulls) ==> ExactlyOne(plans, r, start, nulls)
  }

  /** A piece that may be used: its symbols can be empty as it says, and it is never all empty. */
  ghost predicate PieceOk(c: Census, p: Plan, syms: seq<nat>) {
    && p.Piece? && p.start + |p.nulls| <= |syms|
    && (p.more <==> p.start + |p.nulls| < |syms|)
    && ValidNulls(c, syms[p.start..p.start + |p.nulls|], p.nulls)
    && (if p.more then p.nulls != [] else !AllNull(p.nulls))
  }

  // ---- Positions ----

  /** The symbol at a factor position may or may not be empty. */
  predicate IsFactor(c: Census, syms: seq<nat>, q: nat) {
    q < |syms| && syms[q] in c.nullable && syms[q] !in c.nulling
  }

  /** Positions `f` to `g` hold no factor. */
  ghost predicate NoFactor(c: Census, syms: seq<nat>, f: nat, g: nat) {
    forall q: nat :: f <= q < g ==> !IsFactor(c, syms, q)
  }

  /** All symbols from `suffix` on may be empty; the one before it may not. */
  ghost predicate SuffixOk(c: Census, syms: seq<nat>, suffix: nat) {
    && suffix <= |syms|
    && (forall q :: suffix <= q < |syms| ==> syms[q] in c.nullable)
    && (suffix > 0 ==> syms[suffix - 1] !in c.nullable)
  }

  /** The empty symbols of a piece: those that must be, up to two factors, and all from `from` on. */
  function Nulls(c: Census, syms: seq<nat>, start: nat, end: nat, null1: int, null2: int, from: nat): (r: seq<bool>)
    requires start <= end <= |syms|
    ensures |r| == end - start
    ensures forall k :: 0 <= k < |r| ==> r[k] == NullAt(c, syms, start + k, null1, null2, from)
  {
    seq(end - start, k requires 0 <= k < end - start => NullAt(c, syms, start + k, null1, null2, from))
  }

  predicate NullAt(c: Census, syms: seq<nat>, q: nat, null1: int, null2: int, from: nat)
    requires q < |syms|
  {
    syms[q] in c.nulling || q == null1 || q == null2 || q >= from
  }

  // ---- Every choice is covered once ----

  /** Outside the factors, a valid choice has no freedom. */
  lemma {:induction false} Forced(c: Census, syms: seq<nat>, start: nat, nulls: seq<bool>, q: nat)
    requires start <= q < |syms| && ValidNulls(c, syms[start..], nulls) && !IsFactor(c, syms, q) && NullsOk(c)
    ensures nulls[q - start] == (syms[q] in c.nulling)
  {
    assert syms[start..][q - start] == syms[q];
  }

  /** Between two factors a choice is made by what it says of those. */
  lemma {:induction false} PrefixIs(c: Census, syms: seq<nat>, start: nat, end: nat, f1: nat, f2: nat, null1: int, null2: int, nulls: seq<bool>)
    requires NullsOk(c) && start <= end <= |syms| && ValidNulls(c, syms[start..], nulls)
    requires forall q: nat :: start <= q < end && IsFactor(c, syms, q) ==> q == f1 || q == f2
    requires (null1 == f1 || null1 == -1) && (null2 == f2 || null2 == -1)
    requires start <= f1 < end ==> IsFactor(c, syms, f1) && (nulls[f1 - start] <==> null1 == f1)
    requires start <= f2 < end ==> IsFactor(c, syms, f2) && (nulls[f2 - start] <==> null2 == f2)
    requires f1 != f2
    ensures nulls[..end - start] == Nulls(c, syms, start, end, null1, null2, |syms|)
  {
    var ns := Nulls(c, syms, start, end, null1, null2, |syms|);
    forall k | 0 <= k < end - start
      ensures nulls[k] == ns[k]
    {
      if !IsFactor(c, syms, start + k) {
        Forced(c, syms, start, nulls, start + k);
      }
    }
  }

  /** `f1`, and `f2` if it is before `end`, are the factors from `start` to `end`. */
  ghost predicate FactorsAre(c: Census, syms: seq<nat>, start: nat, end: nat, f1: nat, f2: nat) {
    && start <= f1 < end <= |syms| && f1 < f2 && IsFactor(c, syms, f1) && (f2 < end ==> IsFactor(c, syms, f2))
    && forall q: nat :: start <= q < end && IsFactor(c, syms, q) ==> q == f1 || q == f2
  }

  /** When a piece with at most two factors matches. */
  lemma {:induction false} MatchBits(c: Census, syms: seq<nat>, r: nat, start: nat, end: nat, f1: nat, f2: nat, null1: int, null2: int, more: bool, nulls: seq<bool>)
    requires NullsOk(c) && FactorsAre(c, syms, start, end, f1, f2) && ValidNulls(c, syms[start..], nulls)
    requires (null1 == f1 || null1 == -1) && (null2 == f2 || null2 == -1)
    ensures Matches(Piece(r, start, Nulls(c, syms, start, end, null1, null2, |syms|), more), r, start, nulls)
            <==> (nulls[f1 - start] <==> null1 == f1) && (f2 < end ==> (nulls[f2 - start] <==> null2 == f2))
                 && (if more then !AllNull(nulls[end - start..]) else end == |syms|)
  {
    var ns := Nulls(c, syms, start, end, null1, null2, |syms|);
    assert ns[f1 - start] <==> null1 == f1;
    assert f2 < end ==> (ns[f2 - start] <==> null2 == f2);
    if nulls[..end - start] == ns {
      assert nulls[f1 - start] == nulls[..end - start][f1 - start];
      assert f2 < end ==> nulls[f2 - start] == nulls[..end - start][f2 - start];
    }
    if (nulls[f1 - start] <==> null1 == f1) && (f2 < end ==> (nulls[f2 - start] <==> null2 == f2)) {
      PrefixIs(c, syms, start, end, f1, f2, null1, null2, nulls);
    }
  }

  /** When a piece whose symbols from `end` on are all empty matches. */
  lemma {:induction false} MatchEmptyRest(c: Census, syms: seq<nat>, r: nat, start: nat, end: nat, f1: nat, f2: nat, null1: int, nulls: seq<bool>)
    requires NullsOk(c) && FactorsAre(c, syms, start, end, f1, f2) && end <= f2 && ValidNulls(c, syms[start..], nulls)
    requires null1 == f1 || null1 == -1
    ensures Matches(Piece(r, start, Nulls(c, syms, start, |syms|, null1, -1, end), false), r, start, nulls)
            <==> (nulls[f1 - start] <==> null1 == f1) && AllNull(nulls[end - start..])
  {
    var ns := Nulls(c, syms, start, |syms|, null1, -1, end);
    assert ns[f1 - start] <==> null1 == f1;
    if nulls[..|ns|] == ns {
      assert nulls == ns;
      var rest := nulls[end - start..];
      assert forall k :: 0 <= k < |rest| ==> rest[k] == ns[end - start + k];
    }
    if (nulls[f1 - start] <==> null1 == f1) && AllNull(nulls[end - start..]) {
      PrefixIs(c, syms, start, end, f1, f2, null1, -1, nulls);
      forall k | 0 <= k < |ns|
        ensures nulls[k] == ns[k]
      {
        if k < end - start {
          assert nulls[k] == nulls[..end - start][k];
        } else {
          assert nulls[k] == nulls[end - start..][k - (end - start)];
        }
      }
      assert nulls == ns;
    }
  }

  // ---- The groups of pieces that share a start ----

  /** Two factors, `f1` and `f2`, in one piece. */
  function PairPlans(c: Census, syms: seq<nat>, r: nat, start: nat, end: nat, f1: nat, f2: nat, more: bool, both: bool): seq<Plan>
    requires start <= end <= |syms|
  {
    [Piece(r, start, Nulls(c, syms, start, end, -1, -1, |syms|), more),
     Piece(r, start, Nulls(c, syms, start, end, -1, f2, |syms|), more),
     Piece(r, start, Nulls(c, syms, start, end, f1, -1, |syms|), more)]
    + if both then [Piece(r, start, Nulls(c, syms, start, end, f1, f2, |syms|), more)] else []
  }

  /** One factor, `f1`, before `end`; from there on all empty, or left to a virtual symbol. */
  function SplitPlans(c: Census, syms: seq<nat>, r: nat, start: nat, end: nat, f1: nat, both: bool): seq<Plan>
    requires start <= end <= |syms|
  {
    [Piece(r, start, Nulls(c, syms, start, end, -1, -1, |syms|), true),
     Piece(r, start, Nulls(c, syms, start, |syms|, -1, -1, end), false),
     Piece(r, start, Nulls(c, syms, start, end, f1, -1, |syms|), true)]
    + if both then [Piece(r, start, Nulls(c, syms, start, |syms|, f1, -1, end), false)] else []
  }

  /** One factor, and nothing after this piece. */
  function LastPlans(c: Census, syms: seq<nat>, r: nat, start: nat, f1: nat, both: bool): seq<Plan>
    requires start <= |syms|
  {
    [Piece(r, start, Nulls(c, syms, start, |syms|, -1, -1, |syms|), false)]
    + if both then [Piece(r, start, Nulls(c, syms, start, |syms|, f1, -1, |syms|), false)] else []
  }

  /** Past the last symbol that may not be empty, factors decide whether all is empty. */
  lemma {:induction false} AllEmpty(c: Census, syms: seq<nat>, start: nat, suffix: nat, nulls: seq<bool>)
    requires NullsOk(c) && SuffixOk(c, syms, suffix) && suffix <= start <= |syms| && ValidNulls(c, syms[start..], nulls)
    requires forall q: nat :: start <= q < |syms| && IsFactor(c, syms, q) ==> nulls[q - start]
    ensures AllNull(nulls)
  {
    forall k | 0 <= k < |nulls|
      ensures nulls[k]
    {
      assert syms[start..][k] == syms[start + k];
      if !IsFactor(c, syms, start + k) {
        Forced(c, syms, start, nulls, start + k);
      }
    }
  }

  /** Before it, never all is empty. */
  lemma {:induction false} NotAllEmpty(c: Census, syms: seq<nat>, start: nat, suffix: nat, nulls: seq<bool>, from: nat)
    requires SuffixOk(c, syms, suffix) && start <= from < suffix && ValidNulls(c, syms[start..], nulls)
    ensures !AllNull(nulls[from - start..])
  {
    assert syms[start..][suffix - 1 - start] == syms[suffix - 1];
    assert nulls[from - start..][suffix - 1 - from] == nulls[suffix - 1 - start];
  }

  lemma {:induction false} PairExact(c: Census, syms: seq<nat>, r: nat, start: nat, end: nat, f1: nat, f2: nat, more: bool, suffix: nat, both: bool, nulls: seq<bool>)
    requires NullsOk(c) && FactorsAre(c, syms, start, end, f1, f2) && f2 < end && SuffixOk(c, syms, suffix)
    requires ValidNulls(c, syms[start..], nulls) && !AllNull(nulls)
    requires if more then end < suffix && both else end == |syms| && (both <==> start < suffix)
    ensures ExactlyOne(PairPlans(c, syms, r, start, end, f1, f2, more, both), r, start, nulls)
  {
    var g := PairPlans(c, syms, r, start, end, f1, f2, more, both);
    MatchBits(c, syms, r, start, end, f1, f2, -1, -1, more, nulls);
    MatchBits(c, syms, r, start, end, f1, f2, -1, f2, more, nulls);
    MatchBits(c, syms, r, start, end, f1, f2, f1, -1, more, nulls);
    MatchBits(c, syms, r, start, end, f1, f2, f1, f2, more, nulls);
    if more {
      NotAllEmpty(c, syms, start, suffix, nulls, end);
    }
    if !both && nulls[f1 - start] && nulls[f2 - start] {
      AllEmpty(c, syms, start, suffix, nulls);
    }
    hide ValidNulls, AllNull, Nulls, Matches, FactorsAre, SuffixOk, NullsOk;
    var k := (if nulls[f1 - start] then 2 else 0) + if nulls[f2 - start] then 1 else 0;
    assert Matches(g[k], r, start, nulls);
  }

  lemma {:induction false} SplitExact(c: Census, syms: seq<nat>, r: nat, start: nat, end: nat, f1: nat, suffix: nat, both: bool, nulls: seq<bool>)
    requires NullsOk(c) && FactorsAre(c, syms, start, end, f1, end) && SuffixOk(c, syms, suffix) && suffix <= end
    requires ValidNulls(c, syms[start..], nulls) && !AllNull(nulls) && (both <==> start < suffix)
    ensures ExactlyOne(SplitPlans(c, syms, r, start, end, f1, both), r, start, nulls)
  {
    var g := SplitPlans(c, syms, r, start, end, f1, both);
    MatchBits(c, syms, r, start, end, f1, end, -1, -1, true, nulls);
    MatchBits(c, syms, r, start, end, f1, end, f1, -1, true, nulls);
    MatchEmptyRest(c, syms, r, start, end, f1, end, -1, nulls);
    MatchEmptyRest(c, syms, r, start, end, f1, end, f1, nulls);
    var rest := AllNull(nulls[end - start..]);
    if !both && nulls[f1 - start] && rest {
      SplitAllEmpty(c, syms, start, end, f1, suffix, nulls);
    }
    hide ValidNulls, AllNull, Nulls, Matches, FactorsAre, SuffixOk, NullsOk;
    var k := (if nulls[f1 - start] then 2 else 0) + if rest then 1 else 0;
    assert Matches(g[k], r, start, nulls);
  }

  lemma {:induction false} SplitAllEmpty(c: Census, syms: seq<nat>, start: nat, end: nat, f1: nat, suffix: nat, nulls: seq<bool>)
    requires NullsOk(c) && FactorsAre(c, syms, start, end, f1, end) && SuffixOk(c, syms, suffix) && suffix <= start
    requires ValidNulls(c, syms[start..], nulls) && nulls[f1 - start] && AllNull(nulls[end - start..])
    ensures AllNull(nulls)
  {
    forall q: nat | start <= q < |syms| && IsFactor(c, syms, q)
      ensures nulls[q - start]
    {
      if q >= end {
        assert nulls[end - start..][q - end] == nulls[q - start];
      }
    }
    AllEmpty(c, syms, start, suffix, nulls);
  }

  lemma {:induction false} LastExact(c: Census, syms: seq<nat>, r: nat, start: nat, f1: nat, suffix: nat, both: bool, nulls: seq<bool>)
    requires NullsOk(c) && FactorsAre(c, syms, start, |syms|, f1, |syms|) && SuffixOk(c, syms, suffix)
    requires ValidNulls(c, syms[start..], nulls) && !AllNull(nulls) && (both <==> start < suffix)
    ensures ExactlyOne(LastPlans(c, syms, r, start, f1, both), r, start, nulls)
  {
    var g := LastPlans(c, syms, r, start, f1, both);
    MatchBits(c, syms, r, start, |syms|, f1, |syms|, -1, -1, false, nulls);
    MatchBits(c, syms, r, start, |syms|, f1, |syms|, f1, -1, false, nulls);
    if !both && nulls[f1 - start] {
      AllEmpty(c, syms, start, suffix, nulls);
    }
    hide ValidNulls, AllNull, Nulls, Matches, FactorsAre, SuffixOk, NullsOk;
    var k := if nulls[f1 - start] then 1 else 0;
    assert Matches(g[k], r, start, nulls);
  }

  /** A rule without factors is one piece. */
  lemma {:induction false} PlainExact(c: Census, syms: seq<nat>, r: nat, nulls: seq<bool>)
    requires NullsOk(c) && NoFactor(c, syms, 0, |syms|) && ValidNulls(c, syms, nulls)
    ensures ExactlyOne([Piece(r, 0, Nulls(c, syms, 0, |syms|, -1, -1, |syms|), false)], r, 0, nulls)
  {
    var ns := Nulls(c, syms, 0, |syms|, -1, -1, |syms|);
    assert syms[0..] == syms;
    forall k | 0 <= k < |syms|
      ensures nulls[k] == ns[k]
    {
      Forced(c, syms, 0, nulls, k);
    }
    assert nulls == ns;
    assert Matches([Piece(r, 0, ns, false)][0], r, 0, nulls);
  }

  // ---- Groups within the whole list ----

  ghost predicate Elsewhere(plans: seq<Plan>, r: nat, start: nat) {
    forall k :: 0 <= k < |plans| ==> !(plans[k].Piece? && plans[k].rule == r && plans[k].start == start)
  }

  lemma {:induction false} ExactlyOneBefore(plans: seq<Plan>, group: seq<Plan>, r: nat, start: nat, nulls: seq<bool>)
    requires ExactlyOne(group, r, start, nulls) && Elsewhere(plans, r, start)
    ensures ExactlyOne(plans + group, r, start, nulls)
  {
    var all := plans + group;
    var k :| 0 <= k < |group| && Matches(group[k], r, start, nulls);
    assert Matches(all[|plans| + k], r, start, nulls);
    assert forall m :: 0 <= m < |plans| ==> all[m] == plans[m];
    assert forall m :: |plans| <= m < |all| ==> all[m] == group[m - |plans|];
    forall m | 0 <= m < |all| && Matches(all[m], r, start, nulls)
      ensures m == |plans| + k
    {
    }
  }

  lemma {:induction false} ExactlyOneAfter(plans: seq<Plan>, group: seq<Plan>, r: nat, start: nat, nulls: seq<bool>)
    requires ExactlyOne(plans, r, start, nulls) && Elsewhere(group, r, start)
    ensures ExactlyOne(plans + group, r, start, nulls)
  {
    var all := plans + group;
    var k :| 0 <= k < |plans| && Matches(plans[k], r, start, nulls);
    assert Matches(all[k], r, start, nulls);
    assert forall m :: 0 <= m < |plans| ==> all[m] == plans[m];
    assert forall m :: |plans| <= m < |all| ==> all[m] == group[m - |plans|];
    forall m | 0 <= m < |all| && Matches(all[m], r, start, nulls)
      ensures m == k
    {
    }
  }

  lemma {:induction false} CoversAfter(c: Census, plans: seq<Plan>, group: seq<Plan>, r: nat, syms: seq<nat>, start: nat)
    requires Covers(c, plans, r, syms, start) && Elsewhere(group, r, start)
    ensures Covers(c, plans + group, r, syms, start)
  {
    hide ExactlyOne, Elsewhere;
    forall nulls | ValidNulls(c, syms[start..], nulls) && !AllNull(nulls)
      ensures ExactlyOne(plans + group, r, start, nulls)
    {
      ExactlyOneAfter(plans, group, r, start, nulls);
    }
  }
}
