/** The sizes of event groups as precomputation counts them, and why they are large enough for
    every chain of right recursions. */
module LeoEvents {
  import opened Grammars
  import opened BitVectors
  import opened Closures
  import opened Tables

  // ---- The closure over right recursive rules ----

  /** A right-recursive rule leads from its left-hand side to its last symbol. */
  ghost predicate RecursiveUpto(g: Grammar, r: nat, s: nat, t: nat) {
    exists q: nat :: q < r && IsRecursive(g, q, s, t)
  }

  ghost predicate IsRecursive(g: Grammar, q: nat, s: nat, t: nat) {
    q < |g.leo| && g.leo[q] && IsRight(g, q, s, t)
  }

  ghost predicate RecursiveSteps(g: Grammar, r: nat, e: Relation) {
    forall s: nat, t: nat :: (s, t) in e <==> RecursiveUpto(g, r, s, t)
  }

  /** The Leo flags are those of the right-recursive rules. */
  ghost predicate LeoFlags(g: Grammar, full: Relation) {
    && RightSteps(g, full) && |g.leo| == |g.irls|
    && forall r: nat :: r < |g.irls| ==> (g.leo[r] <==> RightRecursive(g, full, r))
  }

  lemma {:induction false} RecursiveGrows(g: Grammar, r: nat, pairs: Relation)
    requires r < |g.irls| && |g.leo| == |g.irls| && RecursiveSteps(g, r, pairs)
    ensures RecursiveSteps(g, r + 1, if g.leo[r] then pairs + {(g.irls[r].lhs, LastOf(g, r))} else pairs)
  {
    hide LastOf;
    forall s: nat, t: nat
      ensures RecursiveUpto(g, r + 1, s, t) <==> RecursiveUpto(g, r, s, t) || (g.leo[r] && s == g.irls[r].lhs && t == LastOf(g, r))
    {
      if RecursiveUpto(g, r, s, t) {
        var q: nat :| q < r && IsRecursive(g, q, s, t);
        assert q < r + 1;
      }
      assert IsRecursive(g, r, s, t) ==> RecursiveUpto(g, r + 1, s, t);
    }
  }

  lemma {:induction false} NoneRecursive(g: Grammar)
    ensures RecursiveSteps(g, 0, {})
  {
  }

  /** The matrix of right-recursive rules, closed. */
  method RecursiveMatrix(g: Grammar) returns (matrix: Matrix, ghost e: Relation)
    requires RulesOk(g) && IrlsExist(g) && |g.leo| == |g.irls|
    ensures matrix.Valid() && matrix.size == matrix.columns == g.nsyCount && fresh(matrix.Footprint())
    ensures RecursiveSteps(g, |g.irls|, e)
    ensures forall i: nat, j: nat :: (i, j) in matrix.Pairs() <==> i < g.nsyCount && j < g.nsyCount && Reaches(e, i, j)
  {
    hide P, Proper, LastOf, RecursiveSteps, RulesOk, IrlsExist, Reaches;
    matrix := new Matrix(g.nsyCount, g.nsyCount);
    NoneRecursive(g);
    for r := 0 to |g.irls|
      invariant matrix.Tidy() && RecursiveSteps(g, r, matrix.Pairs())
    {
      RightNext(g, r);
      RecursiveGrows(g, r, matrix.Pairs());
      if g.leo[r] {
        var last := LastProper(g.nulling, g.irls[r].rhs);
        matrix.Set(g.irls[r].lhs, last);
      }
    }
    e := matrix.Pairs();
    matrix.TransitiveClosure();
  }

  /** Around a cycle of rules every rule is right recursive, so leaving the others out keeps it:
      the left-hand side of a Leo rule still reaches itself. */
  lemma {:induction false} LeoReachesItself(g: Grammar, full: Relation, e: Relation, r: nat)
    requires LeoFlags(g, full) && RecursiveSteps(g, |g.irls|, e) && r < |g.irls| && g.leo[r]
    ensures Reaches(e, g.irls[r].lhs, g.irls[r].lhs)
  {
    hide LastOf, RightRecursive;
    var s, t := g.irls[r].lhs, LastOf(g, r);
    assert RightRecursive(g, full, r);
    var back := CyclePath(g, full, r);
    var cycle := [s] + back;
    forall k | 0 <= k < |cycle| - 1
      ensures (cycle[k], cycle[k + 1]) in full
    {
      if k == 0 {
        RuleStep(g, full, r);
      } else {
        assert (back[k - 1], back[k]) in full;
      }
    }
    forall k | 0 <= k < |cycle| - 1
      ensures (cycle[k], cycle[k + 1]) in e
    {
      OnCycle(g, full, e, cycle, k);
    }
    assert IsPath(e, cycle, s, s);
  }

  lemma {:induction false} RuleStep(g: Grammar, full: Relation, r: nat)
    requires RightSteps(g, full) && r < |g.irls|
    ensures (g.irls[r].lhs, LastOf(g, r)) in full
  {
    assert IsRight(g, r, g.irls[r].lhs, LastOf(g, r));
  }

  lemma {:induction false} CyclePath(g: Grammar, full: Relation, r: nat) returns (path: seq<nat>)
    requires RightRecursive(g, full, r)
    ensures IsPath(full, path, LastOf(g, r), g.irls[r].lhs)
  {
    path :| IsPath(full, path, LastOf(g, r), g.irls[r].lhs);
  }

  ghost predicate IsCycle(e: Relation, cycle: seq<nat>) {
    && |cycle| >= 2 && cycle[0] == cycle[|cycle| - 1]
    && forall k :: 0 <= k < |cycle| - 1 ==> (cycle[k], cycle[k + 1]) in e
  }

  /** A step of a cycle is made by a right-recursive rule. */
  lemma {:induction false} OnCycle(g: Grammar, full: Relation, e: Relation, cycle: seq<nat>, k: nat)
    requires LeoFlags(g, full) && RecursiveSteps(g, |g.irls|, e)
    requires IsCycle(full, cycle) && k < |cycle| - 1
    ensures (cycle[k], cycle[k + 1]) in e
  {
    hide LastOf;
    var s, t := cycle[k], cycle[k + 1];
    assert (s, t) in full;
    var q: nat :| q < |g.irls| && IsRight(g, q, s, t);
    RoundTheCycle(full, cycle, k);
    assert RightRecursive(g, full, q);
    assert IsRecursive(g, q, s, t);
  }

  lemma {:induction false} RoundTheCycle(e: Relation, cycle: seq<nat>, k: nat)
    requires IsCycle(e, cycle) && k < |cycle| - 1
    ensures Reaches(e, cycle[k + 1], cycle[k])
  {
    var tail, head := cycle[k + 1..], cycle[..k + 1];
    var path := tail + head[1..];
    forall m | 0 <= m < |path| - 1
      ensures (path[m], path[m + 1]) in e
    {
      if m < |tail| - 1 {
        assert (cycle[k + 1 + m], cycle[k + 2 + m]) in e;
      } else {
        var n := m - |tail| + 1;
        assert path[m] == (if n == 0 then tail[|tail| - 1] else head[n]) && path[m + 1] == head[n + 1];
        assert (cycle[n], cycle[n + 1]) in e;
      }
    }
    if |path| >= 2 {
      assert IsPath(e, path, cycle[k + 1], cycle[k]);
    } else {
      assert k == 0 && |cycle| == 2 && (cycle[0], cycle[1]) in e;
      assert IsPath(e, [cycle[0], cycle[1]], cycle[1], cycle[0]);
    }
  }

  // ---- Event groups ----

  /** The Leo completions with events below a dotted rule along right recursion. */
  ghost function Group(g: Grammar, e: Relation, events: set<nat>, a: nat): set<nat> {
    set b: nat | b < |g.ahms| && InGroup(g, e, events, a, b)
  }

  ghost predicate InGroup(g: Grammar, e: Relation, events: set<nat>, a: nat, b: nat) {
    b in events && LeoCompletion(g, b) && Reaches(e, Lhs(g, a), Lhs(g, b))
  }

  ghost function GroupUpto(g: Grammar, e: Relation, events: set<nat>, a: nat, n: nat): set<nat> {
    set b: nat | b < n && InGroup(g, e, events, a, b)
  }

  lemma {:induction false} GroupNext(g: Grammar, e: Relation, events: set<nat>, a: nat, n: nat)
    ensures |GroupUpto(g, e, events, a, 0)| == 0
    ensures |GroupUpto(g, e, events, a, n + 1)| == |GroupUpto(g, e, events, a, n)| + if InGroup(g, e, events, a, n) then 1 else 0
    ensures GroupUpto(g, e, events, a, |g.ahms|) == Group(g, e, events, a)
  {
    hide InGroup;
    assert GroupUpto(g, e, events, a, 0) == {};
    if InGroup(g, e, events, a, n) {
      assert GroupUpto(g, e, events, a, n + 1) == GroupUpto(g, e, events, a, n) + {n};
    } else {
      assert GroupUpto(g, e, events, a, n + 1) == GroupUpto(g, e, events, a, n);
    }
  }

  /** The size of a dotted rule's event group. */
  ghost function GroupSize(g: Grammar, e: Relation, events: set<nat>, a: nat): nat {
    if LeoCompletion(g, a) then |Group(g, e, events, a)| else if a in events then 1 else 0
  }

  lemma {:induction false} LhsExists(g: Grammar, a: nat)
    requires RulesOk(g) && AhmsOk(g) && IrlsExist(g) && a < |g.ahms|
    ensures Lhs(g, a) < g.nsyCount
  {
    AhmCase(g, a);
  }

  method GroupSizes(g: Grammar, matrix: Matrix, ghost e: Relation, events: set<nat>) returns (sizes: seq<nat>)
    requires RulesOk(g) && AhmsOk(g) && IrlsExist(g)
    requires matrix.Valid() && matrix.size == matrix.columns == g.nsyCount
    requires forall i: nat, j: nat :: (i, j) in matrix.Pairs() <==> i < g.nsyCount && j < g.nsyCount && Reaches(e, i, j)
    ensures |sizes| == |g.ahms| && forall a: nat :: a < |g.ahms| ==> sizes[a] == GroupSize(g, e, events, a)
  {
    hide Reaches, RulesOk, AhmsOk, IrlsExist, GroupUpto, Group, Lhs;
    sizes := [];
    for outer := 0 to |g.ahms|
      invariant |sizes| == outer && forall a: nat :: a < outer ==> sizes[a] == GroupSize(g, e, events, a)
    {
      var size := 0;
      if !LeoCompletion(g, outer) {
        if outer in events {
          size := 1;
        }
      } else {
        LhsExists(g, outer);
        GroupNext(g, e, events, outer, 0);
        matrix.RowPairs(Lhs(g, outer));
        for inner := 0 to |g.ahms|
          invariant size == |GroupUpto(g, e, events, outer, inner)|
        {
          GroupNext(g, e, events, outer, inner);
          LhsExists(g, inner);
          if inner in events && LeoCompletion(g, inner) {
            var under := matrix.rows[Lhs(g, outer)].Test(Lhs(g, inner));
            if under {
              size := size + 1;
            }
          }
        }
        GroupNext(g, e, events, outer, |g.ahms|);
      }
      sizes := sizes + [size];
    }
  }

  // ---- Chains stay in their groups ----

  lemma {:induction false} ChainReaches(g: Grammar, full: Relation, e: Relation, chain: seq<nat>, k: nat)
    requires LeoFlags(g, full) && RecursiveSteps(g, |g.irls|, e) && AhmsOk(g) && RulesOk(g)
    requires RightChain(g, chain) && k < |chain|
    ensures Reaches(e, Lhs(g, chain[|chain| - 1]), Lhs(g, chain[k]))
    decreases |chain| - k
  {
    hide LeoFlags, RecursiveSteps, P, LastOf, RulesOk, AhmsOk;
    assert LeoCompletion(g, chain[k]);
    AhmCase(g, chain[k]);
    if k == |chain| - 1 {
      LeoReachesItself(g, full, e, g.ahms[chain[k]].irl);
    } else {
      ChainReaches(g, full, e, chain, k + 1);
      assert Under(g, chain[k + 1], chain[k]) && LeoCompletion(g, chain[k + 1]);
      AhmCase(g, chain[k + 1]);
      ReachesStep(g, e, Lhs(g, chain[|chain| - 1]), g.ahms[chain[k + 1]].irl);
    }
  }

  lemma {:induction false} ReachesStep(g: Grammar, e: Relation, s: nat, r: nat)
    requires RecursiveSteps(g, |g.irls|, e) && r < |g.irls| && r < |g.leo| && g.leo[r]
    requires Reaches(e, s, g.irls[r].lhs)
    ensures Reaches(e, s, LastOf(g, r))
  {
    hide LastOf;
    assert IsRecursive(g, r, g.irls[r].lhs, LastOf(g, r));
    assert (g.irls[r].lhs, LastOf(g, r)) in e;
    var path :| IsPath(e, path, s, g.irls[r].lhs);
    PathJoin(e, path, [g.irls[r].lhs, LastOf(g, r)], s, g.irls[r].lhs, LastOf(g, r));
  }

  /** The events of a chain are in the group of its top. */
  lemma {:induction false} ChainInGroup(g: Grammar, full: Relation, e: Relation, events: set<nat>, chain: seq<nat>)
    requires LeoFlags(g, full) && RecursiveSteps(g, |g.irls|, e) && AhmsOk(g) && RulesOk(g) && RightChain(g, chain)
    ensures EventsOf(events, chain) <= Group(g, e, events, chain[|chain| - 1])
  {
    hide LeoFlags, RecursiveSteps, AhmsOk, RulesOk;
    forall a | a in EventsOf(events, chain)
      ensures a in Group(g, e, events, chain[|chain| - 1])
    {
      var k: nat :| k < |chain| && chain[k] == a;
      ChainReaches(g, full, e, chain, k);
    }
  }

  ghost function AllGroups(g: Grammar, e: Relation): seq<set<nat>> {
    seq(|g.ahms|, a requires 0 <= a < |g.ahms| => Group(g, e, g.events, a))
  }

  /** With the sizes that are counted, the cut-off is safe. */
  lemma {:induction false} CountedGroups(g: Grammar, full: Relation, e: Relation)
    requires LeoFlags(g, full) && RecursiveSteps(g, |g.irls|, e) && AhmsOk(g) && RulesOk(g)
    requires |g.eventSizes| == |g.ahms| && forall a: nat :: a < |g.ahms| ==> g.eventSizes[a] == GroupSize(g, e, g.events, a)
    ensures EventsOk(g)
  {
    hide LeoFlags, RecursiveSteps, AhmsOk, RulesOk, RightChain, Group, EventsOf;
    var group := AllGroups(g, e);
    forall chain | RightChain(g, chain)
      ensures chain != [] && chain[|chain| - 1] < |group| && EventsOf(g.events, chain) <= group[chain[|chain| - 1]]
    {
      TopExists(g, chain);
      ChainInGroup(g, full, e, g.events, chain);
    }
    assert Groups(g, group);
  }

  lemma {:induction false} TopExists(g: Grammar, chain: seq<nat>)
    requires RightChain(g, chain)
    ensures chain != [] && chain[|chain| - 1] < |g.ahms|
  {
    assert LeoCompletion(g, chain[|chain| - 1]);
  }
}
