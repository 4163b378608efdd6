/** Internal rules with what the valuator must know of where they came from. */
module InternalRules {

  /** A rule made by the rewrite of external rule `source`.  A virtual symbol stands for
      a part of an external rule; `realCount` is the number of other symbols. */
  datatype Rule = Rule(lhs: nat, rhs: seq<nat>, virtualLhs: bool, virtualRhs: bool, realCount: nat, source: nat)

  ghost function Virtuals(virtual: set<nat>, rhs: seq<nat>): nat {
    if rhs == [] then 0
    else Virtuals(virtual, rhs[..|rhs| - 1]) + if rhs[|rhs| - 1] in virtual then 1 else 0
  }

  ghost function Reals(virtual: set<nat>, rhs: seq<nat>): nat {
    if rhs == [] then 0
    else Reals(virtual, rhs[..|rhs| - 1]) + if rhs[|rhs| - 1] in virtual then 0 else 1
  }

  /** The flags and the count of a rule agree with its symbols; at most one is virtual. */
  ghost predicate CountsOk(virtual: set<nat>, r: Rule) {
    && r.rhs != []
    && (r.virtualLhs <==> r.lhs in virtual)
    && Virtuals(virtual, r.rhs) == (if r.virtualRhs then 1 else 0)
    && (r.virtualLhs || r.virtualRhs ==> r.realCount == Reals(virtual, r.rhs))
  }

  lemma {:induction false} AllReal(virtual: set<nat>, rhs: seq<nat>)
    ensures Virtuals(virtual, rhs) + Reals(virtual, rhs) == |rhs|
  {
    if rhs != [] {
      AllReal(virtual, rhs[..|rhs| - 1]);
    }
  }
}
