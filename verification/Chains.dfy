/** Every choice of empty symbols is made by exactly one chain of pieces. */
module Chains {
  import opened Options
  import opened Externals
  import opened Pieces
  import opened Encodings
  import opened Compilations
  import opened RewriteMeaning
  import opened RewriteComplete

  /** Pieces one after another that make this choice from `start` to the end of the rule. */
  ghost predicate IsChain(plans: seq<Plan>, r: nat, start: nat, nulls: seq<bool>, chain: seq<nat>)
    decreases |chain|
  {
    && chain != [] && chain[0] < |plans| && Matches(plans[chain[0]], r, start, nulls)
    && var p := plans[chain[0]];
    if p.more then IsChain(plans, r, start + |p.nulls|, nulls[|p.nulls|..], chain[1..])
    else |chain| == 1
  }

  /** The symbols that a chain covers. */
  ghost function Covered(plans: seq<Plan>, chain: seq<nat>): nat {
    if chain == [] then 0
    else (if chain[0] < |plans| && plans[chain[0]].Piece? then |plans[chain[0]].nulls| else 0) + Covered(plans, chain[1..])
  }

  /** Exactly one chain of pieces for every choice but the one in which all is empty, and it
      covers every symbol of the rule once. */
  lemma {:induction false} OneChain(k: Compiled, r: nat, start: nat, nulls: seq<bool>) returns (chain: seq<nat>)
    requires Rewrote(k) && r < |k.x.xrls| && k.x.xrls[r].Bnf? && r in k.c.used && start <= |Rhs(k.x, r)|
    requires Covers(k.c, k.plans, r, Rhs(k.x, r), start)
    requires ValidNulls(k.c, Rhs(k.x, r)[start..], nulls) && !AllNull(nulls)
    ensures IsChain(k.plans, r, start, nulls, chain) && Covered(k.plans, chain) == |Rhs(k.x, r)| - start
    ensures forall other :: IsChain(k.plans, r, start, nulls, other) ==> other == chain
    decreases |Rhs(k.x, r)| - start
  {
    hide Rewrote, ValidNulls, AllNull, IsChain, Covered, Covers, Matches;
    var irl: nat := CoveredBy(k, r, start, nulls);
    OnlyPiece(k, r, start, nulls);
    var m := |k.plans[irl].nulls|;
    if k.plans[irl].more {
      RestGoesOn(k, irl, nulls);
      var rest := OneChain(k, r, start + m, nulls[m..]);
      chain := [irl] + rest;
      ChainCons(k.plans, r, start, nulls, irl, rest);
    } else {
      LastPiece(k, irl, nulls);
      chain := [irl];
      ChainOne(k.plans, r, start, nulls, irl);
    }
    forall other | IsChain(k.plans, r, start, nulls, other)
      ensures other == chain
    {
      ChainHead(k.plans, r, start, nulls, other);
      assert other[0] == irl;
      assert other == [irl] + other[1..];
    }
  }

  lemma {:induction false} ChainCons(plans: seq<Plan>, r: nat, start: nat, nulls: seq<bool>, irl: nat, rest: seq<nat>)
    requires irl < |plans| && Matches(plans[irl], r, start, nulls) && plans[irl].more
    requires IsChain(plans, r, start + |plans[irl].nulls|, nulls[|plans[irl].nulls|..], rest)
    ensures IsChain(plans, r, start, nulls, [irl] + rest) && Covered(plans, [irl] + rest) == |plans[irl].nulls| + Covered(plans, rest)
  {
    assert ([irl] + rest)[1..] == rest;
  }

  lemma {:induction false} ChainOne(plans: seq<Plan>, r: nat, start: nat, nulls: seq<bool>, irl: nat)
    requires irl < |plans| && Matches(plans[irl], r, start, nulls) && !plans[irl].more
    ensures IsChain(plans, r, start, nulls, [irl]) && Covered(plans, [irl]) == |plans[irl].nulls|
  {
    assert [irl][1..] == [];
  }

  lemma {:induction false} ChainHead(plans: seq<Plan>, r: nat, start: nat, nulls: seq<bool>, chain: seq<nat>)
    requires IsChain(plans, r, start, nulls, chain)
    ensures chain != [] && chain[0] < |plans| && Matches(plans[chain[0]], r, start, nulls)
    ensures var p := plans[chain[0]];
            && |p.nulls| <= |nulls|
            && if p.more then IsChain(plans, r, start + |p.nulls|, nulls[|p.nulls|..], chain[1..]) else chain[1..] == []
  {
  }

  lemma {:induction false} LastPiece(k: Compiled, irl: nat, nulls: seq<bool>)
    requires Rewrote(k) && irl < |k.irls| && irl < |k.plans| && k.plans[irl].Piece? && !k.plans[irl].more
    ensures k.plans[irl].start + |k.plans[irl].nulls| == |Rhs(k.x, k.plans[irl].rule)|
  {
    hide Rewrote;
    PieceFacts(k, irl);
  }

  lemma {:induction false} OnlyPiece(k: Compiled, r: nat, start: nat, nulls: seq<bool>)
    requires start <= |Rhs(k.x, r)| && Covers(k.c, k.plans, r, Rhs(k.x, r), start)
    requires ValidNulls(k.c, Rhs(k.x, r)[start..], nulls) && !AllNull(nulls)
    ensures forall a: nat, b: nat ::
              a < |k.plans| && b < |k.plans| && Matches(k.plans[a], r, start, nulls) && Matches(k.plans[b], r, start, nulls) ==> a == b
  {
    hide ValidNulls, AllNull, Matches;
    assert ExactlyOne(k.plans, r, start, nulls);
  }

  /** For a whole rule. */
  lemma {:induction false} RuleChain(k: Compiled, r: nat, nulls: seq<bool>) returns (chain: seq<nat>)
    requires Rewrote(k) && r < |k.x.xrls| && k.x.xrls[r].Bnf? && r in k.c.used
    requires ValidNulls(k.c, Rhs(k.x, r), nulls) && !AllNull(nulls)
    ensures IsChain(k.plans, r, 0, nulls, chain) && Covered(k.plans, chain) == |Rhs(k.x, r)|
    ensures forall other :: IsChain(k.plans, r, 0, nulls, other) ==> other == chain
  {
    hide Rewrote, ValidNulls, AllNull, IsChain;
    FirstCovered(k, r);
    assert Rhs(k.x, r)[0..] == Rhs(k.x, r);
    chain := OneChain(k, r, 0, nulls);
  }
}
