/** A grammar for which precomputation loses a string: a list of items with a separator that
    nothing derives.  One item alone needs no separator, but its rule is dropped. */
module LostSequences {
  import opened Options
  import opened Grammars
  import opened Derivations
  import opened InternalRules
  import opened Externals
  import opened Pieces
  import opened Encodings
  import opened Compilations
  import opened RewriteMeaning
  import opened RhsClosures
  import opened Closures
  import opened CensusMeaning
  import opened CensusTruth
  import opened Languages

  /** Symbol 0 is a list of terminals 1, separated by symbol 2, which only derives itself. */
  function ListGrammar(): External {
    External(3, [Sequence(0, 1, Some(2), true, 1), Bnf(2, [2])], {1}, 0)
  }

  function ListFindings(): Findings {
    Findings({(0, 1), (0, 2), (2, 2)}, {}, {0, 1}, {0, 1, 2}, {2}, {})
  }

  /** All that is left is the start rule. */
  function ListCompiled(): Compiled {
    Compiled(ListGrammar(), AsCensus(ListFindings()), [Whole(0), Whole(1), StartSymbol], map[0 := 0, 1 := 1], map[],
             [Rule(2, [0], true, false, 1, 0)], [StartPlan],
             Grammar(3, {}, [Irl(2, [0])], 0, {1}, [], [], map[], [], [], {}, []))
  }

  /** The list derives its single item; the symbol that stands for the list does not. */
  lemma {:induction false} SeparatorLoses()
    ensures CompiledWith(ListCompiled(), ListFindings()) && Dropped(ListGrammar(), ListFindings(), 0)
    ensures var toks := {Token(1, 0, 1)};
            && TokensOk(toks) && TokensAre(ListCompiled(), toks, toks)
            && XDerives(ListGrammar(), toks, 0, 0, 1) && !Derives(ListCompiled().g, toks, ListCompiled().nsyOf[0], 0, 1)
  {
    hide *;
    ListIsCompiled();
    ListDerives();
    ListTokens();
    ListDropped();
    NothingLeft();
  }

  lemma {:induction false} ListDropped()
    ensures Dropped(ListGrammar(), ListFindings(), 0)
  {
  }

  lemma {:induction false} NothingLeft()
    ensures TokensOk({Token(1, 0, 1)}) && 0 in ListCompiled().nsyOf
    ensures !Derives(ListCompiled().g, {Token(1, 0, 1)}, ListCompiled().nsyOf[0], 0, 1)
  {
  }

  lemma {:induction false} ListDerives()
    ensures XDerives(ListGrammar(), {Token(1, 0, 1)}, 0, 0, 1)
  {
    var x, toks := ListGrammar(), {Token(1, 0, 1)};
    assert XTreeFor(x, toks, XLeaf, 1, 0, 1);
    SpansOne(x, toks, 1, 0, 1);
    OneItem(x.xrls[0]);
    hide XDerives, XSpans;
    RuleDerives(x, toks, 0, [1], 0, 1);
  }

  lemma {:induction false} ListTokens()
    ensures TokensAre(ListCompiled(), {Token(1, 0, 1)}, {Token(1, 0, 1)})
  {
  }

  lemma {:induction false} ListIsCompiled()
    ensures CompiledWith(ListCompiled(), ListFindings())
  {
    hide Taken, Rewrote;
    ListTaken();
    ListRewrote();
  }

  lemma {:induction false} ListRewrote()
    ensures Rewrote(ListCompiled())
  {
  }

  lemma {:induction false} ListTaken()
    ensures Taken(ListGrammar(), ListFindings())
  {
    var x, f := ListGrammar(), ListFindings();
    hide EdgesAre, NullableIs, ProductiveIs, AccessibleIs, NullingIs, UsedIs, Mentions;
    ListEdges();
    ListClosures();
    ListReaches();
    ListUsed();
  }

  lemma {:induction false} ListEdges()
    ensures EdgesAre(ListGrammar(), ListFindings().e)
  {
    var x, e := ListGrammar(), ListFindings().e;
    assert Mentions(x.xrls[0]) == [1, 2] && Mentions(x.xrls[1]) == [2];
  }

  lemma {:induction false} ListClosures()
    ensures NullableIs(ListGrammar(), {}) && ProductiveIs(ListGrammar(), {}, {0, 1})
  {
    var x := ListGrammar();
    assert !Covered(x.xrls[0], {}) && !Covered(x.xrls[1], {}) && !Covered(x.xrls[1], {0, 1}) by {
      assert 1 in RhsOf(x.xrls[0]) && 2 in RhsOf(x.xrls[1]);
    }
    assert BaseIs(x, {}) && Least(x, {}, {});
    forall z: set<nat> | {} + x.terminals <= z && Closed(x, z)
      ensures {0, 1} <= z
    {
      assert 1 in z;
      assert Covered(x.xrls[0], z);
    }
  }

  lemma {:induction false} ListReaches()
    ensures AccessibleIs(ListGrammar(), ListFindings().e, {0, 1, 2}) && NullingIs(ListGrammar(), ListFindings().e, {2})
  {
    var x, e := ListGrammar(), ListFindings().e;
    assert IsPath(e, [0, 1], 0, 1) && IsPath(e, [0, 2], 0, 2);
    forall s: nat, t: nat | Reaches(e, s, t)
      ensures t == 1 || t == 2
      ensures s == 2 ==> t == 2
    {
      var path :| IsPath(e, path, s, t);
      PathEnds(path, s, t);
    }
    assert x.xrls[1].lhs == 2;
    assert IsLhs(x, 2) && !IsLhs(x, 1);
  }

  lemma {:induction false} PathEnds(path: seq<nat>, s: nat, t: nat)
    requires IsPath(ListFindings().e, path, s, t)
    ensures (t == 1 || t == 2) && (s == 2 ==> t == 2)
    decreases |path|
  {
    var n := |path| - 2;
    assert (path[n], path[n + 1]) in ListFindings().e;
    if n > 0 {
      assert IsPath(ListFindings().e, path[..n + 1], s, path[n]);
      PathEnds(path[..n + 1], s, path[n]);
    }
  }

  lemma {:induction false} ListUsed()
    ensures UsedIs(ListGrammar(), {0, 1}, {0, 1, 2}, {2}, {})
    ensures NoCountedNullable(ListGrammar(), {})
  {
    var x := ListGrammar();
    assert RhsOf(x.xrls[1])[0] == 2;
  }
}
