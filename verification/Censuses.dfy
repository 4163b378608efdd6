/** The census of symbols and rules that precedes the rewrite. */
module Censuses {
  import opened Options
  import opened Derivations
  import opened Externals
  import opened Pieces
  import opened BitVectors
  import opened Closures
  import opened RhsClosures
  import opened CensusMeaning
  import opened CensusTruth
  import opened RulePairs

  datatype Status = Accepted | CountedNullable | UnproductiveStart | NullingTerminal | TrivialGrammar

  /** The set bits as a set. */
  method ToSet(bv: BitVector) returns (s: set<nat>)
    requires bv.Valid()
    modifies bv.words
    ensures s == bv.Elements() == old(bv.Elements())
  {
    hide In;
    ghost var all := bv.Elements();
    s := {};
    var start := 0;
    var found, min, max := bv.Scan(start);
    assert bv.Elements() == all;
    while found
      invariant bv.Elements() == all
      invariant forall e: nat :: e in s <==> e in all && e < start
      invariant found ==> start <= min <= max < bv.bits
      invariant found ==> forall i: nat :: start <= i < min ==> i !in all
      invariant found ==> (forall i: nat :: min <= i <= max ==> i in all) && max + 1 !in all
      invariant !found ==> forall i: nat :: start <= i ==> i !in all
      decreases found, bv.bits + 2 - start
    {
      for e := min to max + 1
        invariant forall i: nat :: i in s <==> i in all && i < (if e == min then start else e)
        invariant e == min ==> forall i: nat :: start <= i < min ==> i !in all
      {
        s := s + {e};
      }
      start := max + 2;
      found, min, max := bv.Scan(start);
      assert bv.Elements() == all;
    }
    assert s == all;
  }

  /** Left-hand sides, and those that a rule makes empty by itself. */
  method LhsVectors(x: External) returns (lhs: BitVector, emptyLhs: BitVector)
    requires GrammarGiven(x)
    ensures lhs.Valid() && emptyLhs.Valid() && lhs.bits == emptyLhs.bits == x.xsyCount
    ensures fresh(lhs.words) && fresh(emptyLhs.words) && lhs.words != emptyLhs.words
    ensures forall s: nat :: lhs.Has(s) <==> IsLhs(x, s)
    ensures forall s: nat :: emptyLhs.Has(s) <==> EmptyLhs(x, s)
  {
    hide In, CanBeEmpty, Mentions;
    lhs := new BitVector(x.xsyCount);
    emptyLhs := new BitVector(x.xsyCount);
    for r := 0 to |x.xrls|
      invariant forall s: nat :: lhs.Has(s) <==> exists q :: 0 <= q < r && x.xrls[q].lhs == s
      invariant forall s: nat :: emptyLhs.Has(s) <==> exists q :: 0 <= q < r && x.xrls[q].lhs == s && CanBeEmpty(x.xrls[q])
    {
      lhs.Set(x.xrls[r].lhs);
      if CanBeEmpty(x.xrls[r]) {
        emptyLhs.Set(x.xrls[r].lhs);
      }
    }
  }

  /** Which symbols a rule leads from and to, in any number of steps. */
  method Reachability(x: External) returns (matrix: Matrix, ghost e: Relation)
    requires GrammarGiven(x)
    ensures matrix.Valid() && matrix.size == matrix.columns == x.xsyCount && fresh(matrix.Footprint())
    ensures EdgesAre(x, e)
    ensures forall s: nat, t: nat :: (s, t) in matrix.Pairs() <==> s < x.xsyCount && t < x.xsyCount && Reaches(e, s, t)
  {
    hide Mentions, Reaches;
    matrix := new Matrix(x.xsyCount, x.xsyCount);
    for r := 0 to |x.xrls|
      invariant matrix.Tidy()
      invariant forall s: nat, t: nat :: (s, t) in matrix.Pairs() <==> EdgeUpto(x, r, s, t)
    {
      AddEdges(x, matrix, r);
    }
    e := matrix.Pairs();
    assert EdgesAre(x, e);
    matrix.TransitiveClosure();
  }

  ghost predicate EdgeUpto(x: External, r: nat, s: nat, t: nat) {
    exists q :: 0 <= q < r && q < |x.xrls| && x.xrls[q].lhs == s && t in Mentions(x.xrls[q])
  }

  method AddEdges(x: External, matrix: Matrix, r: nat)
    requires GrammarGiven(x) && matrix.Valid() && matrix.size == matrix.columns == x.xsyCount && matrix.Tidy() && r < |x.xrls|
    requires forall s: nat, t: nat :: (s, t) in matrix.Pairs() <==> EdgeUpto(x, r, s, t)
    modifies matrix.Footprint()
    ensures matrix.Tidy() && forall s: nat, t: nat :: (s, t) in matrix.Pairs() <==> EdgeUpto(x, r + 1, s, t)
  {
    hide Mentions;
    var rule := x.xrls[r];
    var mentions := Mentions(rule);
    ghost var before := matrix.Pairs();
    for ix := 0 to |mentions|
      invariant matrix.Tidy()
      invariant forall s: nat, t: nat :: (s, t) in matrix.Pairs() <==> (s, t) in before || (s == rule.lhs && t in mentions[..ix])
    {
      assert mentions[ix] in mentions;
      matrix.Set(rule.lhs, mentions[ix]);
      assert mentions[..ix + 1] == mentions[..ix] + [mentions[ix]];
    }
    assert mentions[..|mentions|] == mentions;
    forall s: nat, t: nat
      ensures EdgeUpto(x, r + 1, s, t) <==> EdgeUpto(x, r, s, t) || (s == rule.lhs && t in mentions)
    {
    }
  }

  /** The symbols that can be empty: the closure of those that a rule makes so by itself. */
  method NullableVector(x: External, index: Index, emptyLhs: BitVector) returns (nullable: BitVector)
    requires GrammarGiven(x) && IndexOk(x, index)
    requires emptyLhs.Valid() && emptyLhs.bits == x.xsyCount && forall s: nat :: emptyLhs.Has(s) <==> EmptyLhs(x, s)
    ensures nullable.Valid() && nullable.bits == x.xsyCount && fresh(nullable.words)
    ensures NullableIs(x, nullable.Elements())
  {
    hide In, IndexOk, EmptyLhs, Closed, Least;
    assert SymbolsExist(x);
    nullable := new BitVector(x.xsyCount);
    nullable.OrAssign(emptyLhs);
    assert forall s: nat :: nullable.Has(s) <==> EmptyLhs(x, s);
    ghost var base := nullable.Elements();
    assert BaseIs(x, base);
    hide SymbolsExist;
    RhsClosure(x, index, nullable);
  }

  /** The symbols that derive some string: the closure of the nullable ones and the terminals. */
  method ProductiveVector(x: External, index: Index, nullable: BitVector, terminals: BitVector) returns (productive: BitVector)
    requires GrammarGiven(x) && IndexOk(x, index) && nullable.Valid() && nullable.bits == x.xsyCount
    requires terminals.Valid() && terminals.bits == x.xsyCount && terminals.Elements() == x.terminals
    ensures productive.Valid() && productive.bits == x.xsyCount && fresh(productive.words)
    ensures ProductiveIs(x, nullable.Elements(), productive.Elements())
  {
    hide In, IndexOk, Closed, Least;
    assert SymbolsExist(x);
    productive := new BitVector(x.xsyCount);
    productive.OrAssign(nullable);
    productive.OrAssign(terminals);
    assert productive.Elements() == nullable.Elements() + x.terminals by {
      assert forall s: nat :: productive.Has(s) <==> nullable.Has(s) || terminals.Has(s);
      assert forall s: nat :: s in x.terminals <==> terminals.Has(s) by {
        assert forall s: nat :: terminals.Has(s) <==> s in terminals.Elements();
      }
    }
    hide SymbolsExist;
    RhsClosure(x, index, productive);
  }

  method TerminalVector(x: External) returns (terminals: BitVector)
    requires GrammarGiven(x)
    ensures terminals.Valid() && terminals.bits == x.xsyCount && fresh(terminals.words) && terminals.Elements() == x.terminals
  {
    hide In;
    terminals := new BitVector(x.xsyCount);
    for s := 0 to x.xsyCount
      invariant forall t: nat :: terminals.Has(t) <==> t in x.terminals && t < s
    {
      if s in x.terminals {
        terminals.Set(s);
      }
    }
  }

  /** Whether a sequence repeats, or is separated by, a symbol that can be empty. */
  method AnyCountedNullable(x: External, nullable: set<nat>) returns (any: bool)
    ensures any <==> !NoCountedNullable(x, nullable)
  {
    hide Mentions;
    for r := 0 to |x.xrls|
      invariant forall q :: 0 <= q < r && x.xrls[q].Sequence? ==> NoneIn(Mentions(x.xrls[q]), nullable)
    {
      if x.xrls[r].Sequence? {
        var none := NoneIn(Mentions(x.xrls[r]), nullable);
        if !none {
          return true;
        }
      }
    }
    return false;
  }

  /** The left-hand sides from which no terminal can be reached. */
  method NullingSymbols(x: External, matrix: Matrix, lhs: BitVector, terminals: BitVector, ghost e: Relation) returns (nulling: set<nat>)
    requires GrammarGiven(x) && matrix.Valid() && matrix.size == matrix.columns == x.xsyCount
    requires forall s: nat, t: nat :: (s, t) in matrix.Pairs() <==> s < x.xsyCount && t < x.xsyCount && Reaches(e, s, t)
    requires lhs.Valid() && lhs.bits == x.xsyCount && forall s: nat :: lhs.Has(s) <==> IsLhs(x, s)
    requires terminals.Valid() && terminals.bits == x.xsyCount && terminals.Elements() == x.terminals
    ensures NullingIs(x, e, nulling)
  {
    hide In, Mentions, Reaches, IsLhs;
    assert SymbolsExist(x);
    nulling := {};
    var reached := new BitVector(x.xsyCount);
    for s := 0 to x.xsyCount
      invariant forall t: nat :: t in nulling <==> t < s && IsLhs(x, t) && NoTerminal(x, e, t)
    {
      var isLhs := lhs.Test(s);
      if isLhs {
        assert matrix.rows[s].words in matrix.Footprint();
        reached.AssignAnd(terminals, matrix.rows[s]);
        var empty := reached.IsEmpty();
        RowTerminals(x, matrix, terminals, reached, e, s);
        if empty {
          nulling := nulling + {s};
        }
      }
    }
    assert forall t: nat :: IsLhs(x, t) ==> t < x.xsyCount by {
      LhsExist(x);
    }
  }

  lemma {:induction false} LhsExist(x: External)
    requires SymbolsExist(x)
    ensures forall t: nat :: IsLhs(x, t) ==> t < x.xsyCount
  {
    hide Mentions;
  }

  lemma {:induction false} RowTerminals(x: External, matrix: Matrix, terminals: BitVector, reached: BitVector, e: Relation, s: nat)
    requires GrammarGiven(x) && matrix.Valid() && matrix.size == matrix.columns == x.xsyCount && s < x.xsyCount
    requires forall s: nat, t: nat :: (s, t) in matrix.Pairs() <==> s < x.xsyCount && t < x.xsyCount && Reaches(e, s, t)
    requires terminals.bits == x.xsyCount && terminals.Elements() == x.terminals
    requires matrix.rows[s].words in matrix.Footprint()
    requires forall j: nat :: reached.Has(j) <==> terminals.Has(j) && matrix.rows[s].Has(j)
    ensures (forall j: nat :: !reached.Has(j)) <==> NoTerminal(x, e, s)
  {
    hide In, Mentions, Reaches;
    assert forall j: nat :: j in x.terminals <==> terminals.Has(j) by {
      assert forall j: nat :: j in terminals.Elements() <==> terminals.Has(j);
    }
    forall j: nat | j < x.xsyCount
      ensures matrix.rows[s].Has(j) <==> Reaches(e, s, j)
    {
      assert (s, j) in matrix.Pairs() <==> matrix.rows[s].Has(j);
    }
  }

  /** The start symbol and whatever can be reached from it. */
  method AccessibleSymbols(x: External, matrix: Matrix, ghost e: Relation) returns (accessible: set<nat>)
    requires GrammarGiven(x) && matrix.Valid() && matrix.size == matrix.columns == x.xsyCount
    requires EdgesAre(x, e)
    requires forall s: nat, t: nat :: (s, t) in matrix.Pairs() <==> s < x.xsyCount && t < x.xsyCount && Reaches(e, s, t)
    modifies matrix.Footprint()
    ensures AccessibleIs(x, e, accessible)
    ensures matrix.Valid() && matrix.Pairs() == old(matrix.Pairs())
  {
    hide In, Mentions, Reaches, IsPath;
    var row := matrix.rows[x.start];
    assert row.words in matrix.Footprint();
    ghost var pairs := matrix.Pairs();
    assert forall j: nat :: row.Has(j) <==> (x.start, j) in pairs;
    ghost var before := forall i, j: nat :: 0 <= i < matrix.size && j < matrix.size ==> (matrix.rows[i].Has(j) <==> (i, j) in pairs);
    assert before;
    accessible := ToSet(row);
    assert forall j: nat :: j in accessible <==> row.Has(j) by {
      assert accessible == row.Elements();
    }
    forall i: nat, j: nat | i < matrix.size && j < matrix.size
      ensures matrix.rows[i].Has(j) <==> (i, j) in pairs
    {
      if i != x.start {
        assert matrix.rows[i].words != row.words;
      }
    }
    assert matrix.Pairs() == pairs;
    accessible := accessible + {x.start};
    assert forall s: nat :: Reaches(e, x.start, s) ==> s < x.xsyCount by {
      ReachesExist(x, e);
    }
  }

  lemma {:induction false} ReachesExist(x: External, e: Relation)
    requires GrammarGiven(x) && EdgesAre(x, e)
    ensures forall s: nat, t: nat :: Reaches(e, s, t) ==> t < x.xsyCount
  {
    forall s: nat, t: nat | Reaches(e, s, t)
      ensures t < x.xsyCount
    {
      var path :| IsPath(e, path, s, t);
      assert (path[|path| - 2], path[|path| - 2 + 1]) in e;
      assert Edge(x, path[|path| - 2], t);
    }
  }

  method UsedRules(x: External, productive: set<nat>, accessible: set<nat>, nulling: set<nat>) returns (used: set<nat>)
    ensures UsedIs(x, productive, accessible, nulling, used)
  {
    hide RuleUsed;
    used := {};
    for r := 0 to |x.xrls|
      invariant forall q: nat :: q in used <==> q < r && RuleUsed(x.xrls[q], productive, accessible, nulling)
    {
      var use := RuleUsed(x.xrls[r], productive, accessible, nulling);
      if use {
        used := used + {r};
      }
    }
  }

  /** The symbols that can be empty and, unless a sequence counts one of them, those that
      derive some string. */
  method Productivity(x: External, index: Index, emptyLhs: BitVector, terminals: BitVector) returns (counted: bool, nullable: set<nat>, productive: set<nat>)
    requires GrammarGiven(x) && IndexOk(x, index)
    requires emptyLhs.Valid() && emptyLhs.bits == x.xsyCount && forall s: nat :: emptyLhs.Has(s) <==> EmptyLhs(x, s)
    requires terminals.Valid() && terminals.bits == x.xsyCount && terminals.Elements() == x.terminals
    ensures NullableIs(x, nullable) && (counted <==> !NoCountedNullable(x, nullable))
    ensures counted <==> exists r: nat :: CountsNothing(x, r)
    ensures !counted ==> ProductiveIs(x, nullable, productive) && forall s: nat :: s in productive <==> DerivesSomewhere(x, s)
  {
    hide *;
    productive := {};
    var nullableBits := NullableVector(x, index, emptyLhs);
    nullable := ToSet(nullableBits);
    CountedTrue(x, nullable);
    counted := AnyCountedNullable(x, nullable);
    if !counted {
      var productiveBits := ProductiveVector(x, index, nullableBits, terminals);
      productive := ToSet(productiveBits);
      ProductiveTrue(x, nullable, productive);
    }
  }

  /** The rest of the census, for a start symbol that is productive. */
  method TakeReachable(x: External, matrix: Matrix, lhs: BitVector, terminals: BitVector, nullable: set<nat>, productive: set<nat>, ghost e: Relation)
      returns (status: Status, census: Census, ghost f: Findings)
    requires GrammarGiven(x) && EdgesAre(x, e) && NullableIs(x, nullable) && ProductiveIs(x, nullable, productive)
    requires NoCountedNullable(x, nullable) && x.start in productive
    requires matrix.Valid() && matrix.size == matrix.columns == x.xsyCount
    requires forall s: nat, t: nat :: (s, t) in matrix.Pairs() <==> s < x.xsyCount && t < x.xsyCount && Reaches(e, s, t)
    requires lhs.Valid() && lhs.bits == x.xsyCount && forall s: nat :: lhs.Has(s) <==> IsLhs(x, s)
    requires terminals.Valid() && terminals.bits == x.xsyCount && terminals.Elements() == x.terminals
    requires lhs.words !in matrix.Footprint() && terminals.words !in matrix.Footprint()
    modifies matrix.Footprint()
    ensures status == NullingTerminal <==> exists s: nat :: s in x.terminals && Barren(x, s)
    ensures status == TrivialGrammar <==> (forall s: nat :: s in x.terminals ==> !Barren(x, s)) && Barren(x, x.start)
    ensures status == Accepted || status == NullingTerminal || status == TrivialGrammar
    ensures status == Accepted ==> Taken(x, f) && census == AsCensus(f)
  {
    hide *;
    census := Census({}, {}, {}, {});
    f := Findings({}, {}, {}, {}, {}, {});
    var accessible := AccessibleSymbols(x, matrix, e);
    var nulling := NullingSymbols(x, matrix, lhs, terminals, e);
    BarrenTrue(x, e, nulling);
    if s :| s in nulling && s in x.terminals {
      return NullingTerminal, census, f;
    }
    var used := UsedRules(x, productive, accessible, nulling);
    if x.start in nulling {
      return TrivialGrammar, census, f;
    }
    f := Findings(e, nullable, productive, accessible, nulling, used);
    census := CensusOf(nullable, productive, accessible, nulling, used);
    TakenIs(x, f);
    return Accepted, census, f;
  }

  /** The whole census: either what the rewrite needs, or why the grammar is refused. */
  method TakeCensus(x: External) returns (status: Status, census: Census, ghost f: Findings)
    requires GrammarGiven(x) && PairsFit(x)
    ensures status == CountedNullable <==> exists r: nat :: CountsNothing(x, r)
    ensures status == UnproductiveStart <==> (forall r: nat :: !CountsNothing(x, r)) && !DerivesSomewhere(x, x.start)
    ensures status == NullingTerminal <==>
              (forall r: nat :: !CountsNothing(x, r)) && DerivesSomewhere(x, x.start) && exists s: nat :: s in x.terminals && Barren(x, s)
    ensures status == Accepted <==> Acceptable(x)
    ensures status == Accepted ==> Taken(x, f) && census == AsCensus(f)
  {
    hide IndexOk, NullableIs, ProductiveIs, EdgesAre, NullingIs, AccessibleIs, UsedIs, NoCountedNullable, SymbolsExist, In, Reaches, IsLhs, EmptyLhs;
    hide CountsNothing, Barren, DerivesSomewhere, PairsAre, PairsFit, GrammarGiven, Taken, Acceptable, Mentions, AsCensus;
    census := Census({}, {}, {}, {});
    f := Findings({}, {}, {}, {}, {}, {});
    SymbolsGiven(x);
    AcceptableIs(x);
    var pairs := SortedPairs(x);
    var index := BuildIndex(x, pairs);
    var lhs, emptyLhs := LhsVectors(x);
    var terminals := TerminalVector(x);
    var matrix: Matrix;
    ghost var e: Relation;
    matrix, e := Reachability(x);
    var counted, nullable, productive := Productivity(x, index, emptyLhs, terminals);
    if counted {
      return CountedNullable, census, f;
    }
    if x.start !in productive {
      return UnproductiveStart, census, f;
    }
    status, census, f := TakeReachable(x, matrix, lhs, terminals, nullable, productive, e);
  }

  lemma {:induction false} AcceptableIs(x: External)
    ensures Acceptable(x) <==>
              && (forall r: nat :: !CountsNothing(x, r)) && DerivesSomewhere(x, x.start)
              && (forall s: nat :: s in x.terminals ==> !Barren(x, s)) && !Barren(x, x.start)
  {
  }

  lemma {:induction false} TakenIs(x: External, f: Findings)
    requires EdgesAre(x, f.e) && NullableIs(x, f.nullable) && ProductiveIs(x, f.nullable, f.productive)
    requires AccessibleIs(x, f.e, f.accessible) && NullingIs(x, f.e, f.nulling)
    requires UsedIs(x, f.productive, f.accessible, f.nulling, f.used) && NoCountedNullable(x, f.nullable)
    requires x.start in f.productive && x.start !in f.nulling && forall s :: s in f.nulling ==> s !in x.terminals
    ensures Taken(x, f) && AsCensus(f) == CensusOf(f.nullable, f.productive, f.accessible, f.nulling, f.used)
  {
  }

  lemma {:induction false} SymbolsGiven(x: External)
    requires GrammarGiven(x)
    ensures SymbolsExist(x)
  {
  }
}
