/** The transitive closure of a relation, in place over the rows of a bit matrix. */
module Closures {
  import opened BitVectors

  type Relation = set<(nat, nat)>

  /** A path from `i` to `j` along the relation, of at least one step. */
  ghost predicate IsPath(e: Relation, path: seq<nat>, i: nat, j: nat) {
    && |path| >= 2 && path[0] == i && path[|path| - 1] == j
    && forall k :: 0 <= k < |path| - 1 ==> (path[k], path[k + 1]) in e
  }

  /** Only the first `r` nodes come between the ends. */
  ghost predicate Inner(path: seq<nat>, r: nat) {
    forall k :: 0 < k < |path| - 1 ==> path[k] < r
  }

  ghost predicate Reaches(e: Relation, i: nat, j: nat) {
    exists path :: IsPath(e, path, i, j)
  }

  /** Reachability by way of the first `r` nodes, as the closure computes it. */
  ghost predicate Via(e: Relation, r: nat, i: nat, j: nat) {
    if r == 0 then (i, j) in e
    else Via(e, r - 1, i, j) || (Via(e, r - 1, i, r - 1) && Via(e, r - 1, r - 1, j))
  }

  lemma {:induction false} PathJoin(e: Relation, p: seq<nat>, q: seq<nat>, i: nat, m: nat, j: nat)
    requires IsPath(e, p, i, m) && IsPath(e, q, m, j)
    ensures IsPath(e, p + q[1..], i, j)
  {
    var pq := p + q[1..];
    forall k | 0 <= k < |pq| - 1
      ensures (pq[k], pq[k + 1]) in e
    {
      if k < |p| - 1 {
        assert (p[k], p[k + 1]) in e;
      } else {
        assert (q[k - |p| + 1], q[k - |p| + 2]) in e;
      }
    }
  }

  lemma {:induction false} ViaIsPath(e: Relation, r: nat, i: nat, j: nat)
    requires Via(e, r, i, j)
    ensures Reaches(e, i, j)
    decreases r
  {
    if r == 0 {
      assert IsPath(e, [i, j], i, j);
    } else if Via(e, r - 1, i, j) {
      ViaIsPath(e, r - 1, i, j);
    } else {
      ViaIsPath(e, r - 1, i, r - 1);
      ViaIsPath(e, r - 1, r - 1, j);
      var p :| IsPath(e, p, i, r - 1);
      var q :| IsPath(e, q, r - 1, j);
      PathJoin(e, p, q, i, r - 1, j);
    }
  }

  /** A path by way of the first `r` nodes; one that visits node `r - 1` is cut there. */
  lemma {:induction false} PathIsVia(e: Relation, r: nat, path: seq<nat>, i: nat, j: nat)
    requires IsPath(e, path, i, j) && Inner(path, r)
    ensures Via(e, r, i, j)
    decreases r, |path|
  {
    if r == 0 {
      var second := path[1];
      assert (path[0], second) in e;
    } else if k :| 0 < k < |path| - 1 && path[k] == r - 1 {
      CutPath(e, path, i, j, k, r);
      PathIsVia(e, r, path[..k + 1], i, r - 1);
      PathIsVia(e, r, path[k..], r - 1, j);
    } else {
      PathIsVia(e, r - 1, path, i, j);
    }
  }

  lemma {:induction false} CutPath(e: Relation, path: seq<nat>, i: nat, j: nat, k: nat, r: nat)
    requires IsPath(e, path, i, j) && Inner(path, r) && 0 < k < |path| - 1
    ensures IsPath(e, path[..k + 1], i, path[k]) && Inner(path[..k + 1], r)
    ensures IsPath(e, path[k..], path[k], j) && Inner(path[k..], r)
  {
    var q := path[k..];
    forall m | 0 <= m < |q| - 1
      ensures (q[m], q[m + 1]) in e
    {
      assert (path[k + m], path[k + m + 1]) in e;
    }
  }

  /** Nodes are below `n`. */
  ghost predicate Within(e: Relation, n: nat) {
    forall i: nat, j: nat :: (i, j) in e ==> i < n && j < n
  }

  lemma {:induction false} ViaAllReaches(e: Relation, n: nat, i: nat, j: nat)
    requires Within(e, n)
    ensures Via(e, n, i, j) <==> Reaches(e, i, j)
  {
    if Via(e, n, i, j) {
      ViaIsPath(e, n, i, j);
    }
    if Reaches(e, i, j) {
      var path :| IsPath(e, path, i, j);
      forall k | 0 < k < |path| - 1
        ensures path[k] < n
      {
        assert (path[k], path[k + 1]) in e;
      }
      PathIsVia(e, n, path, i, j);
    }
  }

  lemma {:induction false} ViaGrows(e: Relation, r: nat, i: nat, j: nat)
    ensures Via(e, r, i, j) ==> Via(e, r + 1, i, j)
    ensures Via(e, r + 1, i, j) <==> Via(e, r, i, j) || (Via(e, r, i, r) && Via(e, r, r, j))
    ensures Via(e, r + 1, r, j) <==> Via(e, r, r, j)
  {
  }

  /** A matrix of bits; its rows are separate. */
  class Matrix {
    const size: nat
    const columns: nat
    const rows: seq<BitVector>

    ghost predicate Valid() {
      && |rows| == size
      && (forall i :: 0 <= i < size ==> rows[i].Valid() && rows[i].bits == columns)
      && (forall i, j :: 0 <= i < j < size ==> rows[i].words != rows[j].words)
    }

    ghost function Footprint(): set<object> {
      set i | 0 <= i < |rows| :: rows[i].words
    }

    /** The pairs whose bit is set. */
    ghost function Pairs(): Relation
      requires Valid()
      reads Footprint()
    {
      set i: nat, j: nat | i < size && j < columns && rows[i].Has(j) :: (i, j)
    }

    /** The unused bits of every row are zero. */
    ghost predicate Tidy()
      requires Valid()
      reads Footprint()
    {
      forall i :: 0 <= i < size ==> Clean(rows[i].words[..], columns)
    }

    constructor (size: nat, columns: nat)
      ensures Valid() && this.size == size && this.columns == columns && fresh(Footprint()) && Pairs() == {} && Tidy()
    {
      var made: seq<BitVector> := [];
      for k := 0 to size
        invariant |made| == k
        invariant forall i :: 0 <= i < k ==> made[i].Valid() && made[i].bits == columns && fresh(made[i].words)
        invariant forall i, j :: 0 <= i < j < k ==> made[i].words != made[j].words
        invariant forall i, j: nat :: 0 <= i < k ==> !made[i].Has(j)
        invariant forall i :: 0 <= i < k ==> Clean(made[i].words[..], columns)
      {
        var row := new BitVector(columns);
        made := made + [row];
      }
      this.size := size;
      this.columns := columns;
      this.rows := made;
    }

    method Set(i: nat, j: nat)
      requires Valid() && i < size && j < columns && Tidy()
      modifies Footprint()
      ensures Pairs() == old(Pairs()) + {(i, j)} && Tidy()
    {
      hide In;
      assert rows[i].words in Footprint();
      assert forall a :: 0 <= a < size ==> Clean(rows[a].words[..], columns);
      rows[i].Set(j);
      forall a: nat, b: nat | a < size && b < columns
        ensures rows[a].Has(b) <==> old(rows[a].Has(b)) || (a, b) == (i, j)
      {
        assert a != i ==> rows[a].words != rows[i].words;
      }
    }

    /** Row `i` holds the nodes reachable from `i` by way of the first `r` nodes. */
    ghost predicate RowIs(i: nat, e: Relation, r: nat)
      requires i < |rows|
      reads rows[i].words
    {
      forall j: nat :: rows[i].Has(j) <==> j < columns && Via(e, r, i, j)
    }

    ghost predicate RowsAre(e: Relation, r: nat, from: nat, to: nat)
      requires to <= |rows|
      reads Footprint()
    {
      forall i: nat :: from <= i < to ==> WordsIn(i) && RowIs(i, e, r)
    }

    ghost predicate WordsIn(i: nat)
      requires i < |rows|
    {
      rows[i].words in Footprint()
    }

    /** In a square matrix: afterwards a bit is set exactly when there was a path between its
        nodes. */
    method TransitiveClosure()
      requires Valid() && Tidy() && size == columns
      modifies Footprint()
      ensures forall i: nat, j: nat :: (i, j) in Pairs() <==> i < size && j < size && Reaches(old(Pairs()), i, j)
      ensures Tidy()
    {
      hide Via, Reaches;
      ghost var e := Pairs();
      FirstRows(e);
      for outerRow := 0 to size
        invariant RowsAre(e, outerRow, 0, size) && Tidy()
      {
        for column := 0 to size
          invariant RowsAre(e, outerRow + 1, 0, column) && RowsAre(e, outerRow, column, size) && Tidy()
        {
          CloseRow(e, outerRow, column);
        }
      }
      LastRows(e);
    }

    /** One step: what the outer row reaches, this row reaches if it reaches the outer row. */
    method CloseRow(ghost e: Relation, outerRow: nat, column: nat)
      requires Valid() && size == columns && outerRow < size && column < size
      requires RowsAre(e, outerRow + 1, 0, column) && RowsAre(e, outerRow, column, size) && Tidy()
      modifies Footprint()
      ensures RowsAre(e, outerRow + 1, 0, column + 1) && RowsAre(e, outerRow, column + 1, size) && Tidy()
    {
      hide Via, In;
      forall i: nat, j: nat
        ensures Via(e, outerRow + 1, i, j) <==> Via(e, outerRow, i, j) || (Via(e, outerRow, i, outerRow) && Via(e, outerRow, outerRow, j))
        ensures Via(e, outerRow + 1, outerRow, j) <==> Via(e, outerRow, outerRow, j)
      {
        ViaGrows(e, outerRow, i, j);
      }
      assert forall j: nat :: rows[outerRow].Has(j) <==> j < size && Via(e, outerRow, outerRow, j) by {
        assert outerRow < column ==> RowIs(outerRow, e, outerRow + 1);
        assert outerRow >= column ==> RowIs(outerRow, e, outerRow);
      }
      assert RowIs(column, e, outerRow) && WordsIn(column);
      assert forall a :: 0 <= a < size ==> Clean(rows[a].words[..], size);
      var reached := rows[column].Test(outerRow);
      if reached {
        rows[column].OrAssign(rows[outerRow]);
      }
      forall i: nat | i < size && i != column
        ensures rows[i].words != rows[column].words
      {
      }
    }

    lemma {:induction false} FirstRows(e: Relation)
      requires Valid() && e == Pairs()
      ensures RowsAre(e, 0, 0, size)
    {
    }

    lemma {:induction false} LastRows(e: Relation)
      requires Valid() && size == columns && Within(e, size) && RowsAre(e, size, 0, size)
      ensures forall i: nat, j: nat :: (i, j) in Pairs() <==> i < size && j < size && Reaches(e, i, j)
    {
      hide Via, Reaches;
      forall i: nat, j: nat | i < size && j < size
        ensures rows[i].Has(j) <==> Reaches(e, i, j)
      {
        ViaAllReaches(e, size, i, j);
        assert RowIs(i, e, size);
      }
    }

    /** The row's bits are its pairs. */
    lemma {:induction false} RowPairs(i: nat)
      requires Valid() && i < size
      ensures rows[i].words in Footprint()
      ensures forall j: nat :: rows[i].Has(j) <==> (i, j) in Pairs()
    {
    }
  }
}
