/** The grammar as the application gives it: rules over external symbols, sequence rules,
    symbols that may be empty; and what a symbol derives over a lattice of tokens. */
module Externals {
  import opened Options
  import opened Derivations

  datatype Xrl =
    | Bnf(lhs: nat, rhs: seq<nat>)
    | Sequence(lhs: nat, item: nat, separator: Option<nat>, proper: bool, minimum: nat)

  datatype External = External(xsyCount: nat, xrls: seq<Xrl>, terminals: set<nat>, start: nat)

  function Separators(separator: Option<nat>): seq<nat> {
    if separator.Some? then [separator.value] else []
  }

  /** `n + 1` items with a separator between any two. */
  ghost function Items(item: nat, separator: Option<nat>, n: nat): seq<nat> {
    if n == 0 then [item] else Items(item, separator, n - 1) + Separators(separator) + [item]
  }

  lemma {:induction false} ItemsFrom(item: nat, separator: Option<nat>, n: nat)
    ensures forall q :: 0 <= q < |Items(item, separator, n)| ==>
              var s := Items(item, separator, n)[q]; s == item || (separator.Some? && s == separator.value)
  {
    if n > 0 {
      ItemsFrom(item, separator, n - 1);
    }
  }

  /** The symbols that may stand for the right-hand side of a rule. */
  ghost predicate Expands(r: Xrl, syms: seq<nat>) {
    match r
    case Bnf(_, rhs) => syms == rhs
    case Sequence(_, item, separator, proper, minimum) =>
      || (minimum == 0 && syms == [])
      || (exists n: nat :: syms == Items(item, separator, n))
      || (!proper && separator.Some? && exists n: nat :: syms == Items(item, separator, n) + [separator.value])
  }

  /** A derivation: a token, or a rule with the symbols it expanded to, the earlemes
      between them and their derivations. */
  datatype XTree = XLeaf | XNode(rule: nat, syms: seq<nat>, points: seq<nat>, kids: seq<XTree>)

  ghost predicate Between(points: seq<nat>, n: nat, i: nat, j: nat) {
    |points| == n + 1 && points[0] == i && points[n] == j
  }

  ghost predicate XTreeFor(x: External, toks: set<Token>, t: XTree, s: nat, i: nat, j: nat)
    decreases t
  {
    match t
    case XLeaf => s in x.terminals && Token(s, i, j) in toks
    case XNode(r, syms, points, kids) =>
      && r < |x.xrls| && x.xrls[r].lhs == s && Expands(x.xrls[r], syms)
      && |kids| == |syms| && Between(points, |syms|, i, j)
      && forall k :: 0 <= k < |kids| ==> XTreeFor(x, toks, kids[k], syms[k], points[k], points[k + 1])
  }

  ghost predicate XDerives(x: External, toks: set<Token>, s: nat, i: nat, j: nat) {
    exists t :: XTreeFor(x, toks, t, s, i, j)
  }

  /** Each symbol derives the tokens between its two points. */
  ghost predicate SpansAt(x: External, toks: set<Token>, syms: seq<nat>, points: seq<nat>) {
    |points| == |syms| + 1 && forall k :: 0 <= k < |syms| ==> XDerives(x, toks, syms[k], points[k], points[k + 1])
  }

  ghost predicate XSpans(x: External, toks: set<Token>, syms: seq<nat>, i: nat, j: nat) {
    exists points :: SpansAt(x, toks, syms, points) && Between(points, |syms|, i, j)
  }

  /** A symbol that can derive nothing: anywhere, since no token is involved. */
  ghost predicate DerivesNothing(x: External, s: nat) {
    exists i: nat :: XDerives(x, {}, s, i, i)
  }

  lemma {:induction false} TreeNodes(x: External, toks: set<Token>, syms: seq<nat>, points: seq<nat>) returns (kids: seq<XTree>)
    requires SpansAt(x, toks, syms, points)
    ensures |kids| == |syms| && forall k :: 0 <= k < |kids| ==> XTreeFor(x, toks, kids[k], syms[k], points[k], points[k + 1])
    decreases |syms|
  {
    if syms == [] {
      kids := [];
    } else {
      var n := |syms| - 1;
      assert SpansAt(x, toks, syms[..n], points[..n + 1]);
      kids := TreeNodes(x, toks, syms[..n], points[..n + 1]);
      assert XDerives(x, toks, syms[n], points[n], points[n + 1]);
      var t :| XTreeFor(x, toks, t, syms[n], points[n], points[n + 1]);
      kids := kids + [t];
    }
  }

  /** A rule derives what its expansion spans. */
  lemma {:induction false} RuleDerives(x: External, toks: set<Token>, r: nat, syms: seq<nat>, i: nat, j: nat)
    requires r < |x.xrls| && Expands(x.xrls[r], syms) && XSpans(x, toks, syms, i, j)
    ensures XDerives(x, toks, x.xrls[r].lhs, i, j)
  {
    var points :| SpansAt(x, toks, syms, points) && Between(points, |syms|, i, j);
    var kids := TreeNodes(x, toks, syms, points);
    hide Expands;
    assert XTreeFor(x, toks, XNode(r, syms, points, kids), x.xrls[r].lhs, i, j);
  }

  /** A derivation that is not a token comes from a rule. */
  lemma {:induction false} NodeSpans(x: External, toks: set<Token>, t: XTree, s: nat, i: nat, j: nat)
    requires t.XNode? && XTreeFor(x, toks, t, s, i, j)
    ensures t.rule < |x.xrls| && x.xrls[t.rule].lhs == s && Expands(x.xrls[t.rule], t.syms)
    ensures SpansAt(x, toks, t.syms, t.points) && Between(t.points, |t.syms|, i, j)
  {
    hide Expands;
    forall k | 0 <= k < |t.syms|
      ensures XDerives(x, toks, t.syms[k], t.points[k], t.points[k + 1])
    {
      assert XTreeFor(x, toks, t.kids[k], t.syms[k], t.points[k], t.points[k + 1]);
    }
  }

  lemma {:induction false} SpansConcat(x: External, toks: set<Token>, syms: seq<nat>, syms': seq<nat>, i: nat, m: nat, j: nat)
    requires XSpans(x, toks, syms, i, m) && XSpans(x, toks, syms', m, j)
    ensures XSpans(x, toks, syms + syms', i, j)
  {
    hide XDerives;
    var p :| SpansAt(x, toks, syms, p) && Between(p, |syms|, i, m);
    var q :| SpansAt(x, toks, syms', q) && Between(q, |syms'|, m, j);
    var points := p + q[1..];
    forall k | 0 <= k < |syms + syms'|
      ensures XDerives(x, toks, (syms + syms')[k], points[k], points[k + 1])
    {
      if k < |syms| {
        assert XDerives(x, toks, syms[k], p[k], p[k + 1]);
      } else {
        assert XDerives(x, toks, syms'[k - |syms|], q[k - |syms|], q[k - |syms| + 1]);
      }
    }
    assert SpansAt(x, toks, syms + syms', points) && Between(points, |syms + syms'|, i, j);
  }

  lemma {:induction false} SpansOne(x: External, toks: set<Token>, s: nat, i: nat, j: nat)
    requires XDerives(x, toks, s, i, j)
    ensures XSpans(x, toks, [s], i, j)
  {
    hide XDerives;
    assert SpansAt(x, toks, [s], [i, j]) && Between([i, j], 1, i, j);
  }

  lemma {:induction false} SpansNone(x: External, toks: set<Token>, i: nat)
    ensures XSpans(x, toks, [], i, i)
  {
    hide XDerives;
    assert SpansAt(x, toks, [], [i]) && Between([i], 0, i, i);
  }

  // ---- Derivations move forward; empty ones use no token ----

  lemma {:induction false} XTreeForward(x: External, toks: set<Token>, t: XTree, s: nat, i: nat, j: nat)
    requires TokensOk(toks) && XTreeFor(x, toks, t, s, i, j)
    ensures i <= j
    decreases t
  {
    if t.XNode? {
      hide Expands;
      forall k | 0 <= k < |t.kids|
        ensures t.points[k] <= t.points[k + 1]
      {
        XTreeForward(x, toks, t.kids[k], t.syms[k], t.points[k], t.points[k + 1]);
      }
      Ascending(t.points, 0, |t.kids|);
    }
  }

  lemma {:induction false} Ascending(points: seq<nat>, a: nat, b: nat)
    requires a <= b < |points| && forall k :: 0 <= k < |points| - 1 ==> points[k] <= points[k + 1]
    ensures points[a] <= points[b]
  {
    if a < b {
      Ascending(points, a, b - 1);
    }
  }

  lemma {:induction false} XForward(x: External, toks: set<Token>, s: nat, i: nat, j: nat)
    requires TokensOk(toks) && XDerives(x, toks, s, i, j)
    ensures i <= j
  {
    var t :| XTreeFor(x, toks, t, s, i, j);
    XTreeForward(x, toks, t, s, i, j);
  }

  lemma {:induction false} SpansForward(x: External, toks: set<Token>, syms: seq<nat>, points: seq<nat>, a: nat, b: nat)
    requires TokensOk(toks) && SpansAt(x, toks, syms, points) && a <= b <= |syms|
    ensures points[a] <= points[b]
  {
    forall k | 0 <= k < |syms|
      ensures points[k] <= points[k + 1]
    {
      XForward(x, toks, syms[k], points[k], points[k + 1]);
    }
    Ascending(points, a, b);
  }

  /** The same derivation of nothing at another earleme. */
  ghost function Moved(t: XTree, j: nat): XTree
    decreases t
  {
    match t
    case XLeaf => XLeaf
    case XNode(r, syms, points, kids) =>
      XNode(r, syms, seq(|points|, _ => j), seq(|kids|, k requires 0 <= k < |kids| => Moved(kids[k], j)))
  }

  lemma {:induction false} NothingMoves(x: External, toks: set<Token>, toks': set<Token>, t: XTree, s: nat, i: nat, j: nat)
    requires TokensOk(toks) && XTreeFor(x, toks, t, s, i, i)
    ensures XTreeFor(x, toks', Moved(t, j), s, j, j)
    decreases t
  {
    if t.XNode? {
      hide Expands;
      NodeSpans(x, toks, t, s, i, i);
      var u := Moved(t, j);
      forall k | 0 <= k < |t.kids|
        ensures XTreeFor(x, toks', u.kids[k], t.syms[k], j, j)
      {
        SpansForward(x, toks, t.syms, t.points, 0, k);
        SpansForward(x, toks, t.syms, t.points, k, k + 1);
        SpansForward(x, toks, t.syms, t.points, k + 1, |t.syms|);
        NothingMoves(x, toks, toks', t.kids[k], t.syms[k], i, j);
      }
    }
  }

  lemma {:induction false} NothingAnywhere(x: External, toks: set<Token>, s: nat, j: nat)
    requires DerivesNothing(x, s)
    ensures XDerives(x, toks, s, j, j)
  {
    var i: nat :| XDerives(x, {}, s, i, i);
    var t :| XTreeFor(x, {}, t, s, i, i);
    NothingMoves(x, {}, toks, t, s, i, j);
  }

  lemma {:induction false} EmptyIsNothing(x: External, toks: set<Token>, s: nat, i: nat)
    requires TokensOk(toks) && XDerives(x, toks, s, i, i)
    ensures DerivesNothing(x, s)
  {
    var t :| XTreeFor(x, toks, t, s, i, i);
    NothingMoves(x, toks, {}, t, s, i, i);
    assert XTreeFor(x, {}, Moved(t, i), s, i, i);
    assert XDerives(x, {}, s, i, i);
  }
}
