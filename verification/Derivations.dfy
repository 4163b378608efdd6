/** What the recognizer's items mean, independently of how it computes them:
    derivation trees over a lattice of tokens with lengths. */
module Derivations {
  import opened Grammars

  /** Symbol `sym` was read from earleme `from` up to earleme `to`. */
  datatype Token = Token(sym: nat, from: nat, to: nat)

  /** A tree is a token or a rule over the trees of its proper symbols; a forest
      is built left to right, as the dot moves, with the split point of each step. */
  datatype Tree = Leaf | Node(irl: nat, kids: Forest)
  datatype Forest = Nil | Snoc(init: Forest, mid: nat, last: Tree)

  ghost predicate TokensOk(toks: set<Token>) {
    forall k :: k in toks ==> k.from < k.to
  }

  /** Tree `t` derives symbol `s` over the tokens from `i` to `j`. */
  ghost predicate TreeFor(g: Grammar, toks: set<Token>, t: Tree, s: nat, i: nat, j: nat)
    decreases t
  {
    match t
    case Leaf => Token(s, i, j) in toks
    case Node(r, kids) =>
      r < |g.irls| && g.irls[r].lhs == s && ForestFor(g, toks, kids, r, |P(g, r)|, i, j)
  }

  /** Forest `f` derives the first `q` proper symbols of rule `r` from `i` to `j`. */
  ghost predicate ForestFor(g: Grammar, toks: set<Token>, f: Forest, r: nat, q: nat, i: nat, j: nat)
    decreases f
  {
    && IsItem(g, r, q)
    && match f
       case Nil => q == 0 && i == j
       case Snoc(init, mid, last) =>
         && q > 0
         && ForestFor(g, toks, init, r, q - 1, i, mid)
         && TreeFor(g, toks, last, P(g, r)[q - 1], mid, j)
  }

  /** How rule `r` came to be predicted at `i`: it is the start rule, or its
      left-hand side follows the dot of an item that reaches `i`. */
  datatype Route = Start | Via(up: Route, irl: nat, q: nat, from: nat, kids: Forest)

  ghost predicate RouteFor(g: Grammar, toks: set<Token>, p: Route, r: nat, i: nat)
    decreases p
  {
    && r < |g.irls|
    && match p
       case Start => r == g.startIrl && i == 0
       case Via(up, r', q, from, kids) =>
         && RouteFor(g, toks, up, r', from)
         && ForestFor(g, toks, kids, r', q, from, i)
         && q < |P(g, r')| && P(g, r')[q] == g.irls[r].lhs
  }

  ghost predicate Derives(g: Grammar, toks: set<Token>, s: nat, i: nat, j: nat) {
    exists t :: TreeFor(g, toks, t, s, i, j)
  }

  ghost predicate Spans(g: Grammar, toks: set<Token>, r: nat, q: nat, i: nat, j: nat) {
    exists f :: ForestFor(g, toks, f, r, q, i, j)
  }

  ghost predicate Predicted(g: Grammar, toks: set<Token>, r: nat, i: nat) {
    exists p :: RouteFor(g, toks, p, r, i)
  }

  /** The meaning of an Earley item: rule `r` is predicted at `i` and its first
      `q` proper symbols derive the tokens from `i` to `j`. */
  ghost predicate Valid(g: Grammar, toks: set<Token>, r: nat, q: nat, i: nat, j: nat) {
    IsItem(g, r, q) && Predicted(g, toks, r, i) && Spans(g, toks, r, q, i, j)
  }

  lemma {:induction false} RouteIsPrediction(g: Grammar, toks: set<Token>, p: Route, r: nat, i: nat)
    requires RouteFor(g, toks, p, r, i)
    ensures Predicted(g, toks, r, i)
  {
  }

  // ---- Derivations move forward ----

  lemma {:induction false} TreeForward(g: Grammar, toks: set<Token>, t: Tree, s: nat, i: nat, j: nat)
    requires RulesOk(g) && TokensOk(toks) && TreeFor(g, toks, t, s, i, j)
    ensures i < j
    decreases t
  {
    match t
    case Leaf =>
    case Node(r, kids) => ForestForward(g, toks, kids, r, |P(g, r)|, i, j);
  }

  /** No rule is empty, so a dot past the start has moved strictly forward. */
  lemma {:induction false} ForestForward(g: Grammar, toks: set<Token>, f: Forest, r: nat, q: nat, i: nat, j: nat)
    requires RulesOk(g) && TokensOk(toks) && ForestFor(g, toks, f, r, q, i, j)
    ensures i <= j && (q > 0 ==> i < j)
    decreases f
  {
    match f
    case Nil =>
    case Snoc(init, mid, last) =>
      ForestForward(g, toks, init, r, q - 1, i, mid);
      TreeForward(g, toks, last, P(g, r)[q - 1], mid, j);
  }

  lemma {:induction false} ValidForward(g: Grammar, toks: set<Token>, r: nat, q: nat, i: nat, j: nat)
    requires RulesOk(g) && TokensOk(toks) && Valid(g, toks, r, q, i, j)
    ensures i <= j && (q > 0 ==> i < j) && (q == 0 ==> i == j)
  {
    var f :| ForestFor(g, toks, f, r, q, i, j);
    ForestForward(g, toks, f, r, q, i, j);
  }

  // ---- Only tokens that end by `e` matter up to `e` ----

  /** Every token of `toks` that ends by `e` is in `toks'`. */
  ghost predicate Upto(toks: set<Token>, toks': set<Token>, e: nat) {
    forall k :: k in toks && k.to <= e ==> k in toks'
  }

  lemma {:induction false} TreeUpto(g: Grammar, toks: set<Token>, toks': set<Token>, e: nat, t: Tree, s: nat, i: nat, j: nat)
    requires RulesOk(g) && TokensOk(toks) && Upto(toks, toks', e) && j <= e
    requires TreeFor(g, toks, t, s, i, j)
    ensures TreeFor(g, toks', t, s, i, j)
    decreases t
  {
    match t
    case Leaf =>
    case Node(r, kids) => ForestUpto(g, toks, toks', e, kids, r, |P(g, r)|, i, j);
  }

  lemma {:induction false} ForestUpto(g: Grammar, toks: set<Token>, toks': set<Token>, e: nat, f: Forest, r: nat, q: nat, i: nat, j: nat)
    requires RulesOk(g) && TokensOk(toks) && Upto(toks, toks', e) && j <= e
    requires ForestFor(g, toks, f, r, q, i, j)
    ensures ForestFor(g, toks', f, r, q, i, j)
    decreases f
  {
    match f
    case Nil =>
    case Snoc(init, mid, last) =>
      TreeForward(g, toks, last, P(g, r)[q - 1], mid, j);
      ForestUpto(g, toks, toks', e, init, r, q - 1, i, mid);
      TreeUpto(g, toks, toks', e, last, P(g, r)[q - 1], mid, j);
  }

  lemma {:induction false} RouteUpto(g: Grammar, toks: set<Token>, toks': set<Token>, e: nat, p: Route, r: nat, i: nat)
    requires RulesOk(g) && TokensOk(toks) && Upto(toks, toks', e) && i <= e
    requires RouteFor(g, toks, p, r, i)
    ensures RouteFor(g, toks', p, r, i)
    decreases p
  {
    match p
    case Start =>
    case Via(up, r', q, from, kids) =>
      ForestForward(g, toks, kids, r', q, from, i);
      ForestUpto(g, toks, toks', e, kids, r', q, from, i);
      RouteUpto(g, toks, toks', e, up, r', from);
  }

  lemma {:induction false} ValidUpto(g: Grammar, toks: set<Token>, toks': set<Token>, e: nat, r: nat, q: nat, i: nat, j: nat)
    requires RulesOk(g) && TokensOk(toks) && Upto(toks, toks', e) && j <= e
    requires Valid(g, toks, r, q, i, j)
    ensures Valid(g, toks', r, q, i, j)
  {
    ValidForward(g, toks, r, q, i, j);
    var f :| ForestFor(g, toks, f, r, q, i, j);
    ForestUpto(g, toks, toks', e, f, r, q, i, j);
    var p :| RouteFor(g, toks, p, r, i);
    RouteUpto(g, toks, toks', e, p, r, i);
  }

  // ---- The three Earley operations preserve validity ----

  lemma {:induction false} CompleteDerives(g: Grammar, toks: set<Token>, r: nat, i: nat, j: nat)
    requires r < |g.irls| && Valid(g, toks, r, |P(g, r)|, i, j)
    ensures Derives(g, toks, g.irls[r].lhs, i, j)
  {
    var f :| ForestFor(g, toks, f, r, |P(g, r)|, i, j);
    assert TreeFor(g, toks, Node(r, f), g.irls[r].lhs, i, j);
  }

  lemma {:induction false} TokenDerives(g: Grammar, toks: set<Token>, s: nat, i: nat, j: nat)
    requires Token(s, i, j) in toks
    ensures Derives(g, toks, s, i, j)
  {
    assert TreeFor(g, toks, Leaf, s, i, j);
  }

  lemma {:induction false} Advance(g: Grammar, toks: set<Token>, r: nat, q: nat, i: nat, m: nat, j: nat)
    requires Valid(g, toks, r, q, i, m) && q < |P(g, r)|
    requires Derives(g, toks, P(g, r)[q], m, j)
    ensures Valid(g, toks, r, q + 1, i, j)
  {
    var f :| ForestFor(g, toks, f, r, q, i, m);
    var t :| TreeFor(g, toks, t, P(g, r)[q], m, j);
    assert ForestFor(g, toks, Snoc(f, m, t), r, q + 1, i, j);
  }

  lemma {:induction false} Predict(g: Grammar, toks: set<Token>, r: nat, q: nat, i: nat, j: nat, r': nat)
    requires Valid(g, toks, r, q, i, j) && q < |P(g, r)|
    requires r' < |g.irls| && g.irls[r'].lhs == P(g, r)[q]
    ensures Valid(g, toks, r', 0, j, j)
  {
    var f :| ForestFor(g, toks, f, r, q, i, j);
    var p :| RouteFor(g, toks, p, r, i);
    assert RouteFor(g, toks, Via(p, r, q, i, f), r', j);
    assert ForestFor(g, toks, Nil, r', 0, j, j);
  }

  /** Prediction through a chain of left corners. */
  lemma {:induction false} PredictPath(g: Grammar, toks: set<Token>, r: nat, q: nat, i: nat, j: nat, path: seq<nat>, r': nat)
    requires Valid(g, toks, r, q, i, j) && q < |P(g, r)|
    requires r' < |g.irls| && LeftPath(g, path, P(g, r)[q], g.irls[r'].lhs)
    ensures Valid(g, toks, r', 0, j, j)
    decreases |path|
  {
    if |path| == 1 {
      Predict(g, toks, r, q, i, j, r');
    } else {
      assert LeftEdge(g, path[0], path[1]);
      var m :| RuleLeft(g, m, path[0], path[1]);
      Predict(g, toks, r, q, i, j, m);
      var rest := path[1..];
      forall k | 0 <= k < |rest| - 1
        ensures LeftEdge(g, rest[k], rest[k + 1])
      {
        assert LeftEdge(g, path[k + 1], path[k + 1 + 1]);
      }
      assert LeftPath(g, rest, P(g, m)[0], g.irls[r'].lhs);
      PredictPath(g, toks, m, 0, j, j, rest, r');
    }
  }
}
