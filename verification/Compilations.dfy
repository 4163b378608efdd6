/** A compiled grammar: the external grammar, the census, and the internal grammar made of them. */
module Compilations {
  import opened Options
  import opened Grammars
  import opened Derivations
  import opened InternalRules
  import opened Externals
  import opened Pieces
  import opened Encodings

  /** The rewritten grammar, with what each of its symbols and rules stands for. */
  datatype Compiled = Compiled(x: External, c: Census, nsys: seq<Nsy>, nsyOf: map<nat, nat>, nullOf: map<nat, nat>,
                               irls: seq<Rule>, plans: seq<Plan>, g: Grammar)

  /** A symbol that derives nothing but the empty string. */
  ghost predicate OnlyNothing(x: External, s: nat) {
    forall toks: set<Token>, i: nat, j: nat :: TokensOk(toks) && XDerives(x, toks, s, i, j) ==> i == j
  }

  /** A rule that derives something, for a symbol that matters. */
  ghost predicate DerivesSome(x: External, toks: set<Token>, r: nat, syms: seq<nat>, i: nat, j: nat) {
    TokensOk(toks) && r < |x.xrls| && Expands(x.xrls[r], syms) && XSpans(x, toks, syms, i, j) && i < j
  }

  /** The symbol is a terminal, and one token of it is there. */
  ghost predicate OwnToken(x: External, toks: set<Token>, s: nat, i: nat, j: nat) {
    s in x.terminals && Token(s, i, j) in toks
  }

  /** What the census says is true of derivations: which symbols can be empty, which must
      be, and that a rule is left out only if it derives nothing but tokens of its own
      left-hand side. */
  ghost predicate CensusOk(x: External, c: Census) {
    && (forall s: nat :: s in c.nullable <==> DerivesNothing(x, s))
    && (forall s: nat :: s in c.nulling ==> OnlyNothing(x, s))
    && (forall toks: set<Token>, r: nat, syms: seq<nat>, i: nat, j: nat ::
         DerivesSome(x, toks, r, syms, i, j) && x.xrls[r].lhs in c.known ==> r in c.used || OwnToken(x, toks, x.xrls[r].lhs, i, j))
  }

  /** The grammar that the recognizer runs on has these rules and these nulling symbols. */
  ghost predicate GrammarIs(k: Compiled) {
    && |k.g.irls| == |k.irls| && k.g.startIrl == |k.irls| - 1
    && (forall r :: 0 <= r < |k.irls| ==> k.g.irls[r] == Irl(k.irls[r].lhs, k.irls[r].rhs))
    && (forall n: nat :: n in k.g.nulling <==> n < |k.nsys| && k.nsys[n].Null?)
  }

  /** The rewrite was carried out; nothing is said of what the census means. */
  ghost predicate Rewrote(k: Compiled) {
    && Ready(k.x, k.c) && Distinct(k.nsys)
    && SymbolsAre(k.c, k.nsys, k.nsyOf, k.nullOf, k.x.xsyCount)
    && RulesAre(k.x, k.c, k.nsys, k.irls, k.plans)
    && Rewritten(k.x, k.c, k.nsys, k.plans)
    && GrammarIs(k)
  }

  /** A token of an external symbol is read as a token of its internal symbol. */
  ghost predicate TokensAre(k: Compiled, toks: set<Token>, itoks: set<Token>) {
    forall t: Token :: t in itoks <==>
      && t.sym < |k.nsys| && k.nsys[t.sym].Whole? && k.nsys[t.sym].xsy in k.x.terminals
      && Token(k.nsys[t.sym].xsy, t.from, t.to) in toks
  }
}
