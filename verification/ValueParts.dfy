/** What the value of a tree is made of: read from the bottom up and from left to right, its leaves
    and rules are those of the tree's and-nodes and or-nodes. */
module ValueParts {
  import opened Options
  import opened InternalRules
  import opened Bocages
  import opened Valuations

  /** What a node of a tree contributes: the leaf of an and-node, or the end of a rule. */
  datatype Part = LeafPart(andNode: nat) | RulePart(or: nat)

  /** A value and all values in it, arguments before what they are arguments of. */
  ghost function Flat(v: Value): seq<Value>
    decreases v
  {
    if v.RuleValue? then Flats(v.args) + [v] else [v]
  }

  ghost function Flats(vs: seq<Value>): seq<Value>
    decreases vs
  {
    if vs == [] then [] else Flats(vs[..|vs| - 1]) + Flat(vs[|vs| - 1])
  }

  /** The or-node is the end of a rule of the external grammar. */
  ghost predicate EndsRule(l: Labels, o: nat) {
    && o < |l.irl| && l.irl[o] < |l.rules| && o < |l.position|
    && l.position[o] == |l.rules[l.irl[o]].rhs| && !l.rules[l.irl[o]].virtualLhs
  }

  /** The parts of a tree: its predecessor's, then its cause's or its own leaf, then its rule. */
  ghost function Parts(b: Bocage, l: Labels, t: Tree): seq<Part>
    decreases t, 0
  {
    PartsOf(b, l, t.kids) + OwnLeaf(b, t.or, t.choice) + if EndsRule(l, t.or) then [RulePart(t.or)] else []
  }

  /** Of the trees below a choice the predecessor's comes second. */
  ghost function PartsOf(b: Bocage, l: Labels, ts: Trees): seq<Part>
    decreases ts, 1
  {
    match ts
    case Nil => []
    case Cons(t, rest) => PartsOf(b, l, rest) + Parts(b, l, t)
  }

  /** The and-nodes of an or-node in their order: those of its ordering, if it has one. */
  ghost function AndList(b: Bocage, o: nat): seq<nat> {
    if o in b.orderings then b.orderings[o]
    else if o < |b.ors| then seq(b.ors[o].andCount, k => b.ors[o].firstAnd + k) else []
  }

  /** The and-node chosen is a leaf if it has no cause. */
  ghost function OwnLeaf(b: Bocage, o: nat, c: nat): seq<Part> {
    if c < |AndList(b, o)| && AndList(b, o)[c] < |b.ands| && b.ands[AndList(b, o)[c]].cause.None? then [LeafPart(AndList(b, o)[c])] else []
  }

  /** A token is its symbol and value, a nulling symbol its symbol, and a rule its number. */
  ghost predicate IsPart(l: Labels, v: Value, p: Part) {
    match p
    case LeafPart(id) =>
      && id < |l.leaf| && v.RuleValue? == false && v.xsy == l.leaf[id].xsy
      && (v.TokenValue? <==> l.leaf[id].Token?) && (v.TokenValue? ==> v.value == l.leaf[id].value)
    case RulePart(o) =>
      o < |l.irl| && l.irl[o] < |l.rules| && v.RuleValue? && v.rule == l.rules[l.irl[o]].source
  }

  ghost predicate Matches(l: Labels, vs: seq<Value>, ps: seq<Part>) {
    |vs| == |ps| && forall i :: 0 <= i < |vs| ==> IsPart(l, vs[i], ps[i])
  }

  lemma {:induction false} MatchesConcat(l: Labels, vs: seq<Value>, ps: seq<Part>, ws: seq<Value>, qs: seq<Part>)
    requires Matches(l, vs, ps) && Matches(l, ws, qs)
    ensures Matches(l, vs + ws, ps + qs)
  {
    hide IsPart;
  }

  lemma {:induction false} FlatsConcat(vs: seq<Value>, ws: seq<Value>)
    ensures Flats(vs + ws) == Flats(vs) + Flats(ws)
    decreases |ws|
  {
    hide Flat;
    if ws == [] {
      assert vs + ws == vs;
    } else {
      var k := |ws| - 1;
      FlatsConcat(vs, ws[..k]);
      assert (vs + ws)[..|vs + ws| - 1] == vs + ws[..k];
    }
  }

  lemma {:induction false} FlatsOne(v: Value)
    ensures Flats([v]) == Flat(v)
  {
    assert [v][..0] == [];
  }

  /** The values that trees leave, read in this order, are the parts of the trees. */
  lemma {:induction false} TreeParts(b: Bocage, l: Labels, ts: Trees, agenda: seq<nat>)
    requires LabelsOk(b, l) && TreesFor(b, ts, agenda)
    ensures Matches(l, Flats(Outs(b, l, ts)), PartsOf(b, l, ts))
    decreases ts
  {
    match ts
    case Nil =>
    case Cons(t, rest) =>
      TreeParts(b, l, rest, agenda[1..]);
      TreeParts(b, l, t.kids, Kids(b, t.or, t.choice));
      LeafPartIs(b, l, t.or, t.choice);
      assert Choice(b, t.or, t.choice);
      EndsIs(b, l, t.or, t.choice);
      hide LabelsOk, TreesFor, Choice, Matches, Flats, LeafSlots, OwnLeaf, EndsRule, Done;
      FlatsConcat(Outs(b, l, t.kids), LeafSlots(b, l, t.or, t.choice));
      MatchesConcat(l, Flats(Outs(b, l, t.kids)), PartsOf(b, l, t.kids), Flats(LeafSlots(b, l, t.or, t.choice)), OwnLeaf(b, t.or, t.choice));
      RuleEnd(b, l, t);
      FlatsConcat(Outs(b, l, rest), Out(b, l, t));
      MatchesConcat(l, Flats(Outs(b, l, rest)), PartsOf(b, l, rest), Flats(Out(b, l, t)), Parts(b, l, t));
  }

  lemma {:induction false} LeafPartIs(b: Bocage, l: Labels, o: nat, c: nat)
    requires LabelsOk(b, l) && Choice(b, o, c)
    ensures Matches(l, Flats(LeafSlots(b, l, o, c)), OwnLeaf(b, o, c))
  {
    assert AndId(b, o, c) == AndList(b, o)[c];
    if AndAt(b, o, c).cause.None? {
      FlatsOne(LeafValue(LeafAt(b, l, o, c)));
    }
  }

  lemma {:induction false} EndsIs(b: Bocage, l: Labels, o: nat, c: nat)
    requires LabelsOk(b, l) && Choice(b, o, c)
    ensures EndsRule(l, o) <==> Done(l, o) && !RuleOf(l, o).virtualLhs
    ensures EndsRule(l, o) ==> RuleOf(l, o) == l.rules[l.irl[o]]
  {
    assert AndOk(l, o, AndAt(b, o, c));
  }

  /** The end of a rule comes after everything in it. */
  lemma {:induction false} RuleEnd(b: Bocage, l: Labels, t: Tree)
    requires Matches(l, Flats(Slots(b, l, t)), PartsOf(b, l, t.kids) + OwnLeaf(b, t.or, t.choice))
    requires EndsRule(l, t.or) <==> Done(l, t.or) && !RuleOf(l, t.or).virtualLhs
    requires EndsRule(l, t.or) ==> RuleOf(l, t.or) == l.rules[l.irl[t.or]]
    ensures Matches(l, Flats(Out(b, l, t)), Parts(b, l, t))
  {
    hide Slots, Outs, OwnLeaf, Flats;
    if EndsRule(l, t.or) {
      var v := RuleValue(RuleOf(l, t.or).source, Slots(b, l, t));
      FlatsOne(v);
      MatchesConcat(l, Flats(Slots(b, l, t)), PartsOf(b, l, t.kids) + OwnLeaf(b, t.or, t.choice), [v], [RulePart(t.or)]);
    } else {
      assert Parts(b, l, t) == PartsOf(b, l, t.kids) + OwnLeaf(b, t.or, t.choice);
    }
  }
}
