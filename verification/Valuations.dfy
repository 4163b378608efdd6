/** What the value of a parse tree is, and the stack steps that compute it. */
module Valuations {
  import opened Options
  import opened InternalRules
  import opened Bocages

  /** What a cause is when it is not an or-node. */
  datatype Leaf = Token(xsy: nat, value: int) | Nulling(xsy: nat)

  /** The dotted rule of each or-node, and the leaf of each and-node without a cause. */
  datatype Labels = Labels(rules: seq<Rule>, virtual: set<nat>, irl: seq<nat>, position: seq<nat>, leaf: seq<Leaf>)

  /** What the callbacks are given, kept as a term. */
  datatype Value = TokenValue(xsy: nat, value: int) | NullValue(xsy: nat) | RuleValue(rule: nat, args: seq<Value>)

  function RuleOf(l: Labels, o: nat): Rule {
    if o < |l.irl| && l.irl[o] < |l.rules| then l.rules[l.irl[o]] else Rule(0, [], false, false, 0, 0)
  }

  function Position(l: Labels, o: nat): nat {
    if o < |l.position| then l.position[o] else 0
  }

  /** The dot of the or-node is at the end of its rule. */
  predicate Done(l: Labels, o: nat) {
    Position(l, o) == |RuleOf(l, o).rhs|
  }

  function AndAt(b: Bocage, o: nat, c: nat): And {
    if IxIsValid(b, o, c) && AndId(b, o, c) < |b.ands| then b.ands[AndId(b, o, c)] else And(None, None)
  }

  function LeafAt(b: Bocage, l: Labels, o: nat, c: nat): Leaf {
    if IxIsValid(b, o, c) && AndId(b, o, c) < |l.leaf| then l.leaf[AndId(b, o, c)] else Nulling(0)
  }

  /** The predecessor covers one symbol less of the same rule; the cause is a completed
      rule for the last symbol, or a leaf, which is never virtual. */
  ghost predicate AndOk(l: Labels, o: nat, a: And) {
    && 1 <= Position(l, o) <= |RuleOf(l, o).rhs|
    && CountsOk(l.virtual, RuleOf(l, o))
    && var last := RuleOf(l, o).rhs[Position(l, o) - 1];
    && (a.pred.None? <==> Position(l, o) == 1)
    && (a.pred.Some? ==> RuleOf(l, a.pred.value) == RuleOf(l, o) && Position(l, a.pred.value) + 1 == Position(l, o))
    && (a.cause.Some? ==> Done(l, a.cause.value) && RuleOf(l, a.cause.value).lhs == last
                          && CountsOk(l.virtual, RuleOf(l, a.cause.value)))
    && (a.cause.None? ==> last !in l.virtual)
  }

  ghost predicate LabelsOk(b: Bocage, l: Labels) {
    && BocageOk(b) && |l.leaf| == |b.ands|
    && (forall o: nat, c: nat :: Choice(b, o, c) ==> AndOk(l, o, AndAt(b, o, c)))
  }

  // ---- The value of a tree, bottom up ----

  function LeafValue(leaf: Leaf): Value {
    match leaf
    case Token(x, v) => TokenValue(x, v)
    case Nulling(x) => NullValue(x)
  }

  ghost function LeafSlots(b: Bocage, l: Labels, o: nat, c: nat): seq<Value> {
    if AndAt(b, o, c).cause.None? then [LeafValue(LeafAt(b, l, o, c))] else []
  }

  /** The values of the symbols before the dot of the tree's root, left to right; those of
      a virtual symbol are taken up in its place. */
  ghost function Slots(b: Bocage, l: Labels, t: Tree): seq<Value>
    decreases t, 0
  {
    Outs(b, l, t.kids) + LeafSlots(b, l, t.or, t.choice)
  }

  /** A completed external rule is one value, made from those of its symbols. */
  ghost function Out(b: Bocage, l: Labels, t: Tree): seq<Value>
    decreases t, 1
  {
    if Done(l, t.or) && !RuleOf(l, t.or).virtualLhs then [RuleValue(RuleOf(l, t.or).source, Slots(b, l, t))]
    else Slots(b, l, t)
  }

  /** The predecessor, which comes second, stands left of the cause. */
  ghost function Outs(b: Bocage, l: Labels, ts: Trees): seq<Value>
    decreases ts, 2
  {
    match ts
    case Nil => []
    case Cons(t, rest) => Outs(b, l, rest) + Out(b, l, t)
  }

  /** The counts that a tree leaves: one for a completed virtual symbol. */
  ghost function Mark(b: Bocage, l: Labels, t: Tree): seq<nat>
    decreases t, 1
  {
    if !Done(l, t.or) then Marks(b, l, t.kids)
    else if RuleOf(l, t.or).virtualLhs then [|Slots(b, l, t)|]
    else []
  }

  ghost function Marks(b: Bocage, l: Labels, ts: Trees): seq<nat>
    decreases ts, 2
  {
    match ts
    case Nil => []
    case Cons(t, rest) => Marks(b, l, rest) + Mark(b, l, t)
  }

  ghost function Sum(s: seq<nat>): nat {
    if s == [] then 0 else Sum(s[..|s| - 1]) + s[|s| - 1]
  }

  lemma {:induction false} SumConcat(s: seq<nat>, t: seq<nat>)
    ensures Sum(s + t) == Sum(s) + Sum(t)
    decreases |t|
  {
    if t == [] {
      assert s + t == s;
    } else {
      var k := |t| - 1;
      SumConcat(s, t[..k]);
      assert (s + t)[..|s + t| - 1] == s + t[..k];
    }
  }

  lemma {:induction false} SumOne(x: nat)
    ensures Sum([x]) == x
  {
    assert [x][..0] == [];
  }

  /** Before the dot, every symbol that is not virtual has one slot, and every virtual
      one has left its count. */
  lemma {:induction false} SlotCount(b: Bocage, l: Labels, t: Tree)
    requires LabelsOk(b, l) && TreesFor(b, Cons(t, Nil), [t.or])
    ensures 1 <= Position(l, t.or) <= |RuleOf(l, t.or).rhs|
    ensures var before := RuleOf(l, t.or).rhs[..Position(l, t.or)];
            && |Marks(b, l, t.kids)| == Virtuals(l.virtual, before)
            && |Slots(b, l, t)| == Sum(Marks(b, l, t.kids)) + Reals(l.virtual, before)
    decreases t
  {
    KidsShape(b, l, t);
    var a := AndAt(b, t.or, t.choice);
    var n := Position(l, t.or);
    var rhs := RuleOf(l, t.or).rhs;
    var leaf := LeafSlots(b, l, t.or, t.choice);
    assert LeafSlots(b, l, t.or, t.choice) == [] || |leaf| == 1;
    hide LabelsOk, TreesFor, AndAt, LeafSlots, RuleOf, Position, CountsOk, Outs, Marks, Virtuals, Reals, Sum;
    if a.pred.Some? && a.cause.Some? {
      var c, p := t.kids.first, t.kids.rest.first;
      SlotCount(b, l, p);
      PredCounts(b, l, p);
      CauseCounts(b, l, c);
      TwoKids(b, l, c, p);
      AddLast(l.virtual, rhs, n, Out(b, l, p), Mark(b, l, p), Out(b, l, c), Mark(b, l, c));
      Tails(Outs(b, l, t.kids), leaf);
    } else if a.pred.Some? {
      var p := t.kids.first;
      SlotCount(b, l, p);
      PredCounts(b, l, p);
      OneKid(b, l, p);
      AddLast(l.virtual, rhs, n, Out(b, l, p), Mark(b, l, p), leaf, []);
      Tails(Mark(b, l, p), []);
    } else if a.cause.Some? {
      var c := t.kids.first;
      CauseCounts(b, l, c);
      OneKid(b, l, c);
      FirstLast(l.virtual, rhs, Out(b, l, c), Mark(b, l, c));
      Tails(Outs(b, l, t.kids), leaf);
    } else {
      NoKids(b, l);
      FirstLast(l.virtual, rhs, leaf, []);
    }
  }

  lemma {:induction false} NoKids(b: Bocage, l: Labels)
    ensures Outs(b, l, Nil) == [] && Marks(b, l, Nil) == []
  {
  }

  /** One more symbol before the dot: its slots, and its count if it is virtual. */
  lemma {:induction false} AddLast(virtual: set<nat>, rhs: seq<nat>, n: nat, ps: seq<Value>, pm: seq<nat>, cs: seq<Value>, cm: seq<nat>)
    requires 1 <= n <= |rhs|
    requires |pm| == Virtuals(virtual, rhs[..n - 1]) && |ps| == Sum(pm) + Reals(virtual, rhs[..n - 1])
    requires rhs[n - 1] in virtual ==> |cm| == 1 && Sum(cm) == |cs|
    requires rhs[n - 1] !in virtual ==> cm == [] && |cs| == 1
    ensures |pm + cm| == Virtuals(virtual, rhs[..n]) && |ps + cs| == Sum(pm + cm) + Reals(virtual, rhs[..n])
  {
    assert rhs[..n][..n - 1] == rhs[..n - 1];
    SumConcat(pm, cm);
    assert Sum([]) == 0;
  }

  lemma {:induction false} FirstLast(virtual: set<nat>, rhs: seq<nat>, cs: seq<Value>, cm: seq<nat>)
    requires 1 <= |rhs|
    requires rhs[0] in virtual ==> |cm| == 1 && Sum(cm) == |cs|
    requires rhs[0] !in virtual ==> cm == [] && |cs| == 1
    ensures |cm| == Virtuals(virtual, rhs[..1]) && |cs| == Sum(cm) + Reals(virtual, rhs[..1])
  {
    AddLast(virtual, rhs, 1, [], [], cs, cm);
    assert [] + cs == cs && [] + cm == cm;
  }

  /** The trees of an agenda with no, one or two or-nodes. */
  ghost predicate IsTreeAt(b: Bocage, t: Tree, o: nat) {
    t.or == o && TreesFor(b, Cons(t, Nil), [t.or])
  }

  lemma {:induction false} OneFor(b: Bocage, ts: Trees, o: nat)
    requires TreesFor(b, ts, [o])
    ensures ts.Cons? && ts.rest == Nil && IsTreeAt(b, ts.first, o)
  {
    assert [o][1..] == [];
    assert [ts.first.or][1..] == [];
  }

  lemma {:induction false} TwoFor(b: Bocage, ts: Trees, o: nat, p: nat)
    requires TreesFor(b, ts, [o, p])
    ensures ts.Cons? && IsTreeAt(b, ts.first, o) && ts.rest.Cons? && ts.rest.rest == Nil && IsTreeAt(b, ts.rest.first, p)
  {
    assert [o, p][1..] == [p];
    assert [ts.first.or][1..] == [];
    OneFor(b, ts.rest, p);
  }

  /** The kids of a tree: a cause tree, a predecessor tree, or both, or none. */
  lemma {:induction false} KidsShape(b: Bocage, l: Labels, t: Tree)
    requires LabelsOk(b, l) && TreesFor(b, Cons(t, Nil), [t.or])
    ensures var a := AndAt(b, t.or, t.choice);
            && AndOk(l, t.or, a)
            && (a.cause.Some? && a.pred.None? ==> t.kids.Cons? && t.kids.rest == Nil && IsTreeAt(b, t.kids.first, a.cause.value))
            && (a.cause.Some? && a.pred.Some? ==> t.kids.Cons? && IsTreeAt(b, t.kids.first, a.cause.value)
                                                  && t.kids.rest.Cons? && t.kids.rest.rest == Nil && IsTreeAt(b, t.kids.rest.first, a.pred.value))
            && (a.cause.None? && a.pred.Some? ==> t.kids.Cons? && t.kids.rest == Nil && IsTreeAt(b, t.kids.first, a.pred.value))
            && (a.cause.None? && a.pred.None? ==> t.kids == Nil)
  {
    RootChoice(b, l, t);
    hide *;
    var a := AndAt(b, t.or, t.choice);
    if a.cause.Some? && a.pred.Some? {
      TwoFor(b, t.kids, a.cause.value, a.pred.value);
    } else if a.cause.Some? {
      OneFor(b, t.kids, a.cause.value);
    } else if a.pred.Some? {
      OneFor(b, t.kids, a.pred.value);
    } else {
    }
  }

  lemma {:induction false} RootChoice(b: Bocage, l: Labels, t: Tree)
    requires LabelsOk(b, l) && TreesFor(b, Cons(t, Nil), [t.or])
    ensures var a := AndAt(b, t.or, t.choice);
            && AndOk(l, t.or, a)
            && (a.cause.Some? && a.pred.Some? ==> TreesFor(b, t.kids, [a.cause.value, a.pred.value]))
            && (a.cause.Some? && a.pred.None? ==> TreesFor(b, t.kids, [a.cause.value]))
            && (a.cause.None? && a.pred.Some? ==> TreesFor(b, t.kids, [a.pred.value]))
            && (a.cause.None? && a.pred.None? ==> TreesFor(b, t.kids, []))
  {
    var a := AndAt(b, t.or, t.choice);
    assert TreesFor(b, t.kids, Kids(b, t.or, t.choice)) && Choice(b, t.or, t.choice);
    KidsList(b, t.or, t.choice);
  }

  lemma {:induction false} KidsList(b: Bocage, o: nat, c: nat)
    requires Choice(b, o, c)
    ensures var a := AndAt(b, o, c);
            Kids(b, o, c) == (if a.cause.Some? then (if a.pred.Some? then [a.cause.value, a.pred.value] else [a.cause.value])
                              else if a.pred.Some? then [a.pred.value] else [])
  {
  }

  lemma {:induction false} OneKid(b: Bocage, l: Labels, t: Tree)
    ensures Outs(b, l, Cons(t, Nil)) == Out(b, l, t) && Marks(b, l, Cons(t, Nil)) == Mark(b, l, t)
  {
  }

  lemma {:induction false} TwoKids(b: Bocage, l: Labels, c: Tree, p: Tree)
    ensures Outs(b, l, Cons(c, Cons(p, Nil))) == Out(b, l, p) + Out(b, l, c)
    ensures Marks(b, l, Cons(c, Cons(p, Nil))) == Mark(b, l, p) + Mark(b, l, c)
    ensures Sum(Mark(b, l, p) + Mark(b, l, c)) == Sum(Mark(b, l, p)) + Sum(Mark(b, l, c))
  {
    OneKid(b, l, p);
    SumConcat(Mark(b, l, p), Mark(b, l, c));
  }

  lemma {:induction false} PredCounts(b: Bocage, l: Labels, p: Tree)
    requires !Done(l, p.or)
    ensures Out(b, l, p) == Slots(b, l, p) && Mark(b, l, p) == Marks(b, l, p.kids)
  {
  }

  lemma {:induction false} CauseCounts(b: Bocage, l: Labels, c: Tree)
    requires Done(l, c.or) && CountsOk(l.virtual, RuleOf(l, c.or))
    ensures RuleOf(l, c.or).lhs in l.virtual ==> |Mark(b, l, c)| == 1 && Sum(Mark(b, l, c)) == |Out(b, l, c)|
    ensures RuleOf(l, c.or).lhs !in l.virtual ==> Mark(b, l, c) == [] && |Out(b, l, c)| == 1
  {
    hide Slots;
    SumOne(|Slots(b, l, c)|);
  }

  // ---- The steps ----

  /** The value stack and the stack of counts. */
  datatype Machine = Machine(vals: seq<Value>, counts: seq<nat>)

  /** The end of a rule: a virtual one counts its symbols, any other takes its values. */
  ghost function Finish(l: Labels, o: nat, m: Machine): Option<Machine> {
    var r := RuleOf(l, o);
    var k := |m.counts| - 1;
    if !Done(l, o) then Some(m)
    else if r.virtualRhs && k < 0 then None
    else if r.virtualLhs && r.virtualRhs then Some(Machine(m.vals, m.counts[..k] + [m.counts[k] + r.realCount]))
    else if r.virtualLhs then Some(Machine(m.vals, m.counts + [r.realCount]))
    else
      var n := if r.virtualRhs then r.realCount + m.counts[k] else |r.rhs|;
      if n > |m.vals| then None
      else Some(Machine(m.vals[..|m.vals| - n] + [RuleValue(r.source, m.vals[|m.vals| - n..])],
                        if r.virtualRhs then m.counts[..k] else m.counts))
  }

  ghost function Visit(b: Bocage, l: Labels, o: nat, c: nat, m: Machine): Option<Machine> {
    Finish(l, o, Machine(m.vals + LeafSlots(b, l, o, c), m.counts))
  }

  /** Visits from the last entry to the first. */
  ghost function VisitAll(b: Bocage, l: Labels, entries: seq<(nat, nat)>, m: Machine): Option<Machine>
    decreases |entries|
  {
    if entries == [] then Some(m)
    else
      var after := VisitAll(b, l, entries[1..], m);
      if after.None? then None else Visit(b, l, entries[0].0, entries[0].1, after.value)
  }

  /** The or-nodes and choices of the trees in the order of the nook stack. */
  ghost function Entries(ts: Trees): seq<(nat, nat)>
    decreases ts
  {
    match ts
    case Nil => []
    case Cons(t, rest) => [(t.or, t.choice)] + Entries(t.kids) + Entries(rest)
  }

  lemma {:induction false} RunConcat(b: Bocage, l: Labels, s: seq<(nat, nat)>, t: seq<(nat, nat)>, m: Machine)
    requires VisitAll(b, l, t, m).Some?
    ensures VisitAll(b, l, s + t, m) == VisitAll(b, l, s, VisitAll(b, l, t, m).value)
    decreases |s|
  {
    hide Visit;
    if s == [] {
      assert s + t == t;
    } else {
      RunConcat(b, l, s[1..], t, m);
      assert (s + t)[1..] == s[1..] + t;
    }
  }

  /** Completing a rule when its symbols' values and counts are on the stacks. */
  lemma {:induction false} CompleteTree(b: Bocage, l: Labels, t: Tree, m: Machine)
    requires LabelsOk(b, l) && TreesFor(b, Cons(t, Nil), [t.or])
    ensures Finish(l, t.or, Machine(m.vals + Slots(b, l, t), m.counts + Marks(b, l, t.kids)))
         == Some(Machine(m.vals + Out(b, l, t), m.counts + Mark(b, l, t)))
  {
    SlotCount(b, l, t);
    KidsShape(b, l, t);
    hide LabelsOk, TreesFor, Slots, Marks, Finish;
    var r := RuleOf(l, t.or);
    if Done(l, t.or) {
      assert r.rhs[..|r.rhs|] == r.rhs;
      CompleteRule(l, t.or, m, Slots(b, l, t), Marks(b, l, t.kids));
    } else {
      NotComplete(l, t.or, Machine(m.vals + Slots(b, l, t), m.counts + Marks(b, l, t.kids)));
    }
  }

  lemma {:induction false} NotComplete(l: Labels, o: nat, m: Machine)
    requires !Done(l, o)
    ensures Finish(l, o, m) == Some(m)
  {
  }

  lemma {:induction false} CompleteRule(l: Labels, o: nat, m: Machine, slots: seq<Value>, marks: seq<nat>)
    requires Done(l, o) && CountsOk(l.virtual, RuleOf(l, o))
    requires |marks| == Virtuals(l.virtual, RuleOf(l, o).rhs) && |slots| == Sum(marks) + Reals(l.virtual, RuleOf(l, o).rhs)
    ensures var r := RuleOf(l, o);
            Finish(l, o, Machine(m.vals + slots, m.counts + marks))
            == Some(if r.virtualLhs then Machine(m.vals + slots, m.counts + [|slots|])
                    else Machine(m.vals + [RuleValue(r.source, slots)], m.counts + []))
  {
    var r := RuleOf(l, o);
    hide RuleOf, Position;
    AllReal(l.virtual, r.rhs);
    Tails(m.vals, slots);
    Tails(m.counts, marks);
    assert m.counts + [] == m.counts;
    if r.virtualRhs {
      assert marks == [marks[0]];
      SumOne(marks[0]);
    } else {
      assert marks == [];
    }
  }

  lemma {:induction false} Tails<T>(s: seq<T>, t: seq<T>)
    ensures |s + t| == |s| + |t| && (s + t)[..|s|] == s && (s + t)[|s|..] == t
    ensures t == [] ==> s + t == s
  {
  }

  /** Visiting the trees for an agenda adds their values to the stack, and one count for
      each virtual symbol that is still to be used; the rest of both stacks is untouched. */
  lemma {:induction false} VisitTrees(b: Bocage, l: Labels, ts: Trees, agenda: seq<nat>, m: Machine)
    requires LabelsOk(b, l) && TreesFor(b, ts, agenda)
    ensures VisitAll(b, l, Entries(ts), m) == Some(Machine(m.vals + Outs(b, l, ts), m.counts + Marks(b, l, ts)))
    decreases ts
  {
    match ts
    case Nil =>
      assert m.vals + Outs(b, l, ts) == m.vals && m.counts + Marks(b, l, ts) == m.counts;
    case Cons(t, rest) =>
      var m1 := Machine(m.vals + Outs(b, l, rest), m.counts + Marks(b, l, rest));
      VisitTrees(b, l, rest, agenda[1..], m);
      VisitTrees(b, l, t.kids, Kids(b, t.or, t.choice), m1);
      assert TreesFor(b, Cons(t, Nil), [t.or]);
      VisitTree(b, l, t, m1);
      hide LabelsOk, TreesFor, Visit;
      RunFirst(b, l, (t.or, t.choice), Entries(t.kids), m1);
      RunConcat(b, l, [(t.or, t.choice)] + Entries(t.kids), Entries(rest), m);
      Reassociate(m.vals, Outs(b, l, rest), Out(b, l, t));
      Reassociate(m.counts, Marks(b, l, rest), Mark(b, l, t));
  }

  lemma {:induction false} RunFirst(b: Bocage, l: Labels, x: (nat, nat), s: seq<(nat, nat)>, m: Machine)
    requires VisitAll(b, l, s, m).Some?
    ensures VisitAll(b, l, [x] + s, m) == Visit(b, l, x.0, x.1, VisitAll(b, l, s, m).value)
  {
    assert ([x] + s)[1..] == s;
  }

  lemma {:induction false} Reassociate<T>(s: seq<T>, t: seq<T>, u: seq<T>)
    ensures s + t + u == s + (t + u)
  {
  }

  /** The visit of a tree's root, once its kids are done. */
  lemma {:induction false} VisitTree(b: Bocage, l: Labels, t: Tree, m: Machine)
    requires LabelsOk(b, l) && TreesFor(b, Cons(t, Nil), [t.or])
    ensures Visit(b, l, t.or, t.choice, Machine(m.vals + Outs(b, l, t.kids), m.counts + Marks(b, l, t.kids)))
         == Some(Machine(m.vals + Out(b, l, t), m.counts + Mark(b, l, t)))
  {
    CompleteTree(b, l, t, m);
    hide LabelsOk, TreesFor, Out, Mark, LeafSlots, Finish;
    Reassociate(m.vals, Outs(b, l, t.kids), LeafSlots(b, l, t.or, t.choice));
  }
}
