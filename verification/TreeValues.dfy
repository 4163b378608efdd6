/** A finished stack of nooks is a parse tree, and its steps leave that tree's value. */
module TreeValues {
  import opened Options
  import opened InternalRules
  import opened Bocages
  import opened TreeSearch
  import opened TreeOrder
  import opened TreeMoves
  import opened TreeIterators
  import opened Valuations
  import opened ValueParts
  import opened Valuators

  /** The or-nodes at the head of the agenda, choice by choice. */
  ghost function Heads(b: Bocage, s: Run, cs: seq<nat>): seq<nat>
    decreases |cs|
  {
    if cs == [] then []
    else
      var k := |cs| - 1;
      var before := Steps(b, s, cs[..k]);
      Heads(b, s, cs[..k]) + if before.Some? && before.value.agenda != [] then [before.value.agenda[0]] else [0]
  }

  lemma {:induction false} HeadsConcat(b: Bocage, s: Run, cs: seq<nat>, ds: seq<nat>)
    requires Steps(b, s, cs).Some?
    ensures Heads(b, s, cs + ds) == Heads(b, s, cs) + Heads(b, Steps(b, s, cs).value, ds)
    decreases |ds|
  {
    hide Steps;
    if ds == [] {
      assert cs + ds == cs;
    } else {
      var k := |ds| - 1;
      HeadsConcat(b, s, cs, ds[..k]);
      StepsConcat(b, s, cs, ds[..k]);
      assert (cs + ds)[..|cs + ds| - 1] == cs + ds[..k];
    }
  }

  lemma {:induction false} HeadOne(b: Bocage, agenda: seq<nat>, used: set<nat>, c: nat)
    requires agenda != []
    ensures Heads(b, Run(agenda, used), [c]) == [agenda[0]]
  {
    assert [c][..0] == [];
    assert Steps(b, Run(agenda, used), []) == Some(Run(agenda, used));
  }

  /** Running the choices of the trees meets their or-nodes in order. */
  lemma {:induction false} TreesHeads(b: Bocage, ts: Trees, agenda: seq<nat>, rest: seq<nat>, used: set<nat>)
    requires TreesFor(b, ts, agenda) && NoRepeats(Ors(ts)) && Elements(Ors(ts)) !! used
    ensures Heads(b, Run(agenda + rest, used), Choices(ts)) == Ors(ts)
    decreases ts
  {
    hide Choice, Heads, Steps;
    match ts
    case Nil =>
      NoHeads(b, Run(agenda + rest, used));
    case Cons(t, more) =>
      var o := t.or;
      var s := Run(agenda + rest, used);
      var s1 := Run(Kids(b, o, t.choice) + (agenda[1..] + rest), used + {o});
      var s2 := Run(agenda[1..] + rest, used + {o} + Elements(Ors(t.kids)));
      RootDistinct(o, Ors(t.kids), Ors(more), used);
      AgendaStep(b, agenda, rest, used, t.choice);
      TreesRun(b, t.kids, Kids(b, o, t.choice), agenda[1..] + rest, used + {o});
      TreesHeads(b, t.kids, Kids(b, o, t.choice), agenda[1..] + rest, used + {o});
      TreesHeads(b, more, agenda[1..], rest, used + {o} + Elements(Ors(t.kids)));
      HeadOne(b, agenda + rest, used, t.choice);
      StepsConcat(b, s, [t.choice], Choices(t.kids));
      HeadsConcat(b, s, [t.choice], Choices(t.kids));
      HeadsConcat(b, s, [t.choice] + Choices(t.kids), Choices(more));
  }

  lemma {:induction false} NoHeads(b: Bocage, s: Run)
    ensures Heads(b, s, []) == []
  {
  }



  ghost function OrsOf(slots: seq<Slot>): (r: seq<nat>)
    ensures |r| == |slots| && forall i :: 0 <= i < |r| ==> r[i] == slots[i].or
  {
    seq(|slots|, i requires 0 <= i < |slots| => slots[i].or)
  }

  lemma {:induction false} SlotHeads(b: Bocage, s: seq<Slot>)
    requires TreeInv(b, s)
    ensures Heads(b, Start(b), ChoicesOf(s)) == OrsOf(s)
    decreases |s|
  {
    hide *;
    var n := |s| - 1;
    TreeInvSome(b, s);
    LastStep(b, s);
    SlotHead(b, s);
    if n > 0 {
      PopInv(b, s);
      SlotHeads(b, s[..n]);
    } else {
      assert s[..n] == [];
      NoHeads(b, Start(b));
      NoSlots();
    }
  }

  lemma {:induction false} NoSlots()
    ensures ChoicesOf([]) == [] && OrsOf([]) == []
  {
  }

  /** One more slot is one more head. */
  lemma {:induction false} SlotHead(b: Bocage, s: seq<Slot>)
    requires s != []
    requires var before := Steps(b, Start(b), ChoicesOf(s[..|s| - 1]));
             before.Some? && before.value.agenda != [] && before.value.agenda[0] == s[|s| - 1].or
    ensures Heads(b, Start(b), ChoicesOf(s)) == Heads(b, Start(b), ChoicesOf(s[..|s| - 1])) + [s[|s| - 1].or]
    ensures OrsOf(s) == OrsOf(s[..|s| - 1]) + [s[|s| - 1].or]
  {
    hide Steps, Start;
    assert ChoicesOf(s)[..|s| - 1] == ChoicesOf(s[..|s| - 1]);
  }

  lemma {:induction false} EntriesZip(ts: Trees)
    ensures |Entries(ts)| == |Ors(ts)| == |Choices(ts)|
    ensures forall i :: 0 <= i < |Entries(ts)| ==> Entries(ts)[i] == (Ors(ts)[i], Choices(ts)[i])
    decreases ts
  {
    match ts
    case Nil =>
    case Cons(t, rest) =>
      EntriesZip(t.kids);
      EntriesZip(rest);
  }

  /** A stack with nothing left to expand holds the or-nodes and choices of a parse tree. */
  lemma {:induction false} StackIsTree(b: Bocage, s: seq<Slot>) returns (t: Tree)
    requires TreeInv(b, s) && Agenda(b, s, |s|) == []
    ensures TreesFor(b, Cons(t, Nil), [b.top]) && t.or == b.top && Entries(Cons(t, Nil)) == EntriesOf(s)
    ensures Choices(Cons(t, Nil)) == ChoicesOf(s) && NoRepeats(Ors(Cons(t, Nil)))
  {
    TreeInvParts(b, s);
    SlotHeads(b, s);
    hide TreeInv, Fits, Agenda, Heads, Choice;
    var ts := RunTrees(b, [b.top], {}, ChoicesOf(s));
    hide Snapshot, Steps;
    assert [b.top] + [] == [b.top];
    TreesHeads(b, ts, [b.top], [], {});
    EntriesZip(ts);
    assert EntriesOf(s) == Entries(ts);
    assert [b.top][1..] == [];
    t := ts.first;
  }

  /** The top or-node is the end of the start rule, which has one real symbol and is virtual. */
  ghost predicate TopOk(b: Bocage, l: Labels) {
    var r := RuleOf(l, b.top);
    Done(l, b.top) && |r.rhs| == 1 && r.rhs[0] !in l.virtual && r.virtualLhs && CountsOk(l.virtual, r)
  }

  /** The value of a whole tree is that of the start symbol; its leaves and rules are those of
      the tree's nodes, in order. */
  ghost predicate IsValueOf(b: Bocage, l: Labels, cs: seq<nat>, v: Value) {
    exists t :: TreesFor(b, Cons(t, Nil), [b.top]) && Choices(Cons(t, Nil)) == cs && Slots(b, l, t) == [v] && Matches(l, Flat(v), Parts(b, l, t))
  }

  /** The steps of a finished stack leave the tree's value alone in slot 0. */
  lemma {:induction false} StackValue(b: Bocage, l: Labels, s: seq<Slot>)
    requires LabelsOk(b, l) && TopOk(b, l) && TreeInv(b, s) && Agenda(b, s, |s|) == []
    ensures TreeOk(b, l, s)
    ensures |MachineAt(b, l, s, 0).value.vals| == 1 && IsValueOf(b, l, ChoicesOf(s), MachineAt(b, l, s, 0).value.vals[0])
  {
    hide TopOk, IxIsValid, AndId, MachineAt, TreeInv, Agenda, LabelsOk, TreesFor, Slots, Outs, Marks, VisitAll, Entries, Choices, Choice, Matches, Parts, Flat;
    AndsExist(b, s);
    var t := StackIsTree(b, s);
    WholeStack(b, l, s);
    VisitTrees(b, l, Cons(t, Nil), [b.top], Machine([], []));
    TopValue(b, l, t);
    assert Slots(b, l, t) == [Slots(b, l, t)[0]];
    TopParts(b, l, t);
  }

  lemma {:induction false} TopParts(b: Bocage, l: Labels, t: Tree)
    requires LabelsOk(b, l) && TreesFor(b, Cons(t, Nil), [b.top]) && |Slots(b, l, t)| == 1 && Outs(b, l, Cons(t, Nil)) == Slots(b, l, t)
    ensures Matches(l, Flat(Slots(b, l, t)[0]), Parts(b, l, t))
  {
    TreeParts(b, l, Cons(t, Nil), [b.top]);
    hide LabelsOk, TreesFor, Slots, Outs, Matches, Parts, Flat;
    FlatsOne(Slots(b, l, t)[0]);
    assert Slots(b, l, t) == [Slots(b, l, t)[0]];
    assert PartsOf(b, l, Cons(t, Nil)) == Parts(b, l, t);
  }

  lemma {:induction false} WholeStack(b: Bocage, l: Labels, s: seq<Slot>)
    ensures MachineAt(b, l, s, 0) == VisitAll(b, l, EntriesOf(s), Machine([], []))
  {
    assert EntriesOf(s)[0..] == EntriesOf(s);
  }

  lemma {:induction false} TopValue(b: Bocage, l: Labels, t: Tree)
    requires LabelsOk(b, l) && TopOk(b, l) && TreesFor(b, Cons(t, Nil), [b.top]) && t.or == b.top
    ensures |Slots(b, l, t)| == 1 && Outs(b, l, Cons(t, Nil)) == Slots(b, l, t)
  {
    OneKid(b, l, t);
    SlotCount(b, l, t);
    hide LabelsOk, TreesFor, Slots, Marks, Outs;
    var rhs := RuleOf(l, b.top).rhs;
    assert rhs[..1] == rhs;
    FirstLast(l.virtual, rhs, [NullValue(0)], []);
    assert Marks(b, l, t.kids) == [];
  }

  lemma {:induction false} AndsExist(b: Bocage, s: seq<Slot>)
    requires TreeInv(b, s)
    ensures forall i :: 0 <= i < |s| ==> IxIsValid(b, s[i].or, s[i].choice) && AndId(b, s[i].or, s[i].choice) < |b.ands|
  {
    forall i | 0 <= i < |s|
      ensures Choice(b, s[i].or, s[i].choice)
    {
      AllChoices(b, s, i);
    }
  }

  /** Values and trees match one for one. */
  ghost predicate ValuesOf(b: Bocage, l: Labels, seen: seq<seq<nat>>, values: seq<Value>) {
    |values| == |seen| && forall i :: 0 <= i < |seen| ==> IsValueOf(b, l, seen[i], values[i])
  }

  /** The values are those of all complete choice sequences, in lexicographic order and once each. */
  ghost predicate ValuesOfAll(b: Bocage, l: Labels, values: seq<Value>) {
    exists seen :: ValuesOf(b, l, seen, values) && SeenOk(b, seen, true)
  }

  lemma {:induction false} FoundStack(b: Bocage, l: Labels, nooks: seq<Nook>, inUse: set<nat>, prev: Option<seq<nat>>)
    requires LabelsOk(b, l) && TopOk(b, l) && Searching(b, nooks, inUse) && NextTree(b, prev, Cs(nooks))
    ensures TreeOk(b, l, Shape(nooks)) && MachineAt(b, l, Shape(nooks), 0).Some?
    ensures |MachineAt(b, l, Shape(nooks), 0).value.vals| == 1
    ensures IsValueOf(b, l, Cs(nooks), MachineAt(b, l, Shape(nooks), 0).value.vals[0])
  {
    SearchingParts(b, nooks, inUse);
    TreeInvParts(b, Shape(nooks));
    hide Searching, LabelsOk, TopOk, TreeInv, Fits, Steps, Agenda, FlagsOk, IsValueOf, BocageOk, After;
    StackValue(b, l, Shape(nooks));
  }

  lemma {:induction false} FirstSlot(slots: map<int, Value>, vals: seq<Value>)
    requires Holds(slots, vals) && |vals| == 1
    ensures 0 in slots && slots[0] == vals[0]
  {
  }

  lemma {:induction false} LabelsBocage(b: Bocage, l: Labels)
    requires LabelsOk(b, l)
    ensures BocageOk(b)
  {
  }

  /** All values of a parse: for each complete choice sequence, in lexicographic order
      and once each, the value of its tree. */
  method AllValues(b: Bocage, l: Labels) returns (values: seq<Value>)
    requires LabelsOk(b, l) && TopOk(b, l)
    ensures ValuesOfAll(b, l, values)
  {
    hide BocageOk, LabelsOk, TopOk, SeenOk, Searching, NextTree, Wanted, Cs, IsValueOf, Holds, TreeOk, MachineAt, WorkAfter, WorkLeft;
    LabelsBocage(b, l);
    var t := new TreeIterator(b);
    values := [];
    var more := true;
    while more
      invariant t.Valid() && t.b == b && fresh(t)
      invariant more ==> !t.exhausted
      invariant !more ==> t.exhausted
      invariant ValuesOf(b, l, t.seen, values)
      decreases more, if more then t.Remaining() else 0
    {
      var size := t.Next();
      if size == -1 {
        more := false;
      } else {
        FoundStack(b, l, t.nooks, t.inUse, Last(t.seen[..|t.seen| - 1]));
        var slots := Evaluate(b, l, Shape(t.nooks));
        FirstSlot(slots, MachineAt(b, l, Shape(t.nooks), 0).value.vals);
        values := values + [slots[0]];
      }
    }
    assert ValuesOf(b, l, t.seen, values) && SeenOk(b, t.seen, true);
  }
}
