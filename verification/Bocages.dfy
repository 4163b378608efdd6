/** The and/or graph of parses (the bocage with its ordering), its parse trees, and
    the sequences of choices that describe them. */
module Bocages {
  import opened Options

  /** An and-node: its cause is a token or an or-node, its predecessor an or-node or absent. */
  datatype And = And(cause: Option<nat>, pred: Option<nat>)

  /** An or-node owns a run of and-nodes. */
  datatype OrNode = OrNode(firstAnd: nat, andCount: nat)

  /** `orderings` overrides the order, and the choice, of an or-node's and-nodes. */
  datatype Bocage = Bocage(ands: seq<And>, ors: seq<OrNode>, orderings: map<nat, seq<nat>>, top: nat)

  predicate IxIsValid(b: Bocage, o: nat, ix: nat) {
    && o < |b.ors| && ix < b.ors[o].andCount
    && (o in b.orderings ==> ix < |b.orderings[o]|)
  }

  function AndId(b: Bocage, o: nat, ix: nat): nat
    requires IxIsValid(b, o, ix)
  {
    if o in b.orderings then b.orderings[o][ix] else b.ors[o].firstAnd + ix
  }

  /** The run of the next or-node begins where this one's ends; the last ends with the and-nodes. */
  ghost predicate NextRun(b: Bocage, o: nat)
    requires o < |b.ors|
  {
    b.ors[o].firstAnd + b.ors[o].andCount == if o + 1 < |b.ors| then b.ors[o + 1].firstAnd else |b.ands|
  }

  /** Every or-node has a choice; runs of and-nodes are consecutive; references exist. */
  ghost predicate BocageOk(b: Bocage) {
    && b.top < |b.ors|
    && (forall o :: 0 <= o < |b.ors| ==> IxIsValid(b, o, 0))
    && (forall o, ix :: IxIsValid(b, o, ix) ==> AndId(b, o, ix) < |b.ands|)
    && (forall o: nat :: o < |b.ors| ==> NextRun(b, o))
    && (forall k :: 0 <= k < |b.ands| ==>
         && (b.ands[k].cause.Some? ==> b.ands[k].cause.value < |b.ors|)
         && (b.ands[k].pred.Some? ==> b.ands[k].pred.value < |b.ors|))
  }

  ghost predicate Choice(b: Bocage, o: nat, c: nat) {
    BocageOk(b) && IxIsValid(b, o, c)
  }

  function OptSeq(x: Option<nat>): seq<nat> {
    if x.Some? then [x.value] else []
  }

  /** The or-nodes below choice `c` of or-node `o`: cause first, then predecessor. */
  ghost function Kids(b: Bocage, o: nat, c: nat): seq<nat>
    requires Choice(b, o, c)
  {
    var a := b.ands[AndId(b, o, c)];
    OptSeq(a.cause) + OptSeq(a.pred)
  }

  // ---- Choice sequences ----

  /** What is left to expand, and the or-nodes already in the tree. */
  datatype Run = Run(agenda: seq<nat>, used: set<nat>)

  /** One choice for the first or-node of the agenda; fails on a repeated or-node. */
  ghost function Step(b: Bocage, s: Run, c: nat): Option<Run> {
    if s.agenda == [] || s.agenda[0] in s.used || !Choice(b, s.agenda[0], c) then None
    else Some(Run(Kids(b, s.agenda[0], c) + s.agenda[1..], s.used + {s.agenda[0]}))
  }

  ghost function Steps(b: Bocage, s: Run, cs: seq<nat>): Option<Run>
    decreases |cs|
  {
    if cs == [] then Some(s)
    else
      var k := |cs| - 1;
      var before := Steps(b, s, cs[..k]);
      if before.None? then None else Step(b, before.value, cs[k])
  }

  ghost function Start(b: Bocage): Run {
    Run([b.top], {})
  }

  /** `cs` describes a whole tree: every choice is valid, no or-node is repeated and
      nothing is left to expand. */
  ghost predicate Complete(b: Bocage, cs: seq<nat>) {
    Steps(b, Start(b), cs).Some? && Steps(b, Start(b), cs).value.agenda == []
  }

  /** Lexicographic order on sequences neither of which is a prefix of the other. */
  ghost predicate After(s: seq<nat>, t: seq<nat>) {
    exists k: nat :: DiffersAt(s, t, k)
  }

  ghost predicate DiffersAt(s: seq<nat>, t: seq<nat>, k: nat) {
    k < |s| && k < |t| && s[..k] == t[..k] && s[k] < t[k]
  }

  lemma {:induction false} StepsPrefix(b: Bocage, s: Run, cs: seq<nat>, n: nat)
    requires n <= |cs|
    ensures Steps(b, s, cs).Some? ==> Steps(b, s, cs[..n]).Some?
    decreases |cs|
  {
    if n < |cs| {
      var k := |cs| - 1;
      StepsPrefix(b, s, cs[..k], n);
      assert cs[..k][..n] == cs[..n];
    } else {
      assert cs[..n] == cs;
    }
  }

  lemma {:induction false} StepsSnoc(b: Bocage, s: Run, cs: seq<nat>, c: nat)
    requires Steps(b, s, cs).Some?
    ensures Steps(b, s, cs + [c]) == Step(b, Steps(b, s, cs).value, c)
  {
    assert (cs + [c])[..|cs|] == cs;
  }

  /** A complete sequence is not a proper prefix of a valid one. */
  lemma {:induction false} CompleteEnds(b: Bocage, cs: seq<nat>, t: seq<nat>)
    requires Complete(b, cs) && Steps(b, Start(b), t).Some? && cs <= t
    ensures t == cs
  {
    if |cs| < |t| {
      assert t[..|cs| + 1] == cs + [t[|cs|]];
      StepsSnoc(b, Start(b), cs, t[|cs|]);
      StepsPrefix(b, Start(b), t, |cs| + 1);
    }
  }

  // ---- After is a strict total order on complete sequences ----

  lemma {:induction false} AfterTransitive(s: seq<nat>, t: seq<nat>, u: seq<nat>)
    requires After(s, t) && After(t, u)
    ensures After(s, u)
  {
    var i: nat :| DiffersAt(s, t, i);
    var j: nat :| DiffersAt(t, u, j);
    var k := if i < j then i else j;
    assert s[..k] == s[..i][..k] && t[..k] == t[..i][..k] == t[..j][..k] && u[..k] == u[..j][..k];
    assert i < j ==> t[i] == t[..j][i] == u[..j][i] == u[i];
    assert j < i ==> s[j] == s[..i][j] == t[..i][j] == t[j];
    assert DiffersAt(s, u, k);
  }

  lemma {:induction false} AfterTotal(b: Bocage, s: seq<nat>, t: seq<nat>)
    requires Complete(b, s) && Complete(b, t)
    ensures s == t || After(s, t) || After(t, s)
  {
    var k := CommonPrefix(s, t);
    if k == |s| {
      assert t[..k] == s;
      CompleteEnds(b, s, t);
    } else if k == |t| {
      assert s[..k] == t;
      CompleteEnds(b, t, s);
    } else if s[k] < t[k] {
      assert DiffersAt(s, t, k);
    } else {
      assert DiffersAt(t, s, k);
    }
  }

  lemma {:induction false} CommonPrefix(s: seq<nat>, t: seq<nat>) returns (k: nat)
    ensures k <= |s| && k <= |t| && s[..k] == t[..k]
    ensures k < |s| && k < |t| ==> s[k] != t[k]
  {
    k := 0;
    while k < |s| && k < |t| && s[k] == t[k]
      invariant k <= |s| && k <= |t| && s[..k] == t[..k]
    {
      assert s[..k + 1] == s[..k] + [s[k]] && t[..k + 1] == t[..k] + [t[k]];
      k := k + 1;
    }
  }

  /** How a sequence compares with one choice added at the end. */
  lemma {:induction false} AfterSnoc(s: seq<nat>, c: nat, t: seq<nat>)
    ensures After(s + [c], t) <==> After(s, t) || (s <= t && |s| < |t| && c < t[|s|])
  {
    var sc := s + [c];
    if After(sc, t) {
      var k: nat :| DiffersAt(sc, t, k);
      if k < |s| {
        assert s[..k] == sc[..k];
        assert DiffersAt(s, t, k);
      } else {
        assert sc[..k] == s;
      }
    }
    if After(s, t) {
      var k: nat :| DiffersAt(s, t, k);
      assert sc[..k] == s[..k];
      assert DiffersAt(sc, t, k);
    }
    if s <= t && |s| < |t| && c < t[|s|] {
      assert sc[..|s|] == s == t[..|s|];
      assert DiffersAt(sc, t, |s|);
    }
  }

  // ---- Trees ----

  /** A parse tree over the graph: an or-node, its choice, and a tree for each
      or-node below that choice, cause first. */
  datatype Tree = Tree(or: nat, choice: nat, kids: Trees)
  datatype Trees = Nil | Cons(first: Tree, rest: Trees)

  /** One tree for each or-node of the agenda, every choice valid. */
  ghost predicate TreesFor(b: Bocage, ts: Trees, agenda: seq<nat>)
    decreases ts
  {
    match ts
    case Nil => agenda == []
    case Cons(t, rest) =>
      && agenda != [] && t.or == agenda[0] && Choice(b, t.or, t.choice)
      && TreesFor(b, t.kids, Kids(b, t.or, t.choice))
      && TreesFor(b, rest, agenda[1..])
  }

  /** The choices, and the or-nodes, in the order in which they are expanded. */
  ghost function Choices(ts: Trees): seq<nat>
    decreases ts
  {
    match ts
    case Nil => []
    case Cons(t, rest) => [t.choice] + Choices(t.kids) + Choices(rest)
  }

  ghost function Ors(ts: Trees): seq<nat>
    decreases ts
  {
    match ts
    case Nil => []
    case Cons(t, rest) => [t.or] + Ors(t.kids) + Ors(rest)
  }

  ghost predicate NoRepeats(s: seq<nat>) {
    forall i, j :: 0 <= i < j < |s| ==> s[i] != s[j]
  }

  ghost function Elements(s: seq<nat>): set<nat> {
    set x | x in s
  }

  lemma {:induction false} StepsConcat(b: Bocage, s: Run, cs: seq<nat>, ds: seq<nat>)
    requires Steps(b, s, cs).Some?
    ensures Steps(b, s, cs + ds) == Steps(b, Steps(b, s, cs).value, ds)
    decreases |ds|
  {
    hide Step;
    if ds == [] {
      assert cs + ds == cs;
    } else {
      var k := |ds| - 1;
      StepsConcat(b, s, cs, ds[..k]);
      assert (cs + ds)[..|cs + ds| - 1] == cs + ds[..k];
    }
  }

  lemma {:induction false} OneStep(b: Bocage, agenda: seq<nat>, used: set<nat>, c: nat)
    ensures Steps(b, Run(agenda, used), [c]) == Step(b, Run(agenda, used), c)
  {
    assert [c][..0] == [];
    assert Steps(b, Run(agenda, used), []) == Some(Run(agenda, used));
  }

  lemma {:induction false} ElementsConcat(s: seq<nat>, t: seq<nat>)
    ensures Elements(s + t) == Elements(s) + Elements(t)
    ensures NoRepeats(s + t) <==> NoRepeats(s) && NoRepeats(t) && Elements(s) !! Elements(t)
  {
    var st := s + t;
    assert forall i :: 0 <= i < |s| ==> st[i] == s[i];
    assert forall i :: 0 <= i < |t| ==> st[|s| + i] == t[i];
    if NoRepeats(st) {
      forall i, j | 0 <= i < |s| && 0 <= j < |t|
        ensures s[i] != t[j]
      {
        assert st[i] == s[i] && st[|s| + j] == t[j];
      }
    }
    if NoRepeats(s) && NoRepeats(t) && Elements(s) !! Elements(t) {
      forall i, j | 0 <= i < j < |st|
        ensures st[i] != st[j]
      {
        if i < |s| <= j {
          assert s[i] in Elements(s) && t[j - |s|] in Elements(t);
        }
      }
    }
  }

  lemma {:induction false} RootDistinct(o: nat, s: seq<nat>, t: seq<nat>, used: set<nat>)
    requires NoRepeats([o] + s + t) && Elements([o] + s + t) !! used
    ensures o !in used && NoRepeats(s) && NoRepeats(t)
    ensures Elements(s) !! used + {o} && Elements(t) !! used + {o} + Elements(s)
  {
    ElementsConcat([o] + s, t);
    ElementsConcat([o], s);
    assert [o][0] in Elements([o]);
  }
  lemma {:induction false} AgendaStep(b: Bocage, agenda: seq<nat>, rest: seq<nat>, used: set<nat>, c: nat)
    requires agenda != [] && agenda[0] !in used && Choice(b, agenda[0], c)
    ensures Steps(b, Run(agenda + rest, used), [c]) == Some(Run(Kids(b, agenda[0], c) + (agenda[1..] + rest), used + {agenda[0]}))
  {
    OneStep(b, agenda + rest, used, c);
    assert (agenda + rest)[1..] == agenda[1..] + rest;
  }
  /** Running the choices of the trees for an agenda uses up exactly that agenda,
      when no or-node occurs twice. */
  lemma {:induction false} TreesRun(b: Bocage, ts: Trees, agenda: seq<nat>, rest: seq<nat>, used: set<nat>)
    requires TreesFor(b, ts, agenda) && NoRepeats(Ors(ts)) && Elements(Ors(ts)) !! used
    ensures Steps(b, Run(agenda + rest, used), Choices(ts)) == Some(Run(rest, used + Elements(Ors(ts))))
    decreases ts
  {
    hide Choice, Steps, NoRepeats;
    match ts
    case Nil =>
      NoSteps(b, Run(rest, used));
      assert agenda + rest == rest;
      assert used + Elements([]) == used;
    case Cons(t, more) =>
      var o := t.or;
      var s := Run(agenda + rest, used);
      RootDistinct(o, Ors(t.kids), Ors(more), used);
      AgendaStep(b, agenda, rest, used, t.choice);
      TreesRun(b, t.kids, Kids(b, o, t.choice), agenda[1..] + rest, used + {o});
      TreesRun(b, more, agenda[1..], rest, used + {o} + Elements(Ors(t.kids)));
      StepsConcat(b, s, [t.choice], Choices(t.kids));
      StepsConcat(b, s, [t.choice] + Choices(t.kids), Choices(more));
      ElementsConcat([o] + Ors(t.kids), Ors(more));
      ElementsConcat([o], Ors(t.kids));
      assert Elements([o]) == {o};
      assert used + {o} + Elements(Ors(t.kids)) + Elements(Ors(more)) == used + Elements(Ors(ts));
  }

  lemma {:induction false} NoSteps(b: Bocage, s: Run)
    ensures Steps(b, s, []) == Some(s)
  {
  }

  /** The trees for two agendas one after the other. */
  lemma {:induction false} SplitTrees(b: Bocage, ts: Trees, agenda: seq<nat>, rest: seq<nat>) returns (us: Trees, vs: Trees)
    requires TreesFor(b, ts, agenda + rest)
    ensures TreesFor(b, us, agenda) && TreesFor(b, vs, rest)
    ensures Choices(ts) == Choices(us) + Choices(vs) && Ors(ts) == Ors(us) + Ors(vs)
    decreases ts
  {
    hide Choice;
    if agenda == [] {
      assert agenda + rest == rest;
      us, vs := Nil, ts;
      assert Choices(us) + Choices(vs) == Choices(vs) && Ors(us) + Ors(vs) == Ors(vs);
    } else {
      assert (agenda + rest)[1..] == agenda[1..] + rest;
      var u, v := SplitTrees(b, ts.rest, agenda[1..], rest);
      us, vs := Cons(ts.first, u), v;
      Assoc([ts.first.choice] + Choices(ts.first.kids), Choices(u), Choices(v));
      Assoc([ts.first.or] + Ors(ts.first.kids), Ors(u), Ors(v));
    }
  }

  lemma {:induction false} Assoc(s: seq<nat>, t: seq<nat>, u: seq<nat>)
    ensures s + (t + u) == s + t + u
  {
  }

  /** A run that uses up its agenda comes from trees for it, without repeats. */
  lemma {:induction false} RunTrees(b: Bocage, agenda: seq<nat>, used: set<nat>, cs: seq<nat>) returns (ts: Trees)
    requires Steps(b, Run(agenda, used), cs).Some? && Steps(b, Run(agenda, used), cs).value.agenda == []
    ensures TreesFor(b, ts, agenda) && Choices(ts) == cs && NoRepeats(Ors(ts)) && Elements(Ors(ts)) !! used
    decreases |cs|
  {
    hide Choice;
    if cs == [] {
      ts := Nil;
    } else {
      var o, c := FirstStep(b, agenda, used, cs);
      hide Steps;
      var ts' := RunTrees(b, Kids(b, o, c) + agenda[1..], used + {o}, cs[1..]);
      var us, vs := SplitTrees(b, ts', Kids(b, o, c), agenda[1..]);
      ts := Cons(Tree(o, c, us), vs);
      hide TreesFor;
      assert cs == [c] + cs[1..];
      Assoc([o], Ors(us), Ors(vs));
      Assoc([c], Choices(us), Choices(vs));
      FirstAdded(o, Ors(ts'), used);
    }
  }

  lemma {:induction false} FirstAdded(o: nat, s: seq<nat>, used: set<nat>)
    requires NoRepeats(s) && Elements(s) !! used + {o} && o !in used
    ensures NoRepeats([o] + s) && Elements([o] + s) !! used
  {
    ElementsConcat([o], s);
    assert Elements([o]) == {o};
  }

  lemma {:induction false} FirstStep(b: Bocage, agenda: seq<nat>, used: set<nat>, cs: seq<nat>) returns (o: nat, c: nat)
    requires cs != [] && Steps(b, Run(agenda, used), cs).Some?
    ensures agenda != [] && o == agenda[0] && o !in used && c == cs[0] && Choice(b, o, c)
    ensures Steps(b, Run(agenda, used), cs) == Steps(b, Run(Kids(b, o, c) + agenda[1..], used + {o}), cs[1..])
  {
    c := cs[0];
    assert [c] + cs[1..] == cs;
    assert cs[..1] == [c];
    StepsPrefix(b, Run(agenda, used), cs, 1);
    OneStep(b, agenda, used, c);
    o := agenda[0];
    StepsConcat(b, Run(agenda, used), [c], cs[1..]);
  }

  /** The complete choice sequences are exactly those of the parse trees in which no
      or-node occurs twice. */
  lemma {:induction false} CompleteIsTree(b: Bocage, cs: seq<nat>)
    ensures Complete(b, cs) <==> exists ts :: TreesFor(b, ts, [b.top]) && NoRepeats(Ors(ts)) && Choices(ts) == cs
  {
    if Complete(b, cs) {
      var ts := RunTrees(b, [b.top], {}, cs);
    }
    if exists ts :: TreesFor(b, ts, [b.top]) && NoRepeats(Ors(ts)) && Choices(ts) == cs {
      var ts :| TreesFor(b, ts, [b.top]) && NoRepeats(Ors(ts)) && Choices(ts) == cs;
      assert [b.top] + [] == [b.top];
      TreesRun(b, ts, [b.top], [], {});
    }
  }

  lemma {:induction false} ConsChoices(c: nat, s: seq<nat>, t: seq<nat>, x: seq<nat>)
    ensures ([c] + s + t + x)[0] == c && ([c] + s + t + x)[1..] == s + (t + x)
  {
  }

  /** Different trees have different choices. */
  lemma {:induction false} ChoicesInjective(b: Bocage, ts: Trees, us: Trees, agenda: seq<nat>, x: seq<nat>, y: seq<nat>)
    requires TreesFor(b, ts, agenda) && TreesFor(b, us, agenda) && Choices(ts) + x == Choices(us) + y
    ensures ts == us && x == y
    decreases ts
  {
    hide Choice;
    match ts
    case Nil =>
      assert us == Nil;
      assert Choices(ts) + x == x && Choices(us) + y == y;
    case Cons(t, more) =>
      var u := us.first;
      ConsChoices(t.choice, Choices(t.kids), Choices(more), x);
      ConsChoices(u.choice, Choices(u.kids), Choices(us.rest), y);
      ChoicesInjective(b, t.kids, u.kids, Kids(b, t.or, t.choice), Choices(more) + x, Choices(us.rest) + y);
      ChoicesInjective(b, more, us.rest, agenda[1..], x, y);
  }
}
