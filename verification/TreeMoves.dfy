/** What each move of the tree search does to its state and to its place in the order. */
module TreeMoves {
  import opened Options
  import opened Bocages
  import opened TreeSearch
  import opened TreeOrder

  ghost function Cs(nooks: seq<Nook>): seq<nat> {
    ChoicesOf(Shape(nooks))
  }

  /** A nonempty stack of nooks is a prefix of a tree, with its flags and its or-nodes. */
  ghost predicate Searching(b: Bocage, nooks: seq<Nook>, inUse: set<nat>) {
    && BocageOk(b) && nooks != [] && TreeInv(b, Shape(nooks))
    && FlagsOk(b, nooks) && inUse == OrSet(Shape(nooks))
  }

  /** The tree at the top of the stack, and all that extend it, are done with. */
  ghost predicate DeadEnd(b: Bocage, prev: Option<seq<nat>>, cs: seq<nat>) {
    Beyond(b, prev, cs) && Reached(prev, cs)
  }

  /** The stack is past the last tree found, and nothing wanted was passed over. */
  ghost predicate Fresh(b: Bocage, prev: Option<seq<nat>>, cs: seq<nat>) {
    Ahead(b, prev, cs) && Past(prev, cs)
  }

  /** The work left when the trees that extend `cs` are done with. */
  ghost function WorkAfter(b: Bocage, cs: seq<nat>): int {
    if |cs| <= |b.ors| then Later(|b.ands|, |b.ors|, cs) else 0
  }

  ghost function WorkLeft(b: Bocage, cs: seq<nat>): int {
    if |cs| <= |b.ors| then Left(|b.ands|, |b.ors|, cs) else 0
  }

  lemma {:induction false} CsLast(nooks: seq<Nook>)
    requires nooks != []
    ensures Cs(nooks) == ChoicesOf(Shape(nooks)[..|nooks| - 1]) + [nooks[|nooks| - 1].slot.choice]
  {
  }

  lemma {:induction false} CsFits(b: Bocage, nooks: seq<Nook>)
    requires TreeInv(b, Shape(nooks))
    ensures |Cs(nooks)| <= |b.ors| && forall i :: 0 <= i < |Cs(nooks)| ==> Cs(nooks)[i] < |b.ands|
  {
    StackFits(b, Shape(nooks));
    ChoicesFit(b, Shape(nooks));
    hide TreeInv;
  }

  lemma {:induction false} WorkNatural(b: Bocage, nooks: seq<Nook>)
    requires TreeInv(b, Shape(nooks))
    ensures 0 <= WorkAfter(b, Cs(nooks)) < WorkLeft(b, Cs(nooks))
  {
    CsFits(b, nooks);
    hide TreeInv, Later, Cs;
    LaterNatural(|b.ands|, |b.ors|, Cs(nooks));
    LaterLess(|b.ands|, |b.ors|, Cs(nooks));
  }

  // ---- The next choice of the last nook ----

  lemma {:induction false} RechooseMove(b: Bocage, prev: Option<seq<nat>>, nooks: seq<Nook>, inUse: set<nat>)
    requires Searching(b, nooks, inUse) && DeadEnd(b, prev, Cs(nooks))
    requires var x := nooks[|nooks| - 1].slot; IxIsValid(b, x.or, x.choice + 1)
    ensures var nooks' := Rechosen(nooks, nooks[|nooks| - 1].slot.choice + 1);
            && Searching(b, nooks', inUse) && Fresh(b, prev, Cs(nooks'))
            && WorkLeft(b, Cs(nooks')) == WorkAfter(b, Cs(nooks))
  {
    hide Searching, DeadEnd, TreeInv, FlagsOk, BocageOk, IxIsValid, Rechosen, WorkLeft, WorkAfter, Snapshot, Fits, Steps, Agenda;
    SearchingParts(b, nooks, inUse);
    var x := nooks[|nooks| - 1].slot;
    var c := x.choice + 1;
    Rechoose(b, Shape(nooks), c);
    FlagsRechoose(b, nooks, c);
    RechooseOrs(Shape(nooks), c);
    RechooseOrder(b, prev, nooks);
    SearchingIntro(b, Rechosen(nooks, c), inUse);
  }

  lemma {:induction false} SearchingParts(b: Bocage, nooks: seq<Nook>, inUse: set<nat>)
    requires Searching(b, nooks, inUse)
    ensures BocageOk(b) && |Shape(nooks)| == |nooks| > 0 && Shape(nooks)[|nooks| - 1] == nooks[|nooks| - 1].slot
    ensures TreeInv(b, Shape(nooks)) && FlagsOk(b, nooks) && inUse == OrSet(Shape(nooks))
  {
    hide TreeInv, FlagsOk, OrSet, BocageOk;
  }

  lemma {:induction false} SearchingIntro(b: Bocage, nooks: seq<Nook>, inUse: set<nat>)
    requires BocageOk(b) && TreeInv(b, Shape(nooks)) && FlagsOk(b, nooks) && inUse == OrSet(Shape(nooks))
    ensures Searching(b, nooks, inUse)
  {
    assert Shape(nooks) != [];
    hide TreeInv, FlagsOk, OrSet, BocageOk;
  }

  lemma {:induction false} RechooseOrs(s: seq<Slot>, c: nat)
    requires s != []
    ensures OrSet(NewChoice(s, c)) == OrSet(s)
  {
    var s' := NewChoice(s, c);
    assert forall i :: 0 <= i < |s| ==> s'[i].or == s[i].or;
    forall o | o in OrSet(s)
      ensures o in OrSet(s')
    {
      var i :| 0 <= i < |s| && s[i].or == o;
      assert s'[i].or == o;
    }
  }

  lemma {:induction false} RechooseOrder(b: Bocage, prev: Option<seq<nat>>, nooks: seq<Nook>)
    requires nooks != [] && TreeInv(b, Shape(nooks)) && DeadEnd(b, prev, Cs(nooks))
    ensures var cs := Cs(Rechosen(nooks, nooks[|nooks| - 1].slot.choice + 1));
            Fresh(b, prev, cs) && WorkLeft(b, cs) == WorkAfter(b, Cs(nooks))
  {
    hide *;
    var c := nooks[|nooks| - 1].slot.choice;
    var cs := ChoicesOf(Shape(nooks)[..|nooks| - 1]);
    LastCs(b, nooks);
    RechosenCs(nooks, c + 1);
    NextOrder(b, prev, cs, c);
  }

  lemma {:induction false} LastCs(b: Bocage, nooks: seq<Nook>)
    requires nooks != [] && TreeInv(b, Shape(nooks))
    ensures Cs(nooks) == ChoicesOf(Shape(nooks)[..|nooks| - 1]) + [nooks[|nooks| - 1].slot.choice]
    ensures |Cs(nooks)| <= |b.ors|
  {
    hide TreeInv;
    CsLast(nooks);
    CsFits(b, nooks);
  }

  lemma {:induction false} NextOrder(b: Bocage, prev: Option<seq<nat>>, cs: seq<nat>, c: nat)
    requires DeadEnd(b, prev, cs + [c]) && |cs + [c]| <= |b.ors|
    ensures Fresh(b, prev, cs + [c + 1]) && WorkLeft(b, cs + [c + 1]) == WorkAfter(b, cs + [c])
  {
    hide Beyond, Reached, Ahead, Past, Later, Left, Weight;
    AheadNext(b, prev, cs, c);
    ReachedNext(prev, cs, c);
    LeftNext(|b.ands|, |b.ors|, cs, c);
  }

  lemma {:induction false} RechosenCs(nooks: seq<Nook>, c: nat)
    requires nooks != []
    ensures Cs(Rechosen(nooks, c)) == ChoicesOf(Shape(nooks)[..|nooks| - 1]) + [c]
  {
  }

  // ---- No choice left for the last nook ----

  lemma {:induction false} PopMove(b: Bocage, prev: Option<seq<nat>>, nooks: seq<Nook>, inUse: set<nat>)
    requires Searching(b, nooks, inUse) && DeadEnd(b, prev, Cs(nooks))
    requires var x := nooks[|nooks| - 1].slot; !IxIsValid(b, x.or, x.choice + 1)
    ensures var inUse' := inUse - {nooks[|nooks| - 1].slot.or};
            && |Popped(nooks)| == |nooks| - 1
            && (if |nooks| == 1 then inUse' == {} else Searching(b, Popped(nooks), inUse'))
    ensures DeadEnd(b, prev, Cs(Popped(nooks)))
    ensures WorkAfter(b, Cs(Popped(nooks))) <= WorkAfter(b, Cs(nooks))
  {
    PopOrder(b, prev, nooks);
    LastOr(b, Shape(nooks));
    if |nooks| > 1 {
      FlagsPop(b, nooks);
      hide TreeInv, FlagsOk, OrSet;
    } else {
    }
  }

  lemma {:induction false} PopOrder(b: Bocage, prev: Option<seq<nat>>, nooks: seq<Nook>)
    requires nooks != [] && TreeInv(b, Shape(nooks)) && DeadEnd(b, prev, Cs(nooks))
    requires var x := nooks[|nooks| - 1].slot; !IxIsValid(b, x.or, x.choice + 1)
    ensures var cs := Cs(Popped(nooks));
            DeadEnd(b, prev, cs) && WorkAfter(b, cs) <= WorkAfter(b, Cs(nooks))
  {
    var c := nooks[|nooks| - 1].slot.choice;
    var s := Shape(nooks);
    var cs := ChoicesOf(s[..|nooks| - 1]);
    CsLast(nooks);
    CsFits(b, nooks);
    PoppedCs(nooks);
    LastStep(b, s);
    hide TreeInv, Beyond, Reached, Later, Cs, Popped, Steps, Choice, Agenda, IxIsValid;
    BeyondPop(b, prev, cs, c);
    ReachedPop(prev, cs, c);
    assert (cs + [c])[|cs|] == c;
    LaterPop(|b.ands|, |b.ors|, cs, c);
  }

  lemma {:induction false} PoppedCs(nooks: seq<Nook>)
    requires nooks != []
    ensures Cs(Popped(nooks)) == ChoicesOf(Shape(nooks)[..|nooks| - 1])
  {
  }

  // ---- The first nook ----

  function Root(b: Bocage): Slot {
    Slot(b.top, 0, -1, false, false)
  }

  lemma {:induction false} RootMove(b: Bocage)
    requires BocageOk(b)
    ensures Searching(b, [Nook(Root(b), false, false)], {b.top})
    ensures Fresh(b, None, Cs([Nook(Root(b), false, false)]))
    ensures WorkLeft(b, Cs([Nook(Root(b), false, false)])) < WorkLeft(b, [])
  {
    var nooks := [Nook(Root(b), false, false)];
    var s := Shape(nooks);
    assert s == [Root(b)] && s[..0] == [];
    RootTree(b);
    RootFlags(b);
    assert OrSet(s) == {b.top} by {
      assert s[0].or == b.top;
    }
    assert Cs(nooks) == [] + [0];
    hide TreeInv, FlagsOk, Ahead, Past, Left, Cs, Steps;
    RootOrder(b);
    LeftExtend(|b.ands|, |b.ors|, []);
  }

  lemma {:induction false} RootOrder(b: Bocage)
    ensures Fresh(b, None, [] + [0])
  {
    hide Complete;
    assert Steps(b, Start(b), []) == Some(Start(b));
    AheadExtend(b, None, []);
  }

  lemma {:induction false} RootTree(b: Bocage)
    requires BocageOk(b)
    ensures TreeInv(b, [Root(b)])
  {
    var s := [Root(b)];
    assert s[..0] == [];
    assert Choice(b, b.top, 0);
    assert !HasCause(s, 0) && !HasPred(s, 0);
    OpenNew(b, s, 0);
    assert ChoicesOf(s) == [0];
    OneStep(b, [b.top], {}, 0);
    AgendaUnfold(b, s, 1);
    assert OrSet(s) == {b.top} by {
      assert s[0].or == b.top;
    }
    RootStep(b);
  }

  lemma {:induction false} RootStep(b: Bocage)
    requires Choice(b, b.top, 0)
    ensures Step(b, Start(b), 0) == Some(Run(Kids(b, b.top, 0), {b.top}))
  {
    assert Kids(b, b.top, 0) + [b.top][1..] == Kids(b, b.top, 0);
    assert {} + {b.top} == {b.top};
  }

  lemma {:induction false} RootFlags(b: Bocage)
    ensures FlagsOk(b, [Nook(Root(b), false, false)])
  {
    var nooks := [Nook(Root(b), false, false)];
    assert !HasCause(Shape(nooks), 0) && !HasPred(Shape(nooks), 0);
  }

  // ---- Taking up a child ----

  /** The open children of a nook, read from its flags. */
  lemma {:induction false} OpenFlags(b: Bocage, nooks: seq<Nook>, w: nat)
    requires FlagsOk(b, nooks) && w < |nooks|
    ensures var a, n := AndOf(b, nooks[w].slot), nooks[w];
            Open(b, Shape(nooks), w) == (if a.cause.Some? && !n.causeReady then [a.cause.value] else []) + (if a.pred.Some? && !n.predReady then [a.pred.value] else [])
    ensures var a, n := AndOf(b, nooks[w].slot), nooks[w];
            && (a.cause.Some? ==> (n.causeReady <==> HasCause(Shape(nooks), w)))
            && (a.pred.Some? ==> (n.predReady <==> HasPred(Shape(nooks), w)))
  {
    hide AndOf, HasCause, HasPred;
    assert FlagOk(b, nooks[w], Shape(nooks), w);
  }

  lemma {:induction false} PushMove(b: Bocage, prev: Option<seq<nat>>, nooks: seq<Nook>, inUse: set<nat>, work: seq<nat>, x: Slot)
    requires Searching(b, nooks, inUse) && Fresh(b, prev, Cs(nooks))
    requires WorkOk(b, Shape(nooks), work) && work != [] && x.parent == work[|work| - 1] && x.choice == 0
    requires var w := work[|work| - 1];
             && w < |nooks| && Open(b, Shape(nooks), w) != [] && x.or == Open(b, Shape(nooks), w)[0]
             && x.isCause != x.isPred && (x.isCause <==> AndOf(b, Shape(nooks)[w]).cause.Some? && !HasCause(Shape(nooks), w))
    requires x.or !in inUse && Choice(b, x.or, 0)
    ensures Searching(b, Pushed(nooks, x), inUse + {x.or}) && Fresh(b, prev, Cs(Pushed(nooks, x)))
    ensures WorkOk(b, Shape(Pushed(nooks, x)), work + [|nooks|])
    ensures WorkLeft(b, Cs(Pushed(nooks, x))) < WorkLeft(b, Cs(nooks))
  {
    hide TreeInv, FlagsOk, Choice, Open, Agenda, AndOf, HasCause, HasPred, Ahead, Past, Steps, OrSet, Cs, WorkOk, WorkLeft, Pushed;
    var s := Shape(nooks);
    var w := work[|work| - 1];
    WorkTop(b, s, work);
    Push(b, s, w, x);
    FlagsPush(b, nooks, x);
    OrSetSnoc(s, x);
    WorkPush(b, s, work, x);
    PushOrder(b, prev, nooks, x);
  }

  lemma {:induction false} PushOrder(b: Bocage, prev: Option<seq<nat>>, nooks: seq<Nook>, x: Slot)
    requires nooks != [] && TreeInv(b, Shape(nooks)) && TreeInv(b, Shape(nooks) + [x]) && 0 <= x.parent < |nooks| && x.choice == 0
    requires Fresh(b, prev, Cs(nooks))
    ensures Fresh(b, prev, Cs(Pushed(nooks, x))) && WorkLeft(b, Cs(Pushed(nooks, x))) < WorkLeft(b, Cs(nooks))
  {
    PushedCs(nooks, x);
    StackFits(b, Shape(nooks) + [x]);
    var s := Shape(nooks) + [x];
    assert s[..|nooks|] == Shape(nooks);
    LastStep(b, s);
    hide TreeInv, Choice, Ahead, Past, Steps, Left, Pushed, Agenda;
    AheadExtend(b, prev, Cs(nooks));
    PastExtend(prev, Cs(nooks), 0);
    LeftExtend(|b.ands|, |b.ors|, Cs(nooks));
  }

  lemma {:induction false} PushedCs(nooks: seq<Nook>, x: Slot)
    requires 0 <= x.parent < |nooks| && x.choice == 0
    ensures Cs(Pushed(nooks, x)) == Cs(nooks) + [0] && |Cs(nooks)| == |nooks|
  {
  }

  /** The child is in the tree already: nothing wanted extends this stack. */
  lemma {:induction false} RepeatMove(b: Bocage, prev: Option<seq<nat>>, nooks: seq<Nook>, inUse: set<nat>, work: seq<nat>)
    requires Searching(b, nooks, inUse) && Fresh(b, prev, Cs(nooks))
    requires WorkOk(b, Shape(nooks), work) && work != []
    requires var w := work[|work| - 1];
             w < |nooks| && Open(b, Shape(nooks), w) != [] && Open(b, Shape(nooks), w)[0] in inUse
    ensures DeadEnd(b, prev, Cs(nooks))
  {
    var s := Shape(nooks);
    TreeInvParts(b, s);
    hide TreeInv, FlagsOk, Open, Steps, Ahead, Beyond, OrSet, WorkOk, Fits;
    HeadOpen(b, s, work);
    BeyondRepeat(b, prev, Cs(nooks));
  }

  /** The first open child of the nook on top of the worklist is next on the agenda. */
  lemma {:induction false} HeadOpen(b: Bocage, s: seq<Slot>, work: seq<nat>)
    requires WorkOk(b, s, work) && work != [] && work[|work| - 1] < |s| && Open(b, s, work[|work| - 1]) != []
    ensures Agenda(b, s, |s|) != [] && Agenda(b, s, |s|)[0] == Open(b, s, work[|work| - 1])[0]
  {
    hide *;
    var w := work[|work| - 1];
    WorkTop(b, s, work);
    AgendaSkip(b, s, w + 1, |s|);
    AgendaUnfold(b, s, w + 1);
  }

  /** Nothing left on the worklist: the stack is a whole tree, the least one wanted. */
  lemma {:induction false} DoneMove(b: Bocage, prev: Option<seq<nat>>, nooks: seq<Nook>, inUse: set<nat>)
    requires Searching(b, nooks, inUse) && Fresh(b, prev, Cs(nooks)) && WorkOk(b, Shape(nooks), [])
    ensures Wanted(b, prev, Cs(nooks))
    ensures forall t :: Wanted(b, prev, t) ==> t == Cs(nooks) || After(Cs(nooks), t)
  {
    var s := Shape(nooks);
    TreeInvParts(b, s);
    hide TreeInv, FlagsOk, Agenda, OrSet, WorkOk, Fits, Steps;
    WorkEmpty(b, s);
    hide After;
    forall t | Wanted(b, prev, t)
      ensures t == Cs(nooks) || After(Cs(nooks), t)
    {
      if Cs(nooks) <= t {
        CompleteEnds(b, Cs(nooks), t);
      }
    }
  }

  /** A worklist is never longer than the stack. */
  lemma {:induction false} WorkFits(work: seq<nat>, n: nat)
    requires (forall i, j :: 0 <= i < j < |work| ==> work[i] < work[j]) && forall i :: 0 <= i < |work| ==> work[i] < n
    ensures |work| <= n
    decreases |work|
  {
    if work != [] {
      var k := |work| - 1;
      WorkFits(work[..k], work[k]);
    }
  }
}
