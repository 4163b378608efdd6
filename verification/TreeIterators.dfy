/** The resumable iterator over parse trees: each call backtracks to the next tree. */
module TreeIterators {
  import opened Options
  import opened Bocages
  import opened TreeSearch
  import opened TreeOrder
  import opened TreeMoves

  /** The last tree found, if any. */
  ghost function Last(seen: seq<seq<nat>>): Option<seq<nat>> {
    if seen == [] then None else Some(seen[|seen| - 1])
  }

  /** The trees found so far are complete and strictly ascending; any other complete
      tree comes after the last of them, and there is none once exhausted. */
  ghost predicate SeenOk(b: Bocage, seen: seq<seq<nat>>, exhausted: bool) {
    && (forall i, j :: 0 <= i < j < |seen| ==> After(seen[i], seen[j]))
    && (forall i :: 0 <= i < |seen| ==> Complete(b, seen[i]))
    && (forall t :: Complete(b, t) ==> t in seen || Wanted(b, Last(seen), t))
    && (exhausted ==> forall t :: !Wanted(b, Last(seen), t))
  }

  /** `t` is the least of the trees still wanted. */
  ghost predicate NextTree(b: Bocage, prev: Option<seq<nat>>, t: seq<nat>) {
    Wanted(b, prev, t) && forall u :: Wanted(b, prev, u) ==> u == t || After(t, u)
  }

  lemma {:induction false} SeenNext(b: Bocage, seen: seq<seq<nat>>, t: seq<nat>)
    requires SeenOk(b, seen, false) && NextTree(b, Last(seen), t)
    ensures SeenOk(b, seen + [t], false)
  {
    hide Complete, After;
    var seen' := seen + [t];
    assert Last(seen') == Some(t);
    forall i, j | 0 <= i < j < |seen'|
      ensures After(seen'[i], seen'[j])
    {
      if j == |seen| && i < |seen| - 1 {
        AfterTransitive(seen[i], seen[|seen| - 1], t);
      }
    }
    forall u | Complete(b, u)
      ensures u in seen' || Wanted(b, Some(t), u)
    {
      assert seen'[|seen|] == t;
      assert u in seen ==> u in seen';
    }
  }

  /** Whatever is exhausted has found every complete tree, each exactly once. */
  lemma {:induction false} ExhaustedFoundAll(b: Bocage, seen: seq<seq<nat>>, t: seq<nat>)
    requires SeenOk(b, seen, true)
    ensures Complete(b, t) <==> t in seen
    ensures forall i, j :: 0 <= i < j < |seen| ==> seen[i] != seen[j]
  {
    hide Complete;
    forall i, j | 0 <= i < j < |seen|
      ensures seen[i] != seen[j]
    {
    }
  }

  lemma {:induction false} FoundIsDeadEnd(b: Bocage, t: seq<nat>)
    ensures DeadEnd(b, Some(t), t)
  {
  }

  lemma {:induction false} LeastIsWanted(b: Bocage, prev: Option<seq<nat>>, nooks: seq<Nook>, inUse: set<nat>)
    requires Searching(b, nooks, inUse) && Fresh(b, prev, Cs(nooks)) && WorkOk(b, Shape(nooks), [])
    ensures NextTree(b, prev, Cs(nooks)) && exists t :: Wanted(b, prev, t)
  {
    hide Searching, Fresh, WorkOk, Wanted, After;
    DoneMove(b, prev, nooks, inUse);
  }

  lemma {:induction false} NothingLeft(b: Bocage, prev: Option<seq<nat>>, seen: seq<seq<nat>>)
    requires SeenOk(b, seen, false) && prev == Last(seen) && DeadEnd(b, prev, [])
    ensures SeenOk(b, seen, true) && forall t :: !Wanted(b, prev, t)
  {
    hide Wanted, Beyond;
    BeyondNothing(b, prev);
  }

  lemma {:induction false} NoneWanted(b: Bocage, seen: seq<seq<nat>>)
    requires SeenOk(b, seen, true)
    ensures forall t :: !Wanted(b, Last(seen), t)
  {
    hide Wanted;
  }

  lemma {:induction false} EmptyWork(b: Bocage)
    ensures WorkLeft(b, []) >= 0
  {
    WeightPositive(|b.ands|, |b.ors|);
  }

  /** Every nook is on the worklist at first. */
  lemma {:induction false} AllWork(b: Bocage, slots: seq<Slot>, work: seq<nat>)
    requires |work| == |slots| && forall i :: 0 <= i < |work| ==> work[i] == i
    ensures WorkOk(b, slots, work)
  {
    hide Open;
    forall i: nat | i < |slots|
      ensures i in work
    {
      assert work[i] == i;
    }
  }

  lemma {:induction false} SearchWork(b: Bocage, nooks: seq<Nook>, inUse: set<nat>)
    requires Searching(b, nooks, inUse)
    ensures 0 <= WorkAfter(b, Cs(nooks)) < WorkLeft(b, Cs(nooks)) && nooks != []
  {
    hide FlagsOk, TreeInv, Cs, WorkLeft, WorkAfter;
    WorkNatural(b, nooks);
  }

  /** The parent of a nook comes before it. */
  lemma {:induction false} ParentBefore(b: Bocage, nooks: seq<Nook>, inUse: set<nat>)
    requires Searching(b, nooks, inUse)
    ensures nooks[|nooks| - 1].slot.parent < |nooks| - 1
    ensures |nooks| == 1 ==> nooks[0].slot.parent < 0
  {
    hide FlagsOk;
    TreeInvParts(b, Shape(nooks));
    hide TreeInv, Snapshot, Choice, AndOf, HasCause, HasPred, Agenda;
  }

  lemma {:induction false} NoChoices()
    ensures Cs([]) == []
  {
  }

  /** The child to take up next: the first open child, and whether it is the cause. */
  ghost predicate ChildIs(b: Bocage, slots: seq<Slot>, work: seq<nat>, child: Option<nat>, isCause: bool)
    requires work != []
  {
    var w := work[|work| - 1];
    && w < |slots|
    && child == (if Open(b, slots, w) == [] then None else Some(Open(b, slots, w)[0]))
    && (child.Some? ==> (isCause <==> AndOf(b, slots[w]).cause.Some? && !HasCause(slots, w)))
  }

  lemma {:induction false} AllChoices(b: Bocage, s: seq<Slot>, i: nat)
    requires TreeInv(b, s) && i < |s|
    ensures Choice(b, s[i].or, s[i].choice)
    decreases |s|
  {
    hide Snapshot, Choice;
    if i < |s| - 1 {
      AllChoices(b, s[..|s| - 1], i);
    } else {
      LastChoice(b, s);
    }
  }

  lemma {:induction false} AndRead(b: Bocage, nooks: seq<Nook>, inUse: set<nat>, work: seq<nat>)
    requires Searching(b, nooks, inUse) && WorkOk(b, Shape(nooks), work) && work != []
    ensures work[|work| - 1] < |nooks|
    ensures var x := nooks[work[|work| - 1]].slot;
            IxIsValid(b, x.or, x.choice) && AndId(b, x.or, x.choice) < |b.ands| && b.ands[AndId(b, x.or, x.choice)] == AndOf(b, x)
  {
    AllChoices(b, Shape(nooks), work[|work| - 1]);
    hide TreeInv, FlagsOk, Open;
  }

  /** The flags, the cause and the predecessor of a nook give its next child. */
  lemma {:induction false} ReadChild(b: Bocage, nooks: seq<Nook>, inUse: set<nat>, work: seq<nat>)
    requires Searching(b, nooks, inUse) && work != [] && work[|work| - 1] < |nooks|
    ensures var n := nooks[work[|work| - 1]];
            var a := AndOf(b, n.slot);
            if a.cause.Some? && !n.causeReady then ChildIs(b, Shape(nooks), work, a.cause, true)
            else if a.pred.Some? && !n.predReady then ChildIs(b, Shape(nooks), work, a.pred, false)
            else forall c :: ChildIs(b, Shape(nooks), work, None, c)
  {
    OpenFlags(b, nooks, work[|work| - 1]);
    hide TreeInv, FlagsOk, Open, AndOf, HasCause, HasPred;
  }

  lemma {:induction false} MarkReady(b: Bocage, nooks: seq<Nook>, inUse: set<nat>, w: nat, n: Nook)
    requires Searching(b, nooks, inUse) && w < |nooks| && n.slot == nooks[w].slot
    requires AndOf(b, n.slot).cause.Some? ==> n.causeReady == nooks[w].causeReady
    requires AndOf(b, n.slot).pred.Some? ==> n.predReady == nooks[w].predReady
    ensures Searching(b, nooks[w := n], inUse) && Shape(nooks[w := n]) == Shape(nooks)
  {
    FlagsReady(b, nooks, w, n);
    hide TreeInv, FlagsOk, AndOf;
  }

  /** The child has a first choice, and there is room for it on both stacks. */
  lemma {:induction false} ChildFits(b: Bocage, nooks: seq<Nook>, inUse: set<nat>, work: seq<nat>, child: nat, isCause: bool)
    requires Searching(b, nooks, inUse) && WorkOk(b, Shape(nooks), work) && work != []
    requires ChildIs(b, Shape(nooks), work, Some(child), isCause) && child !in inUse
    ensures Choice(b, child, 0) && |nooks| < |b.ands| && |work| < |b.ands|
  {
    var s := Shape(nooks);
    var w := work[|work| - 1];
    var x := Slot(child, 0, w, isCause, !isCause);
    WorkTop(b, s, work);
    WorkFits(work, |s|);
    hide TreeInv, FlagsOk, Open, AndOf, HasCause, HasPred, Choice, WorkOk, OrSet, BocageOk;
    Push(b, s, w, x);
    StackFits(b, s + [x]);
  }

  class TreeIterator {
    const b: Bocage
    var nooks: seq<Nook>
    var worklist: seq<nat>
    var inUse: set<nat>
    var parseCount: nat
    var exhausted: bool
    ghost var seen: seq<seq<nat>>

    /** Before the first call the stack is empty; after it, the stack is the last tree. */
    ghost predicate Valid()
      reads this
    {
      && BocageOk(b) && SeenOk(b, seen, exhausted) && parseCount == |seen|
      && (!exhausted ==>
           if seen == [] then nooks == [] && inUse == {}
           else Searching(b, nooks, inUse) && Cs(nooks) == seen[|seen| - 1])
    }

    /** An upper bound on the trees still to come. */
    ghost function Remaining(): int
      reads this
    {
      if exhausted then 0 else if seen == [] then WorkLeft(b, []) else WorkAfter(b, Cs(nooks))
    }

    constructor (b: Bocage)
      requires BocageOk(b)
      ensures Valid() && this.b == b && seen == [] && !exhausted
    {
      this.b := b;
      nooks, worklist, inUse, parseCount, exhausted := [], [], {}, 0, false;
      seen := [];
      new;
    }

    /** The next tree in lexicographic order of choices: its size, or -1 when there is
        none, now and ever after. */
    method Next() returns (r: int)
      requires Valid()
      modifies this
      ensures Valid()
      ensures r == -1 <==> forall t :: !Wanted(b, Last(old(seen)), t)
      ensures r == -1 ==> exhausted && seen == old(seen)
      ensures r != -1 ==> r == |nooks| && seen == old(seen) + [Cs(nooks)] && NextTree(b, Last(old(seen)), Cs(nooks))
      ensures parseCount == old(parseCount) + if r == -1 then 0 else 1
      ensures r != -1 ==> !exhausted && 0 <= Remaining() < old(Remaining())
    {
      hide BocageOk, SeenOk, Searching, Cs, Wanted, NextTree, Fresh, DeadEnd, WorkAfter, WorkLeft, WorkOk, Shape;
      if exhausted {
        NoneWanted(b, seen);
        return -1;
      }
      ghost var prev := Last(seen);
      var first := parseCount < 1;
      if first {
        EmptyWork(b);
      } else {
        FoundIsDeadEnd(b, Cs(nooks));
        SearchWork(b, nooks, inUse);
      }
      while true
        invariant seen == old(seen) && parseCount == old(parseCount) && !exhausted
        invariant !first ==> Searching(b, nooks, inUse) && DeadEnd(b, prev, Cs(nooks)) && WorkAfter(b, Cs(nooks)) >= 0
        invariant first ==> nooks == [] && inUse == {} && prev == None && WorkLeft(b, []) >= 0
        invariant (if first then WorkLeft(b, []) else WorkAfter(b, Cs(nooks))) <= old(Remaining())
        decreases if first then WorkLeft(b, []) else WorkAfter(b, Cs(nooks))
      {
        if first {
          first := false;
          PushRoot();
        } else {
          Iterate(prev);
          if nooks == [] {
            exhausted := true;
            NothingLeft(b, prev, seen);
            return -1;
          }
        }
        var done := Expand(prev);
        SearchWork(b, nooks, inUse);
        if done {
          LeastIsWanted(b, prev, nooks, inUse);
          SeenNext(b, seen, Cs(nooks));
          parseCount := parseCount + 1;
          seen := seen + [Cs(nooks)];
          return |nooks|;
        }
      }
    }

    /** The root or-node with its first choice. */
    method PushRoot()
      requires BocageOk(b) && nooks == [] && inUse == {}
      modifies `nooks, `inUse
      ensures Searching(b, nooks, inUse) && Fresh(b, None, Cs(nooks)) && WorkLeft(b, Cs(nooks)) < WorkLeft(b, [])
    {
      hide BocageOk, Searching, Fresh, WorkLeft, Cs;
      RootMove(b);
      inUse := inUse + {b.top};
      nooks := nooks + [Nook(Slot(b.top, 0, -1, false, false), false, false)];
      assert inUse == {b.top} && nooks == [Nook(Root(b), false, false)];
    }

    /** Backtrack to the last nook that has another choice, and take it. */
    method Iterate(ghost prev: Option<seq<nat>>)
      requires Searching(b, nooks, inUse) && DeadEnd(b, prev, Cs(nooks))
      modifies `nooks, `inUse
      ensures nooks == [] ==> DeadEnd(b, prev, []) && inUse == {}
      ensures nooks != [] ==> Searching(b, nooks, inUse) && Fresh(b, prev, Cs(nooks))
      ensures nooks != [] ==> WorkLeft(b, Cs(nooks)) <= old(WorkAfter(b, Cs(nooks)))
    {
      hide BocageOk, Searching, Fresh, DeadEnd, WorkLeft, WorkAfter, Cs, IxIsValid, TreeInv;
      SearchWork(b, nooks, inUse);
      while nooks != []
        invariant DeadEnd(b, prev, Cs(nooks))
        invariant if nooks == [] then inUse == {} else Searching(b, nooks, inUse)
        invariant WorkAfter(b, Cs(nooks)) <= old(WorkAfter(b, Cs(nooks)))
        decreases |nooks|
      {
        var x := nooks[|nooks| - 1].slot;
        var choice := x.choice + 1;
        if IxIsValid(b, x.or, choice) {
          RechooseMove(b, prev, nooks, inUse);
          nooks := nooks[|nooks| - 1 := Nook(x.(choice := choice), false, false)];
          return;
        }
        ghost var before := nooks;
        ParentBefore(b, nooks, inUse);
        PopMove(b, prev, nooks, inUse);
        if x.parent >= 0 {
          var p := nooks[x.parent];
          if x.isCause {
            p := p.(causeReady := false);
          }
          if x.isPred {
            p := p.(predReady := false);
          }
          nooks := nooks[x.parent := p];
        }
        inUse := inUse - {x.or};
        nooks := nooks[..|nooks| - 1];
        assert nooks == Popped(before);
      }
      NoChoices();
    }

    /** Take up open children until there is none left, or one repeats an or-node. */
    method Expand(ghost prev: Option<seq<nat>>) returns (done: bool)
      requires Searching(b, nooks, inUse) && Fresh(b, prev, Cs(nooks))
      modifies `nooks, `worklist, `inUse
      ensures Searching(b, nooks, inUse)
      ensures if done then Fresh(b, prev, Cs(nooks)) && WorkOk(b, Shape(nooks), []) else DeadEnd(b, prev, Cs(nooks))
      ensures WorkLeft(b, Cs(nooks)) <= old(WorkLeft(b, Cs(nooks)))
    {
      hide BocageOk, Searching, Fresh, DeadEnd, WorkLeft, Cs, IxIsValid, TreeInv, WorkOk, Open, AndOf, HasCause;
      worklist := [];
      for i := 0 to |nooks|
        invariant |worklist| == i && forall k :: 0 <= k < i ==> worklist[k] == k
        invariant nooks == old(nooks) && inUse == old(inUse)
      {
        worklist := worklist + [i];
      }
      AllWork(b, Shape(nooks), worklist);
      SearchWork(b, nooks, inUse);
      while true
        invariant Searching(b, nooks, inUse) && Fresh(b, prev, Cs(nooks)) && WorkOk(b, Shape(nooks), worklist)
        invariant WorkLeft(b, Cs(nooks)) <= old(WorkLeft(b, Cs(nooks)))
        invariant WorkLeft(b, Cs(nooks)) >= 0
        decreases WorkLeft(b, Cs(nooks)), |worklist|
      {
        if worklist == [] {
          return true;
        }
        var child, isCause := NextChild();
        if child.None? {
          WorkPop(b, Shape(nooks), worklist);
          worklist := worklist[..|worklist| - 1];
        } else if child.value in inUse {
          RepeatMove(b, prev, nooks, inUse, worklist);
          return false;
        } else {
          ChildFits(b, nooks, inUse, worklist, child.value, isCause);
          PushNook(prev, child.value, isCause);
          SearchWork(b, nooks, inUse);
        }
      }
    }

    /** The child to take up next for the nook on top of the worklist, if it has one. */
    method NextChild() returns (child: Option<nat>, isCause: bool)
      requires Searching(b, nooks, inUse) && WorkOk(b, Shape(nooks), worklist) && worklist != []
      modifies `nooks
      ensures Searching(b, nooks, inUse) && Shape(nooks) == old(Shape(nooks)) && Cs(nooks) == old(Cs(nooks))
      ensures ChildIs(b, Shape(nooks), worklist, child, isCause)
    {
      hide BocageOk, Searching, TreeInv, WorkOk, Open, AndOf, HasCause, HasPred, Shape, ChildIs, IxIsValid, AndId;
      var w := worklist[|worklist| - 1];
      AndRead(b, nooks, inUse, worklist);
      var nook := nooks[w];
      var and := b.ands[AndId(b, nook.slot.or, nook.slot.choice)];
      ReadChild(b, nooks, inUse, worklist);
      if !nook.causeReady && and.cause.Some? {
        return and.cause, true;
      }
      MarkReady(b, nooks, inUse, w, nook.(causeReady := true));
      nook := nook.(causeReady := true);
      nooks := nooks[w := nook];
      if !nook.predReady && and.pred.Some? {
        return and.pred, false;
      }
      MarkReady(b, nooks, inUse, w, nook.(predReady := true));
      nook := nook.(predReady := true);
      nooks := nooks[w := nook];
      return None, false;
    }

    /** A new nook for the child; neither stack outgrows the room it was given. */
    method PushNook(ghost prev: Option<seq<nat>>, child: nat, isCause: bool)
      requires Searching(b, nooks, inUse) && Fresh(b, prev, Cs(nooks)) && WorkOk(b, Shape(nooks), worklist)
      requires worklist != [] && ChildIs(b, Shape(nooks), worklist, Some(child), isCause)
      requires child !in inUse && Choice(b, child, 0)
      requires |nooks| < |b.ands| && |worklist| < |b.ands|
      modifies `nooks, `worklist, `inUse
      ensures Searching(b, nooks, inUse) && Fresh(b, prev, Cs(nooks)) && WorkOk(b, Shape(nooks), worklist)
      ensures WorkLeft(b, Cs(nooks)) < old(WorkLeft(b, Cs(nooks)))
      ensures |nooks| <= |b.ands| && |worklist| <= |b.ands|
    {
      hide BocageOk, Searching, Fresh, WorkLeft, Cs, WorkOk, Shape, Open, AndOf, HasCause, Choice;
      var w := worklist[|worklist| - 1];
      var x := Slot(child, 0, w, isCause, !isCause);
      PushMove(b, prev, nooks, inUse, worklist, x);
      ghost var before := nooks;
      inUse := inUse + {child};
      worklist := worklist + [|nooks|];
      var p := nooks[w];
      nooks := nooks + [Nook(x, false, false)];
      if isCause {
        nooks := nooks[w := p.(causeReady := true)];
      } else {
        nooks := nooks[w := p.(predReady := true)];
      }
      assert nooks == Pushed(before, x);
    }
  }
}
