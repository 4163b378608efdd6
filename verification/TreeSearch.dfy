/** The search state behind the tree iterator: the stack of nooks as a prefix of a
    tree, what it still has to expand, and where it stands in lexicographic order. */
module TreeSearch {
  import opened Options
  import opened Bocages

  /** The place of an or-node in a tree under construction. */
  datatype Slot = Slot(or: nat, choice: nat, parent: int, isCause: bool, isPred: bool)

  /** A nook: a slot and whether its children have been taken up. */
  datatype Nook = Nook(slot: Slot, causeReady: bool, predReady: bool)

  function Shape(nooks: seq<Nook>): (r: seq<Slot>)
    ensures |r| == |nooks| && forall i :: 0 <= i < |r| ==> r[i] == nooks[i].slot
  {
    seq(|nooks|, i requires 0 <= i < |nooks| => nooks[i].slot)
  }

  ghost function ChoicesOf(slots: seq<Slot>): (r: seq<nat>)
    ensures |r| == |slots| && forall i :: 0 <= i < |r| ==> r[i] == slots[i].choice
  {
    seq(|slots|, i requires 0 <= i < |slots| => slots[i].choice)
  }

  ghost function OrSet(slots: seq<Slot>): set<nat> {
    set i | 0 <= i < |slots| :: slots[i].or
  }

  ghost function AndOf(b: Bocage, x: Slot): And {
    if Choice(b, x.or, x.choice) then b.ands[AndId(b, x.or, x.choice)] else And(None, None)
  }

  ghost predicate HasCause(slots: seq<Slot>, i: nat) {
    exists j :: 0 <= j < |slots| && slots[j].parent == i && slots[j].isCause
  }

  ghost predicate HasPred(slots: seq<Slot>, i: nat) {
    exists j :: 0 <= j < |slots| && slots[j].parent == i && slots[j].isPred
  }

  /** The children of slot `i` that are not in the tree yet. */
  ghost function Open(b: Bocage, slots: seq<Slot>, i: nat): seq<nat>
    requires i < |slots|
  {
    var a := AndOf(b, slots[i]);
    (if a.cause.Some? && !HasCause(slots, i) then [a.cause.value] else []) +
    (if a.pred.Some? && !HasPred(slots, i) then [a.pred.value] else [])
  }

  /** Everything below the first `n` slots that is not in the tree yet, last slot first. */
  ghost function Agenda(b: Bocage, slots: seq<Slot>, n: nat): seq<nat>
    requires n <= |slots|
  {
    if n == 0 then [] else Open(b, slots, n - 1) + Agenda(b, slots, n - 1)
  }

  ghost predicate Snapshot(b: Bocage, slots: seq<Slot>) {
    Steps(b, Start(b), ChoicesOf(slots)) == Some(Run(Agenda(b, slots, |slots|), OrSet(slots)))
  }

  /** Slot `x` may come after the slots `s`: it is the root, or the first open child
      of an earlier slot, of the kind it says. */
  ghost predicate Fits(b: Bocage, s: seq<Slot>, x: Slot) {
    && Choice(b, x.or, x.choice)
    && if s == [] then x.or == b.top && x.parent == -1 && !x.isCause && !x.isPred
       else
         && 0 <= x.parent < |s| && x.isCause != x.isPred
         && (x.isCause ==> AndOf(b, s[x.parent]).cause == Some(x.or) && !HasCause(s, x.parent))
         && (x.isPred ==> AndOf(b, s[x.parent]).pred == Some(x.or) && !HasPred(s, x.parent))
         && Agenda(b, s, |s|) != [] && Agenda(b, s, |s|)[0] == x.or
  }

  /** The slots are the prefix of a run: at each length, the choices so far leave
      exactly the open children, and the next slot is the first of those. */
  ghost predicate TreeInv(b: Bocage, slots: seq<Slot>) {
    && slots != []
    && var n := |slots| - 1;
    && Fits(b, slots[..n], slots[n]) && Snapshot(b, slots)
    && (n > 0 ==> TreeInv(b, slots[..n]))
  }

  lemma {:induction false} TreeInvSome(b: Bocage, s: seq<Slot>)
    requires TreeInv(b, s)
    ensures s != []
  {
  }

  /** The ready flags of a nook say which of its children are in the tree. */
  ghost predicate FlagOk(b: Bocage, n: Nook, slots: seq<Slot>, i: nat) {
    && (AndOf(b, n.slot).cause.Some? ==> (n.causeReady <==> HasCause(slots, i)))
    && (AndOf(b, n.slot).pred.Some? ==> (n.predReady <==> HasPred(slots, i)))
  }

  ghost predicate FlagsOk(b: Bocage, nooks: seq<Nook>) {
    forall i: nat :: i < |nooks| ==> FlagOk(b, nooks[i], Shape(nooks), i)
  }

  // ---- The agenda when a slot is added or changed ----

  lemma {:induction false} AgendaSame(b: Bocage, s: seq<Slot>, s': seq<Slot>, n: nat)
    requires n <= |s| && n <= |s'| && forall i :: 0 <= i < n ==> Open(b, s', i) == Open(b, s, i)
    ensures Agenda(b, s', n) == Agenda(b, s, n)
  {
    if n > 0 {
      AgendaSame(b, s, s', n - 1);
    }
  }

  lemma {:induction false} AgendaSkip(b: Bocage, s: seq<Slot>, w: nat, n: nat)
    requires w <= n <= |s| && forall i :: w <= i < n ==> Open(b, s, i) == []
    ensures Agenda(b, s, n) == Agenda(b, s, w)
  {
    if w < n {
      AgendaSkip(b, s, w, n - 1);
    }
  }

  /** Adding a slot changes only its parent's open children and its own. */
  lemma {:induction false} OpenAppend(b: Bocage, s: seq<Slot>, x: Slot, i: nat)
    requires i < |s| && x.isCause != x.isPred
    ensures x.parent != i ==> Open(b, s + [x], i) == Open(b, s, i)
    ensures x.parent == i && x.isCause ==> HasCause(s + [x], i) && (HasPred(s + [x], i) <==> HasPred(s, i))
    ensures x.parent == i && x.isPred ==> HasPred(s + [x], i) && (HasCause(s + [x], i) <==> HasCause(s, i))
    ensures x.parent != i ==> (HasCause(s + [x], i) <==> HasCause(s, i)) && (HasPred(s + [x], i) <==> HasPred(s, i))
  {
    var s' := s + [x];
    assert s'[|s|] == x;
    assert forall j :: 0 <= j < |s| ==> s'[j] == s[j];
    assert s'[i] == s[i];
  }

  /** A slot that nothing has as parent has all its children open. */
  lemma {:induction false} OpenNew(b: Bocage, s: seq<Slot>, i: nat)
    requires i < |s| && Choice(b, s[i].or, s[i].choice) && forall j :: 0 <= j < |s| ==> s[j].parent != i
    ensures Open(b, s, i) == Kids(b, s[i].or, s[i].choice)
  {
  }

  lemma {:induction false} ParentsBefore(b: Bocage, s: seq<Slot>, i: nat)
    requires TreeInv(b, s) && i + 1 >= |s|
    ensures forall j :: 0 <= j < |s| ==> s[j].parent != i
    decreases |s|
  {
    hide Choice, Snapshot, AndOf;
    var n := |s| - 1;
    if n > 0 {
      ParentsBefore(b, s[..n], i);
      assert forall j :: 0 <= j < n ==> s[j] == s[..n][j];
    }
  }

  // ---- Push, change of choice, pop ----

  /** Taking up the first open child of slot `w`. */
  lemma {:induction false} Push(b: Bocage, s: seq<Slot>, w: nat, x: Slot)
    requires TreeInv(b, s) && w < |s| && x.parent == w && Choice(b, x.or, x.choice)
    requires forall i :: w < i < |s| ==> Open(b, s, i) == []
    requires Open(b, s, w) != [] && x.or == Open(b, s, w)[0]
    requires x.isCause != x.isPred && (x.isCause <==> AndOf(b, s[w]).cause.Some? && !HasCause(s, w))
    requires x.or !in OrSet(s)
    ensures TreeInv(b, s + [x])
  {
    hide Choice, Snapshot, Agenda, HasCause, HasPred;
    var s' := s + [x];
    PushAgenda(b, s, w, x);
    PushSnapshot(b, s, x);
    assert s'[..|s|] == s && s'[|s|] == x;
  }

  /** The agenda before and after a push. */
  lemma {:induction false} PushAgenda(b: Bocage, s: seq<Slot>, w: nat, x: Slot)
    requires TreeInv(b, s) && w < |s| && x.parent == w && Choice(b, x.or, x.choice)
    requires forall i :: w < i < |s| ==> Open(b, s, i) == []
    requires Open(b, s, w) != [] && x.isCause != x.isPred
    requires x.isCause <==> AndOf(b, s[w]).cause.Some? && !HasCause(s, w)
    ensures Agenda(b, s, |s|) == Open(b, s, w) + Agenda(b, s, w)
    ensures Agenda(b, s + [x], |s| + 1) == Kids(b, x.or, x.choice) + Agenda(b, s, |s|)[1..]
  {
    hide TreeInv, Choice, AndOf, HasCause, HasPred, Open, Agenda, Kids;
    var s' := s + [x];
    OpenPushed(b, s, w, x);
    AgendaSkip(b, s, w + 1, |s|);
    AgendaUnfold(b, s, w + 1);
    AgendaSkip(b, s', w + 1, |s|);
    AgendaUnfold(b, s', w + 1);
    AgendaSame(b, s, s', w);
    AgendaUnfold(b, s', |s| + 1);
    TailConcat(Open(b, s, w), Agenda(b, s, w));
  }

  lemma {:induction false} AgendaUnfold(b: Bocage, s: seq<Slot>, n: nat)
    requires 0 < n <= |s|
    ensures Agenda(b, s, n) == Open(b, s, n - 1) + Agenda(b, s, n - 1)
  {
  }

  lemma {:induction false} TailConcat(s: seq<nat>, t: seq<nat>)
    requires s != []
    ensures (s + t)[1..] == s[1..] + t
  {
  }

  lemma {:induction false} OpenPushed(b: Bocage, s: seq<Slot>, w: nat, x: Slot)
    requires TreeInv(b, s) && w < |s| && x.parent == w && Choice(b, x.or, x.choice)
    requires Open(b, s, w) != [] && x.isCause != x.isPred
    requires x.isCause <==> AndOf(b, s[w]).cause.Some? && !HasCause(s, w)
    ensures Open(b, s + [x], |s|) == Kids(b, x.or, x.choice)
    ensures Open(b, s + [x], w) == Open(b, s, w)[1..]
    ensures forall i :: 0 <= i < |s| && i != w ==> Open(b, s + [x], i) == Open(b, s, i)
  {
    hide TreeInv, Choice, AndOf, HasCause, HasPred, Open;
    NoKids(b, s, x);
    OpenNew(b, s + [x], |s|);
    OpenTaken(b, s, w, x);
    forall i | 0 <= i < |s| && i != w
      ensures Open(b, s + [x], i) == Open(b, s, i)
    {
      OpenAppend(b, s, x, i);
    }
  }

  lemma {:induction false} NoKids(b: Bocage, s: seq<Slot>, x: Slot)
    requires TreeInv(b, s) && x.parent < |s|
    ensures var s' := s + [x]; s'[|s|] == x && forall j :: 0 <= j < |s'| ==> s'[j].parent != |s|
  {
    ParentsBefore(b, s, |s|);
  }

  lemma {:induction false} OpenTaken(b: Bocage, s: seq<Slot>, w: nat, x: Slot)
    requires w < |s| && x.parent == w && Open(b, s, w) != [] && x.isCause != x.isPred
    requires x.isCause <==> AndOf(b, s[w]).cause.Some? && !HasCause(s, w)
    ensures Open(b, s + [x], w) == Open(b, s, w)[1..]
  {
    OpenAppend(b, s, x, w);
    assert (s + [x])[w] == s[w];
  }

  lemma {:induction false} PushSnapshot(b: Bocage, s: seq<Slot>, x: Slot)
    requires TreeInv(b, s) && Choice(b, x.or, x.choice) && x.or !in OrSet(s)
    requires Agenda(b, s, |s|) != [] && Agenda(b, s, |s|)[0] == x.or
    requires Agenda(b, s + [x], |s| + 1) == Kids(b, x.or, x.choice) + Agenda(b, s, |s|)[1..]
    ensures Snapshot(b, s + [x])
  {
    hide Agenda, Steps, Choice;
    var s' := s + [x];
    assert ChoicesOf(s') == ChoicesOf(s) + [x.choice];
    StepsSnoc(b, Start(b), ChoicesOf(s), x.choice);
    OrSetSnoc(s, x);
  }

  lemma {:induction false} OrSetSnoc(s: seq<Slot>, x: Slot)
    ensures OrSet(s + [x]) == OrSet(s) + {x.or}
  {
    var s' := s + [x];
    assert s'[|s|] == x;
    assert forall i :: 0 <= i < |s| ==> s'[i] == s[i];
    forall o | o in OrSet(s)
      ensures o in OrSet(s')
    {
      var i :| 0 <= i < |s| && s[i].or == o;
      assert s'[i].or == o;
    }
  }

  lemma {:induction false} TreeInvParts(b: Bocage, s: seq<Slot>)
    requires TreeInv(b, s)
    ensures var n := |s| - 1; Fits(b, s[..n], s[n]) && Snapshot(b, s) && (n > 0 ==> Snapshot(b, s[..n]))
  {
    hide Fits, Snapshot;
  }

  /** What the last step of the run did. */
  lemma {:induction false} LastStep(b: Bocage, s: seq<Slot>)
    requires TreeInv(b, s)
    ensures var n := |s| - 1;
            var before := Steps(b, Start(b), ChoicesOf(s[..n]));
            && before.Some? && before.value.used == OrSet(s[..n])
            && before.value.agenda != [] && before.value.agenda[0] == s[n].or
            && s[n].or !in OrSet(s[..n])
            && (n > 0 ==> before.value.agenda == Agenda(b, s[..n], n))
  {
    TreeInvParts(b, s);
    hide TreeInv, AndOf, Agenda, Choice;
    var n := |s| - 1;
    var s0, x := s[..n], s[n];
    assert s == s0 + [x];
    assert ChoicesOf(s) == ChoicesOf(s0) + [x.choice];
    assert ChoicesOf(s)[..n] == ChoicesOf(s0);
    StepsPrefix(b, Start(b), ChoicesOf(s), n);
    StepsSnoc(b, Start(b), ChoicesOf(s0), x.choice);
    if n == 0 {
      assert ChoicesOf(s0) == [] && OrSet(s0) == {};
    }
  }

  lemma {:induction false} LastOpen(b: Bocage, s: seq<Slot>)
    requires TreeInv(b, s)
    ensures Open(b, s, |s| - 1) == Kids(b, s[|s| - 1].or, s[|s| - 1].choice)
  {
    ParentsBefore(b, s, |s| - 1);
    OpenNew(b, s, |s| - 1);
  }

  /** The last slot takes another valid choice. */
  ghost function NewChoice(s: seq<Slot>, c: nat): seq<Slot>
    requires s != []
  {
    s[|s| - 1 := s[|s| - 1].(choice := c)]
  }

  lemma {:induction false} Rechoose(b: Bocage, s: seq<Slot>, c: nat)
    requires TreeInv(b, s) && Choice(b, s[|s| - 1].or, c)
    ensures TreeInv(b, NewChoice(s, c))
  {
    hide Choice, Snapshot;
    RechooseSnapshot(b, s, c);
    var n := |s| - 1;
    var s' := NewChoice(s, c);
    assert s'[..n] == s[..n] && s'[n] == s[n].(choice := c);
  }

  lemma {:induction false} RechooseSnapshot(b: Bocage, s: seq<Slot>, c: nat)
    requires TreeInv(b, s) && Choice(b, s[|s| - 1].or, c)
    ensures Snapshot(b, NewChoice(s, c))
  {
    hide TreeInv, Agenda, Choice, Steps, Kids, IxIsValid, AndId;
    TreeInvSome(b, s);
    var n := |s| - 1;
    var s0, x := s[..n], s[n].(choice := c);
    var s' := s[n := x];
    LastStep(b, s);
    RechooseAgenda(b, s, c);
    AgendaBefore(b, s);
    assert s' == s0 + [x];
    assert ChoicesOf(s') == ChoicesOf(s0) + [c];
    StepsSnoc(b, Start(b), ChoicesOf(s0), c);
    OrSetSnoc(s0, x);
  }

  /** The agenda below the last slot is the rest of the agenda before it. */
  lemma {:induction false} AgendaBefore(b: Bocage, s: seq<Slot>)
    requires TreeInv(b, s)
    ensures var before := Steps(b, Start(b), ChoicesOf(s[..|s| - 1]));
            before.Some? && before.value.agenda != [] && Agenda(b, s, |s| - 1) == before.value.agenda[1..]
  {
    hide TreeInv, AndOf, Choice, Steps, Open, Fits, HasCause, HasPred, IxIsValid, AndId;
    TreeInvSome(b, s);
    TreeInvParts(b, s);
    var n := |s| - 1;
    LastStep(b, s);
    LastOpen(b, s);
    LastChoice(b, s);
    assert Agenda(b, s, n + 1) == Kids(b, s[n].or, s[n].choice) + Agenda(b, s, n);
    assert s == s[..n] + [s[n]];
    assert ChoicesOf(s) == ChoicesOf(s[..n]) + [s[n].choice];
    StepsSnoc(b, Start(b), ChoicesOf(s[..n]), s[n].choice);
    SameTail(Kids(b, s[n].or, s[n].choice), Agenda(b, s, n), Steps(b, Start(b), ChoicesOf(s[..n])).value.agenda[1..]);
  }

  lemma {:induction false} LastChoice(b: Bocage, s: seq<Slot>)
    requires TreeInv(b, s)
    ensures Choice(b, s[|s| - 1].or, s[|s| - 1].choice)
  {
    hide Choice, Snapshot;
  }

  lemma {:induction false} SameTail(s: seq<nat>, t: seq<nat>, u: seq<nat>)
    requires s + t == s + u
    ensures t == u
  {
    assert (s + t)[|s|..] == t && (s + u)[|s|..] == u;
  }

  lemma {:induction false} RechooseAgenda(b: Bocage, s: seq<Slot>, c: nat)
    requires TreeInv(b, s) && Choice(b, s[|s| - 1].or, c)
    ensures Agenda(b, NewChoice(s, c), |s|) == Kids(b, s[|s| - 1].or, c) + Agenda(b, s, |s| - 1)
  {
    var n := |s| - 1;
    var s' := NewChoice(s, c);
    NewChoiceOpen(b, s, c);
    hide *;
    AgendaSame(b, s, s', n);
    AgendaUnfold(b, s', n + 1);
  }

  lemma {:induction false} NewChoiceOpen(b: Bocage, s: seq<Slot>, c: nat)
    requires TreeInv(b, s) && Choice(b, s[|s| - 1].or, c)
    ensures var s' := NewChoice(s, c);
            && |s'| == |s| && Open(b, s', |s| - 1) == Kids(b, s[|s| - 1].or, c)
            && forall i :: 0 <= i < |s| - 1 ==> Open(b, s', i) == Open(b, s, i)
  {
    hide TreeInv, Choice, Open, Kids;
    TreeInvSome(b, s);
    var n := |s| - 1;
    var s' := NewChoice(s, c);
    ParentsBefore(b, s, n);
    assert forall j :: 0 <= j < |s| ==> s'[j].parent == s[j].parent && s'[j].isCause == s[j].isCause && s'[j].isPred == s[j].isPred;
    assert forall j :: 0 <= j < n ==> s'[j] == s[j];
    assert |s'| == |s| && s'[n].or == s[n].or && s'[n].choice == c;
    hide *;
    OpenNew(b, s', n);
    forall i | 0 <= i < n
      ensures Open(b, s', i) == Open(b, s, i)
    {
      OpenSame(b, s, s', i);
    }
  }

  lemma {:induction false} OpenSame(b: Bocage, s: seq<Slot>, s': seq<Slot>, i: nat)
    requires i < |s| == |s'| && s'[i] == s[i]
    requires forall j :: 0 <= j < |s| ==> s'[j].parent == s[j].parent && s'[j].isCause == s[j].isCause && s'[j].isPred == s[j].isPred
    ensures Open(b, s', i) == Open(b, s, i)
  {
    HasSame(s, s', i);
    hide HasCause, HasPred, AndOf;
  }

  lemma {:induction false} HasSame(s: seq<Slot>, s': seq<Slot>, i: nat)
    requires |s| == |s'|
    requires forall j :: 0 <= j < |s| ==> s'[j].parent == s[j].parent && s'[j].isCause == s[j].isCause && s'[j].isPred == s[j].isPred
    ensures HasCause(s', i) <==> HasCause(s, i)
    ensures HasPred(s', i) <==> HasPred(s, i)
  {
  }

  // ---- Nooks: slots with their ready flags ----

  /** The last slot has no children in the tree. */
  lemma {:induction false} LastHasNone(b: Bocage, s: seq<Slot>)
    requires TreeInv(b, s)
    ensures !HasCause(s, |s| - 1) && !HasPred(s, |s| - 1)
  {
    ParentsBefore(b, s, |s| - 1);
  }

  /** Pushing a nook sets its parent's flag for it. */
  ghost function Pushed(nooks: seq<Nook>, x: Slot): seq<Nook>
    requires 0 <= x.parent < |nooks|
  {
    nooks[x.parent := Marked(nooks[x.parent], x)] + [Nook(x, false, false)]
  }

  function Marked(p: Nook, x: Slot): Nook {
    Nook(p.slot, p.causeReady || x.isCause, p.predReady || x.isPred)
  }

  lemma {:induction false} FlagsPush(b: Bocage, nooks: seq<Nook>, x: Slot)
    requires TreeInv(b, Shape(nooks) + [x]) && FlagsOk(b, nooks) && 0 <= x.parent < |nooks| && x.isCause != x.isPred
    ensures FlagsOk(b, Pushed(nooks, x)) && Shape(Pushed(nooks, x)) == Shape(nooks) + [x]
  {
    hide TreeInv, FlagOk;
    var nooks' := Pushed(nooks, x);
    var s' := Shape(nooks) + [x];
    assert Shape(nooks') == s';
    LastHasNone(b, s');
    hide HasCause, HasPred;
    forall i: nat | i < |nooks'|
      ensures FlagOk(b, nooks'[i], s', i)
    {
      if i < |nooks| {
        assert FlagOk(b, nooks[i], Shape(nooks), i);
        FlagPush(b, nooks[i], Shape(nooks), i, x);
      } else {
        NewFlag(b, x, s', i);
      }
    }
  }

  lemma {:induction false} NewFlag(b: Bocage, x: Slot, slots: seq<Slot>, i: nat)
    requires !HasCause(slots, i) && !HasPred(slots, i)
    ensures FlagOk(b, Nook(x, false, false), slots, i)
  {
  }

  lemma {:induction false} FlagPush(b: Bocage, n: Nook, s: seq<Slot>, i: nat, x: Slot)
    requires i < |s| && x.isCause != x.isPred && FlagOk(b, n, s, i)
    ensures FlagOk(b, if x.parent != i then n else Marked(n, x), s + [x], i)
  {
    hide AndOf, HasCause, HasPred;
    OpenAppend(b, s, x, i);
  }

  /** Setting a flag for a child that does not exist changes nothing. */
  lemma {:induction false} FlagsReady(b: Bocage, nooks: seq<Nook>, w: nat, n: Nook)
    requires FlagsOk(b, nooks) && w < |nooks| && n.slot == nooks[w].slot
    requires AndOf(b, n.slot).cause.Some? ==> n.causeReady == nooks[w].causeReady
    requires AndOf(b, n.slot).pred.Some? ==> n.predReady == nooks[w].predReady
    ensures FlagsOk(b, nooks[w := n]) && Shape(nooks[w := n]) == Shape(nooks)
  {
    hide AndOf, HasCause, HasPred;
    var nooks' := nooks[w := n];
    assert Shape(nooks') == Shape(nooks);
    assert FlagOk(b, nooks[w], Shape(nooks), w);
    hide FlagOk;
    forall i: nat | i < |nooks'|
      ensures FlagOk(b, nooks'[i], Shape(nooks), i)
    {
      assert FlagOk(b, nooks[i], Shape(nooks), i);
    }
  }

  /** The last nook takes another choice; its children are to be taken up again. */
  ghost function Rechosen(nooks: seq<Nook>, c: nat): seq<Nook>
    requires nooks != []
  {
    var n := |nooks| - 1;
    nooks[n := Nook(nooks[n].slot.(choice := c), false, false)]
  }

  lemma {:induction false} FlagsRechoose(b: Bocage, nooks: seq<Nook>, c: nat)
    requires nooks != [] && TreeInv(b, Shape(nooks)) && FlagsOk(b, nooks)
    ensures FlagsOk(b, Rechosen(nooks, c)) && Shape(Rechosen(nooks, c)) == NewChoice(Shape(nooks), c)
  {
    hide TreeInv, FlagOk, HasCause, HasPred;
    var n := |nooks| - 1;
    var nooks' := Rechosen(nooks, c);
    var s, s' := Shape(nooks), NewChoice(Shape(nooks), c);
    assert Shape(nooks') == s';
    LastHasNone(b, s);
    forall i: nat | i < |nooks'|
      ensures FlagOk(b, nooks'[i], s', i)
    {
      assert FlagOk(b, nooks[i], s, i);
      HasSame(s, s', i);
      if i < n {
        FlagSame(b, nooks[i], s, s', i);
      } else {
        NewFlag(b, nooks[n].slot.(choice := c), s', n);
      }
    }
  }

  lemma {:induction false} FlagSame(b: Bocage, n: Nook, s: seq<Slot>, s': seq<Slot>, i: nat)
    requires FlagOk(b, n, s, i) && (HasCause(s', i) <==> HasCause(s, i)) && (HasPred(s', i) <==> HasPred(s, i))
    ensures FlagOk(b, n, s', i)
  {
  }

  /** Popping the last nook clears its parent's flag for it. */
  ghost function Popped(nooks: seq<Nook>): seq<Nook>
    requires nooks != []
  {
    var n := |nooks| - 1;
    var x := nooks[n].slot;
    if 0 <= x.parent < n then nooks[..n][x.parent := Cleared(nooks[x.parent], x)] else nooks[..n]
  }

  function Cleared(p: Nook, x: Slot): Nook {
    Nook(p.slot, p.causeReady && !x.isCause, p.predReady && !x.isPred)
  }

  lemma {:induction false} FlagsPop(b: Bocage, nooks: seq<Nook>)
    requires |nooks| > 1 && TreeInv(b, Shape(nooks)) && FlagsOk(b, nooks)
    ensures FlagsOk(b, Popped(nooks)) && Shape(Popped(nooks)) == Shape(nooks)[..|nooks| - 1]
    ensures TreeInv(b, Shape(Popped(nooks)))
  {
    hide TreeInv, FlagOk, HasCause, HasPred;
    var n := |nooks| - 1;
    var s := Shape(nooks);
    PopInv(b, s);
    LastSlot(b, s);
    var nooks' := Popped(nooks);
    assert Shape(nooks') == s[..n];
    forall i: nat | i < |nooks'|
      ensures FlagOk(b, nooks'[i], s[..n], i)
    {
      assert FlagOk(b, nooks[i], s, i);
      FlagPop(b, nooks[i], s[..n], i, s[n]);
    }
  }

  lemma {:induction false} LastSlot(b: Bocage, s: seq<Slot>)
    requires TreeInv(b, s) && |s| > 1
    ensures var n := |s| - 1;
            && s == s[..n] + [s[n]] && 0 <= s[n].parent < n && s[n].isCause != s[n].isPred
            && (s[n].isCause ==> !HasCause(s[..n], s[n].parent))
            && (s[n].isPred ==> !HasPred(s[..n], s[n].parent))
  {
    hide *;
    TreeInvParts(b, s);
    LastFits(b, s[..|s| - 1], s[|s| - 1]);
  }

  lemma {:induction false} FlagPop(b: Bocage, n: Nook, s: seq<Slot>, i: nat, x: Slot)
    requires i < |s| && x.isCause != x.isPred && FlagOk(b, n, s + [x], i)
    requires x.parent == i && x.isCause ==> !HasCause(s, i)
    requires x.parent == i && x.isPred ==> !HasPred(s, i)
    ensures FlagOk(b, if x.parent != i then n else Cleared(n, x), s, i)
  {
    hide AndOf, HasCause, HasPred;
    OpenAppend(b, s, x, i);
  }

  lemma {:induction false} PopInv(b: Bocage, s: seq<Slot>)
    requires TreeInv(b, s) && |s| > 1
    ensures TreeInv(b, s[..|s| - 1])
  {
    hide Fits, Snapshot;
  }

  lemma {:induction false} LastFits(b: Bocage, s: seq<Slot>, x: Slot)
    requires Fits(b, s, x) && s != []
    ensures 0 <= x.parent < |s| && x.isCause != x.isPred
    ensures x.isCause ==> !HasCause(s, x.parent)
    ensures x.isPred ==> !HasPred(s, x.parent)
  {
  }

  // ---- The worklist ----

  /** Ascending nook indices; every nook with an open child is among them. */
  ghost predicate WorkOk(b: Bocage, slots: seq<Slot>, work: seq<nat>) {
    && (forall i, j :: 0 <= i < j < |work| ==> work[i] < work[j])
    && (forall i :: 0 <= i < |work| ==> work[i] < |slots|)
    && (forall i: nat :: i < |slots| && i !in work ==> Open(b, slots, i) == [])
  }

  lemma {:induction false} WorkTop(b: Bocage, slots: seq<Slot>, work: seq<nat>)
    requires WorkOk(b, slots, work) && work != []
    ensures work[|work| - 1] < |slots| && forall i :: work[|work| - 1] < i < |slots| ==> Open(b, slots, i) == []
  {
    var w := work[|work| - 1];
    forall i | w < i < |slots|
      ensures i !in work
    {
    }
  }

  lemma {:induction false} WorkPop(b: Bocage, slots: seq<Slot>, work: seq<nat>)
    requires WorkOk(b, slots, work) && work != [] && Open(b, slots, work[|work| - 1]) == []
    ensures WorkOk(b, slots, work[..|work| - 1])
  {
    var k := |work| - 1;
    assert forall i :: i in work ==> i in work[..k] || i == work[k];
  }

  lemma {:induction false} WorkPush(b: Bocage, slots: seq<Slot>, work: seq<nat>, x: Slot)
    requires WorkOk(b, slots, work) && work != [] && x.parent == work[|work| - 1] && x.isCause != x.isPred
    ensures WorkOk(b, slots + [x], work + [|slots|])
  {
    hide Open;
    var work' := work + [|slots|];
    assert work'[|work|] == |slots| && forall i :: 0 <= i < |work| ==> work'[i] == work[i];
    assert work[|work| - 1] in work;
    forall i: nat | i < |slots| && i !in work
      ensures Open(b, slots + [x], i) == []
    {
      OpenAppend(b, slots, x, i);
    }
    assert forall i :: i in work || i == |slots| ==> i in work';
  }

  lemma {:induction false} WorkEmpty(b: Bocage, slots: seq<Slot>)
    requires WorkOk(b, slots, [])
    ensures Agenda(b, slots, |slots|) == []
  {
    AgendaSkip(b, slots, 0, |slots|);
  }

  // ---- How large the stacks can get ----

  lemma {:induction false} AndsEnough(b: Bocage, o: nat)
    requires BocageOk(b) && o < |b.ors|
    ensures b.ors[o].firstAnd + b.ors[o].andCount + (|b.ors| - o - 1) <= |b.ands|
    decreases |b.ors| - o
  {
    assert NextRun(b, o);
    var next := o + 1;
    if next < |b.ors| {
      AndsEnough(b, next);
      assert IxIsValid(b, next, 0);
    }
  }

  /** Or-nodes in the tree are distinct, so the nook stack fits in the or-nodes, of
      which there are at most as many as and-nodes. */
  lemma {:induction false} StackBound(b: Bocage, s: seq<Slot>)
    requires TreeInv(b, s)
    ensures |s| <= |OrSet(s)| && OrSet(s) <= Below(|b.ors|) && |b.ors| <= |b.ands|
    decreases |s|
  {
    LastOr(b, s);
    var n := |s| - 1;
    if n > 0 {
      PopInv(b, s);
      hide *;
      StackBound(b, s[..n]);
    } else {
      hide *;
    }
  }

  /** The last slot adds an or-node that was not in the tree. */
  lemma {:induction false} LastOr(b: Bocage, s: seq<Slot>)
    requires TreeInv(b, s)
    ensures var n := |s| - 1;
            && OrSet(s) == OrSet(s[..n]) + {s[n].or} && s[n].or !in OrSet(s[..n])
            && s[n].or < |b.ors| && |b.ors| <= |b.ands|
  {
    LastNew(b, s);
    LastChoice(b, s);
    hide *;
    var n := |s| - 1;
    LastAdded(s);
    OrsFit(b);
  }

  lemma {:induction false} LastNew(b: Bocage, s: seq<Slot>)
    requires TreeInv(b, s)
    ensures s[|s| - 1].or !in OrSet(s[..|s| - 1])
  {
    LastStep(b, s);
    hide *;
  }

  lemma {:induction false} LastAdded(s: seq<Slot>)
    requires s != []
    ensures OrSet(s) == OrSet(s[..|s| - 1]) + {s[|s| - 1].or}
  {
    var n := |s| - 1;
    assert s == s[..n] + [s[n]];
    OrSetSnoc(s[..n], s[n]);
  }

  lemma {:induction false} OrsFit(b: Bocage)
    requires BocageOk(b)
    ensures |b.ors| <= |b.ands|
  {
    AndsEnough(b, 0);
    assert IxIsValid(b, 0, 0);
  }

  ghost function Below(n: nat): (r: set<nat>)
    ensures |r| == n && forall i: nat :: i in r <==> i < n
  {
    if n == 0 then {} else
      var r := Below(n - 1);
      assert n - 1 !in r;
      r + {n - 1}
  }

  lemma {:induction false} SubsetSize(x: set<nat>, y: set<nat>)
    requires x <= y
    ensures |x| <= |y|
    decreases |x|
  {
    if x != {} {
      var e :| e in x;
      SubsetSize(x - {e}, y - {e});
    }
  }

  /** The nook stack never holds more nooks than there are and-nodes. */
  lemma {:induction false} StackFits(b: Bocage, s: seq<Slot>)
    requires TreeInv(b, s)
    ensures |s| <= |b.ors| <= |b.ands|
  {
    hide *;
    StackBound(b, s);
    SubsetSize(OrSet(s), Below(|b.ors|));
  }

  /** Choices stay below the number of and-nodes of the or-node. */
  lemma {:induction false} ChoicesFit(b: Bocage, s: seq<Slot>)
    requires TreeInv(b, s)
    ensures forall i :: 0 <= i < |s| ==> s[i].choice < |b.ands|
    decreases |s|
  {
    hide Snapshot, Fits;
    var n := |s| - 1;
    LastChoice(b, s);
    AndsEnough(b, s[n].or);
    if n > 0 {
      PopInv(b, s);
      ChoicesFit(b, s[..n]);
      assert forall i :: 0 <= i < n ==> s[i] == s[..n][i];
    }
  }
}
