/** Sorted lists of integers, and the lists of events that Leo items carry: built one rule at a
    time, and cut off when they are as long as they can get. */
module EventLists {
  import opened Options
  import opened Grammars

  /** The elements of a set, in order. */
  ghost predicate Listing(list: seq<nat>, elements: set<nat>) {
    && (forall i, j :: 0 <= i < j < |list| ==> list[i] < list[j])
    && (forall e: nat :: e in list <==> e in elements)
  }

  /** A sorted list with one element more, unless it is there. */
  method MergeOne(cil: seq<nat>, x: nat) returns (r: Option<seq<nat>>)
    requires Listing(cil, set e: nat | e in cil)
    ensures r.None? <==> x in cil
    ensures r.Some? ==> Listing(r.value, (set e: nat | e in cil) + {x})
  {
    var merged: seq<nat> := [];
    var ix := 0;
    while ix < |cil|
      invariant ix <= |cil| && merged == cil[..ix] && forall k :: 0 <= k < ix ==> cil[k] < x
    {
      if cil[ix] == x {
        return None;
      }
      if cil[ix] > x {
        break;
      }
      merged := merged + [cil[ix]];
      ix := ix + 1;
    }
    ghost var at := ix;
    merged := merged + [x];
    while ix < |cil|
      invariant at <= ix <= |cil| && merged == cil[..at] + [x] + cil[at..ix]
    {
      merged := merged + [cil[ix]];
      ix := ix + 1;
    }
    assert merged == cil[..at] + [x] + cil[at..];
    MergedOne(cil, x, at);
    r := Some(merged);
  }

  lemma {:induction false} MergedOne(cil: seq<nat>, x: nat, at: nat)
    requires at <= |cil| && forall i, j :: 0 <= i < j < |cil| ==> cil[i] < cil[j]
    requires (forall k :: 0 <= k < at ==> cil[k] < x) && (at < |cil| ==> cil[at] > x)
    ensures x !in cil && Listing(cil[..at] + [x] + cil[at..], (set e: nat | e in cil) + {x})
  {
    var merged := cil[..at] + [x] + cil[at..];
    assert forall k :: at <= k < |cil| ==> cil[k] > x;
    assert cil == cil[..at] + cil[at..];
    forall e: nat
      ensures e in merged <==> e in cil || e == x
    {
      assert e in cil <==> e in cil[..at] || e in cil[at..];
    }
  }

  /** Two sorted lists as one. */
  method Merge(cil1: seq<nat>, cil2: seq<nat>) returns (merged: seq<nat>)
    requires Listing(cil1, set e: nat | e in cil1) && Listing(cil2, set e: nat | e in cil2)
    ensures Listing(merged, (set e: nat | e in cil1) + (set e: nat | e in cil2))
  {
    merged := [];
    var ix1, ix2 := 0, 0;
    while ix1 < |cil1| && ix2 < |cil2|
      invariant Merging(cil1, cil2, ix1, ix2, merged)
      decreases |cil1| + |cil2| - ix1 - ix2
    {
      var item1, item2 := cil1[ix1], cil2[ix2];
      MergeStep(cil1, cil2, ix1, ix2, merged);
      if item1 < item2 {
        merged := merged + [item1];
        ix1 := ix1 + 1;
      } else if item2 < item1 {
        merged := merged + [item2];
        ix2 := ix2 + 1;
      } else {
        merged := merged + [item1];
        ix1, ix2 := ix1 + 1, ix2 + 1;
      }
    }
    while ix1 < |cil1|
      invariant Merging(cil1, cil2, ix1, ix2, merged) && (ix1 == |cil1| || ix2 == |cil2|)
    {
      MergeStep(cil1, cil2, ix1, ix2, merged);
      merged := merged + [cil1[ix1]];
      ix1 := ix1 + 1;
    }
    while ix2 < |cil2|
      invariant Merging(cil1, cil2, ix1, ix2, merged) && ix1 == |cil1|
    {
      MergeStep(cil1, cil2, ix1, ix2, merged);
      merged := merged + [cil2[ix2]];
      ix2 := ix2 + 1;
    }
    assert cil1[..|cil1|] == cil1 && cil2[..|cil2|] == cil2;
  }

  ghost predicate Sorted(cil: seq<nat>) {
    forall i, j :: 0 <= i < j < |cil| ==> cil[i] < cil[j]
  }

  /** The merged list holds what the indexes have passed, and everything still to come is larger. */
  ghost predicate Merging(cil1: seq<nat>, cil2: seq<nat>, ix1: int, ix2: int, merged: seq<nat>) {
    && 0 <= ix1 <= |cil1| && 0 <= ix2 <= |cil2| && Sorted(cil1) && Sorted(cil2) && Sorted(merged)
    && (forall e: nat :: e in merged <==> e in cil1[..ix1] || e in cil2[..ix2])
    && (forall e: nat :: e in merged && ix1 < |cil1| ==> e < cil1[ix1])
    && (forall e: nat :: e in merged && ix2 < |cil2| ==> e < cil2[ix2])
  }

  lemma {:induction false} SortedSnoc(cil: seq<nat>, x: nat)
    requires Sorted(cil) && forall e: nat :: e in cil ==> e < x
    ensures Sorted(cil + [x])
  {
    forall i, j | 0 <= i < j < |cil + [x]|
      ensures (cil + [x])[i] < (cil + [x])[j]
    {
      assert cil[i] in cil;
    }
  }

  lemma {:induction false} MergeStep(cil1: seq<nat>, cil2: seq<nat>, ix1: int, ix2: int, merged: seq<nat>)
    requires Merging(cil1, cil2, ix1, ix2, merged)
    ensures ix1 < |cil1| && (ix2 == |cil2| || cil1[ix1] < cil2[ix2]) ==> Merging(cil1, cil2, ix1 + 1, ix2, merged + [cil1[ix1]])
    ensures ix2 < |cil2| && (ix1 == |cil1| || cil2[ix2] < cil1[ix1]) ==> Merging(cil1, cil2, ix1, ix2 + 1, merged + [cil2[ix2]])
    ensures ix1 < |cil1| && ix2 < |cil2| && cil1[ix1] == cil2[ix2] ==> Merging(cil1, cil2, ix1 + 1, ix2 + 1, merged + [cil1[ix1]])
  {
    hide Sorted;
    if ix1 < |cil1| {
      assert cil1[..ix1 + 1] == cil1[..ix1] + [cil1[ix1]];
      SortedSnoc(merged, cil1[ix1]);
      NextLarger(cil1, ix1);
    }
    if ix2 < |cil2| {
      assert cil2[..ix2 + 1] == cil2[..ix2] + [cil2[ix2]];
      SortedSnoc(merged, cil2[ix2]);
      NextLarger(cil2, ix2);
    }
  }

  lemma {:induction false} NextLarger(cil: seq<nat>, ix: nat)
    requires Sorted(cil) && ix < |cil|
    ensures ix + 1 < |cil| ==> cil[ix] < cil[ix + 1]
  {
  }

  // ---- The events of a chain ----

  lemma {:induction false} FullSubset(a: set<nat>, b: set<nat>)
    requires a <= b && |a| >= |b|
    ensures a == b
  {
    assert |b - a| == |b| - |a|;
    assert b - a == {};
  }

  lemma {:induction false} ListSize(cil: seq<nat>, s: set<nat>)
    requires Listing(cil, s)
    ensures |cil| == |s|
    decreases |cil|
  {
    if cil == [] {
      assert s == {};
    } else {
      var last := cil[|cil| - 1];
      var rest := cil[..|cil| - 1];
      assert cil == rest + [last];
      assert last in cil;
      ListSize(rest, s - {last});
    }
  }

  /** The cut-off loses nothing: a list as long as the group of its top is the whole group. */
  lemma {:induction false} CutOff(g: Grammar, chain: seq<nat>, trailhead: nat, cil: seq<nat>)
    requires EventsOk(g) && RightChain(g, chain) && RightChain(g, [trailhead] + chain)
    requires Listing(cil, EventsOf(g.events, chain))
    requires chain[|chain| - 1] < |g.eventSizes| && g.eventSizes[chain[|chain| - 1]] <= |cil|
    ensures EventsOf(g.events, [trailhead] + chain) == EventsOf(g.events, chain)
  {
    var group :| Groups(g, group);
    var top := chain[|chain| - 1];
    assert ([trailhead] + chain)[|chain|] == top;
    assert LeoCompletion(g, top);
    hide RightChain;
    ListSize(cil, EventsOf(g.events, chain));
    FullSubset(EventsOf(g.events, chain), group[top]);
    assert EventsOf(g.events, chain) <= EventsOf(g.events, [trailhead] + chain);
  }

  lemma {:induction false} TopHasSize(g: Grammar, chain: seq<nat>)
    requires EventsOk(g) && RightChain(g, chain)
    ensures chain[|chain| - 1] < |g.eventSizes|
  {
    assert LeoCompletion(g, chain[|chain| - 1]);
  }

  /** The event list of a Leo item without a predecessor. */
  method OwnEvents(g: Grammar, trailhead: nat) returns (cil: seq<nat>)
    ensures Listing(cil, EventsOf(g.events, [trailhead]))
  {
    cil := if trailhead in g.events then [trailhead] else [];
  }

  /** The event list of a Leo item from that of its predecessor, whose top it shares. */
  method EventList(g: Grammar, trailhead: nat, top: nat, before: seq<nat>, ghost chain: seq<nat>) returns (cil: seq<nat>)
    requires EventsOk(g) && RightChain(g, chain) && RightChain(g, [trailhead] + chain) && top == chain[|chain| - 1]
    requires Listing(before, EventsOf(g.events, chain))
    ensures Listing(cil, EventsOf(g.events, [trailhead] + chain))
  {
    hide EventsOk, RightChain;
    cil := before;
    TopHasSize(g, chain);
    if g.eventSizes[top] > |before| {
      if trailhead in g.events {
        assert EventsOf(g.events, chain) == set x: nat | x in before;
        var merged := MergeOne(before, trailhead);
        if merged.Some? {
          cil := merged.value;
        } else {
          assert EventsOf(g.events, chain) + {trailhead} == EventsOf(g.events, chain);
        }
      }
    } else {
      CutOff(g, chain, trailhead, before);
    }
  }
}
