/** Following the predecessors of Leo items: from every Leo item that the recognizer has made,
    the way ends, within the number of Leo items there are; it is the path of trailheads that the
    Leo item stands for, and the item lists exactly the events along it. */
module LeoPredecessors {
  import opened Options
  import opened Grammars
  import opened Derivations
  import opened EventLists
  import opened EarleySets
  import opened SetBuilding
  import opened Predictions
  import opened States
  import opened Recognizers

  /** The place that is `n` predecessors on from a Leo item. */
  ghost function Ancestor(sets: Sets, key: LimKey, n: nat): Option<LimKey>
    decreases n
  {
    if LimAt(sets, key.at, key.sym).None? then None
    else if n == 0 then Some(key)
    else
      match LimAt(sets, key.at, key.sym).value.pred
      case None => None
      case Some(up) => Ancestor(sets, up, n - 1)
  }

  /** The places of the Leo items in the sets up to `m`. */
  ghost function PlacesUpto(sets: Sets, m: nat): set<LimKey> {
    set e, s | e in sets && e <= m && s in sets[e].postdot && sets[e].postdot[s].lim.Some? :: LimKey(e, s)
  }

  /** The places along a predecessor path. */
  ghost function Places(g: Grammar, path: seq<Item>, key: LimKey): seq<LimKey> {
    if path == [] then [] else [key] + Places(g, path[1..], PredKey(g, path[0]))
  }

  /** Predecessors are determined: there is one path from a place. */
  lemma {:induction false} OnePath(g: Grammar, sets: Sets, p: seq<Item>, q: seq<Item>, key: LimKey)
    requires PredPath(g, sets, p, key.at, key.sym) && PredPath(g, sets, q, key.at, key.sym)
    ensures p == q
    decreases |p|
  {
    if |p| > 1 && |q| > 1 {
      OnePath(g, sets, p[1..], q[1..], PredKey(g, p[0]));
      assert p == [p[0]] + p[1..] && q == [q[0]] + q[1..];
    }
  }

  /** The `n`-th place along the path is the `n`-th predecessor, and the rest of the path starts there. */
  lemma {:induction false} PlaceAt(g: Grammar, sets: Sets, path: seq<Item>, key: LimKey, n: nat)
    requires PredPath(g, sets, path, key.at, key.sym) && n < |path|
    ensures |Places(g, path, key)| == |path|
    ensures var k := Places(g, path, key)[n];
            && Ancestor(sets, key, n) == Some(k) && PredPath(g, sets, path[n..], k.at, k.sym)
            && LimAt(sets, k.at, k.sym).Some? && LimAt(sets, k.at, k.sym).value.trailhead == path[n]
            && (LimAt(sets, k.at, k.sym).value.pred.None? <==> n == |path| - 1)
    decreases |path|
  {
    if |path| > 1 {
      PlaceAt(g, sets, path[1..], PredKey(g, path[0]), if n > 0 then n - 1 else 0);
      assert n > 0 ==> path[1..][n - 1..] == path[n..];
    } else {
      assert path[1..] == [];
    }
  }

  /** No place comes twice: from a place that came again, the path would be shorter than itself. */
  lemma {:induction false} PlacesDistinct(g: Grammar, sets: Sets, path: seq<Item>, key: LimKey)
    requires PredPath(g, sets, path, key.at, key.sym)
    ensures Distinct(Places(g, path, key))
    decreases |path|
  {
    PlaceAt(g, sets, path, key, 0);
    if |path| > 1 {
      var places := Places(g, path, key);
      PlacesDistinct(g, sets, path[1..], PredKey(g, path[0]));
      forall n | 0 < n < |places|
        ensures places[n] != key
      {
        PlaceAt(g, sets, path, key, n);
        if places[n] == key {
          OnePath(g, sets, path, path[n..], key);
        }
      }
    }
  }

  /** Origins do not increase along the trailheads, so all places are in sets up to the first. */
  lemma {:induction false} PlacesKnown(g: Grammar, sets: Sets, path: seq<Item>, key: LimKey, m: nat)
    requires PredPath(g, sets, path, key.at, key.sym) && key.at <= m
    requires forall e, s :: LimAt(sets, e, s).Some? ==> LimAt(sets, e, s).value.trailhead.origin <= e
    ensures forall k :: k in Places(g, path, key) ==> k in PlacesUpto(sets, m)
    decreases |path|
  {
    if |path| > 1 {
      PlacesKnown(g, sets, path[1..], PredKey(g, path[0]), m);
    } else {
      assert path[1..] == [];
    }
  }

  lemma {:induction false} DistinctFit<T(!new)>(list: seq<T>, all: set<T>)
    requires Distinct(list) && forall x :: x in list ==> x in all
    ensures |list| <= |all|
  {
    if list != [] {
      var k := |list| - 1;
      assert forall x :: x in list[..k] ==> x in all - {list[k]};
      DistinctFit(list[..k], all - {list[k]});
    }
  }

  /** What following predecessors from a Leo item meets. */
  ghost predicate Followed(g: Grammar, sets: Sets, path: seq<Item>, key: LimKey) {
    && |path| <= |PlacesUpto(sets, key.at)|
    && forall n: nat :: n < |path| ==> FollowedTo(sets, path, key, n)
  }

  ghost predicate FollowedTo(sets: Sets, path: seq<Item>, key: LimKey, n: nat)
    requires n < |path|
  {
    var k := Ancestor(sets, key, n);
    && k.Some? && LimAt(sets, k.value.at, k.value.sym).Some?
    && LimAt(sets, k.value.at, k.value.sym).value.trailhead == path[n]
    && (LimAt(sets, k.value.at, k.value.sym).value.pred.None? <==> n == |path| - 1)
  }

  lemma {:induction false} PathFollowed(g: Grammar, sets: Sets, path: seq<Item>, key: LimKey)
    requires PredPath(g, sets, path, key.at, key.sym)
    requires forall e, s :: LimAt(sets, e, s).Some? ==> LimAt(sets, e, s).value.trailhead.origin <= e
    ensures Followed(g, sets, path, key)
  {
    PlaceAt(g, sets, path, key, 0);
    PlacesDistinct(g, sets, path, key);
    PlacesKnown(g, sets, path, key, key.at);
    DistinctFit(Places(g, path, key), PlacesUpto(sets, key.at));
    forall n: nat | n < |path|
      ensures FollowedTo(sets, path, key, n)
    {
      PlaceAt(g, sets, path, key, n);
    }
  }

  /** A trailhead is an item of its set, so it starts no later. */
  lemma {:induction false} TrailheadOrigins(g: Grammar, toks: set<Token>, sets: Sets, cur: nat)
    requires Past(g, toks, sets, cur)
    ensures forall e, s :: LimAt(sets, e, s).Some? ==> LimAt(sets, e, s).value.trailhead.origin <= e
  {
    hide Past, LimRooted;
    PastGrammar(g, toks, sets, cur);
    forall e, s | LimAt(sets, e, s).Some?
      ensures LimAt(sets, e, s).value.trailhead.origin <= e
    {
      PastLim(g, toks, sets, cur, e, s);
      PastPims(g, toks, sets, cur, e, s);
      var h := LimAt(sets, e, s).value.trailhead;
      assert h in Pims(sets, e, s);
      hide Valid;
      ValidForward(g, toks, g.ahms[h.ahm].irl, g.ahms[h.ahm].quasi, h.origin, h.at);
    }
  }

  /** From every Leo item of every set: following predecessors ends, after fewer steps than there
      are Leo items in the sets so far; the trailheads met are the path from the item to its top
      and origin; and its event list is exactly the events of the rules they complete. */
  lemma {:induction false} PredecessorsEnd(r: Recognizer, m: nat, s: nat)
    requires r.Valid() && r.phase != BeforeInput && LimAt(r.sets, m, s).Some?
    ensures var lim := LimAt(r.sets, m, s).value;
            exists path ::
              && Followed(r.g, r.sets, path, LimKey(m, s))
              && lim.origin.Some? && LeoPath(r.g, r.sets, path, m, s, lim.top, lim.origin.value)
              && Listing(lim.cil, EventsOf(r.g.events, Trailheads(path)))
  {
    hide Recognizer.Valid, Followed, Listing, LeoPath, PredPath, LimLocal, Past;
    var lim := LimAt(r.sets, m, s).value;
    r.SettledSets();
    PastLim(r.g, r.toks, r.sets, r.currentEarleme + 1, m, s);
    TrailheadOrigins(r.g, r.toks, r.sets, r.currentEarleme + 1);
    var path :| Rooted(r.g, r.sets, path, m, s, lim);
    PathFollowed(r.g, r.sets, path, LimKey(m, s));
  }

  // ---- Which Leo items have a predecessor ----

  /** The rest of a predecessor path, from the far end of a chain inside one set. */
  lemma {:induction false} ChainAlong(g: Grammar, sets: Sets, m: nat, chain: seq<nat>, path: seq<Item>)
    requires PredChain(sets, m, chain) && PredPath(g, sets, path, m, chain[0])
    ensures |path| >= |chain| && PredPath(g, sets, path[|chain| - 1..], m, chain[|chain| - 1])
    decreases |chain|
  {
    if |chain| > 1 {
      assert LimAt(sets, m, chain[0]).value.pred == Some(LimKey(m, chain[0 + 1]));
      forall k | 0 <= k < |chain[1..]| - 1
        ensures LimAt(sets, m, chain[1..][k]).Some? && LimAt(sets, m, chain[1..][k]).value.pred == Some(LimKey(m, chain[1..][k + 1]))
      {
        assert chain[1..][k] == chain[k + 1] && chain[1..][k + 1] == chain[(k + 1) + 1];
      }
      ChainAlong(g, sets, m, chain[1..], path[1..]);
      assert path[1..][|chain| - 2..] == path[|chain| - 1..];
    } else {
      assert path[0..] == path;
    }
  }

  /** A Leo item with a predecessor is not reached again from it. */
  lemma {:induction false} NeverBack(g: Grammar, sets: Sets, m: nat, s: nat, lim: Lim)
    requires LimAt(sets, m, s) == Some(lim) && lim.pred == Some(PredKey(g, lim.trailhead)) && LimRooted(g, sets, m, s, lim)
    ensures PredKey(g, lim.trailhead).at == m ==> !LeadsBack(sets, m, PredKey(g, lim.trailhead).sym, s)
  {
    hide LeoPath, Listing;
    var up := PredKey(g, lim.trailhead);
    var path :| Rooted(g, sets, path, m, s, lim);
    if up.at == m && LeadsBack(sets, m, up.sym, s) {
      var chain :| PredChain(sets, m, chain) && chain[0] == up.sym && chain[|chain| - 1] == s;
      ChainAlong(g, sets, m, chain, path[1..]);
      OnePath(g, sets, path, path[1..][|chain| - 1..], LimKey(m, s));
    }
  }

  /** A Leo item has no predecessor if and only if there is no Leo item where its rule started, or
      following predecessors from there, in the same set, leads back to it. */
  lemma {:induction false} PredecessorExact(r: Recognizer, m: nat, s: nat)
    requires r.Valid() && r.phase != BeforeInput && LimAt(r.sets, m, s).Some?
    ensures var lim := LimAt(r.sets, m, s).value;
            var up := PredKey(r.g, lim.trailhead);
            && (lim.pred.None? <==> LimAt(r.sets, up.at, up.sym).None? || (up.at == m && LeadsBack(r.sets, m, up.sym, s)))
            && (lim.pred.Some? ==> lim.pred == Some(up))
  {
    hide Recognizer.Valid, Past, LimRooted, LeadsBack, LeoCompletion;
    var lim := LimAt(r.sets, m, s).value;
    r.SettledSets();
    PastLim(r.g, r.toks, r.sets, r.currentEarleme + 1, m, s);
    if lim.pred.Some? {
      NeverBack(r.g, r.sets, m, s, lim);
    }
  }

  /** Each place is where the rule of the Leo item before started, and there is no further one. */
  ghost predicate Climb(g: Grammar, sets: Sets, climb: seq<LimKey>) {
    && climb != [] && (forall k :: 0 <= k < |climb| ==> LimAt(sets, climb[k].at, climb[k].sym).Some?)
    && (forall k: nat :: k < |climb| - 1 ==> climb[k + 1] == AboveOf(g, sets, climb[k]))
    && var last := AboveOf(g, sets, climb[|climb| - 1]); LimAt(sets, last.at, last.sym).None?
  }

  ghost function AboveOf(g: Grammar, sets: Sets, key: LimKey): LimKey {
    if LimAt(sets, key.at, key.sym).Some? then PredKey(g, LimAt(sets, key.at, key.sym).value.trailhead) else key
  }

  ghost predicate PlacesOk(g: Grammar, sets: Sets) {
    forall m, s :: LimAt(sets, m, s).Some? ==>
      LimLocal(g, sets, m, s, LimAt(sets, m, s).value) && LimExact(g, sets, m, s, LimAt(sets, m, s).value)
  }

  /** Off a cycle a Leo item's top and origin are those of the last of the longest chain. */
  lemma {:induction false} ClimbTop(g: Grammar, sets: Sets, climb: seq<LimKey>)
    requires PlacesOk(g, sets) && Climb(g, sets, climb)
    ensures var lim := LimAt(sets, climb[0].at, climb[0].sym).value;
            var far := LimAt(sets, climb[|climb| - 1].at, climb[|climb| - 1].sym).value;
            lim.top == far.trailhead.ahm + 1 && lim.origin == Some(far.trailhead.origin)
    ensures forall k: nat :: k < |climb| - 1 ==> LimAt(sets, climb[k].at, climb[k].sym).value.pred == Some(climb[k + 1])
    ensures LimAt(sets, climb[|climb| - 1].at, climb[|climb| - 1].sym).value.pred.None?
    decreases |climb|
  {
    hide LeoCompletion, LeadsBack, PredKey;
    var key := climb[0];
    var lim := LimAt(sets, key.at, key.sym).value;
    assert LimLocal(g, sets, key.at, key.sym, lim) && LimExact(g, sets, key.at, key.sym, lim);
    hide PlacesOk;
    if |climb| > 1 {
      ClimbRest(g, sets, climb);
      ClimbTop(g, sets, climb[1..]);
      forall k: nat | 0 < k < |climb| - 1
        ensures LimAt(sets, climb[k].at, climb[k].sym).value.pred == Some(climb[k + 1])
      {
        assert climb[1..][k - 1] == climb[k] && climb[1..][(k - 1) + 1] == climb[k + 1];
      }
      assert climb[0 + 1] == AboveOf(g, sets, climb[0]);
      if lim.pred.None? {
        NoWayBack(g, sets, climb);
      }
    }
  }

  lemma {:induction false} ClimbRest(g: Grammar, sets: Sets, climb: seq<LimKey>)
    requires Climb(g, sets, climb) && |climb| > 1
    ensures Climb(g, sets, climb[1..]) && climb[1..][|climb| - 2] == climb[|climb| - 1]
  {
    hide AboveOf;
    forall k: nat | k < |climb[1..]| - 1
      ensures climb[1..][k + 1] == AboveOf(g, sets, climb[1..][k])
    {
      assert climb[(k + 1) + 1] == AboveOf(g, sets, climb[k + 1]);
    }
  }

  /** The way up ends, so no predecessors along it lead back to its first place. */
  lemma {:induction false} NoWayBack(g: Grammar, sets: Sets, climb: seq<LimKey>)
    requires Climb(g, sets, climb) && |climb| > 1 && climb[0].at == climb[1].at
    requires forall k: nat :: 0 < k < |climb| - 1 ==> LimAt(sets, climb[k].at, climb[k].sym).value.pred == Some(climb[k + 1])
    requires LimAt(sets, climb[|climb| - 1].at, climb[|climb| - 1].sym).value.pred.None?
    requires LimAt(sets, climb[0].at, climb[0].sym).value.pred.None?
    ensures !LeadsBack(sets, climb[0].at, climb[1].sym, climb[0].sym)
  {
    hide AboveOf;
    var m := climb[0].at;
    assert climb[0 + 1] == AboveOf(g, sets, climb[0]) && climb[1] != AboveOf(g, sets, climb[|climb| - 1]);
    forall k: nat | 0 < k < |climb| - 1
      ensures climb[k] != climb[0]
    {
      assert LimAt(sets, climb[k].at, climb[k].sym).value.pred == Some(climb[k + 1]);
    }
    if LeadsBack(sets, m, climb[1].sym, climb[0].sym) {
      var chain :| PredChain(sets, m, chain) && chain[0] == climb[1].sym && chain[|chain| - 1] == climb[0].sym;
      AlongClimb(sets, m, chain, climb, |chain| - 1);
    }
  }

  lemma {:induction false} AlongClimb(sets: Sets, m: nat, chain: seq<nat>, climb: seq<LimKey>, n: nat)
    requires PredChain(sets, m, chain) && n < |chain| && |climb| > 1 && climb[1] == LimKey(m, chain[0])
    requires forall k: nat :: 0 < k < |climb| - 1 ==> LimAt(sets, climb[k].at, climb[k].sym).Some? && LimAt(sets, climb[k].at, climb[k].sym).value.pred == Some(climb[k + 1])
    requires LimAt(sets, climb[|climb| - 1].at, climb[|climb| - 1].sym).Some? && LimAt(sets, climb[|climb| - 1].at, climb[|climb| - 1].sym).value.pred.None?
    ensures n + 1 < |climb| && climb[n + 1] == LimKey(m, chain[n])
    decreases n
  {
    if n > 0 {
      AlongClimb(sets, m, chain, climb, n - 1);
      assert LimAt(sets, m, chain[n - 1]).value.pred == Some(LimKey(m, chain[(n - 1) + 1]));
    }
  }

  /** So it is in every set of a recognizer: where the way up ends, the Leo item has gone all the way. */
  lemma {:induction false} LongestChain(r: Recognizer, climb: seq<LimKey>)
    requires r.Valid() && r.phase != BeforeInput && Climb(r.g, r.sets, climb)
    ensures var lim := LimAt(r.sets, climb[0].at, climb[0].sym).value;
            var far := LimAt(r.sets, climb[|climb| - 1].at, climb[|climb| - 1].sym).value;
            lim.top == far.trailhead.ahm + 1 && lim.origin == Some(far.trailhead.origin)
  {
    hide Recognizer.Valid, Past, LimRooted, LimLocal, LimExact, Climb;
    r.SettledSets();
    forall m, s | LimAt(r.sets, m, s).Some?
      ensures LimLocal(r.g, r.sets, m, s, LimAt(r.sets, m, s).value) && LimExact(r.g, r.sets, m, s, LimAt(r.sets, m, s).value)
    {
      PastLim(r.g, r.toks, r.sets, r.currentEarleme + 1, m, s);
    }
    ClimbHas(r.g, r.sets, climb);
    ClimbTop(r.g, r.sets, climb);
  }

  lemma {:induction false} ClimbHas(g: Grammar, sets: Sets, climb: seq<LimKey>)
    requires Climb(g, sets, climb)
    ensures climb != [] && forall k :: 0 <= k < |climb| ==> LimAt(sets, climb[k].at, climb[k].sym).Some?
  {
  }
}
