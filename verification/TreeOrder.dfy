/** Where the search stands among all complete choice sequences, and why it ends. */
module TreeOrder {
  import opened Options
  import opened Bocages
  import opened TreeSearch

  /** The trees still to be found: all of them, or those after the last one found. */
  ghost predicate Wanted(b: Bocage, prev: Option<seq<nat>>, t: seq<nat>) {
    Complete(b, t) && (prev.Some? ==> After(prev.value, t))
  }

  /** Every wanted tree extends `cs` or comes after it. */
  ghost predicate Ahead(b: Bocage, prev: Option<seq<nat>>, cs: seq<nat>) {
    forall t :: Wanted(b, prev, t) ==> cs <= t || After(cs, t)
  }

  /** Every wanted tree comes after `cs`; none extends it. */
  ghost predicate Beyond(b: Bocage, prev: Option<seq<nat>>, cs: seq<nat>) {
    forall t :: Wanted(b, prev, t) ==> After(cs, t)
  }

  /** `cs` is a prefix of the last tree found, or past it. */
  ghost predicate Reached(prev: Option<seq<nat>>, cs: seq<nat>) {
    prev.Some? ==> cs <= prev.value || After(prev.value, cs)
  }

  ghost predicate Past(prev: Option<seq<nat>>, cs: seq<nat>) {
    prev.Some? ==> After(prev.value, cs)
  }

  lemma {:induction false} ExtendsWith(cs: seq<nat>, t: seq<nat>)
    requires cs <= t && |cs| < |t|
    ensures t[..|cs| + 1] == cs + [t[|cs|]]
  {
  }

  /** What a complete sequence that extends `cs` chooses next is a valid choice. */
  lemma {:induction false} NextChoice(b: Bocage, cs: seq<nat>, t: seq<nat>)
    requires Steps(b, Start(b), cs).Some? && Steps(b, Start(b), cs).value.agenda != []
    requires Complete(b, t) && cs <= t
    ensures |cs| < |t|
    ensures Step(b, Steps(b, Start(b), cs).value, t[|cs|]).Some?
  {
    if t == cs {
      assert false;
    }
    assert |cs| < |t|;
    ExtendsWith(cs, t);
    StepsPrefix(b, Start(b), t, |cs| + 1);
    StepsSnoc(b, Start(b), cs, t[|cs|]);
  }

  lemma {:induction false} AheadExtend(b: Bocage, prev: Option<seq<nat>>, cs: seq<nat>)
    requires Ahead(b, prev, cs) && Steps(b, Start(b), cs).Some? && Steps(b, Start(b), cs).value.agenda != []
    ensures Ahead(b, prev, cs + [0])
  {
    hide Steps, After;
    forall t | Wanted(b, prev, t)
      ensures cs + [0] <= t || After(cs + [0], t)
    {
      AfterSnoc(cs, 0, t);
      if cs <= t {
        NextChoice(b, cs, t);
        ExtendsWith(cs, t);
        assert t[|cs|] == 0 ==> cs + [0] <= t;
      }
    }
  }

  /** A repeated or-node at the head of the agenda: no tree extends `cs`. */
  lemma {:induction false} BeyondRepeat(b: Bocage, prev: Option<seq<nat>>, cs: seq<nat>)
    requires Ahead(b, prev, cs) && Steps(b, Start(b), cs).Some?
    requires var r := Steps(b, Start(b), cs).value; r.agenda != [] && r.agenda[0] in r.used
    ensures Beyond(b, prev, cs)
  {
    forall t | Wanted(b, prev, t)
      ensures After(cs, t)
    {
      if cs <= t {
        NextChoice(b, cs, t);
      }
    }
  }

  lemma {:induction false} AheadNext(b: Bocage, prev: Option<seq<nat>>, cs: seq<nat>, c: nat)
    requires Beyond(b, prev, cs + [c])
    ensures Ahead(b, prev, cs + [c + 1])
  {
    forall t | Wanted(b, prev, t)
      ensures cs + [c + 1] <= t || After(cs + [c + 1], t)
    {
      AfterSnoc(cs, c, t);
      AfterSnoc(cs, c + 1, t);
      if cs <= t && |cs| < |t| {
        ExtendsWith(cs, t);
      }
    }
  }

  /** No choice is left for the last or-node. */
  lemma {:induction false} BeyondPop(b: Bocage, prev: Option<seq<nat>>, cs: seq<nat>, c: nat)
    requires Beyond(b, prev, cs + [c]) && Steps(b, Start(b), cs).Some?
    requires var ag := Steps(b, Start(b), cs).value.agenda; ag != [] && !IxIsValid(b, ag[0], c + 1)
    ensures Beyond(b, prev, cs)
  {
    forall t | Wanted(b, prev, t)
      ensures After(cs, t)
    {
      AfterSnoc(cs, c, t);
      if cs <= t && |cs| < |t| && c < t[|cs|] {
        NextChoice(b, cs, t);
      }
    }
  }

  lemma {:induction false} BeyondNothing(b: Bocage, prev: Option<seq<nat>>)
    requires Beyond(b, prev, [])
    ensures forall t :: !Wanted(b, prev, t)
  {
    forall t
      ensures !After([], t)
    {
    }
  }

  lemma {:induction false} ReachedNext(prev: Option<seq<nat>>, cs: seq<nat>, c: nat)
    requires Reached(prev, cs + [c])
    ensures Past(prev, cs + [c + 1])
  {
    if prev.Some? {
      var p := prev.value;
      var x, y := cs + [c], cs + [c + 1];
      if x <= p {
        assert p[..|cs|] == x[..|cs|] == cs && y[..|cs|] == cs && p[|cs|] == x[|cs|] == c;
        assert DiffersAt(p, y, |cs|);
      } else {
        var k: nat :| DiffersAt(p, x, k);
        assert y[..k] == x[..k];
        assert DiffersAt(p, y, k);
      }
    }
  }

  lemma {:induction false} ReachedPop(prev: Option<seq<nat>>, cs: seq<nat>, c: nat)
    requires Reached(prev, cs + [c])
    ensures Reached(prev, cs)
  {
    if prev.Some? {
      var p, x := prev.value, cs + [c];
      if x <= p {
        assert p[..|cs|] == x[..|cs|] == cs;
      } else {
        var k: nat :| DiffersAt(p, x, k);
        assert x[..k] == cs[..k];
        if k < |cs| {
          assert DiffersAt(p, cs, k);
        } else {
          assert p[..k] == cs;
        }
      }
    }
  }

  // ---- Why the search ends ----

  /** The number of choice sequences of length at most `n`, with at most `width` choices each. */
  ghost function Weight(width: nat, n: nat): nat {
    if n == 0 then 1 else 1 + width * Weight(width, n - 1)
  }

  /** How many of those come after `cs` without extending it. */
  ghost function Later(width: nat, n: nat, cs: seq<nat>): int
    requires |cs| <= n
    decreases |cs|
  {
    if cs == [] then 0
    else
      var k := |cs| - 1;
      Later(width, n, cs[..k]) + (width - 1 - cs[k]) * Weight(width, n - 1 - k)
  }

  /** How many come after `cs` or extend it. */
  ghost function Left(width: nat, n: nat, cs: seq<nat>): int
    requires |cs| <= n
  {
    Later(width, n, cs) + Weight(width, n - |cs|)
  }

  lemma {:induction false} WeightPositive(width: nat, n: nat)
    ensures Weight(width, n) >= 1
  {
    if n > 0 {
      WeightPositive(width, n - 1);
      Product(width, Weight(width, n - 1));
    }
  }

  lemma {:induction false} Product(x: nat, y: nat)
    ensures x * y >= 0
  {
  }

  lemma {:induction false} LaterSnoc(width: nat, n: nat, cs: seq<nat>, c: nat)
    requires |cs| < n
    ensures Later(width, n, cs + [c]) == Later(width, n, cs) + (width - 1 - c) * Weight(width, n - 1 - |cs|)
  {
    assert (cs + [c])[..|cs|] == cs;
  }

  /** Going deeper, on to the next choice, or back up, all make less work left. */
  lemma {:induction false} LeftExtend(width: nat, n: nat, cs: seq<nat>)
    requires |cs| < n
    ensures Left(width, n, cs + [0]) < Left(width, n, cs)
  {
    LaterSnoc(width, n, cs, 0);
    var w := Weight(width, n - 1 - |cs|);
    assert (width - 1) * w + w == width * w;
    assert n - |cs| - 1 == n - 1 - |cs|;
  }

  lemma {:induction false} LeftNext(width: nat, n: nat, cs: seq<nat>, c: nat)
    requires |cs| < n
    ensures Left(width, n, cs + [c + 1]) == Later(width, n, cs + [c])
  {
    LaterSnoc(width, n, cs, c);
    LaterSnoc(width, n, cs, c + 1);
    var w := Weight(width, n - 1 - |cs|);
    assert (width - 1 - (c + 1)) * w + w == (width - 1 - c) * w;
  }

  lemma {:induction false} LaterPop(width: nat, n: nat, cs: seq<nat>, c: nat)
    requires |cs| < n && c < width
    ensures Later(width, n, cs) <= Later(width, n, cs + [c])
  {
    LaterSnoc(width, n, cs, c);
    Product(width - 1 - c, Weight(width, n - 1 - |cs|));
  }

  lemma {:induction false} LaterLess(width: nat, n: nat, cs: seq<nat>)
    requires |cs| <= n
    ensures Later(width, n, cs) < Left(width, n, cs)
  {
    WeightPositive(width, n - |cs|);
  }

  lemma {:induction false} LaterNatural(width: nat, n: nat, cs: seq<nat>)
    requires |cs| <= n && forall i :: 0 <= i < |cs| ==> cs[i] < width
    ensures Later(width, n, cs) >= 0
    decreases |cs|
  {
    if cs != [] {
      var k := |cs| - 1;
      LaterNatural(width, n, cs[..k]);
      Product(width - 1 - cs[k], Weight(width, n - 1 - k));
    }
  }

  lemma {:induction false} PastExtend(prev: Option<seq<nat>>, cs: seq<nat>, c: nat)
    requires Past(prev, cs)
    ensures Past(prev, cs + [c])
  {
    if prev.Some? {
      var k: nat :| DiffersAt(prev.value, cs, k);
      assert (cs + [c])[..k] == cs[..k];
      assert DiffersAt(prev.value, cs + [c], k);
    }
  }
}
