/** The alternatives stack: tokens that have been read but end later, sorted so
    that the ones ending soonest are on top. */
module TokenQueue {
  import opened Derivations

  datatype Alternative = Alternative(tok: Token, value: int)

  /** alternative_cmp: later end first, then by symbol, then by start. */
  function Cmp(a: Token, b: Token): int {
    if a.to != b.to then b.to - a.to
    else if a.sym != b.sym then a.sym - b.sym
    else a.from - b.from
  }

  ghost predicate Sorted(s: seq<Alternative>) {
    forall i, j :: 0 <= i < j < |s| ==> Cmp(s[i].tok, s[j].tok) < 0
  }

  ghost predicate Has(s: seq<Alternative>, tok: Token) {
    exists i :: 0 <= i < |s| && s[i].tok == tok
  }

  function Inserted(s: seq<Alternative>, x: Alternative, k: nat): seq<Alternative>
    requires k <= |s|
  {
    s[..k] + [x] + s[k..]
  }

  /** Where `x` goes, by binary search; -1 when a token with its key is present. */
  method InsertionPoint(s: seq<Alternative>, x: Alternative) returns (k: int)
    requires Sorted(s)
    ensures k == -1 <==> Has(s, x.tok)
    ensures k != -1 ==> 0 <= k <= |s| && Sorted(Inserted(s, x, k))
  {
    var hi := |s| - 1;
    var lo := 0;
    if hi < 0 {
      return 0;
    }
    while true
      invariant 0 <= lo <= hi < |s|
      invariant forall i :: 0 <= i < lo ==> Cmp(x.tok, s[i].tok) > 0
      invariant forall i :: hi < i < |s| ==> Cmp(x.tok, s[i].tok) < 0
      decreases hi - lo
    {
      var trial := lo + (hi - lo) / 2;
      var outcome := Cmp(x.tok, s[trial].tok);
      if outcome == 0 {
        return -1;
      }
      if outcome > 0 {
        lo := trial + 1;
        assert forall i :: 0 <= i < trial ==> Cmp(s[i].tok, s[trial].tok) < 0;
      } else {
        hi := trial - 1;
        assert forall i :: trial < i < |s| ==> Cmp(s[trial].tok, s[i].tok) < 0;
      }
      if hi < lo {
        k := if outcome > 0 then trial + 1 else trial;
        InsertedSorted(s, x, k);
        return k;
      }
    }
  }

  lemma {:induction false} InsertedSorted(s: seq<Alternative>, x: Alternative, k: nat)
    requires Sorted(s) && k <= |s|
    requires forall i :: 0 <= i < k ==> Cmp(x.tok, s[i].tok) > 0
    requires forall i :: k <= i < |s| ==> Cmp(x.tok, s[i].tok) < 0
    ensures Sorted(Inserted(s, x, k))
  {
  }

  /** The tokens that are waiting: accepted, ending after `current` and by `furthest`. */
  ghost predicate Queued(toks: set<Token>, s: seq<Alternative>, current: nat, furthest: nat) {
    && Sorted(s)
    && (forall i :: 0 <= i < |s| ==> s[i].tok in toks && current < s[i].tok.to <= furthest)
    && (forall k :: k in toks && k.to > current ==> Has(s, k))
  }

  /** One insertion adds exactly the new token to the waiting ones. */
  lemma {:induction false} InsertedQueued(toks: set<Token>, s: seq<Alternative>, current: nat, furthest: nat, x: Alternative, k: nat, furthest': nat)
    requires Queued(toks, s, current, furthest) && k <= |s|
    requires Sorted(Inserted(s, x, k)) && current < x.tok.to <= furthest' && furthest <= furthest'
    ensures Queued(toks + {x.tok}, Inserted(s, x, k), current, furthest')
  {
    hide Sorted;
    var t := Inserted(s, x, k);
    forall i | 0 <= i < |t|
      ensures t[i].tok in toks + {x.tok} && current < t[i].tok.to <= furthest'
    {
      assert t[i] == if i < k then s[i] else if i == k then x else s[i - 1];
    }
    forall y | y in toks + {x.tok} && y.to > current
      ensures Has(t, y)
    {
      if y == x.tok {
        assert t[k].tok == y;
      } else {
        assert Has(s, y);
        var i :| 0 <= i < |s| && s[i].tok == y;
        assert t[if i < k then i else i + 1].tok == y;
      }
    }
  }

  /** What is left below the tokens that end at `cur`. */
  lemma {:induction false} TopEndsFirst(s: seq<Alternative>, i: nat, j: nat)
    requires Sorted(s) && i <= j < |s|
    ensures s[j].tok.to <= s[i].tok.to
  {
    if i < j {
      assert Cmp(s[i].tok, s[j].tok) < 0;
    }
  }

  /** Popping until the top ends after `cur` leaves exactly the later tokens. */
  lemma {:induction false} PoppedQueued(toks: set<Token>, s: seq<Alternative>, cur: nat, furthest: nat, n: nat)
    requires cur > 0 && Queued(toks, s, cur - 1, furthest) && n <= |s|
    requires n < |s| ==> s[n].tok.to <= cur
    requires n > 0 ==> s[n - 1].tok.to > cur
    ensures Queued(toks, s[..n], cur, furthest)
    ensures forall i :: n <= i < |s| ==> s[i].tok.to == cur
    ensures forall k :: k in toks && k.to == cur ==> exists i :: n <= i < |s| && s[i].tok == k
  {
    assert forall k :: k in toks && k.to == cur ==> Has(s, k);
    forall i | 0 <= i < |s|
      ensures i < n ==> s[i].tok.to > cur
      ensures i >= n ==> s[i].tok.to == cur
    {
      if i < n {
        TopEndsFirst(s, i, n - 1);
      } else {
        TopEndsFirst(s, n, i);
      }
    }
    forall k | k in toks && k.to > cur
      ensures Has(s[..n], k)
    {
      assert Has(s, k);
      var i :| 0 <= i < |s| && s[i].tok == k;
      assert s[..n][i].tok == k;
    }
  }
}
