/** The per-Earley-set lists (PSLs) that memoize, for each origin, the item of the
    current set for each dotted rule.  Their contents are never cleared between
    earlemes, only their ownership is. */
module Psars {
  import opened Options
  import opened EarleySets

  /** One list: the set that owns it, and the last item stored for each dotted rule. */
  datatype Psl = Psl(owner: Option<nat>, data: map<nat, Item>)

  /** Claimed lists are a prefix, and owners and lists point at each other. */
  ghost predicate Claims(psls: seq<Psl>, firstFree: nat, dotPsl: map<nat, nat>) {
    && firstFree < |psls|
    && (forall k :: 0 <= k < |psls| ==> (psls[k].owner.Some? <==> k < firstFree))
    && (forall k :: 0 <= k < firstFree ==> psls[k].owner.value in dotPsl && dotPsl[psls[k].owner.value] == k)
    && (forall o :: o in dotPsl ==> dotPsl[o] < firstFree && psls[dotPsl[o]].owner == Some(o))
  }

  /** Item `x` is what the list of its origin holds for its dotted rule. */
  ghost predicate Remembered(psls: seq<Psl>, dotPsl: map<nat, nat>, x: Item) {
    && x.origin in dotPsl && dotPsl[x.origin] < |psls|
    && x.ahm in psls[dotPsl[x.origin]].data && psls[dotPsl[x.origin]].data[x.ahm] == x
  }

  /** The memo agrees with the items of the current set: all of those are found,
      and an entry that says it is in the current set is. */
  ghost predicate Memo(psls: seq<Psl>, dotPsl: map<nat, nat>, work: seq<Item>, cur: nat) {
    && (forall x :: x in work ==> x.at == cur && Remembered(psls, dotPsl, x))
    && (forall k, a :: 0 <= k < |psls| && a in psls[k].data ==>
         var y := psls[k].data[a]; y.ahm == a && y.at <= cur && (y.at == cur ==> y in work))
  }

  /** Between earlemes the entries are about past sets. */
  ghost predicate Stale(psls: seq<Psl>, e: nat) {
    forall k, a :: 0 <= k < |psls| && a in psls[k].data ==> psls[k].data[a].ahm == a && psls[k].data[a].at <= e
  }

  class Psar {
    var psls: seq<Psl>
    var firstFree: nat
    var dotPsl: map<nat, nat>

    ghost predicate Valid()
      reads this
    {
      Claims(psls, firstFree, dotPsl)
    }

    constructor ()
      ensures Valid() && dotPsl == map[] && Stale(psls, 0)
    {
      psls := [Psl(None, map[])];
      firstFree := 0;
      dotPsl := map[];
    }

    /** psar_dealloc: gives up every claim and keeps the stale contents. */
    method Dealloc()
      requires Valid()
      modifies this
      ensures Valid() && dotPsl == map[] && firstFree == 0
      ensures |psls| == |old(psls)|
      ensures forall k :: 0 <= k < |psls| ==> psls[k].data == old(psls)[k].data
    {
      var k := 0;
      while k < |psls| && psls[k].owner.Some?
        invariant 0 <= k <= old(firstFree)
        invariant |psls| == |old(psls)| && firstFree == old(firstFree)
        invariant forall i :: 0 <= i < |psls| ==> psls[i].data == old(psls)[i].data
        invariant forall i :: 0 <= i < |psls| ==> psls[i].owner == if i < k then None else old(psls)[i].owner
        invariant forall o :: o in dotPsl ==> o in old(dotPsl) && old(dotPsl)[o] == dotPsl[o] >= k
      {
        assert psls[k].owner == old(psls)[k].owner;
        dotPsl := dotPsl - {psls[k].owner.value};
        psls := psls[k := psls[k].(owner := None)];
        k := k + 1;
      }
      firstFree := 0;
    }

    /** psl_claim: the first free list now belongs to the set at `origin`. */
    method Claim(origin: nat)
      requires Valid() && origin !in dotPsl
      modifies this
      ensures Valid() && dotPsl == old(dotPsl)[origin := old(firstFree)]
      ensures |psls| >= |old(psls)|
      ensures forall k :: 0 <= k < |old(psls)| ==> psls[k].data == old(psls)[k].data
      ensures forall k :: |old(psls)| <= k < |psls| ==> psls[k].data == map[]
    {
      if firstFree + 1 == |psls| {
        psls := psls + [Psl(None, map[])];
      }
      psls := psls[firstFree := psls[firstFree].(owner := Some(origin))];
      dotPsl := dotPsl[origin := firstFree];
      firstFree := firstFree + 1;
    }

    /** The stored item for a dotted rule, if the origin's list has one. */
    method Store(origin: nat, ahm: nat, x: Item)
      requires Valid() && origin in dotPsl
      modifies this`psls
      ensures Valid() && |psls| == |old(psls)|
      ensures psls == old(psls)[dotPsl[origin] := old(psls)[dotPsl[origin]].(data := old(psls)[dotPsl[origin]].data[ahm := x])]
    {
      var p := dotPsl[origin];
      psls := psls[p := psls[p].(data := psls[p].data[ahm := x])];
    }
  }

  lemma {:induction false} MemoStale(psls: seq<Psl>, e: nat)
    requires Memo(psls, map[], [], e)
    ensures Stale(psls, e)
  {
  }

  /** Storing a new item keeps all others remembered, because lists have distinct owners. */
  lemma {:induction false} MemoStored(psls: seq<Psl>, firstFree: nat, dotPsl: map<nat, nat>, work: seq<Item>, cur: nat, x: Item)
    requires Claims(psls, firstFree, dotPsl) && Memo(psls, dotPsl, work, cur)
    requires x.at == cur && x.origin in dotPsl && x !in work
    ensures var p := dotPsl[x.origin];
            Memo(psls[p := psls[p].(data := psls[p].data[x.ahm := x])], dotPsl, work + [x], cur)
  {
    var p := dotPsl[x.origin];
    var psls' := psls[p := psls[p].(data := psls[p].data[x.ahm := x])];
    forall y | y in work + [x]
      ensures y.at == cur && Remembered(psls', dotPsl, y)
    {
      if y in work && dotPsl[y.origin] == p {
        assert y.origin == x.origin;
      }
    }
  }
}
