/** Source links: how each Earley item was made.  The parse forest is read off
    these, so every way must be recorded, and only once. */
module Sources {
  import opened Options
  import opened Grammars
  import opened Derivations
  import opened EarleySets

  /** What moved a dot: a token, or a completed item of the same set. */
  datatype Cause = ByToken(tok: Token) | ByItem(item: Item)

  /** A link from an item to the item whose dot moved, or to a Leo item, with its cause. */
  datatype Link = Moved(pred: Item, cause: Cause) | ByLeo(lim: LimKey, item: Item)

  type Links = map<Item, seq<Link>>

  /** The links of an item; none when it has no source. */
  function LinksOf(links: Links, x: Item): seq<Link> {
    if x in links then links[x] else []
  }

  /** `x` is in set `cur` and comes from moving the dot of a listed item of set `m`. */
  ghost predicate FromList(x: Item, cur: nat, m: nat, pims: seq<Item>) {
    x.at == cur && x.ahm > 0 && Item(x.ahm - 1, x.origin, m) in pims
  }

  /** What a link of an item of set `cur` may be, given the tokens and the completed
      items that have been processed. */
  ghost predicate Legit(g: Grammar, sets: Sets, cur: nat, popped: set<Token>, done: set<Item>, x: Item, l: Link) {
    match l
    case Moved(p, ByToken(tok)) =>
      tok in popped && p.at == tok.from && p in Pims(sets, tok.from, tok.sym) && x == Next(p, cur)
    case Moved(p, ByItem(c)) =>
      && c in done && LimAt(sets, c.origin, Lhs(g, c.ahm)).None?
      && p.at == c.origin && p in Pims(sets, c.origin, Lhs(g, c.ahm)) && x == Next(p, cur)
    case ByLeo(key, c) =>
      && c in done && key == LimKey(c.origin, Lhs(g, c.ahm))
      && LimAt(sets, key.at, key.sym).Some? && x == Effect(LimAt(sets, key.at, key.sym).value, cur)
  }

  /** Every item of set `cur` has exactly its legitimate links, each once. */
  ghost predicate LinksExact(g: Grammar, sets: Sets, links: Links, cur: nat, popped: set<Token>, done: set<Item>) {
    forall x: Item :: x.at == cur ==>
      && Distinct(LinksOf(links, x))
      && forall l :: l in LinksOf(links, x) <==> Legit(g, sets, cur, popped, done, x, l)
  }

  /** The effect of moving the dots of the items in `pims`, all of set `m`. */
  ghost predicate MovedBy(cur: nat, m: nat, pims: seq<Item>, c: Cause, work0: seq<Item>, links0: Links, work: seq<Item>, links: Links) {
    && (forall x :: x in work <==> x in work0 || FromList(x, cur, m, pims))
    && (forall x :: x in links <==> x in links0 || FromList(x, cur, m, pims))
    && (forall x :: LinksOf(links, x) == LinksOf(links0, x) + if FromList(x, cur, m, pims) then [Moved(Item(x.ahm - 1, x.origin, m), c)] else [])
  }

  lemma {:induction false} FromListOne(x: Item, cur: nat, m: nat, pims: seq<Item>, p: Item)
    requires p.at == m
    ensures FromList(x, cur, m, pims + [p]) <==> FromList(x, cur, m, pims) || x == Next(p, cur)
    ensures x == Next(p, cur) ==> x.ahm > 0 && Item(x.ahm - 1, x.origin, m) == p
  {
  }

  /** One more item's dot is moved. */
  lemma {:induction false} MovedOne(cur: nat, m: nat, pims: seq<Item>, c: Cause, work0: seq<Item>, links0: Links, work: seq<Item>, links: Links,
                 p: Item, work': seq<Item>, links': Links)
    requires MovedBy(cur, m, pims, c, work0, links0, work, links)
    requires p.at == m && p !in pims
    requires forall x :: x in work' <==> x in work || x == Next(p, cur)
    requires links' == links[Next(p, cur) := LinksOf(links, Next(p, cur)) + [Moved(p, c)]]
    ensures MovedBy(cur, m, pims + [p], c, work0, links0, work', links')
  {
    var y := Next(p, cur);
    assert !FromList(y, cur, m, pims);
    assert LinksOf(links, y) == LinksOf(links0, y);
    hide FromList;
    forall x
      ensures x in work' <==> x in work0 || FromList(x, cur, m, pims + [p])
      ensures x in links' <==> x in links0 || FromList(x, cur, m, pims + [p])
      ensures LinksOf(links', x) == LinksOf(links0, x) + if FromList(x, cur, m, pims + [p]) then [Moved(Item(x.ahm - 1, x.origin, m), c)] else []
    {
      FromListOne(x, cur, m, pims, p);
      if x != y {
        assert LinksOf(links', x) == LinksOf(links, x);
      }
    }
  }

  lemma {:induction false} DistinctAppend<T(!new)>(s: seq<T>, x: T)
    requires Distinct(s) && x !in s
    ensures Distinct(s + [x])
  {
  }

  /** A popped token that was not processed before adds exactly its links. */
  lemma {:induction false} TokenLinks(g: Grammar, sets: Sets, cur: nat, popped: set<Token>, done: set<Item>, tok: Token,
                   work0: seq<Item>, links0: Links, work: seq<Item>, links: Links)
    requires LinksExact(g, sets, links0, cur, popped, done) && tok !in popped
    requires forall p :: p in Pims(sets, tok.from, tok.sym) ==> p.at == tok.from
    requires MovedBy(cur, tok.from, Pims(sets, tok.from, tok.sym), ByToken(tok), work0, links0, work, links)
    ensures LinksExact(g, sets, links, cur, popped + {tok}, done)
  {
    forall x: Item | x.at == cur
      ensures Distinct(LinksOf(links, x))
      ensures forall l :: l in LinksOf(links, x) <==> Legit(g, sets, cur, popped + {tok}, done, x, l)
    {
      TokenLinksOf(g, sets, cur, popped, done, tok, work0, links0, work, links, x);
    }
  }

  lemma {:induction false} TokenLinksOf(g: Grammar, sets: Sets, cur: nat, popped: set<Token>, done: set<Item>, tok: Token,
                     work0: seq<Item>, links0: Links, work: seq<Item>, links: Links, x: Item)
    requires LinksExact(g, sets, links0, cur, popped, done) && tok !in popped && x.at == cur
    requires MovedBy(cur, tok.from, Pims(sets, tok.from, tok.sym), ByToken(tok), work0, links0, work, links)
    ensures Distinct(LinksOf(links, x))
    ensures forall l :: l in LinksOf(links, x) <==> Legit(g, sets, cur, popped + {tok}, done, x, l)
  {
    var pims := Pims(sets, tok.from, tok.sym);
    forall l
      ensures l in LinksOf(links, x) <==> Legit(g, sets, cur, popped + {tok}, done, x, l)
    {
      if Legit(g, sets, cur, popped + {tok}, done, x, l) && !Legit(g, sets, cur, popped, done, x, l) {
        assert l == Moved(Item(x.ahm - 1, x.origin, tok.from), ByToken(tok));
      }
    }
    if FromList(x, cur, tok.from, pims) {
      var l := Moved(Item(x.ahm - 1, x.origin, tok.from), ByToken(tok));
      assert !Legit(g, sets, cur, popped, done, x, l);
      DistinctAppend(LinksOf(links0, x), l);
    }
  }

  /** A completed item that was not processed before, and has no Leo item waiting. */
  lemma {:induction false} CompletionLinks(g: Grammar, sets: Sets, cur: nat, popped: set<Token>, done: set<Item>, c: Item,
                        work0: seq<Item>, links0: Links, work: seq<Item>, links: Links)
    requires LinksExact(g, sets, links0, cur, popped, done) && c !in done
    requires LimAt(sets, c.origin, Lhs(g, c.ahm)).None?
    requires MovedBy(cur, c.origin, Pims(sets, c.origin, Lhs(g, c.ahm)), ByItem(c), work0, links0, work, links)
    ensures LinksExact(g, sets, links, cur, popped, done + {c})
  {
    forall x: Item | x.at == cur
      ensures Distinct(LinksOf(links, x))
      ensures forall l :: l in LinksOf(links, x) <==> Legit(g, sets, cur, popped, done + {c}, x, l)
    {
      CompletionLinksOf(g, sets, cur, popped, done, c, work0, links0, work, links, x);
    }
  }

  /** The links that a newly processed completion makes legitimate. */
  lemma {:induction false} CompletionAdds(g: Grammar, sets: Sets, cur: nat, popped: set<Token>, done: set<Item>, c: Item, x: Item, l: Link)
    requires LimAt(sets, c.origin, Lhs(g, c.ahm)).None? && x.at == cur
    ensures Legit(g, sets, cur, popped, done + {c}, x, l) <==>
              || Legit(g, sets, cur, popped, done, x, l)
              || (FromList(x, cur, c.origin, Pims(sets, c.origin, Lhs(g, c.ahm))) && l == Moved(Item(x.ahm - 1, x.origin, c.origin), ByItem(c)))
  {
  }

  lemma {:induction false} CompletionLinksOf(g: Grammar, sets: Sets, cur: nat, popped: set<Token>, done: set<Item>, c: Item,
                          work0: seq<Item>, links0: Links, work: seq<Item>, links: Links, x: Item)
    requires LinksExact(g, sets, links0, cur, popped, done) && c !in done && x.at == cur
    requires LimAt(sets, c.origin, Lhs(g, c.ahm)).None?
    requires MovedBy(cur, c.origin, Pims(sets, c.origin, Lhs(g, c.ahm)), ByItem(c), work0, links0, work, links)
    ensures Distinct(LinksOf(links, x))
    ensures forall l :: l in LinksOf(links, x) <==> Legit(g, sets, cur, popped, done + {c}, x, l)
  {
    var pims := Pims(sets, c.origin, Lhs(g, c.ahm));
    var added := Moved(Item(if x.ahm > 0 then x.ahm - 1 else 0, x.origin, c.origin), ByItem(c));
    assert LinksOf(links, x) == LinksOf(links0, x) + if FromList(x, cur, c.origin, pims) then [added] else [];
    forall l
      ensures l in LinksOf(links, x) <==> Legit(g, sets, cur, popped, done + {c}, x, l)
    {
      CompletionAdds(g, sets, cur, popped, done, c, x, l);
    }
    if FromList(x, cur, c.origin, pims) {
      assert !Legit(g, sets, cur, popped, done, x, added);
      DistinctAppend(LinksOf(links0, x), added);
    }
  }

  /** A completed item for which a Leo item waits gives one link, to its effect. */
  lemma {:induction false} LeoLinks(g: Grammar, sets: Sets, cur: nat, popped: set<Token>, done: set<Item>, c: Item, links0: Links, links: Links)
    requires LinksExact(g, sets, links0, cur, popped, done) && c !in done
    requires LimAt(sets, c.origin, Lhs(g, c.ahm)).Some?
    requires var y := Effect(LimAt(sets, c.origin, Lhs(g, c.ahm)).value, cur);
             links == links0[y := LinksOf(links0, y) + [ByLeo(LimKey(c.origin, Lhs(g, c.ahm)), c)]]
    ensures LinksExact(g, sets, links, cur, popped, done + {c})
  {
    var y := Effect(LimAt(sets, c.origin, Lhs(g, c.ahm)).value, cur);
    var added := ByLeo(LimKey(c.origin, Lhs(g, c.ahm)), c);
    forall x: Item | x.at == cur
      ensures Distinct(LinksOf(links, x))
      ensures forall l :: l in LinksOf(links, x) <==> Legit(g, sets, cur, popped, done + {c}, x, l)
    {
      forall l
        ensures l in LinksOf(links, x) <==> Legit(g, sets, cur, popped, done + {c}, x, l)
      {
        if Legit(g, sets, cur, popped, done + {c}, x, l) && !Legit(g, sets, cur, popped, done, x, l) {
          assert l == added;
        }
      }
      if x == y {
        assert !Legit(g, sets, cur, popped, done, x, added);
        DistinctAppend(LinksOf(links0, x), added);
      }
    }
  }

  /** Links of a finished set do not change while later sets are built. */
  lemma {:induction false} LinksLater(g: Grammar, sets: Sets, sets': Sets, links: Links, links': Links, e: nat, popped: set<Token>, done: set<Item>)
    requires LinksExact(g, sets, links, e, popped, done)
    requires forall x: Item :: x.at == e ==> LinksOf(links', x) == LinksOf(links, x)
    requires forall m :: m < e || m in sets ==> (m in sets' <==> m in sets) && (m in sets ==> sets'[m] == sets[m])
    requires forall k :: k in popped ==> k.from < e
    requires forall c :: c in done ==> c.origin < e
    ensures LinksExact(g, sets', links', e, popped, done)
  {
    forall x: Item, l | x.at == e
      ensures Legit(g, sets', e, popped, done, x, l) <==> Legit(g, sets, e, popped, done, x, l)
    {
    }
  }
}
