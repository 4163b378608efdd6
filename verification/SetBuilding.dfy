/** The Earley set under construction: what each step of the scanner and the completer keeps,
    and why the completer ends. */
module SetBuilding {
  import opened Options
  import opened Grammars
  import opened Derivations
  import opened EarleySets
  import opened LeoItems
  import opened Soundness
  import opened Sources

  // ---- The set under construction ----

  /** What holds of the items and links of set `cur` while tokens and completions
      are being processed. */
  ghost predicate Building(g: Grammar, toks: set<Token>, sets: Sets, cur: nat, work: seq<Item>, links: Links, popped: set<Token>, done: set<Item>) {
    && ItemsOk(g, toks, work, cur)
    && Distinct(work)
    && (forall x: Item :: x.at == cur ==> (x in work <==> x in links))
    && LinksExact(g, sets, links, cur, popped, done)
  }

  /** Completed items are on the stack or done, and none is on it twice. */
  ghost predicate Pending(g: Grammar, work: seq<Item>, stack: seq<Item>, done: set<Item>) {
    && Distinct(stack)
    && (forall x :: x in stack ==> x in work && Complete(g, x.ahm) && x !in done)
    && (forall x :: x in done ==> x in work && Complete(g, x.ahm))
    && (forall x :: x in work && Complete(g, x.ahm) ==> x in stack || x in done)
  }

  /** Items made from a token are valid. */
  lemma {:induction false} TokenItemsOk(g: Grammar, toks: set<Token>, sets: Sets, cur: nat, tok: Token, work0: seq<Item>, work: seq<Item>)
    requires Past(g, toks, sets, cur) && tok in toks && tok.to == cur
    requires ItemsOk(g, toks, work0, cur)
    requires forall x :: x in work ==> x in work0 || FromList(x, cur, tok.from, Pims(sets, tok.from, tok.sym))
    ensures ItemsOk(g, toks, work, cur)
  {
    hide Past, ItemOk;
    PastGrammar(g, toks, sets, cur);
    PastPims(g, toks, sets, cur, tok.from, tok.sym);
    forall x | x in work
      ensures x.at == cur && ItemOk(g, toks, x)
    {
      if x !in work0 {
        ScanSound(g, toks, Item(x.ahm - 1, x.origin, tok.from), tok);
      }
    }
  }

  /** Items made from a completion are valid. */
  lemma {:induction false} CompletionItemsOk(g: Grammar, toks: set<Token>, sets: Sets, cur: nat, c: Item, work0: seq<Item>, work: seq<Item>)
    requires Past(g, toks, sets, cur) && c in work0 && Complete(g, c.ahm)
    requires ItemsOk(g, toks, work0, cur)
    requires forall x :: x in work ==> x in work0 || FromList(x, cur, c.origin, Pims(sets, c.origin, Lhs(g, c.ahm)))
    ensures ItemsOk(g, toks, work, cur)
  {
    hide Past, ItemOk;
    PastGrammar(g, toks, sets, cur);
    PastPims(g, toks, sets, cur, c.origin, Lhs(g, c.ahm));
    forall x | x in work
      ensures x.at == cur && ItemOk(g, toks, x)
    {
      if x !in work0 {
        CompletionSound(g, toks, Item(x.ahm - 1, x.origin, c.origin), c);
      }
    }
  }

  /** The effect of a Leo item is valid. */
  lemma {:induction false} EffectOk(g: Grammar, toks: set<Token>, sets: Sets, cur: nat, c: Item)
    requires Past(g, toks, sets, cur) && Complete(g, c.ahm) && c.at == cur && ItemOk(g, toks, c)
    requires LimAt(sets, c.origin, Lhs(g, c.ahm)).Some?
    ensures var lim := LimAt(sets, c.origin, Lhs(g, c.ahm)).value;
            lim.origin.Some? && Complete(g, lim.top) && ItemOk(g, toks, Effect(lim, cur))
  {
    hide Past, ItemOk;
    PastGrammar(g, toks, sets, cur);
    PastItems(g, toks, sets, cur);
    PastLim(g, toks, sets, cur, c.origin, Lhs(g, c.ahm));
    LeoSound(g, toks, sets, LimAt(sets, c.origin, Lhs(g, c.ahm)).value, c);
  }

  lemma {:induction false} LeoItemOk(g: Grammar, toks: set<Token>, sets: Sets, cur: nat, c: Item, work: seq<Item>, links: Links, popped: set<Token>, done: set<Item>)
    requires Past(g, toks, sets, cur) && c in work && Complete(g, c.ahm)
    requires Building(g, toks, sets, cur, work, links, popped, done)
    requires LimAt(sets, c.origin, Lhs(g, c.ahm)).Some?
    ensures var lim := LimAt(sets, c.origin, Lhs(g, c.ahm)).value;
            && lim.origin.Some? && Complete(g, lim.top) && ItemsOk(g, toks, work + [Effect(lim, cur)], cur)
            && Effect(lim, cur) == Item(lim.top, lim.origin.value, cur)
  {
    hide Past, LinksExact, ItemOk;
    EffectOk(g, toks, sets, cur, c);
  }

  // ---- Moving the dots of one list ----

  /** The dots of the items in `pims` have been moved; all listed items are of set `m`,
      and an item of the current set has links exactly when it is there. */
  ghost predicate Moving(cur: nat, m: nat, pims: seq<Item>, c: Cause, work0: seq<Item>, links0: Links, work: seq<Item>, links: Links) {
    && MovedBy(cur, m, pims, c, work0, links0, work, links)
    && Distinct(work)
    && (forall x: Item :: x.at == cur ==> (x in work <==> x in links))
  }

  ghost predicate ListOf(pims: seq<Item>, m: nat) {
    Distinct(pims) && forall p :: p in pims ==> p.at == m
  }

  lemma {:induction false} MovingNone(cur: nat, m: nat, c: Cause, work: seq<Item>, links: Links)
    requires Distinct(work) && forall x: Item :: x.at == cur ==> (x in work <==> x in links)
    ensures Moving(cur, m, [], c, work, links, work, links)
  {
  }

  lemma {:induction false} NextPim(pims: seq<Item>, k: nat)
    requires Distinct(pims) && k < |pims|
    ensures pims[k] !in pims[..k] && pims[..k + 1] == pims[..k] + [pims[k]]
    ensures pims[k] in pims
  {
  }

  lemma {:induction false} MovingOne(cur: nat, m: nat, pims: seq<Item>, c: Cause, work0: seq<Item>, links0: Links, work: seq<Item>, links: Links,
                  p: Item, work': seq<Item>, links': Links)
    requires Moving(cur, m, pims, c, work0, links0, work, links)
    requires p.at == m && p !in pims
    requires work' == if Next(p, cur) in work then work else work + [Next(p, cur)]
    requires links' == links[Next(p, cur) := LinksOf(links, Next(p, cur)) + [Moved(p, c)]]
    ensures Moving(cur, m, pims + [p], c, work0, links0, work', links')
    ensures Next(p, cur) in work <==> Next(p, cur) in links
    ensures |work'| > |work| || work' == work
  {
    MovedOne(cur, m, pims, c, work0, links0, work, links, p, work', links');
  }

  /** A new completed item goes on the completion stack. */
  lemma {:induction false} PendingOne(g: Grammar, cur: nat, work: seq<Item>, links: Links, stack: seq<Item>, done: set<Item>, x: Item, work': seq<Item>, stack': seq<Item>)
    requires Pending(g, work, stack, done)
    requires x in work <==> x in links
    requires work' == if x in work then work else work + [x]
    requires stack' == if x !in links && Complete(g, x.ahm) then stack + [x] else stack
    ensures Pending(g, work', stack', done)
    ensures work' == work ==> stack' == stack
  {
  }

  lemma {:induction false} ScanStart(g: Grammar, toks: set<Token>, sets: Sets, cur: nat, tok: Token, popped: set<Token>, work: seq<Item>, links: Links)
    requires Past(g, toks, sets, cur) && Building(g, toks, sets, cur, work, links, popped, {})
    ensures ListOf(Pims(sets, tok.from, tok.sym), tok.from)
    ensures Moving(cur, tok.from, [], ByToken(tok), work, links, work, links)
  {
    PastPims(g, toks, sets, cur, tok.from, tok.sym);
    MovingNone(cur, tok.from, ByToken(tok), work, links);
  }

  lemma {:induction false} ScanEnd(g: Grammar, toks: set<Token>, sets: Sets, cur: nat, tok: Token, popped: set<Token>,
                work0: seq<Item>, links0: Links, work: seq<Item>, links: Links)
    requires Past(g, toks, sets, cur) && Building(g, toks, sets, cur, work0, links0, popped, {})
    requires tok in toks && tok.to == cur && tok !in popped
    requires ListOf(Pims(sets, tok.from, tok.sym), tok.from)
    requires Moving(cur, tok.from, Pims(sets, tok.from, tok.sym), ByToken(tok), work0, links0, work, links)
    ensures Building(g, toks, sets, cur, work, links, popped + {tok}, {})
    ensures Scanned(sets, work, cur, tok)
    ensures Grown(cur, work0, links0, work, links)
  {
    hide Past, ItemsOk, LinksExact;
    TokenItemsOk(g, toks, sets, cur, tok, work0, work);
    TokenLinks(g, sets, cur, popped, {}, tok, work0, links0, work, links);
    MovedAll(cur, tok.from, Pims(sets, tok.from, tok.sym), ByToken(tok), work0, links0, work, links);
  }

  /** Nothing is lost from the current set and no other set's links change. */
  ghost predicate Grown(cur: nat, work0: seq<Item>, links0: Links, work: seq<Item>, links: Links) {
    && (forall x :: x in work0 ==> x in work)
    && (forall x: Item :: x.at != cur ==> LinksOf(links, x) == LinksOf(links0, x) && (x in links <==> x in links0))
  }

  lemma {:induction false} CompletionStart(g: Grammar, toks: set<Token>, sets: Sets, cur: nat, c: Item, popped: set<Token>, done: set<Item>, work: seq<Item>, links: Links)
    requires Past(g, toks, sets, cur) && Building(g, toks, sets, cur, work, links, popped, done)
    ensures ListOf(Pims(sets, c.origin, Lhs(g, c.ahm)), c.origin)
    ensures Moving(cur, c.origin, [], ByItem(c), work, links, work, links)
  {
    PastPims(g, toks, sets, cur, c.origin, Lhs(g, c.ahm));
    MovingNone(cur, c.origin, ByItem(c), work, links);
  }

  lemma {:induction false} CompletionEnd(g: Grammar, toks: set<Token>, sets: Sets, cur: nat, c: Item, popped: set<Token>, done: set<Item>,
                      work0: seq<Item>, links0: Links, work: seq<Item>, links: Links)
    requires Past(g, toks, sets, cur) && Building(g, toks, sets, cur, work0, links0, popped, done)
    requires c in work0 && Complete(g, c.ahm) && c !in done
    requires LimAt(sets, c.origin, Lhs(g, c.ahm)).None?
    requires ListOf(Pims(sets, c.origin, Lhs(g, c.ahm)), c.origin)
    requires Moving(cur, c.origin, Pims(sets, c.origin, Lhs(g, c.ahm)), ByItem(c), work0, links0, work, links)
    ensures Building(g, toks, sets, cur, work, links, popped, done + {c})
    ensures Completed(g, sets, work, cur, c)
    ensures Grown(cur, work0, links0, work, links)
  {
    hide Past, ItemsOk, LinksExact;
    CompletionItemsOk(g, toks, sets, cur, c, work0, work);
    CompletionLinks(g, sets, cur, popped, done, c, work0, links0, work, links);
    MovedAll(cur, c.origin, Pims(sets, c.origin, Lhs(g, c.ahm)), ByItem(c), work0, links0, work, links);
  }

  lemma {:induction false} LeoEnd(g: Grammar, toks: set<Token>, sets: Sets, cur: nat, c: Item, popped: set<Token>, done: set<Item>,
               work0: seq<Item>, links0: Links, stack0: seq<Item>, work: seq<Item>, links: Links, stack: seq<Item>)
    requires Building(g, toks, sets, cur, work0, links0, popped, done) && c !in done
    requires Pending(g, work0, stack0, done + {c})
    requires LimAt(sets, c.origin, Lhs(g, c.ahm)).Some?
    requires var lim := LimAt(sets, c.origin, Lhs(g, c.ahm)).value;
             var x := Effect(lim, cur);
             && Complete(g, lim.top) && ItemsOk(g, toks, work0 + [x], cur)
             && work == (if x in work0 then work0 else work0 + [x])
             && stack == (if x !in links0 then stack0 + [x] else stack0)
             && links == links0[x := LinksOf(links0, x) + [ByLeo(LimKey(c.origin, Lhs(g, c.ahm)), c)]]
    ensures Building(g, toks, sets, cur, work, links, popped, done + {c})
    ensures Pending(g, work, stack, done + {c})
    ensures Completed(g, sets, work, cur, c)
    ensures Grown(cur, work0, links0, work, links)
    ensures |work| > |work0| || (work == work0 && stack == stack0)
  {
    hide LinksExact, ItemsOk, Pending;
    var x := Effect(LimAt(sets, c.origin, Lhs(g, c.ahm)).value, cur);
    assert x in work0 <==> x in links0;
    LeoLinks(g, sets, cur, popped, done, c, links0, links);
    PendingOne(g, cur, work0, links0, stack0, done + {c}, x, work, stack);
  }

  lemma {:induction false} NoLimsNow(sets: Sets, cur: nat, work: seq<Item>, postdot: map<nat, Postdot>)
    requires NoLims(sets) && forall s :: s in postdot ==> postdot[s].lim.None?
    ensures NoLims(sets[cur := EarleySet(work, postdot)])
  {
    var sets' := sets[cur := EarleySet(work, postdot)];
    forall m, s
      ensures LimAt(sets', m, s).None?
    {
      assert LimAt(sets, m, s).None?;
    }
  }

  // ---- The completion loop ----

  ghost predicate AllDone(g: Grammar, sets: Sets, work: seq<Item>, cur: nat, done: set<Item>) {
    forall x :: x in done ==> Completed(g, sets, work, cur, x)
  }

  lemma {:induction false} DoneNone(g: Grammar, sets: Sets, work: seq<Item>, cur: nat)
    ensures AllDone(g, sets, work, cur, {})
  {
  }

  lemma {:induction false} PopCause(g: Grammar, work: seq<Item>, stack: seq<Item>, done: set<Item>)
    requires Pending(g, work, stack, done) && stack != []
    ensures var c := stack[|stack| - 1];
            && c in work && Complete(g, c.ahm) && c !in done
            && Pending(g, work, stack[..|stack| - 1], done + {c})
  {
    var c := stack[|stack| - 1];
    assert c in stack;
    assert forall x :: x in stack[..|stack| - 1] ==> x in stack && x != c;
    assert forall x :: x in stack ==> x in stack[..|stack| - 1] || x == c;
  }

  lemma {:induction false} DoneOne(g: Grammar, sets: Sets, work: seq<Item>, links: Links, work': seq<Item>, links': Links, cur: nat, done: set<Item>, c: Item)
    requires AllDone(g, sets, work, cur, done) && Grown(cur, work, links, work', links')
    requires Completed(g, sets, work', cur, c)
    ensures AllDone(g, sets, work', cur, done + {c})
  {
    forall x | x in done
      ensures Completed(g, sets, work', cur, x)
    {
      assert Completed(g, sets, work, cur, x);
    }
  }

  lemma {:induction false} DoneAll(g: Grammar, toks: set<Token>, sets: Sets, work: seq<Item>, links: Links, cur: nat, popped: set<Token>, done: set<Item>)
    requires Building(g, toks, sets, cur, work, links, popped, done)
    requires Pending(g, work, [], done) && AllDone(g, sets, work, cur, done)
    ensures done == CompletedItems(g, work)
    ensures CompleteClosed(g, sets, work, cur)
  {
    hide Valid, LinksExact;
  }

  // ---- Why the completion loop ends: there are finitely many items ----

  ghost function Universe(g: Grammar, cur: nat): set<Item> {
    set a, o | 0 <= a < |g.ahms| && 0 <= o <= cur :: Item(a, o, cur)
  }

  ghost function Room(g: Grammar, cur: nat, work: seq<Item>): int {
    |Universe(g, cur)| - |work|
  }

  lemma {:induction false} DistinctBound<T(!new)>(s: seq<T>, u: set<T>)
    requires Distinct(s) && forall k :: 0 <= k < |s| ==> s[k] in u
    ensures |s| <= |u|
  {
    if s != [] {
      var k := |s| - 1;
      assert forall j :: 0 <= j < k ==> s[..k][j] in u - {s[k]};
      DistinctBound(s[..k], u - {s[k]});
    }
  }

  lemma {:induction false} RoomShrinks(g: Grammar, cur: nat, work0: seq<Item>, work: seq<Item>)
    ensures |work| > |work0| ==> Room(g, cur, work) < Room(g, cur, work0)
    ensures |work| == |work0| ==> Room(g, cur, work) == Room(g, cur, work0)
  {
  }

  lemma {:induction false} RoomLeft(g: Grammar, toks: set<Token>, sets: Sets, cur: nat, work: seq<Item>, links: Links, popped: set<Token>, done: set<Item>)
    requires RulesOk(g) && TokensOk(toks) && Building(g, toks, sets, cur, work, links, popped, done)
    ensures Room(g, cur, work) >= 0
  {
    forall k | 0 <= k < |work|
      ensures work[k] in Universe(g, cur)
    {
      var x := work[k];
      assert x in work;
      ValidForward(g, toks, g.ahms[x.ahm].irl, g.ahms[x.ahm].quasi, x.origin, cur);
    }
    DistinctBound(work, Universe(g, cur));
  }

  lemma {:induction false} MovedAll(cur: nat, m: nat, pims: seq<Item>, c: Cause, work0: seq<Item>, links0: Links, work: seq<Item>, links: Links)
    requires MovedBy(cur, m, pims, c, work0, links0, work, links)
    requires forall p :: p in pims ==> p.at == m
    ensures forall p :: p in pims ==> Next(p, cur) in work
    ensures forall x: Item :: x.at != cur ==> LinksOf(links, x) == LinksOf(links0, x) && (x in links <==> x in links0)
  {
    forall p | p in pims
      ensures Next(p, cur) in work
    {
      assert FromList(Next(p, cur), cur, m, pims);
    }
  }
}
