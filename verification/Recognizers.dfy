/** The recognizer: start of input, reading tokens, completing earlemes. */
module Recognizers {
  import opened Options
  import opened Grammars
  import opened Derivations
  import opened EarleySets
  import opened LeoItems
  import opened Soundness
  import opened TokenQueue
  import opened Sources
  import opened Psars
  import opened SetBuilding
  import opened Predictions
  import opened PostdotSets
  import opened States
  import opened StartSets

  // ---- The recognizer ----

  datatype Phase = BeforeInput | DuringInput | AfterInput

  /** What reading a token can answer; the names follow the MARPA_ERR codes. */
  datatype ReadResult =
    | Accepted | NotAcceptingInput | InvalidSymbolId | TokenLengthLeZero | TokenTooLong
    | TokenIsNotTerminal | SymbolValuedConflict | InaccessibleToken | NoTokenExpectedHere
    | UnexpectedTokenId | ParseTooLong | DuplicateToken

  datatype CompleteResult = SetCompleted | NoSet | ParseExhausted | NotDuringInput

  const JEARLEME_THRESHOLD := 0x7FFF_FFFF / 4

  /** An external symbol: its internal symbol, if it was accessible, and whether it is a terminal. */
  datatype Xsy = Xsy(nsy: Option<nat>, terminal: bool)

  /** The internal symbol is that of some terminal. */
  ghost predicate IsTerminal(symbols: seq<Xsy>, nsy: nat) {
    exists s :: 0 <= s < |symbols| && symbols[s] == Xsy(Some(nsy), true)
  }

  /** Every token is of a terminal, and was read with its internal symbol. */
  ghost predicate TokensOfTerminals(symbols: seq<Xsy>, toks: set<Token>) {
    forall t :: t in toks ==> IsTerminal(symbols, t.sym)
  }

  /** No token ends after this earleme. */
  ghost predicate AllPast(toks: set<Token>, e: nat) {
    forall t :: t in toks ==> t.to <= e
  }

  /** There is a set at 0 and wherever a token ended. */
  ghost predicate SetsWhereDue(toks: set<Token>, sets: Sets, current: nat) {
    forall e: nat :: e in sets <==> e == 0 || (e <= current && EndingAt(toks, e) != {})
  }

  lemma {:induction false} SetsWhereRead(toks: set<Token>, sets: Sets, current: nat, tok: Token)
    requires SetsWhereDue(toks, sets, current) && tok.to > current
    ensures SetsWhereDue(toks + {tok}, sets, current)
  {
    forall e: nat | e <= current
      ensures EndingAt(toks + {tok}, e) == EndingAt(toks, e)
    {
    }
  }

  lemma {:induction false} SetsWhereNext(toks: set<Token>, sets: Sets, current: nat, made: EarleySet)
    requires SetsWhereDue(toks, sets, current)
    ensures EndingAt(toks, current + 1) == {} ==> SetsWhereDue(toks, sets, current + 1)
    ensures EndingAt(toks, current + 1) != {} ==> SetsWhereDue(toks, sets[current + 1 := made], current + 1)
  {
    hide EndingAt;
  }

  /** `furthest` is where the last token ends. */
  ghost predicate FurthestIs(toks: set<Token>, furthest: nat) {
    AllPast(toks, furthest) && (furthest > 0 ==> exists t :: t in toks && t.to == furthest)
  }

  lemma {:induction false} FurthestPast(toks: set<Token>, furthest: nat, e: nat)
    requires FurthestIs(toks, furthest)
    ensures e + 1 > furthest <==> AllPast(toks, e)
  {
  }

  lemma {:induction false} FurthestRead(toks: set<Token>, furthest: nat, tok: Token)
    requires FurthestIs(toks, furthest)
    ensures FurthestIs(toks + {tok}, if furthest < tok.to then tok.to else furthest)
  {
    assert tok in toks + {tok};
  }

  /** The queue is empty if and only if no token ends later. */
  lemma {:induction false} QueuePast(toks: set<Token>, alts: seq<Alternative>, current: nat, furthest: nat)
    requires Queued(toks, alts, current, furthest)
    ensures alts == [] <==> AllPast(toks, current)
    ensures current > furthest ==> alts == []
  {
    hide Sorted;
    if alts != [] {
      assert alts[0].tok in toks;
    }
  }

  lemma {:induction false} TerminalHere(symbols: seq<Xsy>, s: nat)
    requires s < |symbols| && symbols[s].terminal && symbols[s].nsy.Some?
    ensures IsTerminal(symbols, symbols[s].nsy.value)
  {
    assert symbols[s] == Xsy(Some(symbols[s].nsy.value), true);
  }

  class Recognizer {
    const g: Grammar
    const symbols: seq<Xsy>
    const psar: Psar
    var phase: Phase
    var useLeo: bool
    var usingLeo: bool
    var exhausted: bool
    var currentEarleme: nat
    var furthestEarleme: nat
    var latest: nat
    var sets: Sets
    var alternatives: seq<Alternative>
    var workStack: seq<Item>
    var completionStack: seq<Item>
    var links: Links
    ghost var toks: set<Token>

    /** Before input nothing has been built; afterwards all sets up to the current
        earleme are exact, with their links, and the queue holds the later tokens.  The
        input is not over while a token that was read ends later. */
    ghost predicate Valid()
      reads this, psar
    {
      && GrammarOk(g) && TokensOfTerminals(symbols, toks)
      && FurthestIs(toks, furthestEarleme) && (exhausted <==> phase == AfterInput) && (phase == AfterInput ==> AllPast(toks, currentEarleme))
      && (phase == BeforeInput ==>
           && psar.Valid() && Stale(psar.psls, 0) && workStack == []
           && !usingLeo && sets == map[] && toks == {} && alternatives == [] && links == map[] && currentEarleme == 0 && furthestEarleme == 0)
      && (phase != BeforeInput ==> Between())
    }

    /** The state between two calls once input has started. */
    ghost predicate Between()
      reads this`usingLeo, this`currentEarleme, this`furthestEarleme, this`latest, this`sets, this`alternatives, this`workStack, this`links, this`toks, psar
    {
      && psar.Valid() && Stale(psar.psls, currentEarleme)
      && workStack == []
      && Running(g, toks, sets, links, alternatives, currentEarleme, furthestEarleme, latest)
      && (!usingLeo ==> NoLims(sets)) && (usingLeo ==> LimsDue(g, sets)) && SetsWhereDue(toks, sets, currentEarleme)
    }

    /** Between two calls all sets are exact and well formed. */
    lemma {:induction false} SettledSets()
      requires Valid() && phase != BeforeInput
      ensures Past(g, toks, sets, currentEarleme + 1)
    {
      hide Running, GrammarOk, NoLims, LimsDue, SetsWhereDue, TokensOfTerminals, AllPast, FurthestIs, Stale;
      RunningParts(g, toks, sets, links, alternatives, currentEarleme, furthestEarleme, latest);
    }

    /** There is a set here if and only if this is the start or a token ended here. */
    lemma {:induction false} SetIsHere()
      requires Valid() && phase != BeforeInput
      ensures currentEarleme in sets <==> currentEarleme == 0 || EndingAt(toks, currentEarleme) != {}
    {
      hide Running, GrammarOk, NoLims, LimsDue, TokensOfTerminals, AllPast, FurthestIs, Stale, EndingAt;
    }

    constructor (g: Grammar, symbols: seq<Xsy>, useLeo: bool)
      requires GrammarOk(g)
      ensures Valid() && phase == BeforeInput && fresh(psar)
      ensures this.g == g && this.symbols == symbols && this.useLeo == useLeo
    {
      this.g, this.symbols, this.useLeo := g, symbols, useLeo;
      psar := new Psar();
      phase, usingLeo, exhausted := BeforeInput, false, false;
      currentEarleme, furthestEarleme, latest := 0, 0, 0;
      sets, alternatives, workStack, completionStack, links, toks := map[], [], [], [], map[], {};
    }

    /** The memoized items of the set under construction. */
    ghost predicate MemoOk()
      reads this`workStack, this`currentEarleme, psar
    {
      psar.Valid() && Memo(psar.psls, psar.dotPsl, workStack, currentEarleme)
    }

    /** earley_item_assign: the item with this key in the current set, created if
        it is not there yet.  No key is ever created twice. */
    method Assign(origin: nat, ahm: nat) returns (x: Item)
      requires MemoOk()
      modifies this`workStack, psar
      ensures MemoOk()
      ensures x == Item(ahm, origin, currentEarleme)
      ensures workStack == if x in old(workStack) then old(workStack) else old(workStack) + [x]
    {
      if origin !in psar.dotPsl {
        psar.Claim(origin);
      }
      var psl := psar.psls[psar.dotPsl[origin]];
      if ahm in psl.data {
        var y := psl.data[ahm];
        if y.at == currentEarleme && y.origin == origin {
          return y;
        }
      }
      x := Item(ahm, origin, currentEarleme);
      assert x !in workStack;
      MemoStored(psar.psls, psar.firstFree, psar.dotPsl, workStack, currentEarleme, x);
      workStack := workStack + [x];
      psar.Store(origin, ahm, x);
    }

    /** Moves the dot of a postdot item into the current set and links the result. */
    method MoveDot(p: Item, c: Cause) returns (x: Item, isNew: bool)
      requires MemoOk()
      modifies this`workStack, this`links, psar
      ensures MemoOk()
      ensures x == Next(p, currentEarleme) && isNew == (x !in old(links))
      ensures workStack == if x in old(workStack) then old(workStack) else old(workStack) + [x]
      ensures links == old(links)[x := LinksOf(old(links), x) + [Moved(p, c)]]
    {
      x := Assign(p.origin, p.ahm + 1);
      isNew := x !in links;
      links := links[x := LinksOf(links, x) + [Moved(p, c)]];
    }

    /** One popped alternative: every item waiting for its symbol where it starts. */
    method ScanToken(tok: Token, ghost popped: set<Token>)
      requires MemoOk() && Past(g, toks, sets, currentEarleme)
      requires Building(g, toks, sets, currentEarleme, workStack, links, popped, {})
      requires tok in toks && tok.to == currentEarleme && tok !in popped
      modifies this`workStack, this`links, psar
      ensures MemoOk()
      ensures Building(g, toks, sets, currentEarleme, workStack, links, popped + {tok}, {})
      ensures Scanned(sets, workStack, currentEarleme, tok)
      ensures Grown(currentEarleme, old(workStack), old(links), workStack, links)
    {
      hide *;
      var pims := Pims(sets, tok.from, tok.sym);
      ScanStart(g, toks, sets, currentEarleme, tok, popped, workStack, links);
      for k := 0 to |pims|
        invariant MemoOk()
        invariant Moving(currentEarleme, tok.from, pims[..k], ByToken(tok), old(workStack), old(links), workStack, links)
      {
        ghost var work0, links0 := workStack, links;
        NextPim(pims, k);
        var x, isNew := MoveDot(pims[k], ByToken(tok));
        MovingOne(currentEarleme, tok.from, pims[..k], ByToken(tok), old(workStack), old(links), work0, links0, pims[k], workStack, links);
      }
      assert pims[..|pims|] == pims;
      ScanEnd(g, toks, sets, currentEarleme, tok, popped, old(workStack), old(links), workStack, links);
    }

    /** The completer for one completed item: through the Leo item that waits for
        it, otherwise through every item on the list. */
    method CompleteCause(cause: Item, ghost popped: set<Token>, ghost done: set<Item>)
      requires MemoOk() && Past(g, toks, sets, currentEarleme)
      requires Building(g, toks, sets, currentEarleme, workStack, links, popped, done)
      requires cause in workStack && Complete(g, cause.ahm) && cause !in done
      requires Pending(g, workStack, completionStack, done + {cause})
      modifies this`workStack, this`completionStack, this`links, psar
      ensures MemoOk()
      ensures Building(g, toks, sets, currentEarleme, workStack, links, popped, done + {cause})
      ensures Pending(g, workStack, completionStack, done + {cause})
      ensures Completed(g, sets, workStack, currentEarleme, cause)
      ensures Grown(currentEarleme, old(workStack), old(links), workStack, links)
      ensures |workStack| > |old(workStack)| || (workStack == old(workStack) && completionStack == old(completionStack))
    {
      if LimAt(sets, cause.origin, Lhs(g, cause.ahm)).Some? {
        CompleteByLeo(cause, popped, done);
      } else {
        CompleteByList(cause, popped, done);
      }
    }

    method CompleteByLeo(cause: Item, ghost popped: set<Token>, ghost done: set<Item>)
      requires MemoOk() && Past(g, toks, sets, currentEarleme)
      requires Building(g, toks, sets, currentEarleme, workStack, links, popped, done)
      requires cause in workStack && Complete(g, cause.ahm) && cause !in done
      requires Pending(g, workStack, completionStack, done + {cause})
      requires LimAt(sets, cause.origin, Lhs(g, cause.ahm)).Some?
      modifies this`workStack, this`completionStack, this`links, psar
      ensures MemoOk()
      ensures Building(g, toks, sets, currentEarleme, workStack, links, popped, done + {cause})
      ensures Pending(g, workStack, completionStack, done + {cause})
      ensures Completed(g, sets, workStack, currentEarleme, cause)
      ensures Grown(currentEarleme, old(workStack), old(links), workStack, links)
      ensures |workStack| > |old(workStack)| || (workStack == old(workStack) && completionStack == old(completionStack))
    {
      hide *;
      var key := LimKey(cause.origin, Lhs(g, cause.ahm));
      var lim := LimAt(sets, key.at, key.sym).value;
      LeoItemOk(g, toks, sets, currentEarleme, cause, workStack, links, popped, done);
      var effect := Assign(lim.origin.value, lim.top);
      if effect !in links {
        completionStack := completionStack + [effect];
      }
      links := links[effect := LinksOf(links, effect) + [ByLeo(key, cause)]];
      LeoEnd(g, toks, sets, currentEarleme, cause, popped, done, old(workStack), old(links), old(completionStack), workStack, links, completionStack);
    }

    method CompleteByList(cause: Item, ghost popped: set<Token>, ghost done: set<Item>)
      requires MemoOk() && Past(g, toks, sets, currentEarleme)
      requires Building(g, toks, sets, currentEarleme, workStack, links, popped, done)
      requires cause in workStack && Complete(g, cause.ahm) && cause !in done
      requires Pending(g, workStack, completionStack, done + {cause})
      requires LimAt(sets, cause.origin, Lhs(g, cause.ahm)).None?
      modifies this`workStack, this`completionStack, this`links, psar
      ensures MemoOk()
      ensures Building(g, toks, sets, currentEarleme, workStack, links, popped, done + {cause})
      ensures Pending(g, workStack, completionStack, done + {cause})
      ensures Completed(g, sets, workStack, currentEarleme, cause)
      ensures Grown(currentEarleme, old(workStack), old(links), workStack, links)
      ensures |workStack| > |old(workStack)| || (workStack == old(workStack) && completionStack == old(completionStack))
    {
      hide *;
      var m := cause.origin;
      var pims := Pims(sets, m, Lhs(g, cause.ahm));
      CompletionStart(g, toks, sets, currentEarleme, cause, popped, done, workStack, links);
      for k := 0 to |pims|
        invariant MemoOk()
        invariant Moving(currentEarleme, m, pims[..k], ByItem(cause), old(workStack), old(links), workStack, links)
        invariant Pending(g, workStack, completionStack, done + {cause})
        invariant |workStack| > |old(workStack)| || (workStack == old(workStack) && completionStack == old(completionStack))
      {
        ghost var work0, links0, stack0 := workStack, links, completionStack;
        NextPim(pims, k);
        var x, isNew := MoveDot(pims[k], ByItem(cause));
        if isNew && Complete(g, x.ahm) {
          completionStack := completionStack + [x];
        }
        MovingOne(currentEarleme, m, pims[..k], ByItem(cause), old(workStack), old(links), work0, links0, pims[k], workStack, links);
        PendingOne(g, currentEarleme, work0, links0, stack0, done + {cause}, x, workStack, completionStack);
      }
      assert pims[..|pims|] == pims;
      CompletionEnd(g, toks, sets, currentEarleme, cause, popped, done, old(workStack), old(links), workStack, links);
    }

    /** Pops every alternative that ends here and scans it. */
    method ScanTokens()
      requires MemoOk() && Past(g, toks, sets, currentEarleme) && workStack == []
      requires currentEarleme > 0 && Queued(toks, alternatives, currentEarleme - 1, furthestEarleme)
      requires forall x :: x in links ==> x.at < currentEarleme
      modifies this`workStack, this`links, this`alternatives, psar
      ensures MemoOk()
      ensures Building(g, toks, sets, currentEarleme, workStack, links, EndingAt(toks, currentEarleme), {})
      ensures ScanClosed(toks, sets, workStack, currentEarleme)
      ensures Delivered(toks, old(alternatives), alternatives, currentEarleme, furthestEarleme)
      ensures Grown(currentEarleme, [], old(links), workStack, links)
    {
      hide *;
      ghost var popped: set<Token> := {};
      ScanNothing(g, toks, sets, currentEarleme, links);
      PopStart(toks, alternatives, currentEarleme, furthestEarleme);
      while alternatives != [] && alternatives[|alternatives| - 1].tok.to <= currentEarleme
        invariant MemoOk()
        invariant Building(g, toks, sets, currentEarleme, workStack, links, popped, {})
        invariant Popping(toks, sets, old(alternatives), alternatives, currentEarleme, popped, workStack)
        invariant Grown(currentEarleme, [], old(links), workStack, links)
        decreases |alternatives|
      {
        ghost var alts0, work0, links0 := alternatives, workStack, links;
        var tok := alternatives[|alternatives| - 1].tok;
        alternatives := alternatives[..|alternatives| - 1];
        PopOne(toks, sets, old(alternatives), alts0, currentEarleme, furthestEarleme, popped, work0);
        ScanToken(tok, popped);
        PopScanned(toks, sets, old(alternatives), alts0, alternatives, currentEarleme, popped, work0, links0, workStack, links);
        GrownTwice(currentEarleme, [], old(links), work0, links0, workStack, links);
        popped := popped + {tok};
      }
      PopEnd(toks, sets, old(alternatives), alternatives, currentEarleme, furthestEarleme, popped, workStack);
    }

    /** Completed items that were scanned go on the completion stack. */
    method InitCompletions()
      requires Distinct(workStack)
      modifies this`completionStack
      ensures Pending(g, workStack, completionStack, {})
    {
      completionStack := [];
      for ix := 0 to |workStack|
        invariant Pending(g, workStack[..ix], completionStack, {})
      {
        NextPim(workStack, ix);
        if Complete(g, workStack[ix].ahm) {
          completionStack := completionStack + [workStack[ix]];
        }
      }
      assert workStack[..|workStack|] == workStack;
    }

    /** Completes until the stack is empty; every completed item is popped once. */
    method RunCompletions(ghost popped: set<Token>)
      requires MemoOk() && Past(g, toks, sets, currentEarleme)
      requires Building(g, toks, sets, currentEarleme, workStack, links, popped, {})
      requires Pending(g, workStack, completionStack, {})
      modifies this`workStack, this`completionStack, this`links, psar
      ensures MemoOk() && completionStack == []
      ensures Building(g, toks, sets, currentEarleme, workStack, links, popped, CompletedItems(g, workStack))
      ensures CompleteClosed(g, sets, workStack, currentEarleme)
      ensures Grown(currentEarleme, old(workStack), old(links), workStack, links)
    {
      hide *;
      PastGrammar(g, toks, sets, currentEarleme);
      ghost var done: set<Item> := {};
      GrownNot(currentEarleme, workStack, links);
      DoneNone(g, sets, workStack, currentEarleme);
      while completionStack != []
        invariant MemoOk()
        invariant Building(g, toks, sets, currentEarleme, workStack, links, popped, done)
        invariant Pending(g, workStack, completionStack, done)
        invariant AllDone(g, sets, workStack, currentEarleme, done)
        invariant Grown(currentEarleme, old(workStack), old(links), workStack, links)
        decreases Room(g, currentEarleme, workStack), |completionStack|
      {
        ghost var stack0, work0, links0 := completionStack, workStack, links;
        var cause := completionStack[|completionStack| - 1];
        completionStack := completionStack[..|completionStack| - 1];
        PopCause(g, workStack, stack0, done);
        CompleteCause(cause, popped, done);
        DoneOne(g, sets, work0, links0, workStack, links, currentEarleme, done, cause);
        GrownTwice(currentEarleme, old(workStack), old(links), work0, links0, workStack, links);
        done := done + {cause};
        RoomLeft(g, toks, sets, currentEarleme, workStack, links, popped, done);
        RoomShrinks(g, currentEarleme, work0, workStack);
      }
      DoneAll(g, toks, sets, workStack, links, currentEarleme, popped, done);
    }

    /** One pass of predictions over the scanned and completed items. */
    method PredictAll()
      requires MemoOk() && Distinct(workStack) && RulesOk(g) && AhmsOk(g) && PredictionsOk(g)
      requires forall x :: x in workStack ==> x.ahm < |g.ahms|
      modifies this`workStack, psar
      ensures MemoOk()
      ensures Predicting(g, currentEarleme, old(workStack), workStack, |old(workStack)|)
    {
      hide *;
      var n := |workStack|;
      PredictStart(g, currentEarleme, workStack);
      for ix := 0 to n
        invariant MemoOk()
        invariant Predicting(g, currentEarleme, old(workStack), workStack, ix)
      {
        PredictAt(g, currentEarleme, old(workStack), workStack, ix);
        var cil := g.predicted[workStack[ix].ahm];
        for cilIx := 0 to |cil|
          invariant MemoOk()
          invariant Predicting(g, currentEarleme, old(workStack), workStack, ix)
          invariant forall k :: 0 <= k < cilIx ==> Item(AhmOf(g, cil[k], 0), currentEarleme, currentEarleme) in workStack
        {
          ghost var work := workStack;
          PredictedRule(g, old(workStack)[ix].ahm, cil[cilIx]);
          var x := Assign(currentEarleme, g.first[cil[cilIx]]);
          PredictOne(g, currentEarleme, old(workStack), work, workStack, ix, cil[cilIx], x);
        }
        PredictedAll(g, currentEarleme, old(workStack), workStack, ix);
      }
    }

    /** postdot_items_create: the postdot lists, and Leo items if they are in use. */
    method PostdotItemsCreate() returns (postdot: map<nat, Postdot>)
      requires Past(g, toks, sets, currentEarleme) && ItemsOk(g, toks, workStack, currentEarleme) && Distinct(workStack)
      requires AllPresent(g, toks, sets, workStack, currentEarleme)
      ensures PimsOk(g, workStack, postdot)
      ensures LimsOk(g, sets[currentEarleme := EarleySet(workStack, postdot)], currentEarleme)
      ensures !usingLeo ==> forall s :: s in postdot ==> postdot[s].lim.None?
      ensures usingLeo ==> LimsWhereDue(g, workStack, postdot)
    {
      hide *;
      PastGrammar(g, toks, sets, currentEarleme);
      WorkShape(g, toks, workStack, currentEarleme);
      var area := PostdotLists(g, workStack);
      var lims: map<nat, Lim> := map[];
      NoLeoItems(g, sets, area, workStack, currentEarleme);
      if usingLeo {
        ListsBounded(g, workStack, area);
        var candidates := PotentialLeoItems(g, area);
        LeoReady(g, toks, sets, area, workStack, currentEarleme, candidates);
        lims := PopulateLeoItems(g, sets, area, workStack, currentEarleme, candidates);
        LimsKeys(candidates, lims);
        MadeWhereDue(g, workStack, area, candidates, lims, map s | s in area :: Postdot(if s in lims then Some(lims[s]) else None, area[s]));
      }
      postdot := map s | s in area :: Postdot(if s in lims then Some(lims[s]) else None, area[s]);
      PostdotOk(g, sets, area, workStack, currentEarleme, lims, postdot);
    }

    /** marpa_r_start_input: set 0 is the start rule and everything it predicts,
        by a worklist; Leo items are never used in it. */
    method StartInput() returns (ok: bool)
      requires Valid()
      modifies this, psar
      ensures Valid() && useLeo == old(useLeo)
      ensures ok <==> old(phase) == BeforeInput
      ensures ok ==> phase == DuringInput && currentEarleme == 0 && toks == {} && usingLeo == useLeo
      ensures !ok ==> unchanged(this) && unchanged(psar)
    {
      hide Valid, Between, Running, GrammarOk, StartClosed, AllPresent, PimsOk, LimsOk, NoLims, LimsDue, SetsWhereDue, Past, ItemsOk;
      if phase != BeforeInput {
        return false;
      }
      FreshParts();
      phase := DuringInput;
      psar.Dealloc();
      workStack := StartItems();
      StartPresent(g, workStack);
      var postdot := PostdotItemsCreate();
      RunningStart(g, workStack, postdot);
      sets := sets[0 := EarleySet(workStack, postdot)];
      latest := 0;
      workStack := [];
      usingLeo := useLeo;
      ok := true;
      StartedValid();
    }

    lemma {:induction false} FreshParts()
      requires Valid() && phase == BeforeInput
      ensures GrammarOk(g) && psar.Valid() && Stale(psar.psls, 0) && workStack == [] && !exhausted
      ensures !usingLeo && sets == map[] && toks == {} && alternatives == [] && links == map[] && currentEarleme == 0 && furthestEarleme == 0
    {
    }

    lemma {:induction false} StartedValid()
      requires GrammarOk(g) && phase == DuringInput && toks == {} && furthestEarleme == 0 && !exhausted
      requires MemosReleased() && workStack == [] && Running(g, toks, sets, links, alternatives, currentEarleme, furthestEarleme, latest)
      requires NoLims(sets) && currentEarleme == 0 && forall e :: e in sets <==> e == 0
      ensures Valid()
    {
      hide GrammarOk, Running, NoLims;
      BetweenParts();
    }

    method StartItems() returns (items: seq<Item>)
      requires GrammarOk(g)
      ensures StartClosed(g, items)
    {
      hide *;
      StartFacts(g);
      items := [Item(g.first[g.startIrl], 0, 0)];
      var seen: set<nat> := {g.startIrl};
      var stack := [RulesFor(g, P(g, g.startIrl)[0])];
      StartingFirst(g);
      while stack != []
        invariant Starting(g, items, seen, stack)
        decreases AllIrls(g) - seen, |stack|
      {
        ghost var seen0, stack0 := seen, stack;
        var cil := stack[|stack| - 1];
        stack := stack[..|stack| - 1];
        StartingPop(g, items, seen, stack0);
        for cilIx := 0 to |cil|
          invariant StartingCil(g, items, seen, stack, cil, cilIx)
          invariant seen0 <= seen <= AllIrls(g) && (seen == seen0 ==> stack == stack0[..|stack0| - 1])
        {
          var r := cil[cilIx];
          StartingRule(g, items, seen, stack, cil, cilIx);
          if r !in seen {
            seen := seen + {r};
            items := items + [Item(g.first[r], 0, 0)];
            stack := stack + [RulesFor(g, P(g, r)[0])];
          }
        }
        StartingDone(g, items, seen, stack, cil);
      }
      StartingEnd(g, items, seen);
    }

    /** marpa_r_alternative: reads one token that starts at the current earleme. */
    method ReadAlternative(xsy: int, value: int, length: int) returns (r: ReadResult)
      requires Valid()
      modifies this`toks, this`alternatives, this`furthestEarleme
      ensures Valid()
      ensures r == Accepted <==> Readable(xsy, value, length) && old(Token(symbols[xsy].nsy.value, currentEarleme, currentEarleme + length) !in toks)
      ensures r == DuplicateToken <==> Readable(xsy, value, length) && old(Token(symbols[xsy].nsy.value, currentEarleme, currentEarleme + length) in toks)
      ensures r == NotAcceptingInput <==> phase != DuringInput
      ensures r == InvalidSymbolId <==> phase == DuringInput && !(0 <= xsy < |symbols|)
      ensures r == TokenLengthLeZero <==> phase == DuringInput && 0 <= xsy < |symbols| && length <= 0
      ensures r == TokenTooLong <==> phase == DuringInput && 0 <= xsy < |symbols| && length >= JEARLEME_THRESHOLD
      ensures r == TokenIsNotTerminal <==> Sized(xsy, length) && !symbols[xsy].terminal
      ensures r == SymbolValuedConflict <==> Sized(xsy, length) && symbols[xsy].terminal && value == 0
      ensures r == InaccessibleToken <==> Sized(xsy, length) && symbols[xsy].terminal && value != 0 && symbols[xsy].nsy.None?
      ensures r == NoTokenExpectedHere <==> Wanted(xsy, value, length) && currentEarleme !in sets
      ensures r == UnexpectedTokenId <==> Wanted(xsy, value, length) && currentEarleme in sets && Pims(sets, currentEarleme, symbols[xsy].nsy.value) == []
      ensures r == ParseTooLong <==> Wanted(xsy, value, length) && Pims(sets, currentEarleme, symbols[xsy].nsy.value) != [] && currentEarleme + length >= JEARLEME_THRESHOLD
      ensures r == Accepted ==>
                var tok := Token(symbols[xsy].nsy.value, currentEarleme, currentEarleme + length);
                && toks == old(toks) + {tok} && furthestEarleme == (if old(furthestEarleme) < tok.to then tok.to else old(furthestEarleme))
                && (forall a :: a in alternatives <==> a in old(alternatives) || a == Alternative(tok, value))
      ensures r != Accepted ==> toks == old(toks) && alternatives == old(alternatives) && furthestEarleme == old(furthestEarleme)
    {
      hide Valid, Inserted, Queued, Sorted, IsTerminal, TokensOfTerminals, Pims, AllPast, FurthestIs;
      if phase != DuringInput {
        return NotAcceptingInput;
      }
      if xsy < 0 || xsy >= |symbols| {
        return InvalidSymbolId;
      }
      if length <= 0 {
        return TokenLengthLeZero;
      }
      if length >= JEARLEME_THRESHOLD {
        return TokenTooLong;
      }
      if !symbols[xsy].terminal {
        return TokenIsNotTerminal;
      }
      if value == 0 {
        return SymbolValuedConflict;
      }
      if symbols[xsy].nsy.None? {
        return InaccessibleToken;
      }
      var nsy := symbols[xsy].nsy.value;
      SetHere(nsy);
      if latest != currentEarleme {
        return NoTokenExpectedHere;
      }
      if nsy !in sets[latest].postdot {
        return UnexpectedTokenId;
      }
      var target := currentEarleme + length;
      if target >= JEARLEME_THRESHOLD {
        return ParseTooLong;
      }
      assert IsTerminal(symbols, nsy) by { TerminalHere(symbols, xsy); }
      r := Insert(nsy, value, length);
    }

    /** There is a set at the current earleme only when it is the latest one. */
    lemma {:induction false} SetHere(nsy: nat)
      requires Valid() && phase == DuringInput
      ensures latest in sets && (latest == currentEarleme <==> currentEarleme in sets)
      ensures nsy in sets[latest].postdot <==> Pims(sets, latest, nsy) != []
      ensures currentEarleme !in sets ==> Pims(sets, currentEarleme, nsy) == []
    {
      hide Running, GrammarOk, NoLims, LimsDue, SetsWhereDue, Claims, Stale, TokensOfTerminals, AllPast, FurthestIs;
      ListsHere(g, toks, sets, links, alternatives, currentEarleme, furthestEarleme, latest);
      if latest != currentEarleme {
        NoSetHere(g, toks, sets, links, alternatives, currentEarleme, furthestEarleme, latest);
      }
    }

    /** The token is put on the queue unless it is already there. */
    method Insert(nsy: nat, value: int, length: int) returns (r: ReadResult)
      requires Valid() && phase == DuringInput && length > 0 && IsTerminal(symbols, nsy)
      modifies this`toks, this`alternatives, this`furthestEarleme
      ensures Valid()
      ensures r == Accepted || r == DuplicateToken
      ensures r == Accepted <==> old(Token(nsy, currentEarleme, currentEarleme + length) !in toks)
      ensures r == Accepted ==>
                var tok := Token(nsy, currentEarleme, currentEarleme + length);
                && toks == old(toks) + {tok} && furthestEarleme == (if old(furthestEarleme) < tok.to then tok.to else old(furthestEarleme))
                && (forall a :: a in alternatives <==> a in old(alternatives) || a == Alternative(tok, value))
      ensures r != Accepted ==> toks == old(toks) && alternatives == old(alternatives) && furthestEarleme == old(furthestEarleme)
    {
      hide Running, GrammarOk, NoLims, LimsDue, SetsWhereDue, Claims, Stale, Sorted, IsTerminal, AllPast, FurthestIs;
      var alternative := Alternative(Token(nsy, currentEarleme, currentEarleme + length), value);
      RunningQueue(g, toks, sets, links, alternatives, currentEarleme, furthestEarleme, latest, alternative.tok);
      ghost var furthest0 := furthestEarleme;
      FurthestRead(toks, furthestEarleme, alternative.tok);
      if furthestEarleme < alternative.tok.to {
        furthestEarleme := alternative.tok.to;
      }
      var point := InsertionPoint(alternatives, alternative);
      if point < 0 {
        return DuplicateToken;
      }
      SetsWhereRead(toks, sets, currentEarleme, alternative.tok);
      RunningRead(g, toks, sets, links, alternatives, currentEarleme, furthest0, latest, alternative, point, furthestEarleme);
      alternatives := Inserted(alternatives, alternative, point);
      toks := toks + {alternative.tok};
      r := Accepted;
    }

    /** When a token may be read: the symbol is an accessible terminal that some item
        at the current earleme waits for, and the lengths are in range. */
    ghost predicate Readable(xsy: int, value: int, length: int)
      reads this`phase, this`currentEarleme, this`sets
    {
      && Wanted(xsy, value, length) && currentEarleme + length < JEARLEME_THRESHOLD
      && Pims(sets, currentEarleme, symbols[xsy].nsy.value) != []
    }

    /** Tokens of this symbol, value and length can be read somewhere. */
    ghost predicate Wanted(xsy: int, value: int, length: int)
      reads this`phase
    {
      Sized(xsy, length) && symbols[xsy].terminal && value != 0 && symbols[xsy].nsy.Some?
    }

    ghost predicate Sized(xsy: int, length: int)
      reads this`phase
    {
      phase == DuringInput && 0 <= xsy < |symbols| && 0 < length < JEARLEME_THRESHOLD
    }

    /** marpa_r_earleme_complete: one earleme forward.  Whatever the outcome, the sets
        up to the new current earleme are exact, and no finished set has changed. */
    method EarlemeComplete() returns (r: CompleteResult)
      requires Valid()
      modifies this, psar
      ensures Valid() && useLeo == old(useLeo) && usingLeo == old(usingLeo)
      ensures r == NotDuringInput <==> old(phase) != DuringInput
      ensures r == NotDuringInput ==> unchanged(this) && unchanged(psar)
      ensures r != NotDuringInput ==>
                && currentEarleme == old(currentEarleme) + 1 && toks == old(toks) && furthestEarleme == old(furthestEarleme)
                && (forall e :: e in old(sets) ==> e in sets && sets[e] == old(sets)[e])
                && (forall x: Item :: x.at < currentEarleme ==> LinksOf(links, x) == LinksOf(old(links), x))
      ensures r == ParseExhausted <==> old(phase) == DuringInput && AllPast(toks, old(currentEarleme))
      ensures r == SetCompleted <==> old(phase) == DuringInput && EndingAt(toks, old(currentEarleme) + 1) != {}
      ensures r == SetCompleted ==> currentEarleme in sets
      ensures r != SetCompleted ==> sets == old(sets) && alternatives == old(alternatives)
      ensures r != NotDuringInput ==> phase == if r == ParseExhausted || (r == SetCompleted && NothingExpected()) then AfterInput else DuringInput
      ensures exhausted <==> phase == AfterInput
    {
      hide Between, GrammarOk, NothingExpected, EndingAt, TokensOfTerminals, AllPast, FurthestIs;
      if phase != DuringInput {
        return NotDuringInput;
      }
      FurthestPast(toks, furthestEarleme, currentEarleme);
      r := NextEarleme();
      exhausted := phase == AfterInput;
    }

    method NextEarleme() returns (r: CompleteResult)
      requires Between() && phase == DuringInput
      modifies this`phase, this`currentEarleme, this`workStack, this`completionStack, this`links, this`alternatives, this`sets, this`latest, psar
      ensures Between() && currentEarleme == old(currentEarleme) + 1
      ensures forall e :: e in old(sets) ==> e in sets && sets[e] == old(sets)[e]
      ensures forall x: Item :: x.at < currentEarleme ==> LinksOf(links, x) == LinksOf(old(links), x)
      ensures r != NotDuringInput
      ensures r == ParseExhausted <==> currentEarleme > furthestEarleme
      ensures r == SetCompleted <==> EndingAt(toks, currentEarleme) != {}
      ensures r == SetCompleted ==> currentEarleme in sets
      ensures r != SetCompleted ==> sets == old(sets) && alternatives == old(alternatives)
      ensures phase == if r == ParseExhausted || (r == SetCompleted && NothingExpected()) then AfterInput else DuringInput
      ensures phase == AfterInput ==> AllPast(toks, currentEarleme)
    {
      hide Between, NothingExpected, MemoOk, Entered, EndingAt, AllPast;
      EnterEarleme();
      if currentEarleme > furthestEarleme {
        SkipEarleme();
        AllReached();
        phase := AfterInput;
        return ParseExhausted;
      }
      if alternatives == [] || alternatives[|alternatives| - 1].tok.to != currentEarleme {
        SkipEarleme();
        return NoSet;
      }
      BuildSet();
      CheckExhausted();
      r := SetCompleted;
    }

    /** The next earleme has begun: no memo is claimed, and no set is there yet. */
    ghost predicate Entered()
      reads this`usingLeo, this`currentEarleme, this`furthestEarleme, this`latest, this`sets, this`alternatives, this`workStack, this`links, this`toks, psar
    {
      && MemoOk() && workStack == [] && currentEarleme > 0
      && Running(g, toks, sets, links, alternatives, currentEarleme - 1, furthestEarleme, latest)
      && (!usingLeo ==> NoLims(sets)) && (usingLeo ==> LimsDue(g, sets)) && SetsWhereDue(toks, sets, currentEarleme - 1)
      && psar.dotPsl == map[]
    }

    method EnterEarleme()
      requires Between()
      modifies this`currentEarleme, psar
      ensures Entered() && currentEarleme == old(currentEarleme) + 1
    {
      hide Running, NoLims, LimsDue, SetsWhereDue;
      psar.Dealloc();
      currentEarleme := currentEarleme + 1;
    }

    /** No token ends here, so there is nothing to build. */
    lemma {:induction false} SkipEarleme()
      requires Entered()
      requires currentEarleme > furthestEarleme || alternatives == [] || alternatives[|alternatives| - 1].tok.to != currentEarleme
      ensures Between() && EndingAt(toks, currentEarleme) == {}
    {
      hide Running, NoLims, LimsDue, SetsWhereDue, Memo, Stale, Claims;
      RunningParts(g, toks, sets, links, alternatives, currentEarleme - 1, furthestEarleme, latest);
      NoTokenEnds(toks, alternatives, currentEarleme - 1, furthestEarleme);
      RunningNoSet(g, toks, sets, links, alternatives, currentEarleme - 1, furthestEarleme, latest);
      MemoStale(psar.psls, currentEarleme);
      SetsWhereNext(toks, sets, currentEarleme - 1, EarleySet([], map[]));
    }

    /** All tokens that were read end by the furthest earleme. */
    lemma {:induction false} AllReached()
      requires Between() && currentEarleme > furthestEarleme
      ensures AllPast(toks, currentEarleme)
    {
      hide Running;
      RunningParts(g, toks, sets, links, alternatives, currentEarleme, furthestEarleme, latest);
      QueuePast(toks, alternatives, currentEarleme, furthestEarleme);
    }

    /** The parse is exhausted when no terminal is expected and no token is queued. */
    method CheckExhausted()
      requires Between() && latest == currentEarleme
      modifies this`phase
      ensures NothingExpected() ==> phase == AfterInput
      ensures !NothingExpected() ==> phase == old(phase)
      ensures NothingExpected() ==> AllPast(toks, currentEarleme)
    {
      hide Running, AllPast;
      RunningParts(g, toks, sets, links, alternatives, currentEarleme, furthestEarleme, latest);
      QueuePast(toks, alternatives, currentEarleme, furthestEarleme);
      ListsHere(g, toks, sets, links, alternatives, currentEarleme, furthestEarleme, latest);
      if (forall s :: s in sets[currentEarleme].postdot ==> s !in g.terminals) && alternatives == [] {
        phase := AfterInput;
      }
    }

    /** Nothing can be read at the current earleme and no token ends later. */
    ghost predicate NothingExpected()
      reads this`sets, this`currentEarleme, this`toks
    {
      AllPast(toks, currentEarleme) && forall s :: s in g.terminals ==> Pims(sets, currentEarleme, s) == []
    }

    /** The set at the current earleme: scan, complete, predict, index. */
    method BuildSet()
      requires Entered() && alternatives != [] && alternatives[|alternatives| - 1].tok.to == currentEarleme
      modifies this`workStack, this`completionStack, this`links, this`alternatives, this`sets, this`latest, psar
      ensures Between() && latest == currentEarleme
      ensures EndingAt(toks, currentEarleme) != {} && currentEarleme <= furthestEarleme
      ensures currentEarleme in sets && (forall e :: e in old(sets) ==> e in sets && sets[e] == old(sets)[e])
      ensures forall x: Item :: x.at != currentEarleme ==> LinksOf(links, x) == LinksOf(old(links), x)
    {
      hide *;
      EnteredParts();
      TokenEnds(toks, alternatives, currentEarleme - 1, furthestEarleme);
      RunningParts(g, toks, sets, links, alternatives, currentEarleme - 1, furthestEarleme, latest);
      PastGrammar(g, toks, sets, currentEarleme);
      ScanTokens();
      ghost var work1, links1 := workStack, links;
      BuildingShape(g, toks, sets, currentEarleme, workStack, links, EndingAt(toks, currentEarleme), {});
      InitCompletions();
      RunCompletions(EndingAt(toks, currentEarleme));
      ghost var work2, links2 := workStack, links;
      BuildingShape(g, toks, sets, currentEarleme, workStack, links, EndingAt(toks, currentEarleme), CompletedItems(g, workStack));
      ScanStillClosed(toks, sets, currentEarleme, work1, links1, work2, links2);
      PredictAll();
      SetClosed(g, toks, sets, currentEarleme, work2, workStack);
      var postdot := PostdotItemsCreate();
      RunningSet(g, toks, sets, old(links), links1, links, old(alternatives), alternatives, currentEarleme, furthestEarleme, latest, work1, work2, workStack, postdot);
      StaleFromMemo();
      if usingLeo {
        LimsDueNow(g, sets, currentEarleme, workStack, postdot);
      } else {
        NoLimsNow(sets, currentEarleme, workStack, postdot);
      }
      SetsWhereNext(toks, sets, currentEarleme - 1, EarleySet(workStack, postdot));
      sets := sets[currentEarleme := EarleySet(workStack, postdot)];
      latest := currentEarleme;
      workStack := [];
      BetweenParts();
    }

    lemma {:induction false} EnteredParts()
      requires Entered()
      ensures MemoOk() && workStack == [] && currentEarleme > 0
      ensures Running(g, toks, sets, links, alternatives, currentEarleme - 1, furthestEarleme, latest)
      ensures Queued(toks, alternatives, currentEarleme - 1, furthestEarleme)
      ensures (!usingLeo ==> NoLims(sets)) && (usingLeo ==> LimsDue(g, sets)) && SetsWhereDue(toks, sets, currentEarleme - 1)
    {
    }

    lemma {:induction false} BetweenParts()
      requires MemosReleased() && workStack == []
      requires Running(g, toks, sets, links, alternatives, currentEarleme, furthestEarleme, latest)
      requires (!usingLeo ==> NoLims(sets)) && (usingLeo ==> LimsDue(g, sets)) && SetsWhereDue(toks, sets, currentEarleme)
      ensures Between()
    {
    }

    ghost predicate MemosReleased()
      reads this`currentEarleme, psar
    {
      psar.Valid() && Stale(psar.psls, currentEarleme)
    }

    lemma {:induction false} StaleFromMemo()
      requires MemoOk()
      ensures MemosReleased()
    {
    }
  }
}
