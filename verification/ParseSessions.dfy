/** Whole parses: tokens read and earlemes completed in any order.  What a recognizer answers is
    determined by the tokens accepted so far and the current earleme, by what they derive. */
module ParseSessions {
  import opened Options
  import opened Grammars
  import opened Derivations
  import opened Externals
  import opened Encodings
  import opened Compilations
  import opened EarleySets
  import opened States
  import opened Recognizers
  import opened LeoPaths
  import opened LeoEquivalence
  import opened RulePairs
  import opened CensusMeaning
  import opened CensusTruth
  import opened Languages
  import opened Precomputations
  import opened Parsing

  // ---- What is waited for ----

  /** A rule was begun and its symbols so far derive the tokens up to `e`; symbol `n` comes next. */
  ghost predicate Awaits(g: Grammar, itoks: set<Token>, r: nat, q: nat, i: nat, n: nat, e: nat) {
    Valid(g, itoks, r, q, i, e) && q < |P(g, r)| && P(g, r)[q] == n
  }

  ghost predicate Awaited(g: Grammar, itoks: set<Token>, n: nat, e: nat) {
    exists r: nat, q: nat, i: nat :: Awaits(g, itoks, r, q, i, n, e)
  }

  /** The lists of a set are right about which symbols are awaited there. */
  lemma {:induction false} ListsAwait(g: Grammar, itoks: set<Token>, sets: Sets, cur: nat, n: nat, e: nat)
    requires Past(g, itoks, sets, cur) && e < cur
    ensures Pims(sets, e, n) != [] <==> Awaited(g, itoks, n, e)
  {
    PastGrammar(g, itoks, sets, cur);
    hide Valid, LimsOk;
    assert Exact(g, itoks, sets, e);
    if Pims(sets, e, n) != [] {
      PastPims(g, itoks, sets, cur, e, n);
      var p := Pims(sets, e, n)[0];
      AhmCase(g, p.ahm);
      assert Awaits(g, itoks, g.ahms[p.ahm].irl, g.ahms[p.ahm].quasi, p.origin, n, e);
    }
    if r: nat, q: nat, i: nat :| Awaits(g, itoks, r, q, i, n, e) {
      AhmIs(g, r, q);
      AhmCase(g, AhmOf(g, r, q));
      assert PresentIn(g, sets, sets[e].items, r, q, i, e);
      assert Item(AhmOf(g, r, q), i, e) in sets[e].items;
      assert PimsOk(g, sets[e].items, sets[e].postdot);
    }
  }

  /** Terminal `s` has an internal symbol, and over these tokens it is awaited at `e`. */
  ghost predicate Expected(k: Compiled, toks: set<Token>, s: nat, e: nat) {
    && s in k.x.terminals && s in k.c.known && s in k.nsyOf
    && exists itoks :: TokensAre(k, toks, itoks) && Awaited(k.g, itoks, k.nsyOf[s], e)
  }

  // ---- The abstract machine ----

  datatype Call = Read(symbol: int, value: int, length: int) | Forward

  datatype Answer = Reading(r: ReadResult) | Completing(c: CompleteResult)

  /** What a parse is about: its phase, the earleme it has reached, and the tokens accepted. */
  datatype Input = Input(phase: Phase, now: nat, toks: set<Token>)

  ghost predicate EndsAt(toks: set<Token>, e: nat) {
    exists t :: t in toks && t.to == e
  }

  /** The input ends with the step from `now`: all tokens have ended, or tokens end there, none
      later, and no terminal is expected. */
  ghost predicate Ends(k: Compiled, toks: set<Token>, now: nat) {
    AllPast(toks, now) || (EndsAt(toks, now + 1) && AllPast(toks, now + 1) && NoneExpected(k, toks, now + 1))
  }

  ghost predicate NoneExpected(k: Compiled, toks: set<Token>, e: nat) {
    forall s: nat :: !Expected(k, toks, s, e)
  }

  /** What reading a token answers. */
  ghost predicate ReadFits(k: Compiled, s: Input, symbol: int, value: int, length: int, r: ReadResult) {
    if s.phase != DuringInput then r == NotAcceptingInput
    else if !(0 <= symbol < k.x.xsyCount) then r == InvalidSymbolId
    else if length <= 0 then r == TokenLengthLeZero
    else if length >= JEARLEME_THRESHOLD then r == TokenTooLong
    else if symbol !in k.x.terminals then r == TokenIsNotTerminal
    else if value == 0 then r == SymbolValuedConflict
    else if symbol !in k.c.known then r == InaccessibleToken
    else if !Expected(k, s.toks, symbol, s.now) then r == if s.now == 0 || EndsAt(s.toks, s.now) then UnexpectedTokenId else NoTokenExpectedHere
    else if s.now + length >= JEARLEME_THRESHOLD then r == ParseTooLong
    else if Token(symbol, s.now, s.now + length) in s.toks then r == DuplicateToken
    else r == Accepted
  }

  /** What completing an earleme answers. */
  ghost predicate ForwardFits(s: Input, c: CompleteResult) {
    if s.phase != DuringInput then c == NotDuringInput
    else if AllPast(s.toks, s.now) then c == ParseExhausted
    else if EndsAt(s.toks, s.now + 1) then c == SetCompleted
    else c == NoSet
  }

  ghost predicate Fits(k: Compiled, s: Input, call: Call, a: Answer) {
    match call
    case Read(symbol, value, length) => a.Reading? && ReadFits(k, s, symbol, value, length, a.r)
    case Forward => a.Completing? && ForwardFits(s, a.c)
  }

  ghost function Stepped(k: Compiled, s: Input, call: Call, a: Answer): Input {
    match call
    case Read(symbol, _, length) =>
      if a == Reading(Accepted) && symbol >= 0 && s.now + length >= 0 then s.(toks := s.toks + {Token(symbol, s.now, s.now + length)}) else s
    case Forward =>
      if s.phase != DuringInput then s
      else Input(if Ends(k, s.toks, s.now) then AfterInput else DuringInput, s.now + 1, s.toks)
  }

  /** The state after calls with the given answers. */
  ghost function After(k: Compiled, s: Input, calls: seq<Call>, out: seq<Answer>): Input
    requires |out| == |calls|
  {
    if calls == [] then s
    else Stepped(k, After(k, s, calls[..|calls| - 1], out[..|calls| - 1]), calls[|calls| - 1], out[|calls| - 1])
  }

  ghost function Now(r: Recognizer, k: Compiled): Input
    reads r
  {
    Input(r.phase, r.currentEarleme, ExternalTokens(k, r.toks))
  }

  // ---- Internal and external tokens ----

  lemma {:induction false} OneReading(k: Compiled, toks: set<Token>, itoks: set<Token>, itoks': set<Token>)
    requires TokensAre(k, toks, itoks) && TokensAre(k, toks, itoks')
    ensures itoks == itoks'
  {
  }

  /** What the recognizer's lists say is what is expected over the external tokens. */
  lemma {:induction false} ListsExpect(r: Recognizer, k: Compiled, f: Findings, s: nat)
    requires RunsOn(r, k, f) && r.Valid() && r.phase != BeforeInput && s in k.x.terminals && s in k.c.known
    ensures s in k.nsyOf && s < k.x.xsyCount
    ensures Expected(k, ExternalTokens(k, r.toks), s, r.currentEarleme) <==> Pims(r.sets, r.currentEarleme, k.nsyOf[s]) != []
  {
    hide *;
    KnownHere(r, k, f, s);
    TokensRead(r, k, f);
    r.SettledSets();
    RunsParts(r, k, f);
    ListsAwait(r.g, r.toks, r.sets, r.currentEarleme + 1, k.nsyOf[s], r.currentEarleme);
    ExpectedIs(k, ExternalTokens(k, r.toks), r.toks, s, r.currentEarleme);
  }

  lemma {:induction false} RunsParts(r: Recognizer, k: Compiled, f: Findings)
    requires RunsOn(r, k, f)
    ensures CompiledWith(k, f) && OnlyKnown(k) && TerminalsAre(k) && r.g == k.g && TableIs(r.symbols, k)
  {
    hide CompiledWith, OnlyKnown, TerminalsAre, TableIs, TablesBuilt;
  }

  lemma {:induction false} KnownHere(r: Recognizer, k: Compiled, f: Findings, s: nat)
    requires RunsOn(r, k, f) && s in k.x.terminals
    ensures s < k.x.xsyCount && (s in k.c.known <==> s in k.nsyOf)
    ensures s < |r.symbols| && r.symbols[s].terminal && (r.symbols[s].nsy == if s in k.nsyOf then Some(k.nsyOf[s]) else None)
  {
    CompiledParts(k, f);
    hide CompiledWith, Taken, Rewrote, TablesBuilt, TerminalsAre;
    assert EntryIs(r.symbols[s], k, s);
  }

  lemma {:induction false} ExpectedIs(k: Compiled, toks: set<Token>, itoks: set<Token>, s: nat, e: nat)
    requires TokensAre(k, toks, itoks) && s in k.x.terminals && s in k.c.known && s in k.nsyOf
    ensures Expected(k, toks, s, e) <==> Awaited(k.g, itoks, k.nsyOf[s], e)
  {
    hide Awaited, TokensAre;
    forall other | TokensAre(k, toks, other)
      ensures other == itoks
    {
      OneReading(k, toks, itoks, other);
    }
  }

  /** Tokens end where their external tokens end. */
  lemma {:induction false} SameEnds(k: Compiled, toks: set<Token>, itoks: set<Token>, e: nat)
    requires TokensAre(k, toks, itoks) && toks == ExternalTokens(k, itoks)
    ensures AllPast(toks, e) <==> AllPast(itoks, e)
    ensures EndsAt(toks, e) <==> EndingAt(itoks, e) != {}
  {
    forall t | t in itoks
      ensures Token(k.nsys[t.sym].xsy, t.from, t.to) in toks
    {
    }
    hide TokensAre;
    if AllPast(toks, e) {
      forall t | t in itoks
        ensures t.to <= e
      {
        assert Token(k.nsys[t.sym].xsy, t.from, t.to).to <= e;
      }
    }
    if EndsAt(toks, e) {
      var t :| t in toks && t.to == e;
      var u :| u in itoks && u.to == t.to;
      assert u in EndingAt(itoks, e);
    }
    if u :| u in EndingAt(itoks, e) {
      assert Token(k.nsys[u.sym].xsy, u.from, u.to) in toks;
    }
  }

  // ---- Every call ----

  /** What a reading answers depends on, said of the external tokens. */
  lemma {:induction false} ReadFacts(r: Recognizer, k: Compiled, f: Findings, s: int)
    requires RunsOn(r, k, f) && r.Valid() && r.phase != BeforeInput
    ensures r.currentEarleme in r.sets <==> r.currentEarleme == 0 || EndsAt(ExternalTokens(k, r.toks), r.currentEarleme)
    ensures |r.symbols| == k.x.xsyCount && (s in k.x.terminals ==> 0 <= s < k.x.xsyCount)
    ensures 0 <= s < k.x.xsyCount ==> (r.symbols[s].terminal <==> s in k.x.terminals)
    ensures s in k.x.terminals ==> (r.symbols[s].nsy.Some? <==> s in k.c.known)
    ensures s in k.x.terminals && s in k.c.known ==>
              var n := r.symbols[s].nsy.value;
              && (Expected(k, ExternalTokens(k, r.toks), s, r.currentEarleme) <==> Pims(r.sets, r.currentEarleme, n) != [])
              && (forall i: nat, j: nat :: Token(n, i, j) in r.toks <==> Token(s, i, j) in ExternalTokens(k, r.toks))
              && (forall i: nat, j: nat :: ExternalTokens(k, r.toks + {Token(n, i, j)}) == ExternalTokens(k, r.toks) + {Token(s, i, j)})
  {
    hide *;
    RunsParts(r, k, f);
    TokensRead(r, k, f);
    r.SetIsHere();
    SameEnds(k, ExternalTokens(k, r.toks), r.toks, r.currentEarleme);
    TableSize(r.symbols, k, s);
    if s in k.x.terminals {
      KnownHere(r, k, f, s);
      if s in k.c.known {
        ListsExpect(r, k, f, s);
        TerminalWhole(k, f, s);
        forall i: nat, j: nat
          ensures Token(k.nsyOf[s], i, j) in r.toks <==> Token(s, i, j) in ExternalTokens(k, r.toks)
          ensures ExternalTokens(k, r.toks + {Token(k.nsyOf[s], i, j)}) == ExternalTokens(k, r.toks) + {Token(s, i, j)}
        {
          SameToken(k, ExternalTokens(k, r.toks), r.toks, s, i, j);
          TokenRead(k, f, r.toks, s, i, j);
        }
      }
    }
  }

  lemma {:induction false} TableSize(symbols: seq<Xsy>, k: Compiled, s: int)
    requires TableIs(symbols, k)
    ensures |symbols| == k.x.xsyCount && (0 <= s < k.x.xsyCount ==> (symbols[s].terminal <==> s in k.x.terminals))
  {
    if 0 <= s < k.x.xsyCount {
      assert EntryIs(symbols[s], k, s);
    }
  }

  lemma {:induction false} SameToken(k: Compiled, toks: set<Token>, itoks: set<Token>, s: nat, i: nat, j: nat)
    requires TokensAre(k, toks, itoks) && s in k.x.terminals && s in k.nsyOf && Means(k.nsys, k.nsyOf[s], Whole(s))
    ensures Token(k.nsyOf[s], i, j) in itoks <==> Token(s, i, j) in toks
  {
  }

  /** What ends the input, said of the external tokens. */
  lemma {:induction false} ForwardFacts(r: Recognizer, k: Compiled, f: Findings)
    requires RunsOn(r, k, f) && r.Valid() && r.phase != BeforeInput
    ensures var toks := ExternalTokens(k, r.toks);
            && (r.NothingExpected() <==> AllPast(toks, r.currentEarleme) && NoneExpected(k, toks, r.currentEarleme))
            && (forall e: nat :: AllPast(toks, e) <==> AllPast(r.toks, e))
            && (forall e: nat :: EndsAt(toks, e) <==> EndingAt(r.toks, e) != {})
  {
    hide *;
    RunsParts(r, k, f);
    TokensRead(r, k, f);
    forall e: nat
      ensures AllPast(ExternalTokens(k, r.toks), e) <==> AllPast(r.toks, e)
      ensures EndsAt(ExternalTokens(k, r.toks), e) <==> EndingAt(r.toks, e) != {}
    {
      SameEnds(k, ExternalTokens(k, r.toks), r.toks, e);
    }
    forall s: nat | s in k.x.terminals && s in k.c.known
      ensures s in k.nsyOf
      ensures Expected(k, ExternalTokens(k, r.toks), s, r.currentEarleme) <==> Pims(r.sets, r.currentEarleme, k.nsyOf[s]) != []
    {
      ListsExpect(r, k, f, s);
    }
    NoneHere(r, k);
  }

  lemma {:induction false} NoneHere(r: Recognizer, k: Compiled)
    requires OnlyKnown(k) && TerminalsAre(k) && r.g == k.g
    requires forall s: nat :: s in k.x.terminals && s in k.c.known ==>
               s in k.nsyOf && (Expected(k, ExternalTokens(k, r.toks), s, r.currentEarleme) <==> Pims(r.sets, r.currentEarleme, k.nsyOf[s]) != [])
    ensures r.NothingExpected() <==> AllPast(r.toks, r.currentEarleme) && NoneExpected(k, ExternalTokens(k, r.toks), r.currentEarleme)
  {
    hide AllPast, Pims, ExternalTokens, Awaited, TokensAre;
    var toks, e := ExternalTokens(k, r.toks), r.currentEarleme;
    if NoneExpected(k, toks, e) {
      forall n | n in k.g.terminals
        ensures Pims(r.sets, e, n) == []
      {
        assert OfTerminal(k.x, k.nsyOf, n);
        var s: nat :| s in k.x.terminals && s in k.nsyOf && k.nsyOf[s] == n;
        assert !Expected(k, toks, s, e);
      }
    }
    if r.NothingExpected() {
      forall s: nat
        ensures !Expected(k, toks, s, e)
      {
        if s in k.x.terminals && s in k.c.known {
          assert OfTerminal(k.x, k.nsyOf, k.nsyOf[s]);
        }
      }
    }
  }

  method PerformRead(r: Recognizer, ghost k: Compiled, ghost f: Findings, symbol: int, value: int, length: int) returns (x: ReadResult)
    requires RunsOn(r, k, f) && r.Valid() && r.phase != BeforeInput
    modifies r, r.psar
    ensures RunsOn(r, k, f) && r.Valid() && r.phase != BeforeInput
    ensures ReadFits(k, old(Now(r, k)), symbol, value, length, x)
    ensures Now(r, k) == Stepped(k, old(Now(r, k)), Read(symbol, value, length), Reading(x))
  {
    hide Recognizer.Valid, RunsOn, ExternalTokens, Expected, Pims, EndsAt;
    ReadFacts(r, k, f, symbol);
    x := r.ReadAlternative(symbol, value, length);
  }

  method PerformForward(r: Recognizer, ghost k: Compiled, ghost f: Findings) returns (c: CompleteResult)
    requires RunsOn(r, k, f) && r.Valid() && r.phase != BeforeInput
    modifies r, r.psar
    ensures RunsOn(r, k, f) && r.Valid() && r.phase != BeforeInput
    ensures ForwardFits(old(Now(r, k)), c) && Now(r, k) == Stepped(k, old(Now(r, k)), Forward, Completing(c))
  {
    hide Recognizer.Valid, Recognizer.NothingExpected, RunsOn, ExternalTokens, NoneExpected, EndsAt, AllPast, EndingAt;
    c := r.EarlemeComplete();
    ForwardFacts(r, k, f);
  }

  method Perform(r: Recognizer, ghost k: Compiled, ghost f: Findings, call: Call) returns (a: Answer)
    requires RunsOn(r, k, f) && r.Valid() && r.phase != BeforeInput
    modifies r, r.psar
    ensures RunsOn(r, k, f) && r.Valid() && r.phase != BeforeInput
    ensures Fits(k, old(Now(r, k)), call, a) && Now(r, k) == Stepped(k, old(Now(r, k)), call, a)
  {
    hide Recognizer.Valid, RunsOn, Stepped, ReadFits, ForwardFits, Now;
    match call
    case Read(symbol, value, length) =>
      var x := PerformRead(r, k, f, symbol, value, length);
      a := Reading(x);
    case Forward =>
      var c := PerformForward(r, k, f);
      a := Completing(c);
  }

  // ---- Runs ----

  /** Every answer of a run is what the tokens and the earleme at that point say. */
  ghost predicate RunFits(k: Compiled, s: Input, calls: seq<Call>, out: seq<Answer>) {
    |out| == |calls| && forall n: nat :: n < |calls| ==> Fits(k, After(k, s, calls[..n], out[..n]), calls[n], out[n])
  }

  /** Any mixture of calls answers as the tokens accepted and the earleme reached say. */
  method Interleave(r: Recognizer, ghost k: Compiled, ghost f: Findings, calls: seq<Call>) returns (out: seq<Answer>)
    requires RunsOn(r, k, f) && r.Valid() && r.phase != BeforeInput
    modifies r, r.psar
    ensures RunsOn(r, k, f) && r.Valid() && r.phase != BeforeInput
    ensures RunFits(k, old(Now(r, k)), calls, out) && Now(r, k) == After(k, old(Now(r, k)), calls, out)
  {
    hide Fits, Stepped, Now, Recognizer.Valid, RunsOn;
    ghost var s := Now(r, k);
    out := [];
    while |out| < |calls|
      invariant |out| <= |calls| && RunsOn(r, k, f) && r.Valid() && r.phase != BeforeInput
      invariant Now(r, k) == After(k, s, calls[..|out|], out) && RunFits(k, s, calls[..|out|], out)
    {
      var n := |out|;
      var a := Perform(r, k, f, calls[n]);
      RunNext(k, s, calls, out, a);
      out := out + [a];
    }
    assert calls[..|calls|] == calls;
  }

  lemma {:induction false} RunNext(k: Compiled, s: Input, calls: seq<Call>, out: seq<Answer>, a: Answer)
    requires |out| < |calls| && RunFits(k, s, calls[..|out|], out) && Fits(k, After(k, s, calls[..|out|], out), calls[|out|], a)
    ensures RunFits(k, s, calls[..|out| + 1], out + [a])
    ensures After(k, s, calls[..|out| + 1], out + [a]) == Stepped(k, After(k, s, calls[..|out|], out), calls[|out|], a)
  {
    hide Fits, Stepped;
    var more, m := calls[..|out| + 1], |out|;
    assert more[..m] == calls[..m] && (out + [a])[..m] == out;
    forall n: nat | n < m
      ensures more[..n] == calls[..m][..n] && (out + [a])[..n] == out[..n]
    {
    }
  }

  /** A whole parse of a grammar: what the calls answer, and at every earleme reached, acceptance
      exactly when the start symbol derives the tokens that were accepted up to there. */
  method Parse(x: External, events: set<nat>, useLeo: bool, calls: seq<Call>) returns (r: Option<Recognizer>, out: seq<Answer>, ghost k: Compiled, ghost f: Findings)
    requires GrammarGiven(x) && PairsFit(x)
    ensures r.Some? <==> Acceptable(x)
    ensures r.Some? ==> RunsOn(r.value, k, f) && k.x == x && r.value.Valid()
    ensures r.Some? ==> RunFits(k, Input(DuringInput, 0, {}), calls, out) && Now(r.value, k) == After(k, Input(DuringInput, 0, {}), calls, out)
    ensures r.Some? && SeparatorsHarmless(x, f) ==> forall j: nat :: j <= Now(r.value, k).now ==>
              (Stored(r.value.sets, Item(AhmOf(k.g, k.g.startIrl, 1), 0, j)) <==> 0 < j && XDerives(x, Now(r.value, k).toks, x.start, 0, j))
  {
    hide Recognizer.Valid, RunsOn, SeparatorsHarmless, Acceptable, Stored, XDerives, RunFits, After;
    var status;
    status, r, k, f := NewRecognizer(x, events, useLeo);
    out := [];
    if r.Some? {
      var ok := r.value.StartInput();
      assert ExternalTokens(k, {}) == {};
      out := Interleave(r.value, k, f, calls);
      if SeparatorsHarmless(x, f) {
        forall j: nat | j <= r.value.currentEarleme
          ensures Stored(r.value.sets, Item(AhmOf(k.g, k.g.startIrl, 1), 0, j)) <==> 0 < j && XDerives(x, ExternalTokens(k, r.value.toks), x.start, 0, j)
        {
          Recognizes(r.value, k, f, j);
        }
      }
    }
  }

  /** The input goes on while some accepted token ends later. */
  lemma {:induction false} InputGoesOn(k: Compiled, calls: seq<Call>, out: seq<Answer>)
    requires RunFits(k, Input(DuringInput, 0, {}), calls, out)
    ensures var s := After(k, Input(DuringInput, 0, {}), calls, out); s.phase == AfterInput ==> AllPast(s.toks, s.now)
    decreases |calls|
  {
    if calls != [] {
      var n := |calls| - 1;
      RunInit(k, Input(DuringInput, 0, {}), calls, out);
      InputGoesOn(k, calls[..n], out[..n]);
      var s := After(k, Input(DuringInput, 0, {}), calls[..n], out[..n]);
      hide RunFits, NoneExpected, Expected;
      if Ends(k, s.toks, s.now) {
        EndsPast(k, s.toks, s.now);
      }
    }
  }

  lemma {:induction false} EndsPast(k: Compiled, toks: set<Token>, now: nat)
    requires Ends(k, toks, now)
    ensures AllPast(toks, now + 1)
  {
  }

  lemma {:induction false} RunInit(k: Compiled, s: Input, calls: seq<Call>, out: seq<Answer>)
    requires RunFits(k, s, calls, out) && calls != []
    ensures var n := |calls| - 1;
            && RunFits(k, s, calls[..n], out[..n]) && Fits(k, After(k, s, calls[..n], out[..n]), calls[n], out[n])
            && After(k, s, calls, out) == Stepped(k, After(k, s, calls[..n], out[..n]), calls[n], out[n])
  {
    hide Fits, Stepped;
    var n := |calls| - 1;
    forall m: nat | m < n
      ensures calls[..n][..m] == calls[..m] && out[..n][..m] == out[..m]
    {
    }
  }

  ghost function Forwards(calls: seq<Call>): nat {
    if calls == [] then 0 else Forwards(calls[..|calls| - 1]) + if calls[|calls| - 1].Forward? then 1 else 0
  }

  /** So the end of every accepted token is reached: each completed earleme is one step towards
      it whatever is read in between, and the step that arrives there makes a set. */
  lemma {:induction false} EndReached(k: Compiled, s: Input, calls: seq<Call>, out: seq<Answer>, t: Token)
    requires RunFits(k, s, calls, out) && s.phase == DuringInput && t in s.toks && s.now < t.to && s.now + Forwards(calls) <= t.to
    ensures var s' := After(k, s, calls, out);
            && s'.now == s.now + Forwards(calls) && t in s'.toks && (s'.now < t.to ==> s'.phase == DuringInput)
            && (calls != [] && calls[|calls| - 1].Forward? && s'.now == t.to ==> out[|calls| - 1] == Completing(SetCompleted))
    decreases |calls|
  {
    if calls != [] {
      var n := |calls| - 1;
      RunInit(k, s, calls, out);
      EndReached(k, s, calls[..n], out[..n], t);
      hide RunFits, NoneExpected, Expected;
      var s' := After(k, s, calls[..n], out[..n]);
      if Ends(k, s'.toks, s'.now) {
        EndsPast(k, s'.toks, s'.now);
      }
    }
  }
}
