/** Leo items change which completions are stored, and nothing else: the same parse
    with and without them has the same incomplete items and accepts alike. */
module LeoEquivalence {
  import opened Options
  import opened Grammars
  import opened Derivations
  import opened EarleySets
  import opened Soundness
  import opened States
  import opened Recognizers
  import opened LeoPaths

  /** A recognizer between calls has finished every set up to its current earleme. */
  lemma {:induction false} AllFinished(r: Recognizer, j: nat)
    requires r.Valid() && r.phase != BeforeInput && j <= r.currentEarleme
    ensures SetFinished(r.g, r.toks, r.sets, r.currentEarleme + 1, j)
  {
    hide Exact, PimsOk, LimsOk, GrammarOk, ScanClosed, CompleteClosed;
    if j in r.sets {
      assert Recorded(r.g, r.toks, r.sets, r.links, j);
    }
  }

  /** Two recognizers for one grammar that have read the same tokens, one of them
      without Leo items: same incomplete items, same expectations, same acceptance;
      the completions that the other lacks are on the paths of Leo items it used. */
  lemma {:induction false} LeoChangesNothing(on: Recognizer, off: Recognizer, x: Item)
    requires on.Valid() && off.Valid() && on.phase != BeforeInput && off.phase != BeforeInput
    requires on.g == off.g && on.toks == off.toks && on.currentEarleme == off.currentEarleme && !off.usingLeo
    requires x.at <= on.currentEarleme
    ensures !Complete(on.g, x.ahm) ==> (Stored(on.sets, x) <==> Stored(off.sets, x))
    ensures Stored(on.sets, x) ==> Stored(off.sets, x)
    ensures Stored(off.sets, x) && !Stored(on.sets, x) ==> Complete(on.g, x.ahm) && OnSomePath(on.g, on.sets, x)
    ensures forall s :: Pims(on.sets, x.at, s) == [] <==> Pims(off.sets, x.at, s) == []
  {
    hide SetFinished, OnSomePath, Stored, Running, GrammarOk;
    AllFinished(on, x.at);
    AllFinished(off, x.at);
    assert NoLims(off.sets);
    SameSets(on.g, on.toks, on.sets, off.sets, on.currentEarleme + 1, x);
  }

  /** Without Leo items every set is exactly the valid items. */
  lemma {:induction false} EarleyExact(r: Recognizer, x: Item)
    requires r.Valid() && r.phase != BeforeInput && !r.usingLeo && x.at <= r.currentEarleme
    ensures Stored(r.sets, x) <==> ItemOk(r.g, r.toks, x)
  {
    AllFinished(r, x.at);
    FinishedExact(r.g, r.toks, r.sets, r.currentEarleme + 1, x.at);
    assert NoLims(r.sets);
    hide SetFinished, ItemOk, Exact;
    NoLeoExact(r.g, r.toks, r.sets, x.at, x);
  }

  /** The parse is accepted at `j` exactly when the start symbol derives the tokens
      from 0 to `j`, Leo items or not. */
  lemma {:induction false} Acceptance(r: Recognizer, j: nat)
    requires r.Valid() && r.phase != BeforeInput && j <= r.currentEarleme && |P(r.g, r.g.startIrl)| == 1
    ensures Stored(r.sets, Item(AhmOf(r.g, r.g.startIrl, 1), 0, j))
            <==> Derives(r.g, r.toks, P(r.g, r.g.startIrl)[0], 0, j)
  {
    AllFinished(r, j);
    FinishedExact(r.g, r.toks, r.sets, r.currentEarleme + 1, j);
    assert forall s :: LimAt(r.sets, 0, s).None?;
    hide SetFinished, ItemOk, Exact, Derives, GrammarOk;
    Accepts(r.g, r.toks, r.sets, j);
  }
}
