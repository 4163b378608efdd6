# A verified model of the Marpa parse engine

Libmarpa parses with Earley's algorithm over a lattice of tokens.  This project models its
engine and the two tree libraries it carries, and proves what they are for.

- **Precomputation.**  The census of symbols and rules (`Censuses`), with the index of rules by
  symbol read out of an AVL tree (`RulePairs`) and the closures over it (`RhsClosures`,
  `Closures`, `BitVectors`, `Words`).  The rewrite of rules with nullable symbols into pieces that
  are never empty, and of sequences into left-recursive rules (`Pieces`, `Rewriters`).  The tables
  of dotted rules, predictions, right recursion and event groups (`Tables`, `LeoEvents`,
  `GrammarTables`).  `Precomputations` composes them.
- **What the rewrite means.**  External derivations (`Externals`), internal ones (`Derivations`),
  and that they are the same (`RewriteMeaning`, `RewriteComplete`, `Chains`, `RewriteShape`,
  `CensusTruth`, `Languages`), with the grammars for which they are not (`LostSequences`).
- **The recognizer.**  A class whose methods start the input, read tokens and complete earlemes
  (`Recognizers`), over the memo of items (`Psars`), the queue of tokens (`TokenQueue`), the links
  of items (`Sources`) and the Leo items (`LeoItems`, `EventLists`).  `EarleySets`, `SetBuilding`,
  `Predictions`, `PostdotSets`, `States` and `StartSets` say what each step keeps;
  `LeoEquivalence`, `LeoPaths` and `LeoPredecessors` what that means for parses with and without
  Leo items.
- **Parses.**  `Parsing` composes precomputation and the recognizer.  `ParseSessions` has any
  mixture of calls and an abstract machine over external tokens that answers alike; `Viability`
  says what that machine expects: exactly the terminals with which a sentence can go on.
- **Values.**  The iterator over the trees of an and/or graph (`Bocages`, `TreeSearch`,
  `TreeOrder`, `TreeMoves`, `TreeIterators`) and the valuator that turns a tree into steps over a
  stack (`Valuations`, `Valuators`, `TreeValues`), with what a value is made of (`ValueParts`).
- **Trees.**  The AVL tree with its traverser (`Avl...`) and the threaded AVL tree with deletion
  (`Tavl...`).  Nodes live in a sequence; a pointer is an index, -1 the null pointer.  Each table
  carries the tree it represents as a ghost value, and the threaded trees use the order, height
  and insertion facts of the others.

What the source updates in place is a class here: recognizer, memo, rewriter, bit vector, matrix,
tree iterator, valuator, tables and traversers.  Loops stay loops.  What a method computes is
specified by functions and predicates over values, and the theorems are about those.

Every lemma turns automatic induction off; where a proof is by induction, the recursive call is
written out.

Taken from the source as given: all symbols are force-valued (`src/marpaWrapper.c:235`), the
minimum of a sequence is 0 or 1, the left-hand side of a sequence has no other rule, symbol and
rule numbers fit their machine words, and no set reaches the fatal number of items.  The dotted
rules that have events are a parameter.

## Model

| member | source | states |
|---|---|---|
| `Parsing.Recognizes` | libmarpa-dist/marpa.c:11395-12186 | Any recognizer for the compiled grammar, at any time, with or without Leo items: the completed start rule is at earleme `j` if and only if the external start symbol derives the tokens read from 0 to `j`, at least one; for every grammar whose dropped sequences add nothing. |
| `Parsing.NewRecognizer` | libmarpa-dist/marpa.c:6690-9343 | Precomputation and the recognizer together: there is a recognizer exactly when the grammar is acceptable; it has an entry for every external symbol, a terminal exactly if that is one, with its internal symbol exactly if the census knows it; the internal terminals are those of the external ones; and it meets all that `Recognizes` asks. |
| `Parsing.TokenRead` | libmarpa-dist/marpa.c:11655-11798 | Reading one more internal token adds exactly the external token of its symbol to those of the application. |
| `Viability.ExpectedExact` | libmarpa-dist/marpa.c:11655-12186 | A terminal is expected at an earleme if and only if the parse can go on with it: the tokens accepted up to there, one of this terminal, and some tokens after it are derived from the start symbol. |
| `Viability.AcceptedGoesOn` | libmarpa-dist/marpa.c:11655-11798 | So a token is accepted if and only if the input is not over, the token is new, its terminal goes on, it has a value, and the lengths are in range. |
| `Viability.EndsWhenStuck` | libmarpa-dist/marpa.c:11866-12165 | And the input ends with an earleme if and only if all tokens have ended, or a set is made there, no token ends later, and no terminal goes on. |
| `Viability.RouteUp` | libmarpa-dist/marpa.c:11655-12186 | By induction on how a rule came to be predicted: what was begun, and whose next symbol is there, can be completed up to the start symbol by tokens that come later. |
| `Viability.TreeAwaits` | libmarpa-dist/marpa.c:11655-12186 | By induction on trees: a derivation that goes past an earleme takes a token there whose symbol is awaited. |
| `ParseSessions.Parse` | libmarpa-dist/marpa.c:6690-12186 | A whole parse from the external grammar: any mixture of readings and completed earlemes answers, call by call, as an abstract machine does whose state is the phase, the earleme and the accepted external tokens; acceptance at every earleme is derivation from those tokens. |
| `ParseSessions.Interleave` | libmarpa-dist/marpa.c:11655-12186 | The same from any state of a recognizer on. |
| `ParseSessions.ListsAwait` | libmarpa-dist/marpa.c:12395-12425 | A set has a list for a symbol if and only if some rule was begun whose symbols so far derive the tokens up to there and which has that symbol next. |
| `ParseSessions.InputGoesOn` | libmarpa-dist/marpa.c:11866-12165 | Over every run: the input is not over while an accepted token ends later. |
| `ParseSessions.EndReached` | libmarpa-dist/marpa.c:11866-12186 | Over every run: each completed earleme is one step towards the end of every accepted token, and the step that arrives there makes a set. |
| `Precomputations.Precompute` | libmarpa-dist/marpa.c:6690-9343 | Refused exactly when a sequence counts what can be empty, the start symbol derives nothing anywhere, or the start symbol or a terminal has rules that reach no terminal; otherwise all tables are right, a symbol is an internal terminal exactly if it is that of some external terminal, and the language is kept exactly when the dropped sequences add nothing. |
| `Languages.LanguageExact` | libmarpa-dist/marpa.c:6829-8592 | Every known symbol's internal symbol derives exactly its non-empty token strings, for all symbols and tokens, if and only if every sequence dropped for its separator derives nothing but tokens of its own left-hand side; where no such left-hand side is a terminal, if and only if none is dropped. |
| `LostSequences.SeparatorLoses` | libmarpa-dist/marpa.c:7165-7265 | A grammar, its census and its compiled form for which a string is lost: a list with a separator that derives nothing derives its single item, its internal symbol does not. |
| `RewriteComplete.SameLanguage` | libmarpa-dist/marpa.c:7541-8592 | With a true census, the internal symbol of every known symbol that is not always empty derives exactly the non-empty strings of that symbol. |
| `RewriteMeaning.TreeSound` | libmarpa-dist/marpa.c:7566-8592 | Soundness of the rewrite, by induction on internal trees: what an internal symbol derives, what it stands for derives. |
| `RewriteMeaning.PieceMeans` | libmarpa-dist/marpa.c:7716-8540 | A piece derives what the symbols it covers and then the rest of its rule derive. |
| `RewriteMeaning.SequenceMeans` | libmarpa-dist/marpa.c:7579-7688 | The rules made for a sequence derive only items with separators between them, and a last separator only where separation is not proper. |
| `RewriteComplete.TreeComplete` | libmarpa-dist/marpa.c:7566-8592 | Completeness of the rewrite, by induction on external trees. |
| `Chains.RuleChain` | libmarpa-dist/marpa.c:7690-8540 | Every choice of which symbols of a rule are empty, but for all of them, is made by exactly one chain of pieces, and the chain covers every symbol once. |
| `Chains.OneChain` | libmarpa-dist/marpa.c:7716-8540 | The same from every place where a piece may begin. |
| `Pieces.SplitExact` | libmarpa-dist/marpa.c:7716-8540 | The pieces for one factor match each admissible choice exactly once. |
| `Pieces.PairExact` | libmarpa-dist/marpa.c:7716-8540 | The pieces for two factors match each admissible choice exactly once. |
| `Rewriters.Rewriter.FindFactors` | libmarpa-dist/marpa.c:7690-7715 | The factors are the positions of symbols that can be empty but need not be, and the suffix begins after the last symbol that cannot. |
| `Rewriters.Rewriter.RewriteChaf` | libmarpa-dist/marpa.c:7716-8540 | Cutting one rule leaves the tables right and every choice of its empty symbols provided for exactly once. |
| `Rewriters.Rewriter.RewriteSequence` | libmarpa-dist/marpa.c:7579-7688 | The rules of a sequence are all there and well formed, and no rule is made twice. |
| `Rewriters.Rewriter.Rewrite` | libmarpa-dist/marpa.c:7541-8592 | Every used rule is provided for, no rule is made twice, the start rule comes last, and exactly the known symbols have internal ones. |
| `RewriteShape.RuleCounts` | libmarpa-dist/marpa.c:7566-8592 | In every internal rule at most one symbol is virtual and the real symbols are counted, as the valuator needs. |
| `RewriteComplete.NoRuleEmpty` | libmarpa-dist/marpa.c:7716-8592 | Every internal rule has a symbol that is not nulling. |
| `Censuses.TakeCensus` | libmarpa-dist/marpa.c:6829-7265 | Each answer if and only if its reason, in terms of derivations; on acceptance the census is the least one of each kind. |
| `CensusTruth.CensusExact` | libmarpa-dist/marpa.c:7034-7265 | The census is fit for the rewrite, and true of derivations if and only if every dropped sequence adds nothing. |
| `CensusTruth.CensusMeans` | libmarpa-dist/marpa.c:7034-7265 | What the rewrite is told, in terms of derivations: the symbols it knows are those mentioned on a way from the start symbol that derive something or nothing; nulling are the barren ones that derive nothing; nullable all that do. |
| `CensusTruth.NullableTrue` | libmarpa-dist/marpa.c:7034-7059 | The symbols found nullable are exactly those that derive the empty string. |
| `CensusTruth.ProductiveTrue` | libmarpa-dist/marpa.c:7064-7090 | The symbols found productive are exactly those that derive something or nothing over some tokens. |
| `CensusTruth.BarrenTrue` | libmarpa-dist/marpa.c:7120-7160 | The symbols marked nulling are exactly those with rules that lead to no terminal. |
| `CensusMeaning.NothingIsNullable` | libmarpa-dist/marpa.c:7034-7059 | By induction on trees: a symbol that derives nothing is in the closure. |
| `CensusMeaning.DerivedIsProductive` | libmarpa-dist/marpa.c:7064-7090 | By induction on trees: a symbol that derives anything is in the closure. |
| `RulePairs.SortedPairs` | libmarpa-dist/marpa.c:6836-6926 | The pairs of a symbol and a rule that mentions it, each once and in order, read from an AVL tree by its traverser. |
| `RhsClosures.BuildIndex` | libmarpa-dist/marpa.c:6904-6926 | The offsets list for every symbol exactly the rules that mention it. |
| `RhsClosures.RhsClosure` | libmarpa-dist/marpa.c:17908-17978 | The least superset closed under rules, on a stack that never needs more room than there are symbols. |
| `RhsClosures.StackSize` | libmarpa-dist/marpa.c:17908-17978 | No symbol is on the stack twice, so the stack is never larger than the set. |
| `Closures.Matrix.TransitiveClosure` | libmarpa-dist/marpa.c:18096-18113 | In place: afterwards a bit is set exactly when there was a path of one step or more, and unused bits stay zero. |
| `Closures.PathIsVia` | libmarpa-dist/marpa.c:18096-18113 | Why the loop over middle nodes finds every path: a path that returns to the last of them is cut there. |
| `BitVectors.BitVector.Scan` | libmarpa-dist/marpa.c:17812-17893 | The next maximal run of set bits from any start, across words and in the last part of one. |
| `BitVectors.BitVector.Count` | libmarpa-dist/marpa.c:17894-17903 | The loop over runs counts every set bit once. |
| `Words.Lowest` | libmarpa-dist/marpa.c:17812-17893 | Shifting a mask finds the lowest set bit of a word. |
| `Tables.ListRow` | libmarpa-dist/marpa.c:18195-18208 | The sorted list of the bits set in a row. |
| `Tables.PredictedRules` | libmarpa-dist/marpa.c:8923-9013 | Each symbol's list holds exactly the rules it predicts through any number of left-most steps. |
| `Tables.BuildAhms` | libmarpa-dist/marpa.c:8668-8850 | One dotted rule for every dot of every rule, consecutive, each with the symbol after the dot, its raw position and the number of nulling symbols just before it. |
| `GrammarTables.BuildTables` | libmarpa-dist/marpa.c:8612-9343 | All tables of the internal grammar are right: the raw place of every dot and the nulling symbols before it, a Leo flag exactly on right-recursive rules, and the exact sizes of the event groups. |
| `Grammars.PredictionsClosed` | libmarpa-dist/marpa.c:9124-9147 | One pass of predictions suffices: what a predicted rule predicts is in the list already. |
| `Recognizers.Recognizer.StartInput` | libmarpa-dist/marpa.c:11395-11606 | Set 0, built by a worklist, is exact and has no Leo items; a second start is refused and changes nothing. |
| `Recognizers.Recognizer.ReadAlternative` | libmarpa-dist/marpa.c:11655-11798 | Each answer if and only if its case holds; an accepted token, with its value, is the one thing added, otherwise nothing changes. |
| `Recognizers.Recognizer.EarlemeComplete` | libmarpa-dist/marpa.c:11803-12186 | One earleme forward: each answer exactly in its case; the input is over if and only if all tokens had ended, or a set was made with nothing expected and no token ending later; finished sets and their links unchanged, all sets up to the new earleme exact. |
| `Recognizers.Recognizer.RunCompletions` | libmarpa-dist/marpa.c:11966-12109 | The completer ends, every completed item is popped once, and the set is closed under completion. |
| `Recognizers.Recognizer.PostdotItemsCreate` | libmarpa-dist/marpa.c:12376-12793 | The lists are right; with Leo items in use there is one at a symbol if and only if one item waits for it and no other, just before the end of a right-recursive rule; and each is linked and rooted as it should be. |
| `Recognizers.Recognizer.Assign` | libmarpa-dist/marpa.c:11057-11085 | The item of a dotted rule and an origin is found or made, never made twice, though the memo keeps stale entries. |
| `Psars.Psar.Dealloc` | libmarpa-dist/marpa.c:18435-18449 | All claims are given up and all contents kept. |
| `Psars.Psar.Claim` | libmarpa-dist/marpa.c:18452-18490 | The first free list is claimed; claimed lists stay a prefix with distinct owners. |
| `Psars.MemoStored` | libmarpa-dist/marpa.c:11057-11085 | Storing a new item forgets no other. |
| `StartSets.StartPresent` | libmarpa-dist/marpa.c:11557-11589 | The worklist of set 0 gives exactly what predictions in one pass would. |
| `Predictions.PredictEnd` | libmarpa-dist/marpa.c:12116-12141 | After one pass the set is still closed under scanning and completion and now closed under prediction, and no completion was added. |
| `EarleySets.ForestPresent` | libmarpa-dist/marpa.c:11921-12109 | In a set closed under scanning and completion every valid item past its start is present, as itself or as the effect of the Leo item that waits for it. |
| `EarleySets.RoutePresent` | libmarpa-dist/marpa.c:12111-12143 | Every rule predicted at the current earleme has its first dotted rule in a closed set. |
| `EarleySets.ClosedIsComplete` | libmarpa-dist/marpa.c:11803-12186 | A closed set holds every valid item of its earleme, as itself or as a Leo effect. |
| `Derivations.TreeForward` | libmarpa-dist/marpa.c:11803-12186 | Derivations over rules that are not empty and tokens of positive length end later than they begin, so a completion's middle set is always earlier. |
| `Derivations.TreeUpto` | libmarpa-dist/marpa.c:11803-12186 | Tokens that end later do not matter to a derivation, so finished sets stay right as tokens are read. |
| `LeoEquivalence.EarleyExact` | libmarpa-dist/marpa.c:11803-12186 | Without Leo items a set holds exactly the items that are predicted at their origin and derive the tokens between. |
| `LeoEquivalence.LeoChangesNothing` | libmarpa-dist/marpa.c:12005-12104 | With and without Leo items: the same incomplete items, the same expected symbols; completions only a subset, and every missing one on the path of a Leo item that was used. |
| `LeoEquivalence.Acceptance` | libmarpa-dist/marpa.c:12005-12104 | The completed start rule is stored exactly when the start symbol derives the tokens, Leo items or not. |
| `LeoPaths.MissingOnPath` | libmarpa-dist/marpa.c:12066-12090 | By induction on derivations: a valid completion that is not stored is on the path of a Leo item used in that set. |
| `Soundness.PathSound` | libmarpa-dist/marpa.c:12066-12090 | The effect of a Leo item is what completing up its whole path would give. |
| `LeoItems.PotentialLeoItems` | libmarpa-dist/marpa.c:12433-12489 | A Leo item is made exactly for the symbols that one item waits for, just before the end of a right-recursive rule. |
| `PostdotSets.DueIsEligible` | libmarpa-dist/marpa.c:12433-12489 | The test made on a list says what it should of the items: only one waits, in a right-recursive rule, at its last symbol. |
| `LeoItems.PopulateLeoItems` | libmarpa-dist/marpa.c:12498-12761 | Every Leo item of the set is populated, cycles of predecessors included, with the top, origin and event list of its path, and without a predecessor only where there is none or where it would lead back. |
| `LeoItems.BuildChain` | libmarpa-dist/marpa.c:12600-12690 | A chain holds no symbol twice, is no longer than there are Leo items in the set, and ends at a populated predecessor, none, or one that is in the chain. |
| `LeoPredecessors.PredecessorsEnd` | libmarpa-dist/marpa.c:12498-12761 | From every Leo item of every set the predecessors end, after fewer steps than there are Leo items; the trailheads met are its path; its event list is exactly the events of the rules they complete. |
| `LeoPredecessors.PredecessorExact` | libmarpa-dist/marpa.c:12534-12577 | In every set: a Leo item has no predecessor if and only if no Leo item is where its rule started, or predecessors from there, in the same set, lead back to it; if it has one it is that. |
| `LeoPredecessors.LongestChain` | libmarpa-dist/marpa.c:12534-12690 | Where going on to where each rule started ends, the Leo item has the top and origin of the last one: off a cycle the shortcut goes all the way. |
| `LeoPredecessors.OnePath` | libmarpa-dist/marpa.c:12498-12761 | The path of a Leo item is determined by its place. |
| `EventLists.EventList` | libmarpa-dist/marpa.c:12697-12740 | A Leo item's list made from its predecessor's is exactly the events of the longer chain, also when the merge is cut off. |
| `EventLists.CutOff` | libmarpa-dist/marpa.c:12560-12572 | The cut-off loses nothing: a list as long as the group of its top holds the event of the trailhead too. |
| `EventLists.MergeOne` | libmarpa-dist/marpa.c:18310-18342 | A sorted list with one element more, or nothing exactly when the element was there. |
| `EventLists.Merge` | libmarpa-dist/marpa.c:18260-18305 | Two sorted lists as one without repeats. |
| `LeoEvents.GroupSizes` | libmarpa-dist/marpa.c:9297-9343 | Counts for every completion the events that right recursion can reach it from. |
| `LeoEvents.CountedGroups` | libmarpa-dist/marpa.c:9297-9343 | With these sizes every chain of Leo rules stays inside the group of its top. |
| `LeoEvents.LeoReachesItself` | libmarpa-dist/marpa.c:9018-9119 | Leaving out the rules that are not right recursive loses no cycle. |
| `TokenQueue.InsertionPoint` | libmarpa-dist/marpa.c:11304-11337 | Binary search finds where a token goes, or that it is there. |
| `TokenQueue.InsertedQueued` | libmarpa-dist/marpa.c:11372-11391 | One insertion adds exactly the new token to the waiting ones. |
| `TokenQueue.PoppedQueued` | libmarpa-dist/marpa.c:11911-11965 | Popping delivers exactly the tokens that end at this earleme and leaves exactly the later ones. |
| `States.PopEnd` | libmarpa-dist/marpa.c:11911-11965 | When the queue's top ends later, every token that ends here has been scanned once and the set is closed under scanning. |
| `Bocages.CompleteIsTree` | libmarpa-dist/marpa.c:15978-16228 | Complete choice sequences are exactly those of the trees in which no or-node occurs twice. |
| `TreeIterators.TreeIterator.Next` | libmarpa-dist/marpa.c:15978-16228 | The next tree in lexicographic order of choices, or -1 exactly when there is none, now and ever after. |
| `TreeIterators.TreeIterator.PushNook` | libmarpa-dist/marpa.c:16182-16210 | Neither the stack nor the worklist outgrows the number of and-nodes. |
| `TreeIterators.ExhaustedFoundAll` | libmarpa-dist/marpa.c:15978-16228 | An exhausted iterator has found every complete tree, each once. |
| `TreeIterators.SeenNext` | libmarpa-dist/marpa.c:15978-16228 | Each tree found next leaves the trees found complete up to it. |
| `TreeOrder.BeyondPop` | libmarpa-dist/marpa.c:16083-16121 | A nook that is popped hides no tree that was still wanted. |
| `TreeMoves.PushMove` | libmarpa-dist/marpa.c:16182-16210 | A new nook keeps the search in order: marks, worklist and choices. |
| `Valuators.Valuator.Step` | libmarpa-dist/marpa.c:17118-17494 | Every step names the slots that hold its arguments and its result, in order. |
| `Valuators.Evaluate` | src/marpaWrapper.c:860-1022 | The loop over the steps leaves on the stack what the steps say. |
| `Valuations.VisitTrees` | libmarpa-dist/marpa.c:17195-17494 | Visiting a tree pushes its value and one count if it is virtual, and touches nothing below. |
| `Valuations.SlotCount` | libmarpa-dist/marpa.c:17195-17494 | Before the dot every real symbol has its slot and every virtual one its count. |
| `ValueParts.TreeParts` | libmarpa-dist/marpa.c:17330-17494 | The leaves and rules of the values of trees, in order, are exactly those of their nodes, predecessor before cause: a token its symbol and value, a nulling symbol its symbol, a completed rule its number. |
| `TreeValues.StackValue` | src/marpaWrapper.c:860-1022 | The steps of a finished tree leave its bottom-up value alone in slot 0; read from the bottom up and left to right it is made of the leaves of the and-nodes without a cause and the rules of the completed or-nodes of the tree. |
| `TreeValues.AllValues` | src/marpaWrapper.c:829-1050 | Over a whole parse: the value of every tree once, in the order of the trees, with the leaves and rules of its tree. |
| `AvlTrees.HeightBound` | libmarpa-dist/marpa_avl.h:58-61 | With fewer than 2^64 items no balanced tree is as high as the traverser's stack is long. |
| `AvlTrees.InsertBalanced` | libmarpa-dist/marpa_avl.c:118-222 | Insertion keeps exact balance factors, and the tree grows exactly when its way was even. |
| `AvlPaths.InsertAt` | libmarpa-dist/marpa_avl.c:118-222 | Insertion works on the lowest uneven node of the way, as the loop finds it. |
| `AvlProbing.InsertedTurned` | libmarpa-dist/marpa_avl.c:162-221 | The records after a rotation are those of the inserted tree. |
| `AvlTables.AvlTable.Probe` | libmarpa-dist/marpa_avl.c:118-222 | Insertion in place: the tree of the specification, the slot of the item or of the one that was there, and a new generation unless every node stays where it is. |
| `AvlTables.AvlTable.AtOrAfter` | libmarpa-dist/marpa_avl.c:86-113 | The least item at or after a key. |
| `AvlLookups.NextIs` | libmarpa-dist/marpa_avl.c:468-516 | The next item is the first of the right side, or the nearest ancestor to the right. |
| `AvlTraversers.AvlTraverser.Next` | libmarpa-dist/marpa_avl.c:468-516 | The least item after the current one in the tree as it is now, though the stack is rebuilt only after a rotation. |
| `AvlSessions.Interleave` | libmarpa-dist/marpa_avl.c:253-516 | Any mixture of insertions and steps answers as the set of items and the current item say. |
| `TavlTrees.DeleteIs` | libmarpa-dist/marpa_tavl.c:325-582 | Deletion takes out the one item and leaves a sorted, balanced tree without shared nodes. |
| `TavlTables.TavlTable.Probe` | libmarpa-dist/marpa_tavl.c:121-284 | Insertion in place: the tree of the specification, every thread to its neighbour in order. |
| `TavlTables.TavlTable.FindParent` | libmarpa-dist/marpa_tavl.c:288-321 | The parent found by way of the threads is the parent. |
| `TavlTables.TavlTable.Remove` | libmarpa-dist/marpa_tavl.c:325-582 | Deletion in place: exactly one item less, order, balance, threads and count right, or nothing changed. |
| `TavlTurns.DoubleRightThreads` | libmarpa-dist/marpa_tavl.c:204-231 | A double rotation leaves the threads right. |
| `TavlProbing.TAdjustStep` | libmarpa-dist/marpa_tavl.c:181-185 | One step of adjusting balances down the way keeps the threads right. |
| `TavlTraversers.TavlTraverser.Next` | libmarpa-dist/marpa_tavl.c:717-738 | Following a thread or a right child gives the item after the current one. |
| `TavlSessions.Interleave` | libmarpa-dist/marpa_tavl.c:121-738 | Any mixture of insertions, deletions and steps answers as the set of items and the current item say. |
| `TavlCaches.CacheExact` | libmarpa-dist/marpa_tavl.c:121-160 | For every number of items: no search can overrun the 32 cached directions if and only if the number is below 12,752,041. |

## Findings

- A sequence with a separator that derives no string is dropped by the census
  (`libmarpa-dist/marpa.c:7165-7265`), although a single item needs no separator.  The internal
  grammar then misses strings that the rules derive: `LostSequences.SeparatorLoses` gives such a
  grammar with its census, its compiled form and the string.  `Languages.LanguageExact` gives the
  exact condition, over all symbols and tokens, under which nothing is lost.
- The cache of directions in `marpa__tavl_probe` has 32 places (`libmarpa-dist/marpa_tavl.h:54`)
  and no check.  `TavlCaches.CacheExact` says how many items that is good for: below 12,752,041
  always, and from there on for every number of items there is a well-formed tree and a key for
  which a 33rd place is needed.  `TavlTables.TavlTable.Probe` therefore asks for fewer.

## Left out

- Precomputations.Precompute: refuses grammars whose start symbol is nulling, with a status of its
  own; libmarpa goes on with a trivial recognizer for them.
- Parsing.Recognizes: asks for `SeparatorsHarmless`; without it `Languages.LanguageExact` says that
  some symbol loses a string.
- Viability.ExpectedExact: asks for `SeparatorsHarmless` for the same reason.
- Viability.AcceptedGoesOn: as `Viability.ExpectedExact`; `ParseSessions.Interleave` has no such
  condition.
- Recognizers.Recognizer.ReadAlternative: the value of a token is kept in the queue, but the links
  that scanning makes do not carry it.
- Recognizers.Recognizer.EarlemeComplete: sets are a map by earleme, and the postdot symbols of a set
  a map instead of a sorted array with binary search.
- Psars.Psar.Dealloc: lists are a sequence and owners a map; freeing and resetting are left out.
- Valuators.Evaluate: the callbacks are the construction of a value; their failures are left out.
- TreeIterators.TreeIterator.Next: the and/or graph is given, with what makes it well formed; the
  tree of a nulling parse and the pausing of the tree are left out.
- AvlTables.AvlTable.Probe: items are compared by an integer key; nodes are indices into a growing
  sequence.
- TavlTables.TavlTable.Probe: asks for fewer than 12,752,041 items; beyond that the source can
  overrun its cache.
- TavlTables.TavlTable.Remove: the freed node is not used again.
- Building the and/or graph (`marpa_b_new`), ranks and their order, progress reports.
- Zero-width assertions, rejection of tokens and `marpa_r_clean`.
- Raising events: the queue of events, and nulled and predicted events; only the lists that Leo
  items carry and the sizes of their groups are modelled.
- The fatal and warning thresholds on the number of items in a set.
- Unvalued-token mode, token and rule positions in steps, the default terminal rules.
- Loops over counted nullables, and sequence minimums above 1, which the wrapper does not use.
- `_marpa_avl_t_prev`, `_marpa_avl_t_last`, `_marpa_avl_t_copy`; `marpa__tavl_t_prev`,
  `marpa__tavl_t_last`, `marpa__tavl_copy`, `marpa__tavl_destroy`: mirror images of what is here,
  or copying node by node.
- Sharing equal sorted lists through a tree of lists (`cil_buffer_add`): lists are values.
- Wrap-around of the AVL generation number.
- The wrapper's sorting of symbols and events, option defaults, logging, version checks,
  obstacks and other memory management.
