# Kiota's checker machinery, modelled and proved

Kiota checks Lean 4 export files. This project models the machinery underneath its type
checker, in Dafny, and proves that each fast or stateful form does what a simple reference
says:

- **Universe levels** (`Levels`): the smart constructors, the comparison and the equality
  test, against the value of a level under every assignment of its parameters.
- **Terms** (`Naturals`, `Terms`, `Positions`, `Words`, `Occurrences`): shifting and instantiation
  by plain recursion, the loose range, and the occurrence summaries.
- **The expression engine** (`Nodes`, `ExprEngine`, `EngineRuns`): hash-consing with
  overflow buckets, identities that are never reused, and memoised shift, instantiation
  and universe instantiation, over any history of calls, evictions, clears and dropped
  references.
- **Counted heap and weak table** (`Tables`, `Reclaim`, `HeapRuns`): iterative teardown, reference
  counts, and interning through weak entries.
- **Recursors** (`Contexts`, `Recursor`, `Readings`, `RecursorType`): the recursor type of a
  mutual or nested group. The specification is written over *named* binders (parameter `i`,
  motive `i`, field `i`, ...); the code's index arithmetic is proved to produce it, and
  `Readings` and `RecursorType.RecursorReads` say what it means: which motive, field and
  arguments each part of the type names.
- **Nested occurrences** (`Nested`, `Expansion`, `OccurrenceLaws`, `Ending`, `Renaming`,
  `Discovery`): the expansion that makes them members, what it meets position by position, when
  it ends, and that it finds the same members under any choice of universe names.
- **Stored proofs** (`Wire`, `Streams`, `PostOrder`, `Codec`, `FormatLaws`, `Reload`, `Proofs`):
  the byte format, the post-order listing of a shared term, reading it back, and the append-only
  store with its index and cache.
- **Lifetimes** (`BitSets`, `Export`, `Lifetimes`, `Parser`): the first pass over an export
  and the early release of its nodes.
- **Undo** (`Undo`): the journal of an inductive block.

## How it is set up

A level or a term is a datatype. A node is an `ExprNode` object whose fields never change;
`Denote` gives the term it stands for. Objects the program updates in place (the engine, the
heap, the reader, the proof store, the lifetimes, the parser, the environment) are classes
whose methods are proved against functions on values. Hash functions, definitional
equality of terms and what a declaration does with the terms it reads are parameters, so
every result holds for all of them.

Five results are about where the code does *not* do what one might expect:

- `Levels.SoundExactlyWherePositive`: the level comparison is not sound under all
  assignments. The branch for two `imax` levels with matching right-hand sides
  (`src/level.rs:172-181`) compares `max` forms without asking for a non-negative offset.
  `Levels.CounterExample` gives two levels the equality test accepts and which differ when
  a parameter is zero. The comparison is sound at an assignment for all levels if and only
  if that assignment makes no parameter zero. `Levels.ImaxPairExact` is about the branch
  itself, for any parts that reach it: no inequality with a negative offset holds there
  under every assignment, and on levels without `imax` under a successor a yes is right
  exactly when the offset is non-negative.
- `Codec.RoundTripExact`: a stored term comes back as itself if and only if its levels are
  those the smart constructors build and none is deeper than 10,000. On other levels
  decoding re-simplifies, or refuses (`src/proofstore.rs:394-412`); `Codec.DepthLimit`
  gives terms whose levels are all canonical and which are refused.
- `Proofs.LatestUnlessRead`: the proof stored last under a name is what the name answers if
  and only if the name had not been read before it was stored, or had answered that very term.
  Otherwise the first answer stays (`Proofs.FirstAnswerStays`), because the cache is not
  dropped (`src/proofstore.rs:106-121`); `Proofs.SecondPutUnseen` is the shortest such
  history. A run over a file never gets there, since a second declaration of a name is
  rejected first (`src/parser.rs:356-361`). The comment on `store` says an error records
  nothing; an oversized blob is nevertheless left in the log, unindexed, and the model keeps
  it there.
- `Parser.RunFile`: early release can turn an accepted export into an error. It accepts
  exactly the exports that the run which keeps every node accepts and in which no line asks
  for a slot already released (`Parser.LostRead`: a slot that held a term at the last accepted
  declaration, with no later line seen to mention it). It is an error and never a wrong term:
  what is accepted ends in the same environment. Such a read has to go unreported by the first
  pass, as when the parser reads a missing field as index 0 (`src/parser.rs:117-119`);
  `Parser.RunUnreported` is a file where it happens. When every index read is reported
  (`Export.Reported`) there is none, and the two runs cannot be told apart.
- `Ending.EndsExactly`: the expansion of nested occurrences has no bound of its own. It comes
  to an end if and only if it is refused at some point or the occurrences it can meet lie in
  a finite set closed under copying. `Ending.ExpandForever` is a group it never finishes,
  over a prior type whose constructor applies the type to a changed parameter. Such a type is
  refused when it is declared ("non-uniform nested inductive parameter", `src/tc.rs:6335-6350`),
  so the expansion itself does not meet it.

In two places a comment says more than the code does, and the model follows the code. The
summary of a node is described as overflowing when some loose index is 64 or more
(`src/expr.rs:160`); `Occurrences.OverflowExact` shows that a bound variable written with such an
index, or 64 loose ones at once, do it too. And `imax 1 u = u` is promised for any `u`
(`src/level.rs:99-103`), but where `u` cannot be 0 the code returns `max 1 u`
(`Levels.IMaxLaws`).

## Model

| member | source | states |
|---|---|---|
| Levels.CountSuccs | src/level.rs:28-36 | the counting loop computes the number of successors |
| Levels.PeelSuccs | src/level.rs:39-47 | the peeling loop ends at a level that is no successor, and value = value of that level + count, under every assignment |
| Levels.ExplicitMeaning | src/level.rs:20-36 | an explicit level has the value of its offset everywhere |
| Levels.NotZeroExact | src/level.rs:50-57 | the test answers yes exactly when no assignment gives the level the value 0 |
| Levels.SmartConstructorsCanon | src/level.rs:64-118 | levels built by the smart constructors from such levels are again unchanged by rebuilding |
| Levels.SmartConstructorsMeaning | src/level.rs:64-118 | every simplification keeps the value of max and imax under every assignment |
| Levels.MaxLaws | src/level.rs:64-97 | max of a level with itself, with 0, and with a max it is part of simplifies, whatever the levels |
| Levels.MaxOfRaised | src/level.rs:64-97 | of two levels over one base, numerals included, the one with more successors is the max |
| Levels.MaxOfParams | src/level.rs:64-97 | different parameters with offsets stay a max |
| Levels.IMaxLaws | src/level.rs:104-118 | over a level that is never 0 imax is max; over any other it disappears below 0, 1 and the level itself and otherwise stays |
| Levels.NormalizePushes | src/level.rs:209-223 | any number of successors over a max of two parameters is pushed to both |
| Levels.InstantiateMeaning | src/level.rs:132-140 | the value of an instantiated level is the value under the composed assignment, despite re-simplification |
| Levels.InstantiateCanon | src/level.rs:132-140 | instantiation of canonical levels gives canonical levels |
| Levels.NormalizeMeaning | src/level.rs:210-223 | pushing successors through max keeps the value under every assignment |
| Levels.NormalizeKeeps | src/level.rs:210-223 | normalising keeps a level canonical, imax-free, and free of imax under a successor |
| Levels.LeqSoundPositive | src/level.rs:153-197 | for canonical levels, imax included, a yes is right under every assignment without zeros; the comparison terminates by a weight in which imax outweighs max |
| Levels.CounterExample | src/level.rs:172-181 | two canonical levels that both tests equate, with values 1 and 0 when the shared parameter is 0 |
| Levels.SoundExactlyWherePositive | src/level.rs:153-229 | comparison and equality test are sound at an assignment for all canonical levels if and only if it gives no parameter 0 |
| Levels.ImaxPairExact | src/level.rs:172-181 | on any two canonical imax levels that reach the branch, no inequality with a negative offset holds everywhere; without imax under a successor a yes is right if and only if the offset is non-negative |
| Levels.LeqSoundPlain | src/level.rs:153-197 | a yes is right under every assignment, zeros included, when no imax stands under a successor and the offset is non-negative or the left side is imax-free; when a yes has to come is said by the exact results below |
| Levels.DefEqSoundPlain | src/level.rs:225-229 | levels without imax under a successor that test equal have equal values under every assignment |
| Levels.LeqWitness | src/level.rs:153-197 | on imax-free levels a no comes with an assignment that refutes the inequality |
| Levels.LeqExact | src/level.rs:153-197 | on imax-free levels the comparison holds if and only if the inequality holds under every assignment |
| Levels.LeqFreeExact | src/level.rs:153-197 | an imax-free level is below any level whatever exactly when it is so under every assignment with each imax on the right read as 0 |
| Levels.LeqAtomExact | src/level.rs:153-197 | any level whatever is below a numeral or a parameter with an offset exactly when it is so under every assignment with each imax on the left read as the maximum of its parts |
| Levels.LeqSingleImaxExact | src/level.rs:182-188 | one imax with imax-free parts: on the right the answer is yes exactly when the inequality always holds against 0 and against the maximum, on the left (over a numeral or parameter with offset) exactly when it always holds from both |
| Levels.LeqImaxExact | src/level.rs:166-188 | an imax is below an imax-free level exactly when, read as the maximum of its parts, it is always below one single part of that level |
| Levels.LeqTwoImaxExact | src/level.rs:172-188 | two imax levels with imax-free parts compare as their maxima exactly when the right-hand sides always agree; otherwise the left maximum has to be below 0 |
| Levels.LeqMonotone | src/level.rs:153-197 | a yes stays a yes under a larger offset, for all levels |
| Levels.DefEqExact | src/level.rs:225-229 | on imax-free levels the equality test holds if and only if the values agree under every assignment |
| Terms.OccursBelowLoose | src/expr.rs:149-219 | every loose index is below the loose range |
| Terms.LooseOccurs | src/expr.rs:149-219 | the range is least: the index just below it does occur |
| Terms.HasBVarInRangeExact | src/tc/recursor.rs:144-162 | the range test finds exactly the loose indices in the range |
| Terms.ShiftAboveRange | src/expr.rs:626-662 | the short cut: a term whose loose range ends at the cutoff is unchanged by a shift |
| Terms.ShiftMoves | src/expr.rs:626-662 | shifting up moves exactly the loose indices from the cutoff on, by the amount |
| Terms.ShiftBelowZero | src/expr.rs:641-643 | shifting a variable below 0 wraps at 2^32 |
| Terms.LowerThenRaise | src/tc/recursor.rs:548-560 | when no index below d is loose, shifting down by d and up again gives the term back |
| Terms.InstAboveRange | src/expr.rs:668-730 | the short cut: a term whose loose range ends at the depth is unchanged by instantiation |
| Terms.InstShift | src/expr.rs:626-730 | instantiation cancels as much of a shift as it has variables to replace |
| Terms.InstSplit | src/expr.rs:668-730 | substituting the outermost variable first and the others after is one simultaneous substitution |
| Terms.InstantiateTelescope | src/tc/recursor.rs:296-306 | instantiating once under n peeled Pis with reversed arguments equals peeling one Pi and substituting one argument at a time |
| Terms.InstLevelParamsCanon | src/expr.rs:757-808 | universe instantiation keeps terms canonical, and the empty substitution changes no canonical term |
| Terms.InstLevelParamsReads | src/expr.rs:757-808 | universe instantiation changes levels only, and each has, under any assignment, the value it had when its parameters had the values of their replacements |
| Terms.ApplyPicks | src/tc/recursor.rs:296-306 | a telescope over its k-th binder, applied, is the k-th argument; a variable from outside is kept |
| Positions.OccursExact | src/expr.rs:149-219 | an index is loose exactly when at some position a variable stands whose index, less the binders above it, is that one |
| Occurrences.UsedIsWord | src/expr.rs:166-205 | the summary always fits one machine word |
| Occurrences.SummaryExact | src/expr.rs:166-205 | a summary other than the overflow value has exactly the loose indices as its bits |
| Occurrences.OverflowExact | src/expr.rs:160-205 | the summary is the overflow value exactly when somewhere a variable is written with index 64 or more, bound or not, or all of 0 to 63 are loose at one subterm |
| Occurrences.BitsToList | src/expr.rs:482-490 | the lowest-bit loop lists the set bits in increasing order |
| Occurrences.MergeUsed | src/expr.rs:457-480 | the two-finger merge computes the union of two lists, or gives up once it passes 64 entries |
| Occurrences.UnionExact | src/expr.rs:457-480 | the union of increasing lists is increasing and has exactly the elements of both |
| Occurrences.UsedSetExact | src/expr.rs:395-480 | a list that is returned is strictly increasing, has at most 64 entries and is the set of loose indices |
| Occurrences.NoListExactly | src/expr.rs:395-480 | no list is returned exactly for terms that overflow the word and mention more than 64 binders, themselves or in a part that still matters |
| Nodes.SummariesExact | src/expr.rs:166-219 | the range and summary cached in a node are those of its term |
| Nodes.RecExprEq | src/tc/recursor.rs:116-138 | the pointer-short-cut comparison decides equality of the terms |
| ExprEngine.InternedUnique | src/expr.rs:278-353 | for any hash function, nodes in the table are the same node if and only if they stand for the same term |
| ExprEngine.FiledInterned | src/expr.rs:306-353 | as long as no node still in use has left the table, every node is in it with all its parts |
| ExprEngine.SortedKeyUnique | src/expr.rs:747-756 | equal substitutions have equal sorted keys |
| ExprEngine.SubstIdExact | src/expr.rs:747-756 | between clears two substitutions share an identity if and only if they are equal |
| ExprEngine.Engine.AllocNode | src/expr.rs:355-368 | a new node takes the next identity; every earlier node stays as it was |
| ExprEngine.Engine.Intern | src/expr.rs:320-349 | returns the filed node with this data and changes nothing, or files a new one under an identity never used before |
| ExprEngine.Engine.Search | src/expr.rs:320-349 | finds an entry of the overflow bucket with this data, or there is none |
| ExprEngine.Engine.MkBinder | src/expr.rs:591-596 | the smart constructor's node stands for the binder over the terms of its children |
| ExprEngine.Engine.RememberShift | src/expr.rs:20-25 | inserts a memo entry; in reclaiming mode a full memo is emptied first |
| ExprEngine.Engine.ShiftNode | src/expr.rs:626-662 | from any valid state, with short cut and memo, returns a node for the plainly shifted term and leaves a valid state |
| ExprEngine.Engine.Instantiate | src/expr.rs:668-676 | returns a node for the plainly instantiated term, from any valid state |
| ExprEngine.Engine.InstantiateCore | src/expr.rs:678-730 | the memoised recursion agrees with plain instantiation at every depth |
| ExprEngine.Engine.Instantiate1 | src/expr.rs:733-743 | single substitution memoised on two identities agrees with the plain form |
| ExprEngine.Engine.LevelSubstId | src/expr.rs:747-756 | the identity belongs to the whole sorted key; earlier identities are kept |
| ExprEngine.Engine.InstantiateLevelParams | src/expr.rs:757-808 | memoised universe instantiation agrees with the structural form |
| ExprEngine.Engine.UsedBvarSet | src/expr.rs:395-455 | the memoised occurrence list is the list of the term |
| ExprEngine.Engine.ClearSubstMemos | src/expr.rs:570-577 | all substitution memos and identities are emptied together; the state stays valid |
| ExprEngine.Engine.InternClear | src/expr.rs:530-551 | the table alone is emptied exactly when it has more entries than the threshold; the identity counter goes on |
| ExprEngine.MemosStay | src/expr/reclaim.rs:1-4 | memo keys may name nodes that are gone; a node made under an identity never given out before leaves every memo right |
| ExprEngine.Engine.LoseDead | src/expr/reclaim.rs:31-47 | in reclaiming mode the table shows exactly the entries of nodes that a held reference or a memo result reaches; the memos stay right |
| EngineRuns.Step | src/expr.rs:579-808 | one call on the engine does to the pool of nodes what the reference does to the pool of terms, and gives the reference's answer |
| EngineRuns.Run | src/expr.rs:1040-1102 | any list of calls, clears, memo evictions and dropped references, with entries of unreachable nodes lost in reclaiming mode, for any hash function, computes and answers what the plain references do; until the table is emptied, pool nodes are equal if and only if their terms are |
| Reclaim.NoGarbage | src/expr.rs:102-114 | with exact counts every cell is reachable from a held reference |
| Reclaim.ExactlyReachable | src/expr.rs:102-114 | a heap shrunk to exact counts holds exactly what the held references reach |
| Reclaim.Unwrap | src/expr.rs:102-134 | freeing a cell at its last reference hands its references to the worklist and keeps all counts exact |
| Reclaim.LiveUnique | src/expr/reclaim.rs:26-54 | live cells are the same cell if and only if they stand for the same term |
| Reclaim.WeakHeap.Clone | src/expr.rs:102-134 | one more reference: one count goes up by one, nothing else changes |
| Reclaim.WeakHeap.Drop | src/expr.rs:102-134 | the iterative teardown frees exactly the cells no remaining reference reaches and leaves every count exact |
| Reclaim.WeakHeap.PopOne | src/expr.rs:106-111 | one worklist step keeps counts exact with respect to the worklist and makes progress |
| Reclaim.WeakHeap.Collect | src/expr/reclaim.rs:60-66 | afterwards every entry is live, and every live cell still has its entry |
| Tables.CountEntries | src/expr.rs:350-352 | the number of entries, in table and buckets, whatever the order of addition |
| Tables.EntryCountExact | src/expr.rs:350-352 | the count is the number of places that hold an entry, primary and in buckets, each once |
| Reclaim.WeakHeap.Len | src/expr/reclaim.rs:56-58 | the number of entries, live or dead, in table and buckets |
| Reclaim.WeakHeap.MaybeCollect | src/expr/reclaim.rs:27-30 | below the mark nothing changes; at the mark it collects and moves the mark 250,000 past what is left |
| Reclaim.WeakHeap.Intern | src/expr/reclaim.rs:26-54 | returns the live cell with this data, or a new one under a never-used identity; the references to the children are consumed |
| HeapRuns.MeaningKept | src/expr/reclaim.rs:1-4 | a live cell stands for the same term whatever else is freed, added or collected |
| HeapRuns.RunOp | src/expr/reclaim.rs:26-66 | one build, copy, drop or collection does what it does on terms, and every new cell has an identity not used before |
| HeapRuns.Run | src/expr/reclaim.rs:26-66 | any history holds references standing for the right terms, two of them equal if and only if their terms are |
| Contexts.TwoShiftsAt | src/tc/recursor.rs:1247-1264 | shifting at an outer cutoff and then at an inner one is the one renaming that inserts both blocks, for every term |
| Contexts.TransportExact | src/tc/recursor.rs:1171-1379 | moving a term between two named contexts gives the one term that reads the same there, and it is scoped there |
| Contexts.LayoutVar | src/tc/recursor.rs:1057-1379 | the index of every parameter, motive, minor, field, hypothesis, argument, index and major variable at the end of a context |
| Contexts.TwoShiftsTransport | src/tc/recursor.rs:1311-1321 | the two-stage shift of the minor builder is transport by name |
| Contexts.IndexShiftTransport | src/tc/recursor.rs:1057-1169 | the shift of the index telescope is transport by name |
| Contexts.ParamShiftTransport | src/tc/recursor.rs:1034-1055 | the shift of a parameter is transport by name into any layout |
| Recursor.CloseRecTelescope | src/tc/recursor.rs:93-98 | the reverse loop closes a body over its binders, outermost first |
| Recursor.UnfoldThenApply | src/expr.rs:811-825 | applying the parts of a decomposed application gives it back |
| Recursor.ApplyThenUnfold | src/expr.rs:616-622 | decomposing what was applied to a head gives head and arguments back |
| Recursor.UnfoldAppsLoop | src/expr.rs:811-825 | the loop returns head and arguments of the application |
| Recursor.PeelPis | src/tc/recursor.rs:207-226 | peels exactly n Pis, or fails exactly when there are fewer |
| Recursor.BuildArgs | src/tc/recursor.rs:1236-1270 | the field's own binders, moved by index arithmetic, are those of the specification by name |
| Recursor.BuildHypothesis | src/tc/recursor.rs:1235-1333 | a recursive field gives its induction hypothesis, another gives none, an inexact one is refused |
| Recursor.HypothesisType | src/tc/recursor.rs:1301-1332 | the hypothesis computed from indices is the one over named binders, whose motive, indices and field value Readings.HypothesisReads pins down |
| Recursor.BuildMinorType | src/tc/recursor.rs:1171-1379 | the minor premise, or the error, is that of the specification over named binders; a context shorter than the parameters is an underflow error |
| Recursor.MinorConclusion | src/tc/recursor.rs:1336-1378 | the conclusion applies the owner's motive to the named indices and the constructor |
| Readings.TargetExact | src/tc/recursor.rs:309-414 | a type is recognised as member k at given indices exactly when k is the first member it is an application of, or, failing any, the first up to definitional equality of levels and fixed parameters |
| Readings.HypothesisReads | src/tc/recursor.rs:1235-1333 | a field contributes a hypothesis exactly when it ends in a member; for all its arguments, read as declared, the hypothesis is the motive of that very member at its indices and at the field applied to them; otherwise it is rejected exactly when a member occurs in it |
| Readings.MinorPremiseReads | src/tc/recursor.rs:1171-1379 | a minor premise exists exactly when the constructor has the parameters, ends in its owner first and every field fits; then it binds the fields as declared and one hypothesis per recursive field, in order, and ends in the owner's motive at the constructor's indices and at the constructor applied to fixed parameters and fields |
| RecursorType.BuildMotives | src/tc/recursor.rs:1068-1107 | one motive per member over its own indices, as specified by name |
| RecursorType.BuildMinors | src/tc/recursor.rs:1109-1124 | one minor per constructor in order, as specified, stopping at the first error |
| RecursorType.BuildTail | src/tc/recursor.rs:1126-1168 | target indices, major premise and result, as specified by name |
| Recursor.MemberAppExact | src/tc/recursor.rs:1034-1055 | a term is recognised as a member with given indices if and only if it is what the builder builds for them |
| RecursorType.BuildBaseRecursorType | src/tc/recursor.rs:1057-1169 | the recursor type equals the specification over named binders, errors included; it exists exactly when every member has its indices and every constructor fits, and then binds parameters, a motive per member that ends in the elimination sort, a minor per constructor in order, the target's indices and a value of it, and ends in the target's motive at them |
| RecursorType.VariableResolves | src/tc/recursor.rs:1034-1379 | the variable written for a named binder points at that binder and at no other |
| RecursorType.BindersReadAlike | src/tc/recursor.rs:1213-1263 | field, argument and index types read in the recursor as they did where they were declared |
| RecursorType.MinorScoped | src/tc/recursor.rs:1171-1379 | a minor premise mentions only parameters, motives and earlier minors |
| RecursorType.RecursorClosed | src/tc/recursor.rs:1057-1169 | the recursor type of a well-scoped group is closed and has exactly params + motives + minors + indices + 1 Pi binders |
| Nested.SpecializePriorTelescope | src/tc/recursor.rs:282-307 | peeling all and instantiating once equals applying the prior type to its fixed parameters one by one; the type applied is an instance of the prior one in which the k-th universe parameter has the value of the k-th level; refused exactly when a count differs or Pis are missing |
| Nested.SubstMapExact | src/level.rs:142-148 | each universe parameter is mapped to the level at its own position, the last one if a name repeats, and nothing else is mapped |
| Nested.InstanceReads | src/level.rs:132-148 | instantiating a type at levels gives a term that says, under any assignment, what the type says when its k-th parameter has the value of the k-th level |
| Nested.SpecializedScoped | src/tc/recursor.rs:282-307 | a specialised type is closed and starts with the current parameters |
| Nested.OccurrenceExact | src/tc/recursor.rs:506-568 | the fixed parameters of a nested occurrence mention the current parameters only, and a member made from them is recognised at that very application |
| Nested.ContainsIsMention | src/tc/recursor.rs:416-504 | in a group whose members are declared or mention a declared name, containing a member is mentioning a declared name |
| Nested.OccurrenceNamed | src/tc/recursor.rs:506-568 | what counts as a nested occurrence depends on the declared names alone, not on the members added so far; OccurrenceLaws.OccurrenceLaw says what does count |
| OccurrenceLaws.OccurrenceLaw | src/tc/recursor.rs:514-567 | an application of a constant is an occurrence exactly when the constant is an undeclared type of the environment with all its parameters, some one of which mentions a declared name; it is refused exactly when one of the parameters has a local variable, and otherwise is the type, its levels and the parameters lowered |
| OccurrenceLaws.OccurrenceOnlyThere | src/tc/recursor.rs:514-520 | nothing but an application of a constant is an occurrence |
| OccurrenceLaws.MentionsExact | src/tc/recursor.rs:416-504 | a declared name is mentioned exactly when a constant of that name stands at some position |
| Nested.SpecializeCtors | src/tc/recursor.rs:614-641 | the specialised constructors, or a refusal exactly when one is missing or does not fit |
| Nested.SpecializeMember | src/tc/recursor.rs:583-650 | one prior type with all its constructors specialised, or a refusal exactly when it cannot be copied |
| Nested.AddNestedSpecialization | src/tc/recursor.rs:570-652 | succeeds exactly when the occurrence is there already or its whole prior group agrees with it; then it appends that group, specialised, once |
| Nested.AddAllScanned | src/tc/recursor.rs:570-652 | adding occurrences in order is refused exactly when one has local parameters or is new and cannot be copied; otherwise all have members and every member added is a copy for one of them |
| Nested.ScannedTwo | src/tc/recursor.rs:654-751 | scanning two lists of occurrences one after the other is scanning them together: acceptance, members and what they are copies of |
| Expansion.SettledCovers | src/tc/recursor.rs:654-751 | when the outermost occurrences have their members, a member is recognised at every subterm where one stands |
| Expansion.ScanNested | src/tc/recursor.rs:654-751 | the members become those the outermost occurrences ask for, in order; refused exactly when one has local parameters or is new and cannot be copied; otherwise all outermost occurrences have members and every member added is a copy for one of them |
| OccurrenceLaws.OutermostLists | src/tc/recursor.rs:654-751 | the occurrences a scan meets are those at the positions with no occurrence above, all of them, each once, from left to right, and each is reported as it is |
| OccurrenceLaws.CoveredExact | src/tc/recursor.rs:654-751 | covered means: at every such position the parameters have no local variable and a member with this type, levels and fixed parameters stands for the occurrence |
| Expansion.ScanMember | src/tc/recursor.rs:761-779 | the same for all constructors of a member, a constructor without the parameters being refused |
| Expansion.ExpandNestedMembers | src/tc/recursor.rs:753-783 | works off the queue as the function of the members does, order included; refused exactly when a scanned constructor is; adds only copies for outermost occurrences of scanned constructors; once the queue is worked off, every outermost occurrence in every constructor of every member is recognised |
| OccurrenceLaws.SaturatedExact | src/tc/recursor.rs:753-783 | saturated means this for every constructor of every member, each of which has the parameters |
| OccurrenceLaws.QueueEventsList | src/tc/recursor.rs:753-783 | the queue is scanned member by member, constructor by constructor, from left to right, and nothing is left out |
| OccurrenceLaws.ExpandedInOrder | src/tc/recursor.rs:753-783 | a finished expansion is the given members with the occurrences of all final members added in the order of the members |
| Expansion.MoreFuel | src/tc/recursor.rs:753-783 | once the queue is worked off or the expansion refused, more fuel changes nothing |
| Ending.EndsWithin | src/tc/recursor.rs:753-783 | with a finite closed set of occurrences to meet, some fuel is enough |
| Ending.FinishedClosed | src/tc/recursor.rs:753-783 | the occurrences met by a finished expansion form such a set |
| Ending.EndsExactly | src/tc/recursor.rs:753-783 | the loop comes to an end if and only if it is refused at some point or the occurrences it can meet lie in a finite closed set |
| Ending.ExpandForever | src/tc/recursor.rs:753-783 | over a prior type that applies itself to a changed parameter the expansion is never refused and never done, whatever the fuel |
| Renaming.RenameMax | src/level.rs:64-103 | simplification of max commutes with a one-to-one renaming of universe parameters |
| Renaming.InstanceRenamed | src/expr.rs:757-808 | instantiating a term at renamed levels is instantiating it and renaming the result |
| Renaming.RenameOutermost | src/tc/recursor.rs:506-568 | the outermost occurrences of a renamed term are those of the term, renamed |
| Renaming.RenameHas | src/tc/recursor.rs:576-582 | an occurrence has its member after a one-to-one renaming exactly if it had it before |
| Renaming.RenameExpansion | src/tc/recursor.rs:753-783 | expanding renamed members is renaming the expansion, refusals included |
| Discovery.OriginalMembers | src/tc/recursor.rs:228-280 | the declared types as members over their own parameters in order, each type and constructor an instance in which the k-th universe parameter has the value of the k-th level, or a refusal exactly when a type or constructor is missing |
| Discovery.RecParams | src/tc/recursor.rs:207-226 | the first binders of such an instance of the type, or a refusal exactly when there are too few |
| Discovery.DiscoveryRenamed | src/tc/recursor.rs:862-919 | under other distinct universe names the expansion of a declared group comes to the same members, renamed |
| Discovery.ExpandTwice | src/tc/recursor.rs:862-925 | the second expansion is refused exactly when the first is and has as many members: the error that the discovery changed is never reached |
| Wire.VarintRoundTrip | src/proofstore.rs:208-218 | every 64-bit value is read back from its varint, and the cursor stops behind it |
| Wire.LevelRoundTrip | src/proofstore.rs:229-251 | a written level reads back rebuilt, or is refused exactly when its height passes 10,000 |
| Wire.RebuildExact | src/proofstore.rs:394-412 | rebuilding changes nothing exactly on canonical levels |
| Wire.NatBytesRoundTrip | src/proofstore.rs:332-337 | a natural number is recovered from its little-endian bytes |
| Wire.EntryRoundTrip | src/proofstore.rs:291-344 | a written node entry reads back with its levels rebuilt, or is refused exactly when a level is too deep |
| Streams.Output.Varint | src/proofstore.rs:208-218 | the loop appends the varint of the value |
| Streams.Output.Level | src/proofstore.rs:229-251 | appends the bytes of the level |
| Streams.Output.Entry | src/proofstore.rs:291-344 | appends the bytes of the entry |
| Streams.Reader.Varint | src/proofstore.rs:363-377 | the loop answers, and moves, as the varint parse does, errors included |
| Streams.Reader.Level | src/proofstore.rs:394-412 | answers and moves as the level parse does, errors included |
| Streams.Reader.Entry | src/proofstore.rs:439-491 | answers and moves as the entry parse does, errors included |
| PostOrder.VisitExact | src/proofstore.rs:253-290 | the visit of a root lists exactly its reachable nodes, each once, children before parents, the root last |
| PostOrder.FinishExpand | src/proofstore.rs:259-287 | opening a node on the stack leaves the same work to be done |
| PostOrder.OrderNodes | src/proofstore.rs:254-287 | the stack loop ends on every acyclic graph and computes the recursive visit and each node's position |
| Codec.LookupDefined | src/proofstore.rs:290-290 | every child of a listed node has a position, the one where it is listed |
| Codec.Encode | src/proofstore.rs:254-346 | the bytes are the count and the entries of the post-order listing |
| Codec.DecodeRest | src/proofstore.rs:425-498 | from any entry on, decoding appends the remaining rebuilt terms or stops at the first too-deep level |
| Codec.RebuildTermExact | src/proofstore.rs:425-498 | re-running the smart constructors leaves a term unchanged exactly when its levels are canonical |
| Codec.RoundTrip | src/proofstore.rs:253-498 | decoding an encoded term gives the rebuilt term, or the depth error exactly when some level is too deep |
| Codec.RoundTripExact | src/proofstore.rs:253-498 | decoding gives the very term if and only if its levels are shallow and canonical |
| Codec.DepthLimit | src/proofstore.rs:394-397 | the sort of a canonical level of any height is stored; it comes back up to height 10,000 and is refused from 10,001 on |
| FormatLaws.LevelBytes | src/proofstore.rs:202-251 | the bytes of every kind of level |
| FormatLaws.LeafBytes | src/proofstore.rs:191-337 | the bytes of variables, sorts, constants and literals |
| FormatLaws.BranchBytes | src/proofstore.rs:194-330 | the bytes of applications, binders with their binder kind, lets and projections |
| FormatLaws.ApplicationBytes | src/proofstore.rs:253-307 | the whole file of an application of two leaves: count, function, argument, application |
| FormatLaws.FirstChildFirst | src/proofstore.rs:253-287 | what is reachable from the first child is written before anything else |
| FormatLaws.UnknownBytesRefused | src/proofstore.rs:394-491 | tags and binder kinds past the last known one are refused, and so is any level deeper than 10,000 |
| FormatLaws.AcceptedFits | src/proofstore.rs:379-491 | an accepted entry has 32-bit numbers, refers to earlier nodes only, and its strings are UTF-8 |
| FormatLaws.NothingFollows | src/proofstore.rs:425-498 | an accepted proof followed by anything is refused for trailing bytes, and an accepted proof cut short anywhere is refused |
| FormatLaws.EmptyRefused | src/proofstore.rs:425-432 | no bytes at all are truncated, and a proof of no nodes is refused |
| FormatLaws.Utf8Bounds | src/proofstore.rs:484-489 | what counts as text at the edges of UTF-8: no overlong forms, no surrogates, nothing past 0x10FFFF |
| Reload.BuildInterned | src/proofstore.rs:440-492 | a rebuilt node is in the table with everything below it |
| Reload.DecodeNode | src/proofstore.rs:425-498 | decoding into the engine agrees with the parse on every input and returns a fully interned node |
| Proofs.ReadBack | src/proofstore.rs:526-533 | a stored interned term comes back as the very same node if and only if its levels are shallow and canonical |
| Proofs.ProofStore.Store | src/proofstore.rs:104-121 | appends the blob; records it exactly when it is under 4 GB |
| Proofs.ProofStore.Load | src/proofstore.rs:123-152 | cached names answer from memory; of the others one not in the index is missing, one that runs past the log a failed read, one whose bytes hash differently a wrong hash, and the rest are what the decoder says; only successes are cached and counted |
| Proofs.FetchAppended | src/proofstore.rs:104-121 | appending to the log never changes what an earlier entry answers |
| Proofs.Run | src/proofstore.rs:104-152 | any sequence of stores and loads answers as a plain map of terms with first answers kept, for any hash function |
| Proofs.LatestUnlessRead | src/proofstore.rs:104-152 | a name not stored again keeps its last stored proof, and answers it if and only if it had not been read before or had answered that very term |
| Proofs.FirstAnswerStays | src/proofstore.rs:123-152 | once a name has answered a term it answers that term for ever |
| Proofs.SecondPutUnseen | src/proofstore.rs:104-152 | put, get, put, get with two proofs answers the first twice, though the second is stored |
| BitSets.InsertTest | src/lifetime.rs:79-85 | setting a bit in the word vector adds that number and no other |
| Export.PerformAlike | src/parser.rs:209-215 | tables that answer alike on the reported indices cannot be told apart by a handler that asks for no others |
| Export.PerformOrReleased | src/parser.rs:163-168 | on a table with some slots emptied a handler comes to the same result, or was told that a slot is released |
| Export.AskedAlike | src/parser.rs:209-215 | tables that answer alike on the slots a handler really asks for give it the same result |
| Export.AskedReleased | src/parser.rs:163-168 | a handler that asks for a slot emptied in between is told that it is released before it ends |
| Export.ReaderFails | src/parser.rs:273-327 | an expression line fails exactly when its kind is unknown or some slot it names holds no term |
| Export.ReaderBuilds | src/parser.rs:273-327 | an expression line builds its layer over the slots it names, exactly when all of them hold terms |
| Export.ReaderUnwraps | src/parser.rs:316-318 | a metadata line gives the very term of the slot it wraps |
| Export.ReaderDescribes | src/parser.rs:273-327 | an expression line gives the one term it describes: the parts of every kind are the terms of the slots named for them |
| Export.KeepSlot | src/parser.rs:320-326 | a slot holds what the last line defining it described over the slots as they were then |
| Lifetimes.LastRefsForward | src/lifetime.rs:59-109 | recorded lines only move forward and the table only grows |
| Lifetimes.MentionedLater | src/lifetime.rs:78-106 | what a line mentions or defines has its last line there or later |
| Lifetimes.LastRefsExact | src/lifetime.rs:78-106 | the line recorded for an index is the very last one to define it, or to mention it once the table reaches it; 0 stands for none |
| Lifetimes.HomeBy | src/lifetime.rs:114-119 | an index in the table at a declaration has its home declaration there or earlier |
| Lifetimes.HomeDefines | src/lifetime.rs:114-119 | an index that outlives its home was in the table at that home |
| Lifetimes.ReadLines | src/lifetime.rs:59-109 | the first loop computes last lines, declaration groups, and exactly the names expressions mention |
| Lifetimes.Split | src/lifetime.rs:110-127 | a bit for each index that dies by its home, a sorted list entry for each other |
| Lifetimes.SortPairsSorts | src/lifetime.rs:127-127 | the list is sorted and keeps its entries |
| Lifetimes.Scan | src/lifetime.rs:59-129 | the tables of the first pass, for any export |
| Lifetimes.Lifetimes.NameReferenced | src/lifetime.rs:152-158 | answers yes exactly for the names some expression of the export mentions |
| Lifetimes.Lifetimes.ReleaseAfterDecl | src/lifetime.rs:135-146 | empties exactly the closed group's short-lived slots and the listed slots up to this line; no index is released twice |
| Parser.ReleaseTracks | src/lifetime.rs:131-146 | after a declaration the slots still holding a term are exactly the defined ones with a later mention |
| Parser.LineExact | src/parser.rs:155-168 | a line fails on the releasing table if it asks for a slot that was released, and otherwise comes to the very result it has on the keeping one; a line whose reads are reported asks for none |
| Parser.Parser.HandleLine | src/parser.rs:273-327 | an expression line grows the table to its index and puts there the term it describes, a metadata line the very term it wraps, leaving every other slot, or fails unchanged; a declaration gets what it asks for |
| Parser.Parser.ReleaseExpired | src/parser.rs:1229-1236 | one sweep at the current line, or nothing without lifetimes |
| Parser.Parser.RunLine | src/parser.rs:1210-1225 | a line whose reads are reported, or whose handler fails on a released slot, fails if and only if it fails in the keeping run or asks for a released slot, and otherwise has the keeping verdict; an expression line fails exactly when its kind is unknown or a slot it names holds no term, and otherwise puts the term it describes into its slot and leaves the others |
| Parser.Parser.Run | src/parser.rs:1209-1227 | any number of such lines: accepted if and only if the keeping run accepts and no line asks for a released slot, with the same environment; if all reads are reported the verdicts agree; after a declaration exactly the live slots hold terms |
| Parser.RunFile | src/parser.rs:1181-1207 | first pass and releasing run over a whole file: accepted if and only if the keeping run accepts and no line asks for a released slot, with the same environment; if all reads are reported the verdicts agree; no index is released twice |
| Parser.RunUnreported | src/parser.rs:117-119 | four lines, one reading index 0 unreported, that the keeping run accepts and the releasing run refuses |
| Undo.InductiveUndo.InsertConstant | src/parser.rs:50-53 | the insert is made and the journal still leads back to the start |
| Undo.InductiveUndo.InsertOwner | src/parser.rs:55-58 | the insert is made and the journal still leads back to the start |
| Undo.InductiveUndo.InsertGroup | src/parser.rs:60-63 | the insert is made and the journal still leads back to the start |
| Undo.InductiveUndo.Rollback | src/parser.rs:65-83 | the maps become the journal unwound from its end |
| Undo.RollbackExact | src/parser.rs:36-84 | unwinding the journal of any inserts, repeated names included, gives back all three maps exactly |
| Undo.InsertsRead | src/parser.rs:50-63 | after any inserts each map answers for a name the last insert made there, and what it answered before if there was none |
| Undo.Block | src/parser.rs:1324-1350 | an accepted block makes its inserts, a rejected one leaves the three maps as they were |

## Left out

- Type inference, weak-head normalisation and definitional equality (`src/tc.rs` is not part of this model): whnf is the identity, a Pi is recognised syntactically, and the equality used to recognise members is an arbitrary function.
- Expansion.ExpandNestedMembers: the breadth-first loop carries a bound on the number of members scanned; `Ending.EndsExactly` says when some bound is enough. That declared types, which apply themselves to unchanged parameters only, always meet finitely many occurrences is not proved: it needs their typing.
- Expansion.ScanNested: the exact statement is for groups whose members are declared or mention a declared name, as every group the code builds does; for other lists it states what holds at the root.
- Recursor.BuildMinorType: contexts that hold the parameters and only some of the motives are excluded, because a motive variable computed there names no binder; its only caller never builds one.
- Codec.Encode: node positions are natural numbers; the 32-bit cast of a position is covered by requiring fewer than 2^32 nodes in the round trip.
- Parser.Parser.Run: asks of every line that its reads are reported or that its handler fails on a released slot, as every handler in the source does; a declaration's handler is any adaptive sequence of slot reads bounded by the number of fields of its line; what it does with the terms is a parameter.
- Lifetimes.Scan: lines arrive already classified; the JSON walker that classifies them is not modelled, and lines are fewer than 2^32.
- Overflow of 32-bit indices upwards; downward wrap of a shifted index is modelled.
- EngineRuns.Run: entries of unreachable nodes leave the table between calls, where references are dropped, and not in the middle of one; how the counts find them is modelled on the counted heap (`Reclaim`, `HeapRuns`).
- Discovery.ExpandTwice: takes a group as the checker accepts it (distinct universe parameters, shared by all types and constructors, `src/tc.rs:5991-6079`), and leaves the choice of the elimination universe to the caller.
- Recursor naming and elimination levels of `src/tc/recursor.rs`, and the checks on supplied recursors.
- File system, temporary files, seeking and write errors of the proof store; the strength of its hash.
- `src/nat.rs`, `src/nbe.rs`, `src/stats.rs`, `src/main.rs`, scripts, logging and environment flags: small case splits or process control.
