# A verified model of the GlueSQL engine core

GlueSQL turns SQL into statement plans and runs them on an exchangeable storage.  This project models
the part between the plan and the storage in Dafny 4.11 and proves what that part is for:

- **Constraints over whole runs.**  INSERT, UPDATE and DELETE keep every UNIQUE, PRIMARY KEY and foreign
  key constraint in every store of every run, also when the storage fails in the middle of a statement,
  inside transactions and after rollbacks (`Integrity`, `Reachable`, `Session`).
- **What is stored.**  INSERT stores exactly the values given, converted, or the defaults or NULL, under the
  right keys; UPDATE replaces exactly the chosen columns of exactly the chosen rows; DELETE removes exactly the
  chosen rows; and each is accepted exactly when the conditions spelled out hold (`StoredRows`).
- **Atomic statements, transactions and scripts** over a storage that keeps snapshots, with the exact outcomes
  when beginning, committing or rolling back fails (`Session`, `Engine`).
- **Joins.**  The planner takes an ON condition apart and the executor hashes; the rows are those of nested
  loops over the condition as written, for any chain of inner and left outer joins, and these are the pairs that
  satisfy it and the unmatched left rows with NULLs (`JoinPlanning`, `Joins`, `JoinMeaning`, `JoinFacts`,
  `JoinKeys`, `JoinRuns`, `JoinColumns`, `JoinLiterals`).
- **Primary-key lookup.**  Taking `id = value` out of a WHERE clause and reading one row selects what
  scanning, joining everything and filtering selects (`PrimaryKeys`, `LookupKeys`, `PrimaryKeyFacts`).
- **Aggregates.**  Binding aggregates to shared slots, grouping in one pass and reading the slots back means
  computing each aggregate over the rows of its group, HAVING included; planning depends on nothing but the
  plan without the slots it assigns; the exported values are the counts, sums, averages and variances of the
  values that count (`AggregatePlanning` to `AggregateMeaning`, `AggregateInputs`, `AggregateResults`,
  `Extremes`).
- **Order.**  `Key` is totally ordered, floats by the numbers they denote, the byte encoding embeds that order
  exactly on the pairs spelled out, ORDER BY is a succession of stable sorts in the given directions, and DISTINCT
  and paging do what they promise (`KeyOrder`, `FloatOrder`, `KeyBytes`, `DecimalBytes`, `StableSorting`,
  `ResultRows`).
- **Literals and conditions.**  Exactly which value a literal stands for in a column and without one, what `=` and
  AND compute, and what a column takes (`LiteralMeaning`, `ExpressionMeaning`).

Code that changes things step by step is modelled by methods and classes with loops (`Engine.Storage`,
`AggregatePlanning.Binder`, `Aggregation.State`, `Joins.LeftOuterRows`, the validation, planning and collecting
loops); each is proved against a function on values, and the lemmas are about that function.  Code made of
expressions is modelled by functions.

Comparing floats, comparing an integer with what is neither an integer nor a boolean, arithmetic, rounding a
number to a float or a decimal, reading text as a date, an address and the like, and all operators but AND and
`=` belong to foreign libraries.  They are parameters (`approx`, `Parsing`, `Semantics`, `Arithmetic`,
`Meaning`), so every theorem holds for all of them.  The engine's own dispatches are modelled: integers of all
widths compare as numbers, and a literal is compared, converted to a type and hashed by three different rules
(`Literals`).

Eleven promises turn out not to hold everywhere.  For each there is a failing input and the exact condition:

- The byte encoding does not keep the order of days before and after day zero of the common era, of intervals
  around zero and of addresses of two kinds: `KeyBytes.EncodingKeepsOrderExactlyWhenFaithful`, with
  `DatesAroundDayZero`, `IntervalsAroundZero` and `AddressesOfTwoKinds`.
- Different decimals can share one encoding, as 1.5 and 1.05 do, because it does not hold how many digits stand
  after the point: `DecimalBytes.DifferentDecimalsCollideExactlyWhen`, with `DifferentDecimalsCanCollide`.
- INSERT reports more rows than it adds when a batch repeats a primary key, whose last row wins:
  `DmlFacts.InsertCount`, with `RepeatedKeyAddsFewerRows`.
- UPDATE refuses to give a unique column a value that a replaced row already holds, even if it is the row
  itself and nothing changes: `UpdateUnique.UpdateAcceptedExactlyWhen`, with `UnchangedUniqueValueIsRefused`.
- DELETE ignores references of a table to itself: `DmlFacts.DeleteKeepsSelfReferencesExactlyWhen`, with
  `DeleteCanBreakSelfReference`.
- The planner lets the probe side of a hash join name columns of the joined relation.  The join then fails if
  the left row does not know the name (`JoinRuns.ComparingOwnColumnsFails`, and `JoinLiterals.ReversedLiteralFails`
  for `ON 1 = x`), and otherwise compares with the wrong row and yields wrong rows without an error
  (`JoinColumns.ShadowedProbeEmitsWrongRow`): `JoinColumns.ColumnJoinIsRightExactlyWhenProbeIsForeign`.
- A hash join loses rows whose keys are one number in two integer types:
  `JoinFacts.IntegersOfTwoTypesAgreeExactlyWhenUnequal`, with `JoinColumns.MixedWidthsLoseTheRow`.
- A hash join on a literal, such as `ON x = 1`, hashes the literal as INT, FLOAT or TEXT and loses the rows of
  columns of other types that equal it, without an error: `JoinLiterals.LiteralJoinIsRightExactlyWhenKept` and
  `LiteralProbedIsRightExactlyWhen`, with `NarrowColumnLosesTheRow`.
- A primary-key lookup does not select what a scan selects.  It fails on a NULL, where a scan finds nothing, and
  on an integer of another width, where a scan finds the row: `PrimaryKeys.LookupSucceedsExactlyWhen`, with
  `PrimaryKeyFacts.NullKeyFailsOnLookupOnly` and `OtherWidthFailsOnLookupOnly`.  Without any error, it finds rows
  that a scan does not find, for numbers on DECIMAL, text on BYTEA or INTERVAL, dates that are not in the ISO
  form and bytes on UUID: `PrimaryKeyFacts.PlainLookupIsRightExactlyWhen`, with `DecimalKeyFoundByLookupOnly`.
- MIN and MAX are NULL whenever the first value is NULL, so they depend on the order of rows:
  `Extremes.MinMaxIsRightExactlyWhen`, with `MinDependsOnRowOrder`.
- Aggregate planning keeps stale slots outside projection, HAVING and ORDER BY:
  `AggregateStaleSlots.StaleSlotsVanishExactlyWhen`, with `StaleSlotInWhereSurvives`.

`dafny verify dfyconfig.toml` checks the project.

## Model

| member | source | states |
|---|---|---|
| Data.EqualExactlyWhenHashedAlike | core/src/data/value.rs:815-908 | Two values are equal exactly when they feed the hasher the same data, at every nesting depth, NaN and signed zero included; so equality is an equivalence that hashing respects |
| Data.RowsEqualExactlyWhenHashedAlike | core/src/data/value.rs:815-908 | The same for rows, as DISTINCT and GROUP BY need it |
| Data.KeyEqCanonical | core/src/data/key.rs:28-54 | Key equality, which treats all NaNs and both zeros alike, is equality of canonical keys |
| Data.KeysInjective | core/src/data/key.rs:104-178 | Different values have different keys, because a value is recovered from its key |
| KeyOrder.CmpAntisymmetric | core/src/data/key.rs:56-96 | Swapping the arguments reverses `cmp`, over all variants |
| KeyOrder.CmpTransitive | core/src/data/key.rs:56-96 | `cmp` is transitive over all variants, so it is a total order |
| KeyOrder.NoneIsGreatest | core/src/data/key.rs:56-96 | No key comes after None |
| KeyOrder.CmpAgreesWithEqualityUnlessFloat | core/src/data/key.rs:56-96 | `cmp` answers Equal only for equal keys, floats apart |
| KeyOrder.VariantsAscend | core/src/data/key.rs:341-368 | Keys of different variants run from addresses up to INT8, with None last: the whole chain, neighbour by neighbour |
| FloatOrder.FloatKeysInOrder | core/src/data/key.rs:69-70 | `cmp` puts finite FLOAT keys in the order of the numbers their bits denote, -0 before +0 |
| FloatOrder.SmallFloatKeysInOrder | core/src/data/key.rs:69-70 | The same for FLOAT32 |
| FloatOrder.FloatKeysAtTheEnds | core/src/data/key.rs:69-70 | Infinities lie beyond all finite floats and NaNs beyond the infinities, on the side of their sign |
| FloatOrder.SmallFloatKeysAtTheEnds | core/src/data/key.rs:69-70 | The same for FLOAT32 |
| FloatOrder.FiniteFloatsEqualExactlyWhen | core/src/data/value.rs:829-830 | Finite floats are equal values exactly when their bits denote one number |
| FloatOrder.SmallFiniteFloatsEqualExactlyWhen | core/src/data/value.rs:829-830 | The same for FLOAT32 |
| KeyBytes.ToBeOrder | core/src/data/key.rs:184-338 | Big-endian bytes of one width compare as the numbers do |
| KeyBytes.SignedOrder | core/src/data/key.rs:184-338 | Two's complement bytes compare as the numbers do when both have one sign, and in reverse otherwise |
| KeyBytes.EncodingKeepsOrderExactlyWhenFaithful | core/src/data/key.rs:179-338 | Byte order of the encoding equals `cmp` exactly on faithful pairs: always for Bool, all integers, Str, Bytea, Uuid and Time, conditionally for Date, Timestamp, Interval and Inet, and against None |
| KeyBytes.EncodingInjectiveOnFaithfulPairs | core/src/data/key.rs:179-338 | Faithful pairs of different keys have different encodings |
| KeyBytes.EncodingsMeetExactlyWhen | core/src/data/key.rs:179-338 | Faithful or not, two keys of one column share an encoding exactly when they are equal, or zero months and zero microseconds, or None and the byte 1 |
| KeyLayout.EncodingHoldsKey | core/src/data/key.rs:179-338 | Every key but floats and decimals is encoded, and its bytes hold it, position by position: tag, sign and number of the width of the type, text, days, seconds and nanoseconds, months and microseconds |
| KeyBytes.DatesAroundDayZero | core/src/data/key.rs:291-295 | Two dates whose bytes are not in their order |
| KeyBytes.IntervalsAroundZero | core/src/data/key.rs:320-332 | Two such intervals |
| KeyBytes.AddressesOfTwoKinds | core/src/data/key.rs:287-290 | Two such addresses |
| DecimalBytes.DecimalEncodingsMeetExactlyWhen | core/src/data/key.rs:266-280 | Two decimals share an encoding exactly when sign, whole part and the digits after the point agree |
| DecimalBytes.CmpIsKeyOrder | core/src/data/key.rs:56-96 | Comparing decimals by their digits is `cmp` of the keys of the numbers they denote |
| DecimalBytes.NumberIsMantissaOverScale | core/src/data/key.rs:266-280 | The number is the mantissa with its sign divided by the power of ten of the scale |
| DecimalBytes.DifferentDecimalsCollideExactlyWhen | core/src/data/key.rs:266-280 | They are different numbers exactly when besides they differ in the number of these digits, not all zero |
| DecimalBytes.DifferentDecimalsCanCollide | core/src/data/key.rs:266-280 | 1.5 and 1.05 share an encoding |
| DecimalBytes.DecimalOrderKeptExactlyWhenFaithful | core/src/data/key.rs:266-280 | The encoding orders two decimals as `cmp` does exactly when their signs differ and not both are zero; or the whole parts differ, and if negative none of them is zero; or else the digits after the point are in the order of the numbers, and if negative none or both are zero |
| DecimalBytes.OneScaleInOrder | core/src/data/key.rs:266-280 | Positive decimals of one scale always are such a pair |
| StableSorting.StableSortMeetsPromise | core/src/executor/sort.rs:141-146 | The sort orders its input, permutes it and keeps the order of ties |
| StableSorting.StableSortUnique | core/src/executor/sort.rs:141-146 | That promise determines the result, so it holds of any stable sort |
| StableSorting.SortBySuccessiveComparisons | core/src/executor/sort.rs:149-165 | Sorting by the less significant order first and then by the more significant is sorting by their lexicographic composition |
| ResultRows.CompareKeys | core/src/executor/sort.rs:149-165 | The comparison loop with its early exits: the first term in which two rows differ decides by `cmp`, in reverse exactly for DESC, and rows that differ in no term are equal |
| ResultRows.SortedByTerms | core/src/executor/sort.rs:65-136 | A row has sort keys exactly when every term gives one, and they are these: the column at the position counted from one, or the value of the expression on the context and the row |
| ResultRows.ApplySort | core/src/executor/sort.rs:46-146 | Sorting succeeds exactly when every term resolves and evaluates on the context of every row, and yields the stably sorted rows |
| ResultRows.KeyRow | core/src/executor/sort.rs:65-136 | The keys of one row exist exactly when all positions are in the projection and all expressions evaluate on the joined row, its aggregates and the projected row |
| ResultRows.OrderByIsSuccessionOfStableSorts | core/src/executor/sort.rs:120-165 | Multi-key ORDER BY with mixed directions equals stable sorts by single keys from the last to the first |
| ResultRows.SortByIsTotalPreorder | core/src/executor/sort.rs:149-165 | On rows keyed by one ORDER BY the comparison reverses when swapped and is transitive |
| ResultRows.OrderByOutput | core/src/executor/sort.rs:141-165 | The output is an ordered permutation of the input, of its length, with ties in their order; `OrderByDirection` says which order |
| ResultRows.OrderByDirection | core/src/executor/sort.rs:149-165 | Of any two output rows, in the first term in which they differ the earlier one has the smaller key if the term says ASC or nothing, and the larger one if it says DESC |
| ResultRows.ApplyDistinct | core/src/executor/select.rs:31-37 | The loop with the seen-set yields exactly the first occurrences |
| ResultRows.DistinctOutputHasNoEqualRows | core/src/executor/select.rs:31-37 | No two rows of the output are equal |
| ResultRows.DistinctOutputRepresents | core/src/executor/select.rs:31-37 | Every input row equals an output row, no later than its own place |
| ResultRows.PagesConcatenate | core/src/executor/limit.rs:34-44 | Consecutive pages of LIMIT and OFFSET put together are the rows without gaps or repetitions |
| ResultRows.WindowIs | core/src/executor/limit.rs:34-44 | The window holds exactly the rows from OFFSET on, or from the first, as many as LIMIT allows, or all |
| ResultRows.Finish | core/src/executor/select.rs:190-201 | ORDER BY, then DISTINCT, then the window, and when it fails |
| ResultRows.FinishedRows | core/src/executor/select.rs:190-201 | The rows that `Finish` yields stand in the order of ORDER BY, each term in its direction; with DISTINCT no two are equal; and before the window every projected row equals a kept one |
| ValuesLists.RowsWithLabels | core/src/executor/select.rs:39-77 | VALUES succeeds exactly when some rows of one width exist in which every cell converts to the type its column has fixed before, and yields those rows |
| ValuesLists.ColumnsHaveOneType | core/src/executor/select.rs:39-77 | All non-null values of a column have one type, that of the first of them, however many NULLs precede it |
| ValuesLists.ColumnTypeIs | core/src/executor/select.rs:56-70 | The type of a column is that of its first value that is not NULL, and there is none exactly when all are NULL |
| ValuesLists.CellExactlyWhen | core/src/executor/select.rs:56-70 | A list contributes exactly what a nullable column of that type takes, or before it is known what the expression is worth by itself |
| ValuesLists.LabelsAreNumbered | core/src/executor/select.rs:39-44 | The labels are `column` and the decimal digits of the place counted from one, so no two are equal |
| Store.ScanListsRows | storages/memory-storage/src/lib.rs:34-40 | The scan lists each stored row once, in strictly increasing key order |
| Store.LastWriteStays | storages/memory-storage/src/lib.rs:137-145 | Of several rows written under one key the last stays |
| Validate.CreateUniqueConstraints | core/src/executor/validate.rs:155-177 | The constraints exist exactly when the new rows have pairwise distinct non-null keys in every checked column, and then remember exactly those keys |
| Validate.CheckTable | core/src/executor/validate.rs:138-149 | The scan of stored rows passes exactly when none holds a remembered key |
| Validate.ValidateByLookup | core/src/executor/validate.rs:119-131 | The primary-key path accepts exactly the batches whose keys are not stored |
| Validate.ValidateByScan | core/src/executor/validate.rs:132-151 | The scanning path accepts exactly the batches that clash neither among themselves nor with stored rows |
| Validate.ValidateUnique | core/src/executor/validate.rs:79-153 | The choice of the path and what it accepts, both directions |
| DmlFacts.ScanAgreesWithLookup | core/src/executor/validate.rs:92-153 | On a consistent table both paths accept the same batches of pairwise distinct primary keys |
| UpdateUnique.UpdateAcceptedExactlyWhen | core/src/executor/validate.rs:132-151 | In a consistent store, an UPDATE that is otherwise in order is accepted exactly when in every assigned unique column the result has no clash and no new row takes a key that a replaced row held |
| UpdateUnique.UnchangedUniqueValueIsRefused | core/src/executor/validate.rs:138-149 | `SET mail = mail` leaves the store as it is and is refused |
| Dml.FilledRowFits | core/src/executor/insert.rs:314-380 | A row from `fill_values` has one value per column definition, of its type and non-null where required; `StoredRows.FilledExactlyWhen` says which value |
| Dml.PermutedColumnsFillTheSameRow | core/src/executor/insert.rs:314-380 | Permuting distinct column names together with their values fills the same row |
| StoredRows.FilledExactlyWhen | core/src/executor/insert.rs:314-380 | One list of VALUES builds a row exactly when its length and names are in order and the row holds in each column the value named for it, or standing at its place, converted to the column; else the converted default; else NULL where that is allowed; otherwise it fails |
| StoredRows.InsertWrites | core/src/executor/insert.rs:60-194 | INSERT is accepted exactly when its source has such rows, these pass the uniqueness check and refer to stored rows; it writes exactly them, in order, under their own primary keys or to be given generated ones, and reports their number |
| StoredRows.InsertNeedsRows | core/src/executor/insert.rs:60-194 | A source without rows, because a list does not build one or the query fails, is refused |
| Executor.ValidateForeignKeys | core/src/executor/insert.rs:197-246 | The nested loops accept exactly the rows whose every non-null referencing value is a stored primary key |
| Executor.CheckAssignments | core/src/executor/update.rs:47-73 | UPDATE is refused exactly when it assigns an unknown or a primary-key column |
| Executor.ApplyUpdate | core/src/executor/update.rs:75-160 | One row is updated exactly when all assignments convert and refer, and gets the first assignment to each column; `StoredRows.UpdatedCell` says which values these are |
| StoredRows.RowAcceptedExactlyWhen | core/src/executor/update.rs:75-132 | A row is accepted exactly when every assigned column exists, every assigned expression evaluates on the old row to a value that fits its column, and that value refers to a stored row or is NULL |
| StoredRows.UpdatedCell | core/src/executor/update.rs:134-160 | Column by column the new row holds what the first assignment to the column evaluates to on the old row, or else the old value |
| Executor.CollectUpdates | core/src/executor/execute.rs:215-222 | The collected rows are the updates of exactly the selected rows, and when collecting fails |
| Executor.FindMention | core/src/executor/delete.rs:55-75 | Finds whether a referencing row mentions the value |
| Executor.CheckReferencings | core/src/executor/delete.rs:42-80 | A row passes exactly when no other table mentions it |
| Executor.CollectDeletions | core/src/executor/delete.rs:31-85 | The collected keys are those of exactly the selected rows, and when collecting fails |
| Integrity.InsertKeepsConsistency | core/src/executor/insert.rs:60-194 | However many rows of an accepted INSERT reach the storage, all constraints still hold |
| Reachable.UpdateKeepsConsistency | core/src/executor/execute.rs:189-240 | The same for UPDATE, though only assigned columns are validated |
| Reachable.DeletableRowIsUnreferenced | core/src/executor/delete.rs:42-80 | A row that passes the check is referenced by no other table |
| Reachable.DeleteKeepsConsistency | core/src/executor/delete.rs:26-91 | The same for DELETE |
| Reachable.StepKeepsConsistency | core/src/executor/execute.rs:134-245 | Every statement, accepted or refused or cut off by the storage, keeps all constraints |
| Reachable.RunsStayConsistent | core/src/executor/execute.rs:134-245 | From a consistent store, every store of every run of statements is consistent: uniqueness, rows under their own primary key, and references between different tables |
| DmlFacts.InsertCount | core/src/executor/insert.rs:60-98 | INSERT adds as many rows as it reports exactly when the new primary keys are pairwise distinct |
| DmlFacts.RepeatedKeyAddsFewerRows | core/src/executor/validate.rs:119-131 | An accepted batch that repeats a key: two rows reported, one added |
| DmlFacts.UpdateFrame | core/src/executor/execute.rs:206-240 | UPDATE keeps the key set and every row that is not selected, and replaces every selected one; `StoredRows.UpdateStores` says by what |
| StoredRows.UpdateStores | core/src/executor/execute.rs:189-240 | An accepted UPDATE, carried out: the same keys, rows that are not chosen as before, in chosen rows exactly the assigned columns replaced by the values of their first assignments, and all other tables as before |
| DmlFacts.UpdateReportsSelectedRows | core/src/executor/execute.rs:230-240 | UPDATE reports the number of rows on which the selection is true |
| DmlFacts.UpdateTouchesAssignedColumnsOnly | core/src/executor/update.rs:134-160 | Columns that are not assigned keep their values |
| DmlFacts.DeleteExact | core/src/executor/delete.rs:42-91 | DELETE removes exactly the selected rows, and the count before is the count after plus the reported one |
| StoredRows.DeleteStores | core/src/executor/delete.rs:26-91 | An accepted DELETE, carried out: exactly the rows that are not chosen, as before, all other tables as before, and the number of chosen rows reported |
| StoredRows.DeleteAcceptedExactlyWhen | core/src/executor/delete.rs:26-91 | In a consistent store DELETE is accepted exactly when the condition fails on no row and no row of another table holds the primary key of a chosen row in a referencing column |
| DmlFacts.DeleteTwice | core/src/executor/delete.rs:42-91 | Repeating a DELETE with a row-local condition finds nothing |
| DmlFacts.InsertKeepsSelfReferences | core/src/executor/insert.rs:197-246 | INSERT keeps references of a table to itself |
| DmlFacts.UpdateKeepsSelfReferences | core/src/executor/update.rs:75-132 | So does UPDATE |
| DmlFacts.DeleteKeepsSelfReferencesExactlyWhen | core/src/store.rs:47-69 | DELETE keeps them exactly when no row that stays points to a row that goes |
| DmlFacts.DeleteCanBreakSelfReference | core/src/store.rs:47-69 | An example where an accepted DELETE leaves such a reference dangling |
| Session.AutocommittedStatementIsAtomic | core/src/executor/execute.rs:106-132 | Outside a transaction: a statement succeeds exactly when begin, statement and commit do; a failed one leaves the state from before exactly when its rollback answers Ok, and otherwise an open transaction that still remembers the store from before; when only the commit failed, the whole change is there, for good if the lock was released and else in the open transaction |
| Session.NextStatementJoinsWhatIsOpen | storages/sled-storage/src/transaction.rs:29-47 | What a failed commit or rollback leaves open, the next statement closes for good with its own success, or undoes with its own rollback |
| Session.SessionsStaySound | core/src/executor/execute.rs:106-132 | Every store of every session is consistent, inside transactions, after rollbacks and after failures of begin, commit and rollback |
| Session.RollbackUndoesTransaction | core/src/executor/execute.rs:179-182 | ROLLBACK undoes every statement since START TRANSACTION exactly when it answers Ok; else the transaction is still open |
| Session.PlanAll | core/src/glue.rs:26-50 | A script is planned exactly when each of its statements is, before any runs |
| Session.FailedScriptAppliedItsPrefix | core/src/glue.rs:66-80 | A script of statements outside a transaction that fails has applied every statement before the failing one whole and for good, and the failing one has exactly the outcomes of a single failing statement |
| Engine.Storage.InsertData | storages/memory-storage/src/lib.rs:137-145 | Writes a prefix of the rows, all of them exactly on success |
| Engine.Storage.AppendData | storages/memory-storage/src/lib.rs:125-135 | Appends a prefix of the rows under fresh generated keys |
| Engine.Storage.DeleteData | storages/memory-storage/src/lib.rs:147-157 | Removes a prefix of the keys |
| Engine.Storage.InsertRows | core/src/executor/insert.rs:60-194 | Changes the storage by one step of INSERT, which writes what `StoredRows.InsertWrites` says |
| Engine.Storage.UpdateRows | core/src/executor/execute.rs:189-240 | Changes the storage by one step of UPDATE, which writes what `StoredRows.UpdateStores` says |
| Engine.Storage.DeleteRows | core/src/executor/delete.rs:26-91 | Changes the storage by one step of DELETE, which removes what `StoredRows.DeleteStores` says |
| Engine.Storage.BeginTransaction | storages/sled-storage/src/transaction.rs:29-47 | Opens, joins or refuses a transaction, or fails to register it |
| Engine.Storage.CommitTransaction | storages/sled-storage/src/transaction.rs:88-117 | Closes the transaction; or fails before that, or after it when collecting garbage |
| Engine.Storage.RollbackTransaction | storages/sled-storage/src/transaction.rs:49-86 | Restores the store from before the transaction and closes it; or fails before or after restoring, and stays open |
| Engine.Storage.ExecuteStatement | core/src/executor/execute.rs:106-132 | Runs a statement between begin and commit or rollback |
| Engine.Storage.ExecuteCommand | core/src/executor/execute.rs:106-182 | Runs a statement or a transaction command |
| Engine.Storage.ExecuteScript | core/src/glue.rs:66-80 | Nothing runs if planning fails anywhere; otherwise the commands run in order up to the first failure |
| Expressions.AgreeingContextsEvaluateAlike | core/src/executor/evaluate.rs:48-130 | Evaluation depends on a context only through the names the expression looks up |
| Expressions.SplitPreservesMeaning | core/src/plan/join.rs:267-280 | A condition holds exactly when all its conjuncts hold, with the engine's AND that is NULL as soon as one side is |
| Expressions.MergePreservesMeaning | core/src/plan/join.rs:282-288 | So does the merged conjunction |
| ExpressionMeaning.AndIs | core/src/executor/evaluate/expr.rs:25-68 | AND is NULL exactly when both sides evaluate and one is NULL, whatever the other is; else true or false exactly as two booleans make it; and fails otherwise |
| ExpressionMeaning.ConjunctionHoldsExactlyWhen | core/src/executor/filter.rs:45-58 | A row passes a conjunction exactly when it passes both sides, whatever these evaluate to |
| ExpressionMeaning.EqualsIs | core/src/data/value.rs:83-109 | `=` of two values is NULL exactly when one is; on one non-float key type it is identity, on integers of any widths equality of numbers, on a date and a timestamp being its first instant |
| ExpressionMeaning.EqualsLiteralIs | core/src/executor/evaluate/evaluated/eq.rs:16-106 | `=` of a value and a literal or sliced text, either way round, is true exactly when the literal stands for the value in a column of its type |
| ExpressionMeaning.LiteralsEqualExactlyWhen | core/src/executor/evaluate/evaluated/eq.rs:16-53 | `=` of two literals or sliced texts is true exactly when they are one number or one text |
| ExpressionMeaning.TakenExactlyWhen | core/src/executor/evaluate/evaluated.rs:595-618 | A column takes exactly: of a literal what it stands for, of bytes the UUID they are read as, and any other value as it is, if it has the type or is a NULL that is allowed |
| ExpressionMeaning.WorthExactlyWhen | core/src/executor/evaluate/evaluated.rs:52-80 | Without a type: what a literal is read as, sliced text as text, a value as it is |
| LiteralMeaning.SameNumberExactlyWhen | core/src/executor/evaluate/evaluated/eq.rs:16-19 | Two number literals are equal exactly when they denote one number, however they are written |
| LiteralMeaning.LiteralConvertsExactlyWhen | core/src/executor/evaluate/evaluated/convert/number.rs:27-94 | For every type, literal and value: the literal converts to the value exactly when it stands for it, given value by value: integers by their number written without a point, addresses by number or text, IPv4 where it fits, and so on |
| LiteralMeaning.TextConvertsExactlyWhen | core/src/executor/evaluate/evaluated/convert/text.rs:29-56 | The same for text alone |
| LiteralMeaning.UntypedLiteralExactlyWhen | core/src/executor/evaluate/evaluated.rs:52-80 | Without a type a number is an INT exactly when written as one in range, else a finite FLOAT; text is TEXT; nothing else |
| LiteralMeaning.LiteralEqualsExactlyWhen | core/src/executor/evaluate/evaluated/eq.rs:56-106 | On integers, text, addresses, times and UUIDs comparing with a literal and converting it agree: equal exactly when it stands for the value |
| LiteralMeaning.LiteralComparesExactlyWhen | core/src/executor/evaluate/evaluated/eq.rs:56-106 | The other types: NULL gives NULL, dates take the ISO form only, floats compare as IEEE 754 has it, and all others equal no literal |
| JoinPlanning.PlanJoinCondition | core/src/plan/join.rs:181-251 | The loop with its candidate and its two lists takes the first usable equality and splits the rest |
| JoinPlanning.ScopesKnow | core/src/plan/join.rs:188-198 | A name is known to the build side exactly through the relation to join or the enclosing query, and to the probe side through the relations joined so far as well |
| JoinPlanning.PlanIs | core/src/plan/join.rs:181-251 | The whole plan: a nested loop over all conjuncts exactly when none can drive a hash join; else the first that can gives key and value, the filter consists of exactly the other conjuncts that the build side can evaluate, and the constraint of exactly the rest, in the order of the source |
| JoinPlanning.FindEvaluableSplits | core/src/plan/join.rs:326-357 | Exactly the conjuncts that the scope can evaluate are split off, in their order |
| JoinPlanning.FindEvaluableKeepsMeaning | core/src/plan/join.rs:326-357 | Splitting off what the relation alone can evaluate loses nothing |
| JoinPlanning.PlanKeepsMeaning | core/src/plan/join.rs:181-251 | Equality, build filter and residual constraint together hold exactly when the ON condition holds |
| Joins.LeftOuterRows.Next | core/src/executor/join.rs:43-56 | Yields the first remaining item and leaves the rest |
| Joins.LeftOuterRows.Drain | core/src/executor/join.rs:27-56 | Run to exhaustion: the inner rows, or exactly one row of NULLs when there are none |
| Joins.BuildTable | core/src/executor/join.rs:231-278 | The table holds, under each key, the rows with that key that pass the filter, in order and without NULL keys; and when building fails |
| Joins.JoinRows | core/src/executor/join.rs:87-215 | One clause applied to all left rows, errors included: the rows that `JoinMeaning.NestedLoopIs` describes if it is a nested loop, else those of the hash table |
| Joins.ApplyJoins | core/src/executor/join.rs:71-84 | The clauses in order, each on the rows of the previous one |
| JoinMeaning.JoinContexts | core/src/executor/join.rs:115-143 | What names mean in a join: the ON condition sees the row of the relation, then the left row, then the enclosing query; the hash table is built without the left row; the result holds the row of the relation, then the left row |
| JoinMeaning.MatchesAre | core/src/executor/join.rs:280-299 | One left row contributes exactly the rows that satisfy the condition with it, each once and in their order, and among them the errors of those on which the condition fails |
| JoinMeaning.PaddedRowIs | core/src/executor/join.rs:121-133 | A left row without matches contributes nothing to an inner join and one row to a left outer join, in which every column of the relation, by its name or by alias and name, is NULL, and every other name means what it means in the left row |
| JoinMeaning.NestedLoopIs | core/src/executor/join.rs:87-215 | For every condition and all left rows: one part for each left row in order, which holds the pairs that satisfy the condition and the errors of those on which it fails or, for a left outer join without either, the row of NULLs; an error among the left rows stays where it was |
| JoinFacts.HashAgreesExactlyWhen | core/src/data/value.rs:83-109 | For keys of any two types: hashing agrees with `=` exactly when one is NULL; or both have one type, floats only where the foreign comparison is key equality; or they have two types and are integers of different numbers, no date with its midnight, and otherwise not called equal by the foreign comparison |
| JoinFacts.IntegersOfTwoTypesAgreeExactlyWhenUnequal | core/src/data/value/binary_op/integer/macros.rs:670-684 | Integers of two widths: exactly when they are different numbers |
| JoinKeys.LiteralAgreesExactlyWhen | core/src/executor/evaluate/evaluated/eq.rs:56-106 | For every key and every literal, whichever is the build side: hashing agrees with `=` exactly when the two are not equal or the literal is hashed as the type of the key (INT if written as an integer that fits, else a finite FLOAT, or TEXT), with the cases of each type spelled out |
| JoinKeys.ColumnAgreesExactlyWhenKept | core/src/executor/evaluate/evaluated.rs:52-80 | For every column type but floats: hashing agrees on all values of the column exactly when the literal is hashed as that type or equals none of its values |
| JoinKeys.LiteralsAgreeExactlyWhen | core/src/executor/evaluate/evaluated.rs:52-80 | Two literals agree always if one is text or both are INT; if one is INT, exactly when the numbers differ; otherwise exactly when being one number and rounding to one finite FLOAT coincide |
| JoinKeys.OneTypeAgrees | core/src/executor/evaluate/evaluated.rs:85-106 | Values, literals and trimmed text that are hashed as one type other than a float agree with their hashes |
| JoinFacts.ProbeNameStableExactlyWhenForeign | core/src/plan/join.rs:194-198 | A probe column means the same without the joined row exactly when the relation does not provide it |
| JoinFacts.BuildNameStableExactlyWhen | core/src/plan/join.rs:188-193 | A build column means the same without the left row exactly when the relation provides it, the left row does not, or both contexts agree |
| JoinFacts.PairMatches | core/src/executor/join.rs:144-206 | A row is found under the probe key and passes the residual exactly when the pair satisfies the ON condition |
| JoinFacts.PlannedJoinIsNestedLoop | core/src/executor/join.rs:87-278 | The planned join yields the same rows in the same order as the nested loop over the whole condition, inner and left outer, NULL keys included |
| JoinRuns.SeparatedJoinIsNestedLoop | core/src/plan/join.rs:114-179 | The same from conditions on names: the probe side names nothing of the joined relation, the build side nothing of the left rows |
| JoinRuns.TopLevelPlanIsSeparated | core/src/plan/join.rs:188-198 | Outside an enclosing query the build side always meets its condition |
| JoinRuns.PlanJoins | core/src/plan/join.rs:92-112 | Each join of a FROM clause is planned with the relations before it in scope |
| JoinRuns.PlannedAt | core/src/plan/join.rs:92-112 | Each join keeps its relation and operator and is planned from its condition with the names known there, or is a nested loop without one |
| JoinRuns.NamesKnownAt | core/src/plan/join.rs:92-112 | The build side of a join knows exactly the columns of its relation and of the enclosing query, the probe side besides these the columns of the relations before it, where schemas are known |
| JoinRuns.KnownBeforeExactlyWhen | core/src/plan/context.rs:47-57 | A column is known before a join exactly when a relation before it, or the first table, has it and its schema is known |
| JoinRuns.AliasKnownBeforeExactlyWhen | core/src/plan/context.rs:59-72 | An aliased column exactly when the nearest relation of that alias has it |
| JoinRuns.PlannedFromClauseIsReference | core/src/executor/join.rs:71-84 | Planning and running any number of joins gives the rows of the nested loops as written |
| JoinRuns.OuterJoinExtendsInner | core/src/executor/join.rs:115-133 | A left outer join holds the inner rows as a subsequence and besides them one row of NULLs per unmatched left row, so the counts add up; `JoinMeaning.PaddedRowIs` says what that row is |
| JoinRuns.OwnProbeColumnAlwaysFails | core/src/executor/join.rs:171-181 | A probe column that only the joined relation provides fails on every left row |
| JoinRuns.OwnColumnsAreHashed | core/src/plan/join.rs:290-324 | `ON A.x = A.y` is planned as a hash join with such a column |
| JoinRuns.ComparingOwnColumnsFails | core/src/plan/join.rs:194-198 | An example where the planned join fails and the nested loop yields a row |
| JoinColumns.ColumnJoinIsRightExactlyWhenProbeIsForeign | core/src/plan/join.rs:181-251 | For an equality of two columns of one hashable type with at least two values, planned as a hash join, every left row and both operators: the planned join equals the nested loop for all rows of the relation's schema exactly when the relation does not provide the probe column |
| JoinColumns.ShadowedProbeEmitsWrongRow | core/src/plan/join.rs:194-198 | `B(y) JOIN A(x, y) ON x = y`: the planned join yields a pair that does not satisfy the condition |
| JoinColumns.MixedWidthsLoseTheRow | core/src/executor/join.rs:171-205 | `B(y INT8) JOIN A(x INT) ON x = y`: the planned join loses the row of the nested loop |
| JoinColumns.TypedFromClauseIsReference | core/src/executor/join.rs:71-84 | A top-level FROM clause, planned and run, gives the rows of the nested loops as written, if probe sides name nothing of the joined relation, what is hashed, literals included, is NULL or of one non-float type, and conjuncts do not fail |
| JoinLiterals.LiteralPlan | core/src/plan/join.rs:290-324 | `x = literal` is always hashed; the literal is the probe side for a column of the joined relation and the build side for one of the left row |
| JoinLiterals.LiteralJoinIsRightExactlyWhenKept | core/src/executor/join.rs:171-205 | `ON x = literal` with a column of the joined relation, any non-float key type, every left row and both operators: the planned join equals the nested loop for all rows of the schema exactly when the literal has a value without a type and the column type keeps it |
| JoinLiterals.LiteralProbedIsRightExactlyWhen | core/src/executor/join.rs:171-205 | The same with a column of the left row: exactly when literal and value are keys whose hashes agree |
| JoinLiterals.NarrowColumnLosesTheRow | core/src/plan/join.rs:303-321 | `B JOIN A(x INT8) ON x = 1`: the planned join loses the row of the nested loop |
| JoinLiterals.ReversedLiteralFails | core/src/plan/join.rs:303-312 | `ON 1 = x` makes x the probe side and fails on every left row that does not know it |
| PrimaryKeys.NotFoundChangesNothing | core/src/plan/primary_key.rs:115-219 | Without a usable equality the condition stays as it was |
| PrimaryKeys.FoundExactlyWhen | core/src/plan/primary_key.rs:115-219 | A lookup is planned exactly when some conjunct compares the primary key with an expression without names, and it looks for the other side of the first such conjunct |
| PrimaryKeys.SelectionKeepsMeaning | core/src/plan/primary_key.rs:115-219 | The equality taken out and the residual condition together mean the whole condition |
| PrimaryKeys.LookupSucceedsExactlyWhen | core/src/executor/fetch.rs:120-149 | The lookup succeeds exactly when what is looked for, a literal or a value, converts to a key of the column's type |
| PrimaryKeys.RowShows | core/src/executor/context/row_context.rs:36-80 | A fetched row shows its columns by name and by alias and name, and nothing else |
| PrimaryKeys.FilterKeeps | core/src/executor/filter.rs:29-58 | Filtering keeps a row on which the condition holds, drops one on which it is false or NULL, and yields the error where it fails; errors stay |
| PrimaryKeys.JoinsAreAdditive | core/src/executor/join.rs:71-84 | Joins treat left rows independently: the rows of a concatenation are the concatenated rows |
| PrimaryKeyFacts.FilterPushesBelowJoins | core/src/plan/primary_key/lookup.rs:58-63 | Filtering all joined rows equals joining only the rows with the key and filtering by the rest, for inner and left outer joins |
| PrimaryKeyFacts.ScanHits | core/src/executor/insert.rs:178-194 | A table that satisfies its constraints holds the value at most once, under its key |
| LookupKeys.ScanComparesExactlyWhen | core/src/executor/evaluate/evaluated/eq.rs:56-106 | For everything that converts to a key of the column's type: a scan compares with the converted value exactly when it is no number on DECIMAL, no text on BYTEA or INTERVAL, no date text that is not ISO and no bytes on UUID; otherwise it finds no value equal |
| PrimaryKeyFacts.LookupSelectsWhatScanSelects | core/src/executor/fetch.rs:120-159 | Whenever the lookup of a value or a literal does not fail: scan, joins and the whole condition select exactly what the lookup, joins and the residual condition select if that holds, and nothing otherwise |
| PrimaryKeyFacts.PlainLookupIsRightExactlyWhen | core/src/executor/fetch.rs:120-159 | For one table and `WHERE id = value`, in every consistent store: the lookup, if it does not fail, selects what the scan selects exactly when that holds or no such row is stored |
| PrimaryKeyFacts.DecimalKeyFoundByLookupOnly | core/src/executor/evaluate/evaluated/convert/number.rs:87-91 | `WHERE id = 1` on a DECIMAL key: the lookup finds the row, the scan nothing |
| PrimaryKeyFacts.LookupByValueSelectsWhatScanSelects | core/src/executor/fetch.rs:120-159 | In every consistent store the lookup of a value of the column's type does not fail and selects what scan, joins and the whole condition select |
| PrimaryKeyFacts.NullKeyFailsOnLookupOnly | core/src/executor/fetch.rs:120-149 | `id = NULL` is an error by lookup and merely false by scan |
| PrimaryKeyFacts.OtherWidthFailsOnLookupOnly | core/src/executor/fetch.rs:120-149 | An integer of another width is an error by lookup, while the scan finds the row with that number |
| AggregatePlanning.Binder.Entry | core/src/plan/aggregate.rs:205-220 | The map and the vector stay in step; an aggregate gets the slot of an equal one or a new slot |
| AggregatePlanning.Binder.Visit | core/src/plan/expr/visit.rs:98-112 | Children first, then the node; subqueries are not entered |
| AggregatePlanning.BindSelect | core/src/plan/aggregate.rs:200-241 | Projection, then HAVING, then ORDER BY share one list of aggregates |
| AggregatePlanning.RunPlanQuery | core/src/plan/aggregate.rs:94-121 | The parts are planned first, then bound |
| AggregatePlanFacts.PlannedSelectIsBound | core/src/plan/aggregate.rs:200-241 | Every aggregate of the bound clauses, nested ones included, has a slot in range whose entry is the aggregate itself; entries are pairwise different |
| AggregatePlanFacts.SlotsSharedExactlyWhenEqual | core/src/plan/aggregate.rs:206-217 | Two aggregates share a slot exactly when function, argument and DISTINCT agree |
| AggregatePlanFacts.EverySlotIsUsed | core/src/plan/aggregate.rs:211-217 | No slot is computed that the clauses do not use |
| AggregateErasure.PlanErasedQuery | core/src/plan/aggregate.rs:94-198 | Planning ignores the slots and lists it assigns, at every nesting depth |
| AggregateErasure.ErasePlannedQuery | core/src/plan/aggregate.rs:94-198 | Planning changes nothing else |
| AggregateErasure.SamePlanExactlyWhenSameStatement | core/src/plan/aggregate.rs:17-121 | Two statements have one plan exactly when they differ only in what planning assigns |
| AggregateErasure.PlanningIsIdempotent | core/src/plan/aggregate.rs:17-121 | Planning a planned statement changes nothing |
| AggregateStaleSlots.StaleSlotsVanishExactlyWhen | core/src/plan/aggregate.rs:123-198 | A statement with arbitrary slots gets the plan of the clean one exactly when no slot stands where planning does not bind |
| AggregateStaleSlots.StaleSlotInWhereSurvives | core/src/plan/aggregate.rs:137-139 | An example: a slot in WHERE survives |
| AggregateValues.RunningDescribesRelevant | core/src/executor/aggregate/state.rs:58-273 | Value by value with a set of seen values, each aggregate arrives at what its relevant values make together, and fails exactly when a needed sum does not exist |
| AggregateValues.AggregateIsTotal | core/src/executor/aggregate/state.rs:275-308 | The exported value is the total over the first occurrences of the non-null or all values at once, with the value of no rows; `AggregateResults` says what these totals are |
| AggregateResults.CountIs | core/src/executor/aggregate/state.rs:275-308 | COUNT exports the number of places that count, given by an increasing list of exactly those: all rows for COUNT(*), the values that are not NULL for COUNT(x), with DISTINCT the first of each class of equal ones; beyond 64 bits it fails |
| AggregateResults.CountRows | core/src/executor/aggregate/state.rs:275-308 | COUNT(*) is the number of rows |
| AggregateResults.SumExportedExactlyWhen | core/src/executor/aggregate/state.rs:275-308 | SUM exports exactly what the values that count add up to one by one, NULL for none, and fails where no such sum exists |
| AggregateResults.AverageExportedExactlyWhen | core/src/executor/aggregate/state.rs:275-308 | AVG exports exactly that sum as a float divided by the number of these values |
| AggregateResults.VarianceExportedExactlyWhen | core/src/executor/aggregate/state.rs:275-308 | VARIANCE exports exactly (n times the sum of squares, minus the square of the sum) divided by n squared |
| AggregateResults.DeviationExportedExactlyWhen | core/src/executor/aggregate/state.rs:275-308 | STDEV exports exactly the square root of the variance |
| AggregateInputs.ArgumentsExactlyWhen | core/src/executor/aggregate/state.rs:366-398 | An aggregate takes one value of each row in order: its argument on the row inside the enclosing query, the list of all values in sight for COUNT(DISTINCT *), NULL for COUNT(*) |
| AggregateInputs.WholeRowsEqualExactlyWhen | core/src/executor/context/row_context.rs:97-116 | COUNT(DISTINCT *) tells two rows apart exactly when some relation of the join holds different values in them |
| ValueOrder.CmpOrdersOneType | core/src/data/value.rs:111-143 | On values of one non-float type, and intervals of one kind, `evaluate_cmp` is a total order |
| ExpressionMeaning.IntegersComparedExactlyWhen | core/src/data/value/binary_op/integer/macros.rs:687-700 | Integers compare as numbers exactly when the type of the left one holds the right one, and otherwise not at all |
| ExpressionMeaning.InstantsCompared | core/src/data/value.rs:111-143 | A date and a timestamp compare as instants, the date at its first one, either way round |
| ExpressionMeaning.OthersComparedExactlyWhen | core/src/data/value.rs:111-143 | All other values are compared exactly when they have one type with an order; months and microseconds are not compared |
| Extremes.ExtremeIsRightExactlyWhen | core/src/executor/aggregate/state.rs:210-237 | Whenever the non-NULL values are ordered: the result is an extreme of them exactly when the first value is not NULL, or all are |
| Extremes.MinMaxIsRightExactlyWhen | core/src/executor/aggregate/state.rs:210-237 | MIN and MAX of a column, with or without DISTINCT: the same, with no assumption on the comparison |
| Extremes.MinDependsOnRowOrder | core/src/executor/aggregate/state.rs:210-223 | MIN of NULL, 5 is NULL and MIN of 5, NULL is 5 |
| Aggregation.State.Apply | core/src/executor/aggregate/state.rs:349-364 | Finds or creates the group of a row and its representative |
| Aggregation.State.AccumulateSlot | core/src/executor/aggregate/state.rs:366-413 | A slot that stands for the rows so far stands for them and the new row afterwards, and fails exactly when these have no running value |
| Aggregation.GroupByHaving | core/src/executor/aggregate.rs:74-113 | The loop computes the filter that `HavingKeepsExactly` describes, and fails at the first group where the condition fails |
| AggregateMeaning.HavingKeepsExactly | core/src/executor/aggregate.rs:74-113 | HAVING keeps, in order, exactly the groups on which it is true |
| AggregateApply.ExportGroups | core/src/executor/aggregate/state.rs:415-443 | Exports all groups in order |
| AggregateApply.GroupItems | core/src/executor/aggregate.rs:43-71 | The loop over rows and slots succeeds exactly when all groups have all their values, and yields them |
| AggregateApply.Apply | core/src/executor/aggregate.rs:21-72 | The whole of `apply`, with rows passing through when there is nothing to aggregate |
| AggregateInputs.RowsPassThrough | core/src/executor/aggregate.rs:21-42 | Without GROUP BY and aggregates every row and every error passes as it is, and HAVING is not looked at |
| AggregateMeaning.GroupsPartitionRows | core/src/executor/aggregate/state.rs:349-364 | Groups have different keys, each holds exactly the rows with its key in order, and every row is in one; only a query without GROUP BY has an empty group |
| AggregateMeaning.SameGroupExactlyWhenEqual | core/src/executor/aggregate.rs:54-59 | Rows share a group exactly when their grouping values are equal |
| AggregateInputs.AllEvaluateExactlyWhen | core/src/executor/aggregate.rs:54-59 | The grouping values of a row are the values of the grouping expressions, one by one, and exist exactly when none fails |
| AggregateMeaning.SlotHoldsAggregate | core/src/executor/aggregate/state.rs:366-456 | The slot of a group ends with the aggregate computed over all its rows at once; `AggregateResults.SlotIsExported` ties it to the values spelled out there |
| AggregateResults.SlotIsExported | core/src/executor/aggregate/state.rs:366-456 | The slot of any aggregate in a group is what is exported after the values of its argument on the rows of the group, in their order |
| AggregateResults.SlotCountsRows | core/src/executor/aggregate/state.rs:366-456 | The slot of COUNT(*) in a group is its number of rows |
| AggregateMeaning.SlotsMeanAggregates | core/src/executor/evaluate.rs:134-143 | Evaluating any projection, HAVING or ORDER BY expression of a planned SELECT by slots equals computing every aggregate over the rows of the group |
| AggregateInputs.AggregateIsItsSlot | core/src/executor/evaluate.rs:134-143 | An aggregate evaluates to exactly what its slot holds, and fails outside aggregation or without a slot |
| AggregateMeaning.OutputsAreTheGroupsThatHold | core/src/executor/aggregate.rs:21-113 | The outputs of `apply` for a planned SELECT are, in order, the summaries of exactly the groups on whose rows HAVING as written is true |

## Left out

- SQL text: parsing, translation and printing rest on a foreign grammar.
- CREATE, ALTER and DROP, non-clustered indexes, custom functions, dictionaries and schemaless documents: schemas are assumed well formed, as CREATE TABLE admits them.
- Which of several errors is reported: contracts say when an operation fails, and give the error only where it is determined by one cause.
- Concurrent transactions of the sled storage: one session is modelled; lock conflicts, timeouts and the generated identifiers after a rollback are not.
- Exhausted generated identifiers: the counter stops below its limit and the storage reports a failure.
- Subqueries in join conditions and in the conditions of the lookup theorems.
- Alias columns of a table: the effective column names are given.
- The sign, mantissa and scale of a decimal appear in `DecimalBytes` only; elsewhere a decimal is the number it denotes.
- KeyBytes.EncodingKeepsOrderExactlyWhenFaithful: decimals are not among its keys; `DecimalBytes.DecimalOrderKeptExactlyWhenFaithful` is the theorem for them.
- Joins.JoinRows: a joined relation has the same rows for every left row, where the source fetches it anew; a derived table that depends on the left row is not modelled.
- JoinFacts.PlannedJoinIsNestedLoop: assumes that the hashed values are keys and that hash and comparison agree on every pair, both of which `JoinColumns.TypedFromClauseIsReference` derives from types, literals included; and that no conjunct fails on a pair, because the parts of a plan run in another order than the condition and may fail earlier or later.
- JoinRuns.SeparatedJoinIsNestedLoop: has the same assumptions.
- JoinRuns.PlannedFromClauseIsReference: has the same assumptions.
- JoinColumns.TypedFromClauseIsReference: assumes that no conjunct fails on a pair, for the same reason.
- PrimaryKeyFacts.FilterPushesBelowJoins: assumes that joining the scanned rows and checking the condition on them gives no error, for the same reason.
- PrimaryKeyFacts.LookupByValueSelectsWhatScanSelects: the same.
- PrimaryKeyFacts.LookupSelectsWhatScanSelects: the same; `PlainLookupIsRightExactlyWhen` needs no such assumption.
- Extremes.MinMaxIsRightExactlyWhen: columns of floats and of intervals of both kinds, whose comparison is no total order, are left to `ExtremeIsRightExactlyWhen`.
- AggregateMeaning.SlotsMeanAggregates: speaks of runs in which aggregation succeeds; when it fails no group is evaluated.
- AggregateApply.GroupItems: counts are unbounded until they are exported, where a count beyond 64 bits is an error.
