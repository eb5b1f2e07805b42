# DynamoSQL query machinery, verified

DynamoSQL answers MySQL queries over DynamoDB tables. This project models the parts of it that work in
memory, and proves what they promise: the streaming join behind FROM, multi-row
INSERT ... ON DUPLICATE KEY UPDATE, the JSON functions, the deep copy of parsed queries, the scheduler that
bounds concurrent requests, and the smaller stages around them (GROUP BY, LIMIT, collations, three-valued
logic, string literals, month arithmetic). `dafny verify dfyconfig.toml` checks everything.

Where the source keeps state in objects that its callbacks change, so does the model: join stages, source
rows, the generator, the table, the copier, the scheduler, the trie and the date are classes, and their
methods are proved against specifications written as functions. Pure code is functions and lemmas.

## How the parts fit together

**Join.** `JoinSpec` says what a FROM clause means: a fold of nested loops (`JoinChain`), then WHERE.
`JoinStage` is one `_join`: two growing buffers, and the parent row's own `source` map as the "already sent"
flag. A ghost `Ledger` records which children each parent has met; `Stage.Callback` keeps it in agreement
with the buffers whatever it is called with. `DrainBoth` drives one stage from two batched sources: which
promise wins each race is a free choice, so `Drain.Run` holds for every schedule and every batching.
`Pipeline` chains any number of stages: any stage may run at any time on any number of the rows that wait for
it, which covers every interleaving of the generators. The invariant `Chain.Inv` says who owns a row object:
rows that wait have been nowhere further down (`Ahead`), and a row that a stage both keeps and has handed on
(`Shared`) was kept by a join without ON, which never writes it again.

`FormJoin` runs the chain from its tables: as long as anything can happen, anything may, every run ends, and
the rows served are those of the nested loops.

A LEFT JOIN directly behind a join without ON is wrong in the source: the row handed on is the row kept, so
the LEFT JOIN's mark is copied into the next row, whose null row is then never sent. `Pipeline.Sound` rules out
just that. The chain and its invariants are there for all FROM lists, so `LostRows` runs one that breaks the
rule: wherever the two joins stand, the first row to get there loses its second null row under a certain
schedule, and from tables of one, two and no rows the chain ends with a wrong result. `Drain.Run` gives the
exact condition on the rows of one stage. Inner joins without ON are allowed everywhere else.

**Upsert.** `Upsert.Run` reads the rows concerned once, simulates the list in a map and issues one bulk update
and one bulk insert; it is proved to do exactly what `Batch`, a function of the table and the list, says.
`UpsertLaws` compares `Batch` with upserting row by row, where every row is read from the table and written
back as a value without its type. The two differ where `isSameCell` does not judge by value, which is where a
numeric NULL, as a division by zero gives it, meets 0 or NULL. `UpsertExact` says exactly when that matters,
for a statement on all tables and lists and for one list row by row, and `UpsertExamples` has one statement
that goes wrong and one that does not. `UpsertKeys` says exactly when the text keys that the batch works with
are as good as the keys, and which rows are there when they are not.

**JSON.** `Json` has documents, paths, `_select` and `_lookup`; `JsonModify` the setters with their laws;
`JsonMerge` and `JsonContains` the merges and containment; `JsonPath` the path parser and the text of paths;
`JsonSearch` the search. A value that is not an array reads as a one-element array ("wraps"); several laws
that one would expect fail just there, and are stated with the exact condition. Strings of documents and paths
are sequences of UTF-16 units (`Utf16`), as in JavaScript: a surrogate need not be half of a pair.

**The rest.** `DeepClone` copies a graph of objects; `ParallelLimit` is the scheduler; `GroupBy`, `Limit`,
`Collation`, `ThreeValued`, `Literals` and `AddMonth` are one file each. `Decimal` is decimal notation, and
`Common` holds what several modules use.

## Where the code differs from what one would expect

| where | what happens | proved in |
|---|---|---|
| LEFT JOIN directly behind a join without ON | unmatched rows can be lost | `LostRows.LosesNullRow`, `LostRows.LosesNullRowFromTables`, `DrainBoth.Drain.Run` |
| ON DUPLICATE KEY UPDATE with a bar, the separator, in a key of several columns | different keys share one entry, and of new rows only the first of each text is inserted | `UpsertKeys.BarCollides`, `UpsertKeys.KeysAdded`, `UpsertKeys.KeysRightIff` |
| ON DUPLICATE KEY UPDATE that assigns a numeric NULL over 0 or NULL, or those over it | is judged by what `Number` makes of it, 0: updates get lost, and affectedRows is off | `UpsertLaws.ClearIff`, `UpsertLaws.MisjudgedIff`, `UpsertExact.EveryStepRightIff`, `UpsertExact.CountsRightIff`, `UpsertExamples.DivisionByZero` |
| a column assigned twice in one SET list | can count as changed with the row as before | `UpsertExact.ChangedIffDifferent` |
| JSON_SET through a wrap with an array as the value | the value is not read back | `JsonModify.GetAfterSet` |
| JSON_ARRAY_INSERT at `last-n`, then JSON_REMOVE | removes the neighbour of what was inserted | `JsonModify.InsertCellRemove` |
| JSON_SEARCH below a key with a quote, a backslash, a control character or a surrogate without its other half | the path does not read back | `JsonPath.PathReadBackIffClean`, `JsonPath.KeyReadsAsEscaped` |
| 29 February plus months, to a year without one | the first of the month, not the 28th | `AddMonth.AddMonths` |
| GROUP BY without expressions | drops every row | `GroupBy.FormGroup` |
| LIMIT 0 | still pulls batches up to the first row it does not skip | `Limit.MakeLimit` |
| a limit below one | nothing is ever started, and the promise stays pending | `ParallelLimit.Run` |
| nested operands of different collations | fail even if an explicit collation further out would decide | `Collation.NestedMayFailWhereFlatDoesNot` |
| quote doubling of a key that holds a backslash | does not read back, but for a last backslash and one before '%' or '_' | `Literals.DoubleRoundTripIff` |

## Model

| member | source | states |
|---|---|---|
| JoinSpec.NestedLoopBag | apps/dynamosql/src/lib/helpers/join.ts:98-173 | the nested-loop answer is the same bag of rows for every order of the parents |
| JoinSpec.FilterBag | apps/dynamosql/src/lib/helpers/join.ts:38-48 | WHERE gives the same bag for every order of the rows |
| JoinStage.Stage.HandleParentChild | apps/dynamosql/src/lib/helpers/join.ts:98-124 | pairs a parent with a child: sent iff they match; a new row, or the parent itself if there is no ON and it was not sent before; marks the parent iff something is sent |
| JoinStage.Stage.Meet | apps/dynamosql/src/lib/helpers/join.ts:98-124 | one pairing moves the ledger by exactly that pair, and the buffers still agree with it |
| JoinStage.Stage.MeetChildren | apps/dynamosql/src/lib/helpers/join.ts:139-144 | a new parent meets every buffered child once |
| JoinStage.Stage.MeetParents | apps/dynamosql/src/lib/helpers/join.ts:156-161 | a new child meets every buffered parent once |
| JoinStage.Stage.AddParents | apps/dynamosql/src/lib/helpers/join.ts:126-145 | a batch of parents is buffered and meets all children so far, or none if there are none |
| JoinStage.Stage.AddChildren | apps/dynamosql/src/lib/helpers/join.ts:147-162 | a batch of children is buffered and meets all parents so far, those of the same callback included |
| JoinStage.Stage.Finalise | apps/dynamosql/src/lib/helpers/join.ts:164-174 | after the last child a LEFT JOIN sends each unmarked parent once with a null row, and forgets all parents |
| JoinStage.Stage.Callback | apps/dynamosql/src/lib/helpers/join.ts:92-176 | for any batches and done flags: the invariant is kept, exactly what the ledger gained is sent, only rows it was handed or keeps are written and only at the joined table's entry, and with an ON no row is both sent and kept |
| JoinStage.MatchedAdvance | apps/dynamosql/src/lib/helpers/join.ts:98-124 | one more child met adds exactly its match to the bag of matches |
| JoinStage.CompleteIsNestedLoop | apps/dynamosql/src/lib/helpers/join.ts:137-174 | when every parent has met every child, matches and null rows are the nested-loop answer |
| JoinStage.FinishedIffUnmarked | apps/dynamosql/src/lib/helpers/join.ts:164-174 | a finished stage has sent the nested-loop answer iff no parent of a LEFT JOIN came in marked while matching nothing |
| JoinStage.UnfinishedIsInner | apps/dynamosql/src/lib/helpers/join.ts:126-162 | before the child side is done, exactly the matches among the rows so far have been sent, and no null row |
| DrainBoth.Drain.Call | apps/dynamosql/src/tools/drain_both.ts:63-86 | one callback of the generator keeps the invariant and hands over exactly the next batches |
| DrainBoth.Drain.First | apps/dynamosql/src/tools/drain_both.ts:14-49 | the first callback gets both first results, and each side that is not done is awaited |
| DrainBoth.Drain.Race | apps/dynamosql/src/tools/drain_both.ts:51-87 | whichever side wins the race, the invariant is kept and less is left to do |
| DrainBoth.Drain.Run | apps/dynamosql/src/tools/drain_both.ts:10-89 | for every schedule and batching, the rows sent are the nested-loop answer iff no parent of a LEFT JOIN that matches nothing came in with an entry for the joined table |
| DrainBoth.Drain.SentSoFar | apps/dynamosql/src/tools/drain_both.ts:51-87 | at any time before the child side is done, exactly the matches among the rows handed over have been sent |
| LostRows.FirstPair | apps/dynamosql/src/lib/helpers/join.ts:112-124 | in a chain: the join without ON hands on the row it keeps |
| LostRows.PassLeft | apps/dynamosql/src/lib/helpers/join.ts:126-174 | the LEFT JOIN behind it, whose table is empty, notes whether the row that waits came in marked, and marks it |
| LostRows.SecondPair | apps/dynamosql/src/lib/helpers/join.ts:112-124 | for the second child the join without ON hands on one copy of the row it kept, with the mark that row has got since |
| LostRows.LosesNullRow | apps/dynamosql/src/lib/helpers/join.ts:98-174 | in every chain, wherever a LEFT JOIN stands directly behind a join without ON: for the first row that waits there unmarked and any two rows of the first table, with an empty LEFT table, these steps end with both joins finished and the LEFT JOIN's output not its nested loop |
| LostRows.LosesNullRowFromTables | apps/dynamosql/src/lib/helpers/join.ts:25-55 | for every FROM list of three tables that breaks the rule, every row of the first table and every two of the second: a run of the chain to its end whose result is not the fold of the joins |
| FilterInPlace.FilterInPlace | apps/dynamosql/src/tools/filter_in_place.ts:1-13 | the front of the array becomes the kept elements in order, for a predicate that may read the elements |
| Pipeline.Chain.Feed | apps/dynamosql/src/lib/helpers/join.ts:56-74 | a batch of the first table enters as new row objects and the chain invariant holds |
| Pipeline.Chain.Step | apps/dynamosql/src/lib/helpers/join.ts:33-36 | for every FROM list, any stage may take any number of waiting rows and any children; all invariants of the chain are kept, that of the rows WHERE has let through included, and the queues, the rows touched and the marks noted are told |
| Pipeline.Chain.SharedNext | apps/dynamosql/src/lib/helpers/join.ts:98-124 | ownership: a row both kept by a stage and further down was kept by a join without ON and is marked there already |
| Pipeline.Chain.AheadNext | apps/dynamosql/src/lib/helpers/join.ts:98-173 | rows waiting for a stage are nowhere further down |
| Pipeline.Chain.QueueKeysNext | apps/dynamosql/src/lib/helpers/join.ts:98-173 | how far rows waiting for a stage can be marked for later tables |
| Pipeline.Chain.StageOkNext | apps/dynamosql/src/lib/helpers/join.ts:98-173 | a step of one stage does not disturb what the others keep |
| Pipeline.Chain.FlowHere | apps/dynamosql/src/tools/drain_both.ts:68-77 | rows are neither lost nor doubled between stages |
| Pipeline.Chain.StageAnswer | apps/dynamosql/src/lib/helpers/join.ts:75-178 | a drained stage of the chain has sent its join of what reached it |
| Pipeline.Chain.ChainAnswer | apps/dynamosql/src/lib/helpers/join.ts:33-36 | the first n stages, drained, have sent the fold of n joins |
| Pipeline.Chain.YieldedWhole | apps/dynamosql/src/lib/helpers/join.ts:38-54 | rows yielded by the chain hold nothing but the joined tables' entries |
| Pipeline.Chain.Complete | apps/dynamosql/src/lib/helpers/join.ts:25-55 | when all is drained, the result is the fold of the joins filtered by WHERE, as a bag |
| Pipeline.CleanIff | apps/dynamosql/src/lib/helpers/join.ts:98-124 | two conditions on a FROM list are the same: `Clean` at every LEFT JOIN, under which the chain invariant keeps the rows delivered to it unmarked, and no LEFT JOIN directly behind a join without ON |
| Pipeline.Run | apps/dynamosql/src/lib/helpers/join.ts:25-55 | any schedule of reads, callbacks and filtered batches, whether it can end or not, keeps the invariants; where it drains the chain the result is the fold filtered by WHERE |
| FormJoin.EmittedAtMost | apps/dynamosql/src/lib/helpers/join.ts:98-174 | a stage never sends more than one row for each pair and one null row for each parent |
| FormJoin.Read | apps/dynamosql/src/lib/helpers/join.ts:56-74 | a batch of the first table leaves less to do |
| FormJoin.Call | apps/dynamosql/src/tools/drain_both.ts:51-87 | a callback that takes rows, or the next result of the stage's own table, leaves less to do in the whole chain, whatever it sends on |
| FormJoin.Serve | apps/dynamosql/src/lib/helpers/join.ts:38-54 | so does serving rows |
| FormJoin.FormJoin | apps/dynamosql/src/lib/helpers/join.ts:25-75 | total correctness: from the tables in any batches, with any choice of what happens next as long as something can, the run ends and the rows served are the fold of the joins filtered by WHERE, as a bag |
| Pipeline.FilterBatch | apps/dynamosql/src/lib/helpers/join.ts:38-48 | filtering a batch in place keeps exactly the rows WHERE accepts |
| Upsert.FindKey | apps/dynamosql/src/lib/helpers/duplicate_update.ts:130-136 | finds the spelling a record uses for a column iff it has the column in any case |
| Upsert.RecordKeyIsFolded | apps/dynamosql/src/lib/insert_handler.ts:375-379 | the key read under the record's own spelling is the key of the record with lower-case names |
| Upsert.ApplyDuplicate | apps/dynamosql/src/lib/insert_handler.ts:264-281 | the loop over the SET list assigns all values and notes those that differ from the cell when their turn comes; its changed flag, judged cell by cell as the loop goes, is that of judging all values against the row as it was |
| Upsert.Table.MultipleUpdate | apps/dynamosql/src/lib/engine/raw/update.ts:85-99 | the bulk update: the values, without types, of the named cells of the named rows, nothing else |
| Upsert.Table.InsertRowList | apps/dynamosql/src/lib/engine/raw/insert.ts:429-438 | the bulk insert: the values of all rows or, if a key is taken, of none |
| Upsert.UniqueKeys | apps/dynamosql/src/lib/insert_handler.ts:183-218 | reading one row for each key text asks for the keys of all listed rows |
| Upsert.ReadState | apps/dynamosql/src/lib/insert_handler.ts:220-250 | the rows read are entries of the simulation, their cells as `toCell` reads them |
| Upsert.SimulateRow | apps/dynamosql/src/lib/insert_handler.ts:254-282 | one listed row moves the entries, under whatever spelling of the columns, exactly as `SimRow` moves lower-case rows by key text, with the same counts, and fails iff that fails |
| Upsert.SimulateAll | apps/dynamosql/src/lib/insert_handler.ts:252-282 | the same for the whole list |
| Upsert.UpdateList | apps/dynamosql/src/lib/insert_handler.ts:284-295 | one update for each changed row the table holds, no key twice |
| Upsert.InsertList | apps/dynamosql/src/lib/insert_handler.ts:305-307 | one insert for each row the table does not hold, no key twice |
| Upsert.Write | apps/dynamosql/src/lib/insert_handler.ts:284-316 | after the two bulk writes every row that was read is as stored with its changed cells, every other entry is a new row, and the insert meets no taken key |
| Upsert.Run | apps/dynamosql/src/lib/insert_handler.ts:221-317 | for every table and list, with columns in any spelling and keys repeated or not: the table and both counts are exactly those of `Batch`, and nothing is written when the statement fails |
| UpsertExact.EveryStepRightIff | apps/dynamosql/src/lib/insert_handler.ts:221-317 | for every table and list, and SET lists that assign no column twice: the batch gives the values, counts and failures of upserting row by row, for the list and each of its fronts, iff no step meets these cells: a numeric NULL against 0 with nothing else changed, a numeric NULL against NULL with no value changed, or, for a stored row, any numeric NULL against 0 |
| UpsertExact.LastRowRightIff | apps/dynamosql/src/lib/insert_handler.ts:252-304 | after rows that went right, one row more fails in both or in neither; both counts are right iff its update is judged the right way, and the table iff it is not stored or none of its assignments is a numeric NULL against 0 |
| UpsertLaws.BatchIsRowByRow | apps/dynamosql/src/lib/insert_handler.ts:221-317 | for any SET list, columns assigned twice included: as long as no update is misjudged and no assignment to a stored row is lost, the batch fails iff upserting row by row fails, and otherwise leaves the same value in every cell and gives the same affectedRows and changedRows |
| UpsertLaws.WithoutNumericNull | apps/dynamosql/src/lib/insert_handler.ts:252-282 | that is so for every table and list if no listed cell and no value of the SET list is a numeric NULL |
| UpsertLaws.ClearIff | apps/dynamosql/src/lib/helpers/duplicate_update.ts:112-128 | `isSameCell` takes different values for the same iff a numeric NULL meets 0, and tells equal ones apart iff a numeric NULL meets another NULL |
| UpsertLaws.MisjudgedIff | apps/dynamosql/src/lib/insert_handler.ts:271-282 | the changed flag of an update is wrong iff some numeric NULL meets 0 while all other values are equal and taken for equal, or meets another NULL while all values are equal |
| UpsertExact.CountsRightIff | apps/dynamosql/src/lib/insert_handler.ts:271-282 | for every statement: both counts are right for every table and list iff no row and listed row with one key hold the cells of a wrong flag |
| UpsertExact.SingleRightIff | apps/dynamosql/src/lib/insert_handler.ts:271-304 | for a SET list of one assignment: table and counts are right for every table and list iff its value is never a numeric NULL over 0 or NULL, or one of those over a numeric NULL |
| UpsertExamples.DivisionByZero | apps/dynamosql/src/lib/insert_handler.ts:271-304 | SET a = VALUES(b)/VALUES(c) for stored a = 5 and listed 1/0, 0/1: the batch leaves NULL and counts 3 rows, row by row leaves 0 and counts 4 |
| UpsertExamples.HarmlessNull | apps/dynamosql/src/lib/insert_handler.ts:271-304 | a SET list that can give a numeric NULL and is right for every table and list all the same |
| Upsert.SimFails | apps/dynamosql/src/lib/insert_handler.ts:252-282 | the statement fails as soon as one listed row does |
| UpsertKeys.KeyTextInjective | apps/dynamosql/src/lib/insert_handler.ts:375-379 | keys of one type per column have different texts if there is one column or no text holds a bar |
| UpsertKeys.PlainApart | apps/dynamosql/src/lib/insert_handler.ts:375-379 | so no two such keys share an entry, which is what `Upsert.Run` asks for |
| UpsertKeys.BarCollides | apps/dynamosql/src/lib/insert_handler.ts:375-379 | any bar can make two different keys of two columns collide |
| UpsertKeys.KeysAdded | apps/dynamosql/src/lib/insert_handler.ts:252-316 | for any list of keys that are not in the table: the batch adds exactly the first key of each text, and row by row adds all keys |
| UpsertKeys.KeysRightIff | apps/dynamosql/src/lib/insert_handler.ts:252-316 | for everything `Upsert.Run` accepts, if neither fails: batch and row by row leave rows for the same keys iff no two listed keys share a text |
| UpsertExact.ChangedIffDifferent | apps/dynamosql/src/lib/engine/memory/insert.ts:63-73 | for a SET list of any length: a row counts as changed exactly when it comes out different, for all rows and values, iff no column is assigned twice |
| DeepClone.Node.Put | apps/dynamosql/src/tools/clone.ts:27-32 | writing a map entry overwrites an equal key in place and otherwise appends |
| DeepClone.NotYetCopied | apps/dynamosql/src/tools/clone.ts:33-40 | adding the copy of an element to the copy of a set is never a no-op |
| DeepClone.KeyNotYetCopied | apps/dynamosql/src/tools/clone.ts:27-32 | an entry of the copy of a map is never overwritten |
| DeepClone.Cloner.Clone | apps/dynamosql/src/tools/clone.ts:13-51 | returns the copy of a value under the grown map of copies; terminates because fewer nodes remain unseen |
| DeepClone.Cloner.CloneArray | apps/dynamosql/src/tools/clone.ts:20-26 | fills the copy of an array, whatever is cloned on the way, itself included |
| DeepClone.Cloner.CloneMap | apps/dynamosql/src/tools/clone.ts:27-33 | fills the copy of a map, keys and values |
| DeepClone.Cloner.CloneSet | apps/dynamosql/src/tools/clone.ts:34-41 | fills the copy of a set |
| DeepClone.Cloner.CloneObject | apps/dynamosql/src/tools/clone.ts:43-50 | fills the copy of a plain object |
| DeepClone.DeepClone | apps/dynamosql/src/tools/clone.ts:10-53 | on every finite graph: writes nothing that existed, and its result is isomorphic to the input, all of it new |
| DeepClone.CopyClosed | apps/dynamosql/src/tools/clone.ts:10-53 | the copy is well formed and no reference leaves it |
| DeepClone.PathsAgree | apps/dynamosql/src/tools/clone.ts:10-53 | every path through the copy ends at the copy of where it ends in the original |
| DeepClone.SharingKept | apps/dynamosql/src/tools/clone.ts:17-19 | two paths meet in the copy iff they meet in the original: sharing and cycles survive |
| Json.LookupStep | apps/dynamosql/src/lib/expression/func_json_common.ts:119-156 | a path without ranges reaches at most one node, one child at a time |
| Json.LookupConcat | apps/dynamosql/src/lib/expression/func_json_common.ts:119-156 | reading along two paths in a row is reading along their concatenation |
| Json.RangeIsIndexes | apps/dynamosql/src/lib/expression/func_json_common.ts:132-146 | a range reads what each of the indexes it covers reads, in order |
| JsonModify.ModesAgree | apps/dynamosql/src/lib/expression/func_json_modify.ts:161-198 | SET is REPLACE on a path that exists and INSERT on one that does not; INSERT on the former and REPLACE on the latter do nothing |
| JsonModify.SetSame | apps/dynamosql/src/lib/expression/func_json_modify.ts:161-198 | setting a path to what it holds changes nothing, even through wraps |
| JsonModify.GetAfterSet | apps/dynamosql/src/lib/expression/func_json_modify.ts:161-198 | the value set is read back iff the last step does not wrap or the value is no array |
| JsonModify.SetTwice | apps/dynamosql/src/lib/expression/func_json_modify.ts:161-198 | the second of two different values wins iff the last step does not wrap or the first value is no array |
| JsonModify.SetKeepsOthers | apps/dynamosql/src/lib/expression/func_json_modify.ts:161-198 | a diverging path reads the same before and after, unless the new value has a second item where the last steps wrap |
| JsonModify.SetTouchesOthers | apps/dynamosql/src/lib/expression/func_json_modify.ts:186-192 | and in that case some diverging path reads something new |
| JsonModify.InsertMemberRemove | apps/dynamosql/src/lib/expression/func_json_modify.ts:119-184 | adding a member that is absent and removing it restores the document |
| JsonModify.InsertCellRemove | apps/dynamosql/src/lib/expression/func_json_array.ts:166-202 | inserting an array cell and removing the same path restores the document iff the index is at most the length, from the front; from the end, iff it is the length or names an item equal to the value |
| JsonModify.ModifyAll | apps/dynamosql/src/lib/expression/func_json_modify.ts:77-86 | the pairs are applied left to right |
| JsonModify.RemoveAll | apps/dynamosql/src/lib/expression/func_json_modify.ts:105-116 | fails iff some path is empty; otherwise removes path by path |
| JsonContains.Reflexive | apps/dynamosql/src/lib/expression/func_json_query.ts:273-295 | every document contains itself |
| JsonContains.Transitive | apps/dynamosql/src/lib/expression/func_json_query.ts:273-295 | containment is transitive |
| JsonMerge.MergePatch | apps/dynamosql/src/lib/expression/func_json_build.ts:140-155 | the loop computes MergePatch of section 2 of RFC 7396, in any order of the members |
| JsonMerge.PatchIdempotent | apps/dynamosql/src/lib/expression/func_json_build.ts:140-155 | applying a patch twice is applying it once |
| JsonMerge.PatchKeepsOthers | apps/dynamosql/src/lib/expression/func_json_build.ts:144-153 | at any depth, where the patch does not name the next member, what the target holds there, or lacks, stays |
| JsonMerge.PatchAddsNoNull | apps/dynamosql/src/lib/expression/func_json_build.ts:147-149 | outside arrays, at any depth, every null member of the result is one of the target's |
| JsonMerge.PatchRemoves | apps/dynamosql/src/lib/expression/func_json_build.ts:147-149 | what the patch has null at, at any depth, is gone from the result |
| JsonMerge.MergePreserve | apps/dynamosql/src/lib/expression/func_json_build.ts:157-177 | the loop computes the merge, in any order of the members |
| JsonMerge.MergedContains | apps/dynamosql/src/lib/expression/func_json_build.ts:157-177 | a merge contains both of its parts |
| JsonMerge.MergeAllContains | apps/dynamosql/src/lib/expression/func_json_build.ts:114-116 | JSON_MERGE_PRESERVE of any number of documents contains every one of them |
| JsonPath.ParsePath | apps/dynamosql/src/lib/expression/func_json_common.ts:52-113 | the loop parses step by step, on UTF-16 units, with the positions of its errors |
| JsonPath.StepParses | apps/dynamosql/src/lib/expression/func_json_search.ts:103-105 | a step's own text parses as that step wherever the next step or the end follows |
| JsonPath.PathReadBackIffClean | apps/dynamosql/src/lib/expression/func_json_search.ts:103-105 | the text of a path parses as that path iff all its keys are non-empty, free of quotes, backslashes and control characters, and have every surrogate paired |
| JsonPath.EscapedClean | apps/dynamosql/src/lib/expression/func_json_search.ts:103-105 | `JSON.stringify`, as section 25.5.2.3 of ECMA-262 has it, leaves a string as it is iff it is free of those characters and has every surrogate paired |
| JsonPath.KeyReadsAsEscaped | apps/dynamosql/src/lib/expression/func_json_search.ts:103-105 | any key without a quote is read back as itself with all its escapes |
| JsonPath.PathTextInjective | apps/dynamosql/src/lib/expression/func_json_search.ts:103-105 | different paths with such keys have different texts |
| JsonSearch.CollectMatchPaths | apps/dynamosql/src/lib/expression/func_json_search.ts:129-153 | pushes the text of every matching string's path exactly once, and nothing else |
| JsonSearch.MatchReadsBack | apps/dynamosql/src/lib/expression/func_json_search.ts:129-153 | in a document whose keys read back, the text of a match parses, and reading along it gives the string that matched |
| JsonSearch.MatchTextsDiffer | apps/dynamosql/src/lib/expression/func_json_search.ts:129-153 | different matches have different texts |
| JsonSearch.LocateReads | apps/dynamosql/src/lib/expression/func_json_search.ts:107-127 | a scope that is found is what its path reads, and its prefix is the text of an equivalent path |
| JsonSearch.Search | apps/dynamosql/src/lib/expression/func_json_search.ts:82-100 | every text reported leads to a matching string; with 'all', all matches of the document, and of every scope that is found, are reported |
| ParallelLimit.Scheduler.LoopLaunch | apps/dynamosql/src/tools/parallel_limit.ts:33-39 | launches in order until the limit is reached or nothing is left |
| ParallelLimit.Scheduler.Done | apps/dynamosql/src/tools/parallel_limit.ts:16-25 | a finished task makes room for the next; the promise is resolved exactly when all have finished |
| ParallelLimit.Scheduler.Catch | apps/dynamosql/src/tools/parallel_limit.ts:26-29 | after a failure nothing is launched and the promise is rejected |
| ParallelLimit.Scheduler.NeverStalls | apps/dynamosql/src/tools/parallel_limit.ts:12-41 | with a limit of at least one, an unsettled promise has a task in flight, and unstarted work means that the limit is used up |
| ParallelLimit.ParallelList.Results | apps/dynamosql/src/tools/parallel_limit.ts:43-53 | whatever the order of completion, the result of item k is at k |
| ParallelLimit.Run | apps/dynamosql/src/tools/parallel_limit.ts:4-53 | all of it for every order of completion and failure; with a limit below one nothing ever starts |
| ParallelLimit.BatchesPartition | apps/dynamosql/src/tools/parallel_batch.ts:31-36 | the batches, one after the other, are the list; only the last may be short, and none is empty |
| GroupBy.GroupMap.Insert | apps/dynamosql/src/lib/helpers/group.ts:103-131 | one row is added to the array its key strings lead to, and the trie stays one |
| GroupBy.GroupMap.Unroll | apps/dynamosql/src/lib/helpers/group.ts:143-151 | visits every array of the trie once |
| GroupBy.FormGroup | apps/dynamosql/src/lib/helpers/group.ts:75-151 | one non-empty group for each list of key strings, its rows in input order; nothing at all without grouping expressions |
| GroupBy.GroupsPartition | apps/dynamosql/src/lib/helpers/group.ts:103-131 | the groups together are the rows, each once |
| GroupBy.SameGroupIffSameKeys | apps/dynamosql/src/lib/helpers/group.ts:103-131 | two rows share a group iff all their key strings agree |
| Limit.MakeLimit | apps/dynamosql/src/lib/select_handler.ts:319-359 | for every batching the output is the slice asked for, and no batch is pulled once it is complete |
| Collation.GetExprCollation | apps/dynamosql/src/lib/helpers/collation.ts:125-232 | sorting and scanning gives the strongest entry, or failure, operand by operand |
| Collation.FailsIffTwoDiffer | apps/dynamosql/src/lib/helpers/collation.ts:136-159 | aggregation fails iff two entries of the least coercibility differ |
| Collation.OrderDoesNotMatter | apps/dynamosql/src/lib/helpers/collation.ts:136-138 | the result does not depend on the order of the list |
| Collation.NestedIsFlat | apps/dynamosql/src/lib/helpers/collation.ts:192-193 | where no inner level fails, nested operands aggregate like their flattened leaves |
| Collation.FailsIffPartClashes | apps/dynamosql/src/lib/helpers/collation.ts:125-232 | nested aggregation fails iff the flattened leaves of some part clash |
| Collation.NestedMayFailWhereFlatDoesNot | apps/dynamosql/src/lib/helpers/collation.ts:125-232 | an inner clash fails even where an explicit collation would decide |
| ThreeValued.InOp | apps/dynamosql/src/lib/expression/compare.ts:37-81 | the loop of IN, stopping at a match, is the disjunction of equalities |
| ThreeValued.NoneIsNotAny | apps/dynamosql/src/lib/expression/compare.ts:82-89 | NOT IN is the conjunction of the negated equalities |
| ThreeValued.EvalIsMeaning | apps/dynamosql/src/lib/expression/binary_expression.ts:35-154 | short-circuit evaluation of every expression is its meaning in Kleene's logic |
| Literals.QuoteRoundTrip | apps/dynamosql/src/lib/expression/func_string_encoding.ts:162-168 | unescaping the text between the outer quotes of QUOTE(s) gives s, for every string |
| Literals.DoubleRoundTripIff | apps/dynamosql/src/lib/insert_handler.ts:356-364 | unescaping undoes quote doubling iff every backslash is last or comes before '%' or '_' |
| AddMonth.CivilOf | apps/dynamosql/src/lib/types/sql_interval.ts:235-241 | every day has a date, by the day and year numbers of section 21.4.1 of ECMA-262 |
| AddMonth.CivilUnique | apps/dynamosql/src/lib/types/sql_interval.ts:235-241 | and only one |
| AddMonth.Overflow | apps/dynamosql/src/lib/types/sql_interval.ts:241-247 | a day that a month does not have falls into the next month |
| AddMonth.AddMonths | apps/dynamosql/src/lib/types/sql_interval.ts:234-250 | the loop ends; the time of day stays, the month is the old one plus n, and the day is the old one or the last of the month, unless it was 29 February and the year n months on, told from the old date and n, has none: exactly then it is the first |

## Left out

- FormJoin.FormJoin: needs ON clauses that only look at the tables up to their own, and no LEFT JOIN directly behind a join without ON; errors raised while evaluating ON or WHERE, which end the query, are not modelled.
- Pipeline.Run: conditional on a schedule that drains the chain; that every run that goes on as long as it can does so is `FormJoin.FormJoin`.
- LostRows.LosesNullRow: says that some schedule goes wrong; in others, where the second child comes before the LEFT JOIN runs, nothing is lost.
- LostRows.LosesNullRowFromTables: of longer FROM lists only the two joins are shown to go wrong (`LostRows.LosesNullRow`); whether rows get there, and whether the loss is seen at the end, is up to the ON clauses of the others.
- Pipeline.Chain.Step: a batch may be any number of the rows that wait, which is more than the generators do; that a buffer can be the very array the stage before yielded is not modelled, buffers are sequences.
- DrainBoth.Drain.Run: a source that throws ends the stream; that is not modelled.
- Upsert.Run: needs listed keys with different texts, or none of them in the table; no two columns of a record that differ in case only; and a SET list that assigns no key column (the DynamoDB engine refuses one that does).
- Upsert.Lower: folds the ASCII letters, which are all that column names here are taken to hold, where the source's `toLowerCase` folds every script.
- UpsertExact.EveryStepRightIff: needs what `UpsertLaws.BatchIsRowByRow` needs, and a SET list that assigns no column twice: with one assigned twice, what one assignment loses another may put right, and the condition is sufficient only (`UpsertLaws.BatchIsRowByRow`). It is about all fronts of a list, since later rows can put right what went wrong before.
- UpsertLaws.BatchIsRowByRow: needs listed keys with different texts (`UpsertKeys`), and SET expressions that do not tell a NULL of one type from another, or true from 1, for those types are all that is lost when a row is written and read back.
- Upsert.Table.GetRowList: the WHERE clause built from the keys is taken to select the rows with exactly these keys; how an engine compares literals is not modelled, nor are the engines and the transaction manager.
- Upsert.Evaluate: SET expressions are functions of the stored and the inserted row that give a cell or fail; expressions with side effects are left out, and so are cells that hold dates, buffers or text in a numeric cell.
- JsonModify.ModifyAll: the laws are about one path at a time; evaluation of the arguments and JSON_ARRAY_APPEND are left out.
- JsonPath.ParsePath: index numbers are exact where the source's lose precision above 2^53.
- JsonSearch.Search: the pattern is a predicate on strings; building a regular expression from LIKE syntax is left out. Scopes that overlap report a match once for each.
- DeepClone.DeepClone: class instances, which the source turns into plain objects, and the order of integer-like object keys are left out.
- ParallelLimit.BatchesPartition: the list of results is left out, for the source writes results of different batches over each other (apps/dynamosql/src/tools/parallel_batch.ts:39).
- GroupBy.FormGroup: key strings that are names on Object.prototype, and the order in which groups come out, are left out.
- AddMonth.AddMonths: times are whole milliseconds; dates out of the range of Date, and fractional seconds, are left out.
- ThreeValued.InOp: for an empty list, which the grammar has no form for, it says only what a left side that is not NULL gives.
- ThreeValued.EvalIsMeaning: operands are integers and NULL; strings, dates and errors are left out.
- Collation.GetExprCollation: which collation a column or a literal has by itself is a parameter.
- Literals.QuoteRoundTrip: how the SQL parser finds the end of a literal is not part of this model.
- RIGHT JOIN, which `_join` treats as an inner join.
- Strings outside the JSON modules are well-formed Unicode; what is modelled there looks at ASCII characters only.
- Property order and prototype names of plain objects: records and JSON objects are maps.
- DynamoDB requests, PartiQL text, sessions, the server, the SQL parser, floating-point functions, time zones, regular expressions, hashing, JSON Schema, column metadata and error messages.
