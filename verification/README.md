# In-memory join engine: model and proofs

This project models an in-memory join engine in Dafny and proves that its fast algorithms agree with
the simple ones they replace. `dafny verify dfyconfig.toml` checks everything.

The model follows the engine from a loaded table to a query result:

- **Loading.** A streaming CSV parser (`Csv`, `CsvCells`, `CsvRoundTrip`); filters evaluated on whole columns with
  bitmaps and a thread pool (`InnerColumns`, `Statements`, `FilterPool`, `FilterLoad`); 8 KiB pages with
  values growing up and a null bitmap growing down, string offsets and long-string page chains, written by
  `Table::to_columnar` and by the two column inserters and read by `Table::from_columnar` (`PageBytes`,
  `NullBitmap`, `FixedColumn`, `FixedInserter`, `VarcharColumn`, `VarcharWriter`, `StringInserter`,
  `Tables`).
- **Planning.** The equivalence classes of joined columns and the join graph (`DisjointSets`, `JoinGraph`),
  and the compilation of a join tree over named columns to a positional plan that carries only the columns
  needed above each node (`PlanCompiler`, `PlanTrees`, `PlanBuilding`), and what such a tree selects in terms of all
  conditions of the query (`JoinConditions`).
- **Execution.** 64-bit words that hold an INT32 or point into an input page (`ValueWords`), paged columns of
  words (`ColumnPages`), the scan that makes them (`Late`, `LateStrings`, `LongPositions`, `Scan`), the
  unchained hash table and its parallel build (`ChunkLists`, `HashWords`, `Partitioning`, `Directory`,
  `UnchainedTable`), the work-stealing probe (`ProbeWorkers`, `Join`), the evaluation of whole plans (`NestedLoops`, `Plans`,
  `Decoding`, `Execute`), the materialisation of the result (`Materialize`), and the whole way from a tree of
  joins to the rows of the result (`Queries`).
- **Other tables.** The Robin Hood and hopscotch hash tables (`RobinHood`, `Hopscotch`).

The main theorem is the contract of `Execute.Execute`: for every well-formed plan, every hash function, every
choice of build sides and every interleaving of the worker threads, execution ends with a table exactly when the
scans do, and the table holds, up to order, the rows that nested-loop joins over the scanned tables yield.
`Queries.Run` carries this back to the tree of joins and the conditions of the query.

Conventions. Machine words are naturals with `BitOr` and `BitAnd` defined bit by bit (`Bits`); bytes are
`bv8`. Threads are modelled as steps: a schedule is the sequence of worker ids in the order in which the
workers take their next step, and a statement about all schedules is a statement about all interleavings.
The CRC hash is an arbitrary function from `int32` to 64-bit words, `std::hash` an arbitrary function to
naturals, `std::sort` in `build` any permutation ordered by slot, and RE2 matching an arbitrary predicate.

Where the code does something other than one would expect, the model follows the code and says exactly when
the difference shows:

- `put_int32` ORs a sign-extended value, so in a column with nulls a negative INT32 reads back as a null
  (`ValueWords.PutInt32Reads`, `ValueWords.MinusOneIsNull`). Columns without nulls are not affected.
- The length search takes the smallest end offset beyond the start, so an empty string reads back as the next
  non-empty string of its page (`LateStrings.EmptyReadsAsNext`). `Late.ScanIsIdentity` gives the exact condition
  under which the words of a scan read back as the column.
- The loop that computes the position of a long string counts pages from the start of the column and reads the
  page behind the last one when it finds no end. A table with one row, a string over 8185 bytes, is enough
  (`Scan.ScanLoneLongString`); `LongPositions.InBoundsExactly` says for which columns it happens, and the
  theorems about scans and plans say that they come to an end exactly when it does not, and all addresses fit.
- A VARCHAR column without pages keeps the value-initialised type of its `column_t`, INT32, through a scan
  (`Scan.Scanned`).
- INT64 literals are cut to 32 bits when compared with an INT32 column, and only the first two children of
  AND and OR count, when a filter runs on columns; `Statements.CutAgrees` says for which comparisons that
  changes nothing, `Statements.NarrowedAgrees` for which statements, and `Statements.WideLiteralDiffers` gives one
  for which it does.
- A join keeps one of the conditions between its two sides and drops the others. `JoinConditions.AskedExactly`
  says for which trees of INT32 joins the result is still the one asked for: those whose picked conditions imply
  all others. `JoinConditions.TriangleLosesCondition` gives a query and a tree that is none of them.
- A comment in include/Uhashtable.h speaks of 1024 entries per chunk; the constant is 64 * 2048 / 8 = 16384.
- Inserting into a hopscotch table need not end: five keys with equal hashes are rehashed for ever
  (`Hopscotch.FiveAlike`). Insertion ends exactly when, for all a <= b, at most b - a + 4 of the items, the new
  one included, have hashes in [a, b] (`Hopscotch.HashTable.Insert`, `Hopscotch.EnoughExists`).
- A CSV file without a single record is reported by `finish` as one record with one empty field
  (`CsvRoundTrip.NoRowsIsOneRow`). A record of one empty field is lost when its LF completes the CR of the record
  before it, or when it is the last one and nothing ends it. With doubled quotes, a quote at the very end of the
  input is refused as open. `CsvRoundTrip.ReadFile` says that nothing else is lost.
- A pass-through operator between a join and its Hash node makes the plan compiler refuse the plan
  (`PlanTrees.UntidyIsRefused`); anywhere else it makes no difference (`PlanBuilding.LoadBared`).

## Model
| member | source | states |
|---|---|---|
| ChunkLists.Chunk.Insert | include/Uhashtable.h:29-33 | a chunk that is not full gains exactly this tuple at its end |
| ChunkLists.Partitions.Push | src/Uhashtable.cpp:134-150 | pushing a tuple adds it to the list's contents, opens a new chunk exactly when the head is missing or full, and keeps the list acyclic with `total_count` equal to its size |
| ChunkLists.Partitions.Absorb | src/Uhashtable.cpp:172-187 | splicing a thread's list behind the partition's adds the contents and the counts, empties the thread's list, and leaves one acyclic list |
| ChunkLists.FamilyIsDisjoint | src/Uhashtable.cpp:164-191 | no chunk is ever reachable from two lists |
| HashWords.SlotOf | src/Uhashtable.cpp:22-24 | every key has a slot below 2^16 |
| HashWords.PartitionOf | include/Uhashtable.h:90-93 | every key has a partition below 16 |
| HashWords.BloomMaskFits | src/Uhashtable.cpp:257-260 | the four Bloom bits of a key fit 16 bits |
| HashWords.DirectoryEntryRoundTrip | src/Uhashtable.cpp:26-36 | a directory word gives back the 48-bit pointer and the 16-bit filter it was made from |
| HashWords.OrIntoEntry | src/Uhashtable.cpp:261 | ORing Bloom bits into a directory word leaves its pointer alone |
| Partitioning.SharesTile | src/Uhashtable.cpp:199-213 | the sixteen input ranges tile [0, count) |
| Partitioning.MergeRangesTile | src/Uhashtable.cpp:223-233 | the merge workers' partition ranges tile [0, 16) |
| Partitioning.PartitionPhase | src/Uhashtable.cpp:126-153 | for every interleaving, the private lists together hold the input multiset, each tuple in a list of its key's partition |
| Partitioning.MergePhase | src/Uhashtable.cpp:164-191 | for every interleaving, the global lists hold the same multiset, partition by partition, as disjoint acyclic lists |
| Partitioning.SchedulesExist | src/Uhashtable.cpp:199-243 | the workers of both phases can run to completion for every input size |
| Directory.SlotRange | src/Uhashtable.cpp:267-289 | entry i lies between the pointers of slot s and s + 1 exactly when its key hashes to s |
| Directory.ProbeIsExact | src/Uhashtable.cpp:316-346 | over any well-laid directory the early exits of probe lose no match and let in no other |
| Directory.SameTuplesSameMatches | src/Uhashtable.cpp:341-345 | two tables over the same tuples answer every probe with the same multiset |
| Directory.SortedIsWellLaid | src/Uhashtable.cpp:78-117 | entries sorted by slot with back-filled pointers are well laid |
| Directory.BlocksAreWellLaid | src/Uhashtable.cpp:267-289 | entries placed at prefix sums of the slot counts are well laid and a permutation of the input |
| UnchainedTable.CountPhase | src/Uhashtable.cpp:246-265 | after the first pass the counters hold the slot counts and every filter covers the keys of its slot |
| UnchainedTable.PrefixPhase | src/Uhashtable.cpp:267-274 | the directory becomes the prefix sums of the counts with the filters kept |
| UnchainedTable.PlacePhase | src/Uhashtable.cpp:276-289 | every cell of `entries` is written exactly once, within the block of its slot |
| UnchainedTable.FillEmpty | src/Uhashtable.cpp:292-299 | the backward fill gives a slot that points past the end the word of the next slot that does not |
| UnchainedTable.FillChangesNothing | src/Uhashtable.cpp:291-299 | after the parallel build the backward fill changes no probe |
| UnchainedTable.FilledIsWellLaid | src/Uhashtable.cpp:108-116 | after the sequential build the backward fill, which copies filters too, leaves the directory well laid |
| UnchainedTable.UnchainedHashTable.InsertTempKey | include/Uhashtable.h:63-65 | appends the tuple |
| UnchainedTable.UnchainedHashTable.BloomFilter | src/Uhashtable.cpp:38-54 | the filter of a range covers all four bits of every key in it and fits 16 bits |
| UnchainedTable.UnchainedHashTable.Build | src/Uhashtable.cpp:56-117 | the sequential build makes a table that answers for the first `count` tuples, for any permutation ordered by slot |
| UnchainedTable.UnchainedHashTable.BuildParallel | src/Uhashtable.cpp:193-314 | the parallel build does so too, for every hash function and every interleaving of both phases |
| UnchainedTable.UnchainedHashTable.Probe | src/Uhashtable.cpp:316-346 | a probe appends exactly the multiset of positions inserted with the key, after either build |
| RobinHood.PathIsOccupied | include/robinhood.h:31-39 | every slot from an item's home up to it holds an item at least as far from that home |
| RobinHood.HomesNonDecreasing | include/robinhood.h:52-77 | home positions never decrease along an occupied run |
| RobinHood.FirstWinsIsFirst | include/robinhood.h:62-65 | building a map by inserting absent keys keeps the first value of every key |
| RobinHood.BigEnoughExists | include/robinhood.h:42-97 | for any finite key set and any hash there is a size at which no probe can run off the end and the load threshold is out of reach |
| RobinHood.EndIsFar | include/robinhood.h:72-76 | at that size the last slot is never reached by a probe |
| RobinHood.HashTable.Put | include/robinhood.h:42-79 | insertion refines first-value-wins map insertion, keeps the ordering invariant, and terminates through all nested rehashes |
| RobinHood.HashTable.Walk | include/robinhood.h:52-77 | the displacement loop either inserts the item, finds its key, or hands the carried item to the overflow with nothing lost |
| RobinHood.HashTable.Rehash | include/robinhood.h:82-97 | rehashing keeps the map and at least doubles the table, by an amount bounded by the key set and the hash |
| RobinHood.HashTable.Insert | include/robinhood.h:42-79 | for every table and every hash, insert terminates and the map gains the key exactly when it was absent |
| RobinHood.HashTable.Find | include/robinhood.h:31-39 | find returns the map's value for the key, and nothing when the key is absent |
| Hopscotch.StoreKeeps | include/hopscotch.h:78-91 | storing an item into a free slot near its home keeps bitmap d of home h set exactly when slot h + d holds an item of h |
| Hopscotch.HopKeeps | include/hopscotch.h:131-140 | moving an item to the free slot and exchanging its bits keeps that invariant |
| Hopscotch.HopMovesHole | include/hopscotch.h:131-143 | after a hop the only gap is the slot the item came from |
| Hopscotch.HopConserves | include/hopscotch.h:131-143 | a hop neither loses nor duplicates an item |
| Hopscotch.TableIsUncrowded | include/hopscotch.h:69-166 | the items of a table are never crowded: any window [a, b] of hashes has at most b - a + 4 of them, whatever the table size |
| Hopscotch.HashTable.FindLeftmostOne | include/hopscotch.h:60-66 | the lowest set bit below the limit, or -1 when there is none |
| Hopscotch.HashTable.HopInto | include/hopscotch.h:121-153 | the hop loop strictly lowers j, keeps the items, and ends near the home or gives up for a rehash |
| Hopscotch.HashTable.Insert | include/hopscotch.h:69-166 | with enough rehashes allowed, insert returns exactly when the items, the new one included, are not crowded, and with crowded items never; then the items are the old ones plus the new one and all invariants hold, also after aborted hop sequences; it gives up only after all allowed doublings |
| Hopscotch.HashTable.Rehash | include/hopscotch.h:170-184 | rehashing from any state an aborted hop sequence leaves keeps all items and at least doubles the table |
| Hopscotch.HashTable.Find | include/hopscotch.h:39-55 | find returns a stored value of the key, and nothing only when no item has the key |
| Hopscotch.EnoughExists | include/hopscotch.h:170-184 | for every table size and every bound on the hashes some number of rehashes is enough |
| Hopscotch.StuckIsCrowded | include/hopscotch.h:121-153 | in a table four slots larger than all hashes, a hop loop that finds no item to move means that the run up to the free slot crowds its window |
| Hopscotch.FullBitmapIsCrowded | include/hopscotch.h:72-76 | in such a table a full bitmap means that the window of its home is crowded |
| Hopscotch.LastIsFree | include/hopscotch.h:80-84 | in such a table the last slot is free, so the search for a free slot does not run off the end |
| Hopscotch.FiveAlike | include/hopscotch.h:69-76 | five items of one hash crowd their window, so inserting the fifth never returns |
| Csv.CSVParser.Execute | src/csv_parser.cpp:3-163 | execute on a buffer gives the events, the error and the state of the character automaton, including splits inside an escape pair or a CRLF; ReadFile says what that automaton reads |
| Csv.CSVParser.Resume | src/csv_parser.cpp:5-59 | a character pair split between buffers is completed as if it had not been split |
| Csv.CSVParser.ReadNewline | src/csv_parser.cpp:79-122 | a record end outside quotes ends the record once, whether it is LF, CR or CRLF |
| Csv.CSVParser.ReadEscape | src/csv_parser.cpp:142-157 | an escape inside quotes keeps an escaped quote or escape, and is itself kept before anything else |
| Csv.CSVParser.FinishRecord | src/csv_parser.cpp:103-118 | the first record fixes the number of columns and every other one must match it |
| Csv.CSVParser.Finish | src/csv_parser.cpp:165-175 | an open quote is an error, an unterminated record is ended, anything else is accepted; ReadFile and ReadOpen say what this makes of whole inputs |
| Csv.FeedConcat | src/csv_parser.cpp:60-163 | feeding a text in two parts is feeding it at once, up to the first error |
| Csv.ChunksDoNotMatter | src/csv_parser.cpp:3-163 | from any state, two non-empty chunks give the same events, code and later behaviour as their concatenation |
| Csv.AnyChunking | src/csv_parser.cpp:3-163 | so does any division into non-empty chunks |
| CsvCells.ReadQuoted | src/csv_parser.cpp:123-157 | a quoted stretch is read as its characters, with either escape character |
| CsvCells.ReadBare | src/csv_parser.cpp:64-66 | text without quotes, separators and line ends is read as itself, also behind a closing quote |
| CsvCells.ReadItems | src/csv_parser.cpp:142-157 | inside quotes, escaped quotes and escape characters stand for themselves, and so does a backslash before any other character |
| CsvCells.ReadCell | src/csv_parser.cpp:60-163 | a field is read as what its quoted and unquoted stretches mean, in any mixture |
| CsvCells.AnyTextInQuotes | src/csv_parser.cpp:123-157 | any text can be written in quotes |
| CsvRoundTrip.ReadRecord | src/csv_parser.cpp:60-163 | a record, ended by LF, CR or CRLF, is read as its fields, or rejected exactly when its width differs from the first one's |
| CsvRoundTrip.ReadWholeFile | src/csv_parser.cpp:3-175 | a whole file and finish report the fields of its records, or the fields before the end of the first record of another width, or those before a quote left open, as ReadAs says |
| CsvRoundTrip.ReadFile | src/csv_parser.cpp:3-175 | so they do in any chunking: records with any mixture of line ends, the last one with or without; the fields come back exactly when there is a record, none is swallowed, all are equally wide, and no doubled quote stands open at the end |
| CsvRoundTrip.ReadOpen | src/csv_parser.cpp:165-167 | an input that ends inside an open quote gives QuoteNotClosed, after the fields before that quote |
| CsvRoundTrip.NoRowsIsOneRow | src/csv_parser.cpp:165-175 | an empty input is finished as one record with one empty field |
| NullBitmap.BitUpdate | src/build_table.cpp:639-655 | setting or clearing a bit changes that bit and no other |
| NullBitmap.RowsDependOn | src/build_table.cpp:526-544 | the rows of a page depend only on the bits of its rows and on the payloads of its non-null rows |
| NullBitmap.SetRow | include/plan.h:253-257 | setting the next bit and appending a payload appends that value to the rows, whatever the bit was before |
| NullBitmap.ClearRow | include/plan.h:259-263 | clearing the next bit appends a null to the rows |
| PageBytes.U16RoundTrip | include/plan.h:241-246 | a 16-bit counter reads back as written |
| PageBytes.I32RoundTrip | include/plan.h:265-274 | every INT32 reads back as written, negative ones included |
| PageBytes.I32BytesRoundTrip | include/late.h:163-170 | the four bytes of a cell survive being read as a number and written again |
| PageBytes.SpliceRegion | src/build_table.cpp:673-683 | what is copied into a page can be read back, and regions outside the copy keep their bytes |
| FixedColumn.WrittenPage | src/build_table.cpp:673-683 | a saved page reads back as the pending rows, and its regions are disjoint |
| FixedColumn.SavePage | src/build_table.cpp:673-683 | the four copies of save_page produce such a page |
| FixedColumn.PendingBounds | src/build_table.cpp:684-708 | the capacity tests keep the counters below 0xfffe and never save an empty page |
| FixedColumn.ToColumnar | src/build_table.cpp:667-709 | the pages of an INT32, INT64 or FP64 column read back as exactly the values and nulls written, on pages with at least one row |
| FixedInserter.ColumnInserter.FlushPage | include/plan.h:241-251 | saving the current page keeps all inserted rows |
| FixedInserter.ColumnInserter.Insert | include/plan.h:265-274 | insert appends the value, on a new page when the old one is full |
| FixedInserter.ColumnInserter.InsertNull | include/plan.h:276-282 | insert_null appends a null |
| FixedInserter.ColumnInserter.Finalize | include/plan.h:284-288 | after finalize the reader recovers exactly the inserted sequence |
| VarcharColumn.ChainedEndsInString | src/build_table.cpp:593-606 | in a chained column every continuation page finds a string to extend |
| VarcharColumn.WrittenStrings | src/build_table.cpp:821-833 | the end offsets written on a page cut its characters into the strings that were written |
| VarcharColumn.WrittenPage | src/build_table.cpp:821-833 | a saved string page reads back as the pending rows and is never mistaken for a long-string page |
| VarcharWriter.SaveLongString | src/build_table.cpp:804-820 | a string over 8185 bytes, cut into a chain of pages, reads back as one row with the whole string |
| VarcharWriter.SavePage | src/build_table.cpp:821-833 | the five copies of save_page produce such a page |
| VarcharWriter.PendingBounds | src/build_table.cpp:842-870 | 16-bit counters and offsets never wrap, and save_page is never reached without rows |
| VarcharWriter.ToColumnar | src/build_table.cpp:796-878 | the pages of a VARCHAR column read back as exactly the strings and nulls written, and none of them is empty |
| StringInserter.ColumnInserter.SaveLongString | include/plan.h:317-334 | a long string becomes one row on a chain of fresh pages |
| StringInserter.ColumnInserter.FlushPage | include/plan.h:336-348 | saving the current page keeps all inserted rows |
| StringInserter.ColumnInserter.Insert | include/plan.h:362-381 | insert appends the string, long or short, on a new page when the old one is full |
| StringInserter.ColumnInserter.InsertNull | include/plan.h:383-389 | insert_null appends a null |
| StringInserter.ColumnInserter.Finalize | include/plan.h:391-395 | after finalize the reader recovers exactly the inserted sequence |
| Tables.ToColumnar | src/build_table.cpp:657-882 | every column takes over its nulls and its values of the column's type; numeric columns pass others by, and a VARCHAR column with one makes it throw |
| Tables.ReadFixedPage | src/build_table.cpp:526-582 | reading a page fills in its rows and fails exactly when a value lies beyond the table's row count |
| Tables.ReadNormalPage | src/build_table.cpp:607-628 | the running string start cuts out the rows of a string page |
| Tables.AppendPart | src/build_table.cpp:593-606 | a continuation page extends the string before it and fails exactly when that row is no string |
| Tables.ReadVarcharColumn | src/build_table.cpp:583-633 | a VARCHAR column is read exactly when its values fit and every continuation follows a string |
| Tables.FromColumnar | src/build_table.cpp:513-637 | from_columnar succeeds exactly when every column is readable and then returns the columns' rows, whatever the order in which threads take the columns |
| Tables.RepresentsIsReadable | src/build_table.cpp:513-637 | what to_columnar writes is always readable |
| Tables.RoundTrip | src/build_table.cpp:513-882 | from_columnar(to_columnar(t)) is t exactly for well-typed tables, of any size |
| ValueWords.PutReference | include/late.h:83-98 | a reference is refused exactly when one of its four fields overflows |
| ValueWords.ReferenceRoundTrip | include/late.h:83-138 | table, column, page, position and mode read back as put |
| ValueWords.PutInt32Reads | include/late.h:66-78 | a packed INT32 reads back when it is not negative, and as a null exactly when it is |
| ValueWords.MinusOneIsNull | include/late.h:66-69 | the packed word of -1 has all bits set and is a null |
| ColumnPages.AppendedKeeps | include/column_store.h:32-36 | append adds one word at the end and grows the page layout in a way that depends on the layout only |
| ColumnPages.DenseIs | include/column_store.h:32-36 | n appends fill all pages but the last |
| ColumnPages.ColumnT.Append | include/column_store.h:32-36 | append does so on the column |
| ColumnPages.ColumnT.CreatePages | include/column_store.h:38-43 | create_pages reaches the needed number of pages, keeps the old ones and adds empty ones |
| LateStrings.PrintVarchar | src/late.cpp:114-141 | printing collects the whole chain of a long string and nothing behind it |
| LateStrings.SearchLength | src/column_store.cpp:230-241 | the binary search finds the smallest end offset beyond the start |
| LateStrings.ShortStringReads | src/column_store.cpp:226-243 | searching from where a string begins reads the first non-empty string from there on |
| LateStrings.RereadSame | src/column_store.cpp:226-243 | a page's strings all survive the search exactly when its empty strings come last |
| LateStrings.EmptyReadsAsNext | src/column_store.cpp:226-243 | an empty string followed by another one reads as that one |
| LateStrings.ChainSnoc | src/late.cpp:127-139 | a further page lengthens exactly the chains that reach it |
| LateStrings.RefsRead | src/column_store.cpp:113-160 | in every well-formed column each scanned reference reads the string of its row, short or long, whatever positions are stored for long strings |
| LateStrings.SearchableRows | src/column_store.cpp:226-243 | a column reads back as written exactly when on each page the empty strings come last |
| Late.IntRefsRead | src/column_store.cpp:47-87 | in a column without nulls the i-th reference names the cell of the i-th row |
| Late.ScanIsIdentity | src/column_store.cpp:18-259 | reading the words of a scan that came to its end gives back the column exactly when it has no nulls or no negative values, or its empty strings come last |
| Scan.PutWord | src/column_store.cpp:72-82 | in-place filling of preallocated pages puts the next word at the next position, moving to the next page when one is full |
| Scan.ScanNoNulls | src/column_store.cpp:47-87 | the preallocated pages hold the references of all cells in order, laid out as by appending |
| Scan.ScanPacked | src/column_store.cpp:92-112 | a column with nulls becomes one packed word per row |
| Scan.ScanStrings | src/column_store.cpp:113-160 | the words are the references and nulls of the column; the scan comes to its end exactly when every position fits and its loops stay inside the pages, and otherwise throws or reads behind the last page |
| LongPositions.FindLongPos | src/column_store.cpp:118-125 | the loop finds the position, or leaves the pages, as LongPos says |
| LongPositions.LongPosExists | src/column_store.cpp:118-125 | the loop stays inside the pages exactly when there is a next page, and it or some page from number 2 on is no continuation |
| LongPositions.InBoundsExactly | src/column_store.cpp:117-128 | the scan of a column stays inside its pages exactly when the column does not end in a long string of one page and, if it ends in a longer one, some page from number 2 on is no continuation |
| LongPositions.LoneLongString | src/column_store.cpp:117-128 | a column with one row, a string over 8185 bytes, makes the scan leave the pages |
| Scan.ScanLoneLongString | src/column_store.cpp:117-128 | scanning what to_columnar writes for such a column never comes to its end |
| Scan.FarPositionThrows | include/late.h:112-116 | a long string whose position takes more than 16 bits is refused |
| Scan.CheckNoNulls | src/column_store.cpp:34-46 | the check that stops early agrees with looking at every page |
| Scan.ScanColumn | src/column_store.cpp:24-163 | when the column has no more rows than the table, the scan ends exactly when it stays inside the pages and all addresses fit; the words then resolve to the values given by ScanIsIdentity |
| Scan.CopyScan | src/column_store.cpp:18-167 | so for all columns asked for, whatever the order in which threads take them |
| Scan.SmallIsAddressable | include/late.h:112-116 | 32 tables, 2^15 columns, 2^26 pages and positions below 2^16 are enough room for every reference |
| Materialize.MaterializeInts | src/column_store.cpp:187-206 | INT32 words become pages that read back as the values they resolve to |
| Materialize.ReadReference | src/column_store.cpp:213-243 | a reference is read as a long string or a short one by the mark of its page |
| Materialize.MaterializeStrings | src/column_store.cpp:207-250 | VARCHAR words become pages that read back as the strings they point at |
| Materialize.ToColumnarFromColumn | src/column_store.cpp:169-259 | materialisation succeeds exactly for INT32 and VARCHAR columns, and each output column holds what its words stand for |
| Materialize.MaterializedFields | src/column_store.cpp:169-259 | values survive the way through pages |
| Materialize.ScanThenMaterialize | src/column_store.cpp:18-259 | scan and materialise come to an end exactly when the scan stays inside the pages and all addresses fit, and then give back the projected columns, and the stored values exactly where they survive |
| NestedLoops.PairsMultiset | src/execute.cpp:98-131 | up to order, a nested-loop join depends on the multiset of its outer rows only |
| NestedLoops.PairsSwap | src/execute.cpp:53-57 | the loops of a nested-loop join can be swapped |
| NestedLoops.PairsMap | src/execute.cpp:98-131 | joining images of rows is the image of joining the rows, when matching and output agree |
| NestedLoops.PlacesAre | src/execute.cpp:98-131 | a nested-loop join has one row for each pair of places whose rows match, and no other |
| ProbeWorkers.ClaimStep | src/execute.cpp:83-87 | a fetch_add hands a page to one worker or none, and no page to two |
| ProbeWorkers.SlotStep | src/execute.cpp:89-133 | probing a slot keeps the record of which addresses have been probed |
| ProbeWorkers.AllProbed | src/execute.cpp:80-135 | when all workers are done, every slot of every page has been probed exactly once |
| ProbeWorkers.AddressesDistinct | src/execute.cpp:101 | addresses p * BOXES + s are distinct and ordered |
| Join.CollectBuild | src/execute.cpp:33-51 | the build side yields one tuple for every non-null key, with its address |
| Join.ProbePairs | src/execute.cpp:97-101 | a probe of the table returns the rows that the nested loop pairs the probing row with |
| Join.OutputWord | src/execute.cpp:107-124 | output column j takes its word from the operand, page and slot that the join of the two rows names, whichever side was built |
| Join.EmitRow | src/execute.cpp:107-126 | a match appends one word to every output column |
| Join.ProbeKey | src/execute.cpp:97-127 | a worker's columns gain exactly the rows of one probing key |
| Join.WorkerStep | src/execute.cpp:80-136 | whichever worker moves, the workers' rows together stay the pairs of the addresses probed so far, and every step makes progress |
| Join.RunWorkers | src/execute.cpp:136-180 | for every interleaving the workers end and their rows together are the pairs of all probe addresses |
| Join.Merge | src/execute.cpp:182-189 | concatenating the workers' pages keeps the rows and gives all output columns the same layout |
| Join.ProbedIsNestedLoop | src/execute.cpp:192-197 | building left or right makes no difference to the result |
| Join.Run | src/execute.cpp:26-198 | for every hash function and every interleaving of build and probe the output columns hold, page by page alike, the nested-loop join of the operands |
| Plans.Meaning | src/execute.cpp:201-280 | the rows of a node have the width of its attributes |
| Plans.MeaningIsRelational | src/execute.cpp:258-266 | when all scanned columns survive, the meaning of a plan is the relational one |
| Plans.JoinMeaning | src/execute.cpp:201-256 | a join on INT32 keys has one row for each left and right row with equal keys that are not null, made of their columns side by side |
| Decoding.RowsAtAddresses | src/execute.cpp:98-105 | an address names the same row in every column of an operand, also with partly full pages |
| Decoding.KeyColumnOk | src/execute.cpp:39-49 | the key words of an INT32 column are never refused |
| Decoding.OutValue | src/execute.cpp:107-124 | an output word, read with the original pages it inherits, is the value of the input row |
| Decoding.DecodedJoin | src/execute.cpp:26-198 | the nested-loop join of the words, decoded, is the nested-loop join of the values |
| Decoding.JoinResult | src/execute.cpp:201-256 | columns that hold the word-level join hold the join of the values |
| Execute.EnvExists | src/execute.cpp:136-180 | for every plan and hash function there is a run of all threads |
| Execute.ExecuteScan | src/execute.cpp:258-266 | a scan ends exactly when all its columns can be scanned, and computes the projected columns of its table in order |
| Execute.InitColumn | src/execute.cpp:217-231 | an output column inherits null information and original pages from the column it comes from |
| Execute.RunJoin | src/execute.cpp:26-198 | the join of two computed children computes the join of their rows |
| Execute.ExecuteHashJoin | src/execute.cpp:201-256 | a join node computes the join of its children, and nothing on keys other than INT32 |
| Execute.ExecuteImpl | src/execute.cpp:268-280 | for every plan whose children come before their parents, evaluation ends exactly when all scans below do, and computes the plan's meaning up to order |
| Execute.SmallCanScan | src/execute.cpp:258-266 | with few tables, columns and pages, that is exactly when all scans stay inside their pages |
| Execute.Execute | src/execute.cpp:282-293 | execute ends with a table exactly when every scan below the root ends; the rows of the table are, up to order, those of the plan's meaning, and the relational ones when all scanned columns survive, for every hash function, build side and interleaving |
| InnerColumns.OrMasked | include/inner_column.h:250-260 | the masked OR of a kernel changes one bit, to the comparison of a non-null value |
| InnerColumns.IntColumn.PushBack | include/inner_column.h:154-157 | push_back appends the value and grows the bitmap when a byte is full |
| InnerColumns.IntColumn.PushBackNull | include/inner_column.h:159-162 | push_back_null appends a null |
| InnerColumns.IntColumn.Kernel | include/inner_column.h:172-183 | a thread's kernel sets the bits of its byte range to the rows that compare as asked, and touches no other byte |
| InnerColumns.StringColumn.PushBack | include/inner_column.h:360-364 | push_back appends the string and leaves the earlier ones readable |
| InnerColumns.StringColumn.PushBackNull | include/inner_column.h:366-369 | push_back_null appends a null |
| InnerColumns.StringColumn.Kernel | include/inner_column.h:388-408 | the same for string comparisons and LIKE, up to the last row |
| Statements.CompareInts | include/inner_column.h:172-183 | the pool's ranges together set exactly the bits of the rows that compare as asked, whatever the threads' order |
| Statements.CompareStrings | include/inner_column.h:388-408 | so for VARCHAR columns |
| Statements.ByteOpBits | src/statement.cpp:8-44 | byte-wise NOT, AND and OR act on every bit |
| Statements.BitmapOp | src/statement.cpp:8-44 | in any order of the threads, every byte of the result is combined once |
| Statements.EvalInts | src/statement.cpp:49-68 | null tests and comparisons of an INT32 column agree with the record-wise comparison, the literal cut to 32 bits |
| Statements.EvalStrings | src/statement.cpp:109-130 | null tests, comparisons and LIKE of a VARCHAR column agree with the record-wise comparison |
| Statements.Eval | src/statement.cpp:46-200 | the bits set are the rows Selected, whose laws follow, and those for which the record-wise evaluation of the statement with cut literals and first children holds, nulls under NOT included |
| Statements.LogicalSelects | src/statement.cpp:186-228 | the rows selected by AND are those both operands select, by OR those one of them selects, by NOT those its operand does not |
| Statements.NullTestSelects | src/statement.cpp:51-54 | IS NULL selects exactly the null rows, IS NOT NULL exactly the others |
| Statements.IntsSelect | include/inner_column.h:172-327 | the rows of an INT32 column each comparison selects, the literal taken modulo 2^32 |
| Statements.StringsSelect | include/inner_column.h:388-560 | the rows of a VARCHAR column each comparison selects, with Precedes as the order |
| Statements.PrecedesTotal | include/inner_column.h:388-408 | of two strings exactly one precedes the other unless they are equal, where preceding is being a proper prefix or smaller at the first difference |
| Statements.CutAgrees | src/statement.cpp:56-63 | cutting the literal of a comparison agrees on all fields exactly when it is in int32 range, or lies below with < or >= and is cut to the least int32, or above with > or <= and is cut to the greatest |
| Statements.NarrowedAgrees | src/statement.cpp:46-228 | a statement with such literals, binary AND and OR and unary NOT selects the same records either way |
| Statements.WideLiteralDiffers | src/statement.cpp:56 | comparing with 4294967296 selects zeros on columns and nothing on records |
| FilterLoad.FromInts | src/build_table.cpp:104-129 | the selected rows of an INT32 column become pages that read back as those rows, and their number is returned |
| FilterLoad.FromStrings | src/build_table.cpp:104-129 | so for a VARCHAR column |
| FilterLoad.RunFilter | src/build_table.cpp:318-325 | the bits kept are the rows the filter selects, in order, or all rows without a filter |
| FilterLoad.Load | src/build_table.cpp:318-376 | every column of the filtered table keeps exactly the selected rows in order, with the same count |
| FilterLoad.PlainSelects | src/statement.cpp:135-228 | a plain filter selects exactly the records for which it holds |
| FilterPool.RangesTile | include/inner_column.h:23-27 | the threads' ranges tile [0, num_tasks) |
| FilterPool.Owner | include/inner_column.h:23-27 | every index belongs to the range of some thread |
| FilterPool.EveryoneDone | include/inner_column.h:85-103 | when all threads are done, every index has been executed exactly once |
| FilterPool.FilterThreadPool.SetFunction | include/inner_column.h:86-87 | between calls no worker reads the function, so setting it needs no lock |
| FilterPool.FilterThreadPool.Publish | include/inner_column.h:88-93 | raising a thread's flags disturbs no share |
| FilterPool.FilterThreadPool.Wake | include/inner_column.h:33-42 | a woken worker takes the current function and its own range |
| FilterPool.FilterThreadPool.Finish | include/inner_column.h:43-48 | a finishing worker adds its share of the current call, once |
| FilterPool.FilterThreadPool.Run | include/inner_column.h:85-103 | in every interleaving and over repeated calls, run returns only after each index was executed exactly once with the current function |
| DisjointSets.UnitedClosed | include/common.h:119 | uniting two sets makes two elements share a root exactly when they are connected by the pairs united so far |
| DisjointSets.RootRank | include/common.h:117 | chains of parents climb and end, which is why find terminates |
| DisjointSets.Compressed | include/common.h:117 | path compression keeps every root |
| DisjointSets.LinkedForest | include/common.h:119 | linking one root below another keeps a forest |
| DisjointSets.DSU.Find | include/common.h:117 | find terminates under path compression and returns the root |
| DisjointSets.DSU.Unite | include/common.h:119 | unite keeps roots equal exactly for elements in the equivalence closure |
| JoinGraph.AddCondition | tests/read_sql.cpp:838-861 | a condition is entered in both directions, or refused when its pair of tables has one already |
| JoinGraph.Symmetric | tests/read_sql.cpp:854-861 | the graph is symmetric |
| JoinGraph.Group | tests/read_sql.cpp:825-833 | columns are grouped by root, in ascending order |
| JoinGraph.Build | tests/read_sql.cpp:825-864 | in any order of the sets, construction fails exactly when two written or implied conditions are about the same pair of tables, and otherwise the graph mirrors the closure in both directions |
| PlanCompiler.NameIndex | tests/read_sql.cpp:1164-1175 | the first attribute with a name |
| PlanCompiler.ReadsEntities | tests/read_sql.cpp:878-920 | the tables of a subtree are those extract_entities returns |
| PlanCompiler.ScanComputes | tests/read_sql.cpp:1160-1184 | a compiled scan computes the projection of its table to the required columns |
| PlanCompiler.PairsProject | tests/read_sql.cpp:1043-1073 | projecting the join on named columns is joining the projections on the positions chosen for them |
| PlanCompiler.JoinComputes | tests/read_sql.cpp:1019-1073 | a compiled join computes the projection of the named join, whatever its key type |
| PlanCompiler.MeaningExtends | include/plan.h:179-203 | appending nodes and inputs changes nothing for earlier nodes |
| PlanBuilding.FindCondition | tests/read_sql.cpp:967-991 | in any order of the sets, a join condition between the two sides is found exactly when there is one |
| PlanBuilding.SplitRequired | tests/read_sql.cpp:992-1018 | each side is asked for its required columns and its join column, and a column of neither side is an error |
| PlanBuilding.PickOutputs | tests/read_sql.cpp:1046-1066 | every required column is found at its first position among the children's columns |
| PlanBuilding.PickAttributes | tests/read_sql.cpp:1160-1182 | a scan outputs exactly the required columns of its table, and fails for any other |
| PlanBuilding.PickPositions | tests/read_sql.cpp:1021-1066 | the keys and outputs of a join sit where the children put the join columns and the required columns |
| PlanBuilding.CompileJoin | tests/read_sql.cpp:938-1073 | a join node outputs exactly the required columns in order, with its keys at the chosen join columns |
| PlanBuilding.Recurse | tests/read_sql.cpp:922-1188 | compilation of a subtree appends nodes only, and each node computes the projection of the named join it was read as |
| PlanBuilding.Load | tests/read_sql.cpp:868-1192 | compilation succeeds exactly for plans drawn from a tree of joins with its conditions in the graph, with any pass-through operators, either side below a Hash node and known aliases, or a lone relation, whose tables have the columns asked for; the root then yields the projection of that tree up to the picked conditions, and of the tree itself where there is nothing to pick |
| PlanBuilding.LoadBared | tests/read_sql.cpp:936-937 | removing pass-through operators changes neither success nor, up to the picked conditions, the rows |
| PlanTrees.DrawnCompiles | tests/read_sql.cpp:922-1188 | a drawn tree compiles exactly when its tables have the columns asked for |
| PlanTrees.CompilesExactly | tests/read_sql.cpp:922-1188 | and nothing but drawn trees and lone relations compiles |
| PlanTrees.LoneScan | tests/read_sql.cpp:1076-1103 | an alias, known or not, is looked at before the relation name |
| PlanTrees.UntidyIsRefused | tests/read_sql.cpp:942-964 | a pass-through operator between a join and its Hash node is refused |
| JoinConditions.JoinsFilter | tests/read_sql.cpp:1019-1073 | the tree of joins yields the rows of the product of its tables that meet the picked conditions |
| JoinConditions.JoinsAreWhere | tests/read_sql.cpp:967-991 | it yields the rows that meet all conditions of the graph exactly when none of its rows violates a condition that was not picked |
| JoinConditions.ImpliedIsWhere | tests/read_sql.cpp:967-991 | so it does when every condition of the graph follows from the picked ones |
| JoinConditions.NotImpliedLoses | tests/read_sql.cpp:967-991 | when a condition does not follow from the picked ones, some tables make the joins yield a row that violates it |
| JoinConditions.AskedExactly | tests/read_sql.cpp:967-991 | joins on INT32 keys yield the rows that meet all conditions, whatever is in the tables, exactly when every condition follows from the picked ones |
| JoinConditions.TriangleLosesCondition | tests/read_sql.cpp:967-991 | three tables, three conditions and two joins that yield a row no condition-abiding query has |
| Queries.GraphOk | tests/read_sql.cpp:835-864 | the graph, by names, compares existing columns of one type when the united columns do |
| Queries.GraphIsWritten | tests/read_sql.cpp:825-864 | a row meets all conditions of the graph exactly when it meets the written ones |
| Queries.Parse | tests/read_sql.cpp:815-864 | the united columns become a query whose graph mirrors them, or are refused when two conditions are about one pair of tables |
| Queries.Run | tests/read_sql.cpp:866-1192 | from a tree of joins to result rows: success exactly for drawn trees, and then compiling and executing yields the projection of the join on the picked conditions, and of the product filtered by all conditions when those follow |

## Left out
- Hopscotch.HashTable.Insert: takes a bound on nested rehashes and reports when it is used up, because the source's recursion need not end.
- Hopscotch.HashTable.Find: stated against the multiset of stored items, which is a map when the inserted keys are distinct; insert itself does not look for an equal key.
- RobinHood.HashTable.Find: returns the value found instead of a pointer to it.
- Scan.ScanColumn: when the row count of the table is smaller than the column, only the absence of wrong results is stated, not at which row the exception comes.
- Join.Run: the build side has fewer than 2^21 pages, so that positions fit 32 bits and counts fit `int`, as they are assumed to in the source; `Execute.SmallBuilds` turns this into a bound on the row counts of build sides.
- FilterPool.FilterThreadPool.Run: waiting on a condition variable is a step that is possible when its predicate holds and the mutex is free; notification, fairness and the destructor are not modelled.
- Csv.CSVParser.Execute: `has_trailing_comma_` is false; in the other mode the error code can depend on the chunking, because the split-CR path keeps `after_field_sep_`.
- FixedInserter.ColumnInserter.Insert: 4-byte values only, because the capacity test reserves 4 bytes whatever the type is.
- UnchainedTable.UnchainedHashTable.BuildParallel: a chunk holds a growing sequence with the source's capacity test instead of a fixed array, and freeing the chunks afterwards is left out.
- ColumnPages.ColumnT: its pages are values with a 1024-word buffer and a count, so sharing of pages between columns is not modelled; no page is written after it has been shared.
- PlanBuilding.PlanBuilder: the input of a scan is a given table for each entity; reading it from CSV or from the cache is not part of this step.
- FilterLoad.Load: starts from loaded columns; turning CSV text into numbers is left out.
- The cuckoo table: `k` is computed once before the kick loop, so an evicted key may land in a slot that is not its own.
- INT64 and FP64 inserters, INT64 comparison through `double`, and joins on keys other than INT32, for which `run<T>` does nothing.
- `my_copy_scan` and `to_columnar_from_value`, an older row-wise variant of the scan.
- SQL and JSON parsing, mmap cache files, file input, DuckDB comparison, formatting, timing, memory ownership.
