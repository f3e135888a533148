# A model of lua_sandbox_extensions

The repository is a collection of Lua modules.  Most wrap a library; this project models
the ones with an algorithm of their own and proves what they are for.

* **Parquet writer** (`Parquet*.dfy`): finalizing a schema, dissecting nested Lua tables into
  column streams of repetition level, definition level and value, undoing a record that
  fails half-way, and writing row groups.  Shredding is inverted by an assembler that knows
  nothing but the streams, and a relation between records and Lua tables says what is stored.
* **Cuckoo filters** (`Cuckoo*.dfy`, `Bits.dfy`): partial-key cuckoo hashing with random
  evictions refines a set of classes (fingerprint, pair of buckets); the expiring variant
  refines a map from classes to absolute intervals with 8-bit circular bytes.
* **Circular buffer** (`Circular*.dfy`): a wrapped array cleared by doubling copies refines an
  unbounded history seen through a window; what a cell is of the numbers given to it; saving
  and restoring; replication by deltas.
* **xxHash** (`XXHash*.dfy`): the incremental interface against the one-shot functions, and
  what changes a hash for certain.
* **HyperLogLog** (`HyperLogLog*.dfy`): 6-bit registers packed in bytes, three ways to sum
  them, registers as a function of the set of elements, the cached count.
* **Kinesis consumer** (`Kinesis*.dfy`): iterators, checkpoints and shards against a service
  that may refuse, throttle, expire and grow as it likes; its answers are inputs.  What is
  returned, from where on, in which order and how often.
* **IRC monitor** (`Irc*.dfy`): framing lines out of a byte stream, connection states, what
  ends a connection, and the order of messages.

What the source changes in place is a class with those fields; methods are proved against
functions on values, and lemmas about the functions carry the results.  Lua values, times,
random numbers, answers of services and results of writes are parameters, so the theorems
hold for all of them.  `Common.dfy` and `CTime.dfy` hold what several parts use.

`dafny verify dfyconfig.toml` checks everything.

Where to start: `ParquetShred.ShreddingIsLossless`, `ParquetMeaning.FieldIff`,
`ParquetWriter.Session`, `Cuckoo.Session`, `CuckooExpire.Session`, `CircularWindow.Run`,
`CircularMeaning.CellsAreWorth`, `CircularReplica.Session`, `CircularRestore.SaveAndRestore`,
`XXHash32.WordMatters`, `XXHash64.Stream`, `HyperLogLogs.SplitAndMerge`,
`KinesisRun.PrefixIffNotReadAgain`, `KinesisRun.UnbrokenWhenNeverRefused`,
`KinesisStart.StartsWhereGranted`, `KinesisStart.LatestSkipsTheRest`, `KinesisRun.Session`,
`IrcMeaning.MessagesInOrder`, `Irc.Run`.

Properties that turned out false of the code are stated with the exact condition under which
they hold: `CuckooCommon.ShiftIsDefined`, `CuckooCommon.CapacityCovers`,
`CuckooExpireSpec.ExpiryIsExactIff`, `HyperLogLogSpec.MultiCountIffLastZero`,
`KinesisRun.PrefixIffNotReadAgain`.

## Model

| member | source | states |
|---|---|---|
| `ParquetSchema.BuildNested` | parquet/parquet.cpp:448-495 | levels and column ids of the finished tree follow the level rule for every node, the tree is the input with annotations and nothing else, and it fails exactly on the schemas that break a group, map or list rule |
| `ParquetSchema.Finalize` | parquet/parquet.cpp:548-570 | success gives a well-formed schema of the same shape; failure exactly when the schema is not acceptable |
| `ParquetSchema.AddColumns` | parquet/parquet.cpp:498-545 | the writer's columns are the leaves in depth-first order |
| `ParquetSchema.ShapeOfErasure` | parquet/parquet.cpp:393-445 | the map and list checks on the input are the collection shape of the finished node |
| `ParquetSchema.IdsArePositions` | parquet/parquet.cpp:448-545 | the id a leaf got from building is its position among the writer's columns |
| `ParquetSchema.LeafLevels` | parquet/parquet.cpp:448-495 | the levels of a leaf are not below those of a node above it, and its repetition level never rises by more than its definition level |
| `ParquetSchema.LeafCountPositive` | parquet/parquet.cpp:448-495 | every node of a finished schema has a column below it |
| `ParquetRecord.ParseConforms` | parquet/parquet.cpp:1447-1588 | what a Lua value is accepted as is an instance the schema node allows: right number of occurrences, right types, at every depth |
| `ParquetRecord.RecordConforms` | parquet/parquet.cpp:1578-1588 | the same for a whole record |
| `ParquetRecord.MapConforms` | parquet/parquet.cpp:1521-1543 | what a table is accepted as for a map is an instance of its repeated group of key and value pairs |
| `ParquetRecord.ListConforms` | parquet/parquet.cpp:1546-1562 | what a table is accepted as for a list is an instance of its repeated group of elements |
| `ParquetRecord.MissingConforms` | parquet/parquet.cpp:1419-1439 | the value that stands for a missing field, present with nulls for a required group of optional leaves, is one the schema allows |
| `ParquetMeaning.ConvertIffKeeps` | parquet/parquet.cpp:1241-1405 | a Lua value is stored as a value of a column if and only if that column keeps it as this value: a string its bytes, a boolean itself, a number itself, or its whole part, cut to the width of the column |
| `ParquetMeaning.ReadsBack` | parquet/parquet.cpp:1241-1405 | a string, a boolean, a number in a floating-point column and a whole number that fits an integer column read back as the value given |
| `ParquetMeaning.GetFieldIsUnder` | parquet/parquet.cpp:1578-1588 | the field of a name is the value of the first pair of the table with that key, and nil when there is none |
| `ParquetMeaning.RawGetIIsAt` | parquet/parquet.cpp:1565-1575 | the element of a place in a table, in its array part or under that number |
| `ParquetMeaning.EntriesAreAll` | parquet/parquet.cpp:1521-1543 | the entries of a map are all pairs of the table with a value, each once |
| `ParquetMeaning.MissingIff` | parquet/parquet.cpp:1419-1439 | a missing field is accepted as an instance if and only if that instance says nothing: no value anywhere in it |
| `ParquetMeaning.FieldIff` | parquet/parquet.cpp:1447-1518 | a Lua value is accepted as an instance if and only if the instance says what the value holds, for every node, by a relation between instances and values that is not a parser |
| `ParquetMeaning.InstancesIff` | parquet/parquet.cpp:1447-1518 | the same for the instances of a repeated group, one for each element and one empty instance for an empty table |
| `ParquetMeaning.RecordIff` | parquet/parquet.cpp:1578-1588 | a table is accepted as a record if and only if each field of the record says what the table holds under the name of the field |
| `ParquetMeaning.TupleIff` | parquet/parquet.cpp:1565-1575 | the same for a tuple and the places of the table |
| `ParquetMeaning.MapIff` | parquet/parquet.cpp:1521-1543 | the same for a map: key and value of every pair, in order |
| `ParquetMeaning.ListIff` | parquet/parquet.cpp:1546-1562 | the same for a list: every element in order |
| `ParquetMeaning.NamedFieldReadsBack` | parquet/parquet.cpp:1578-1588 | a string, boolean or number under the name of a column is what is read back from that column, with the exception of numbers that an integer column cannot hold |
| `ParquetShred.FieldRoundTrip` | parquet/parquet.cpp:1447-1588 | for every node and instance, assembling the columns of the shredded instance gives the instance back |
| `ParquetShred.InstancesRoundTrip` | parquet/parquet.cpp:1447-1518 | the same for the instances of a repeated group, cut apart at their repetition levels |
| `ParquetShred.FieldsRoundTrip` | parquet/parquet.cpp:1565-1588 | the same for the fields of a record, each in its own range of columns |
| `ParquetShred.FieldChunks` | parquet/parquet.cpp:1227-1588 | every column of a shredded field opens with the level it was entered at and continues only at deeper ones |
| `ParquetShred.SplitChunk` | parquet/parquet.cpp:1447-1518 | repetition levels alone tell where one instance ends and the next begins |
| `ParquetShred.ShreddingIsLossless` | parquet/parquet.cpp:1227-1588 | for every schema and every list of conforming records, the column streams determine the records: assembling gives exactly the list |
| `ParquetColumn.ReadBackOfView` | parquet/parquet.cpp:838-938 | the vectors handed to the file writer determine every entry, also where level vectors are absent |
| `ParquetColumn.DecodedGrows` | parquet/parquet.cpp:1241-1288 | growing the byte vector never moves a value handed out earlier |
| `ParquetColumn.DecodedPrefix` | parquet/parquet.cpp:1591-1647 | truncating the value vector keeps the values before, whatever bytes are left behind |
| `ParquetColumn.ColumnBuffer.UpdateLevels` | parquet/parquet.cpp:1227-1238 | one more value, and a level and a rollback count for every level vector the column has |
| `ParquetColumn.ColumnBuffer.AddString` | parquet/parquet.cpp:1241-1288 | adds one entry with the string at its level, or refuses exactly the types and lengths that do not fit and changes nothing |
| `ParquetColumn.ColumnBuffer.AddBoolean` | parquet/parquet.cpp:1291-1307 | adds one entry with the boolean as the one value of its column that reads back as it (`ReadsBack`), or refuses exactly the other types and changes nothing |
| `ParquetColumn.ColumnBuffer.AddInteger` | parquet/parquet.cpp:1310-1329 | the same for an integer, cut to the column's width |
| `ParquetColumn.ColumnBuffer.AddNumber` | parquet/parquet.cpp:1332-1351 | the same for a number |
| `ParquetColumn.ColumnBuffer.AddValue` | parquet/parquet.cpp:1365-1405 | adds the converted value exactly when the column's type admits the Lua value |
| `ParquetColumn.ColumnBuffer.AddNull` | parquet/parquet.cpp:1354-1362 | adds an entry without a value, or refuses exactly when the column is required at that level |
| `ParquetColumn.ColumnBuffer.ResetRecord` | parquet/parquet.cpp:1408-1416 | the rollback counters start again exactly when the column first sees a record |
| `ParquetColumn.ColumnBuffer.Rollback` | parquet/parquet.cpp:1591-1647 | levels, decoded values and counts are those before the record, in spite of leftover bytes |
| `ParquetColumn.ColumnBuffer.Clear` | parquet/parquet.cpp:941-999 | nothing is left in the column |
| `ParquetColumn.ColumnBuffer.HandOver` | parquet/parquet.cpp:838-938 | the file writer gets the view of everything received, and the column is empty afterwards |
| `ParquetWriter.MissingIsNull` | parquet/parquet.cpp:1419-1439 | a missing field is accepted exactly when no leaf below it is required there, and stands for one null in every column below |
| `ParquetWriter.Writer.DissectNull` | parquet/parquet.cpp:1419-1439 | appends one null to every column below, left to right, or stops at the first required leaf with only a prefix of them touched |
| `ParquetWriter.Writer.DissectField` | parquet/parquet.cpp:1447-1518 | appends exactly the shredding of what the value means, or fails exactly when it means nothing, having touched only a prefix of the columns |
| `ParquetWriter.Writer.DissectArray` | parquet/parquet.cpp:1447-1518 | the same for a repeated group: one instance after the other, an empty table being one empty instance |
| `ParquetWriter.Writer.DissectMap` | parquet/parquet.cpp:1521-1543 | the same for a map |
| `ParquetWriter.Writer.DissectList` | parquet/parquet.cpp:1546-1562 | the same for a list |
| `ParquetWriter.Writer.DissectTuple` | parquet/parquet.cpp:1565-1575 | the same for a tuple, field by position |
| `ParquetWriter.Writer.DissectRecord` | parquet/parquet.cpp:1578-1588 | the same for a record, field by name |
| `ParquetWriter.Writer.RollbackRecord` | parquet/parquet.cpp:1591-1647 | every column is cut back to where it was before the record, although the loop stops at the first column the record did not reach |
| `ParquetWriter.Writer.Dissect` | parquet/parquet.cpp:1650-1673 | a record is taken completely or leaves no trace: on failure every column's view is unchanged, on success exactly its meaning is added |
| `ParquetWriter.Writer.ViewsAreShredded` | parquet/parquet.cpp:1591-1673 | at all times the columns are a function of the accepted records alone |
| `ParquetWriter.Writer.WriteRowgroup` | parquet/parquet.cpp:1131-1152 | hands over the shredding of all accepted records, or nothing, and starts again empty also after a failure of the file writer; an error on a closed writer |
| `ParquetWriter.Writer.Flush` | parquet/parquet.cpp:1119-1128 | the same for write_rowgroup, which does nothing on a closed writer |
| `ParquetWriter.Writer.Close` | parquet/parquet.cpp:1155-1191 | writes what is pending; the writer is closed from then on unless the file writer itself fails to close, and any failure is reported |
| `ParquetWriter.RecordsEntriesOk` | parquet/parquet.cpp:1227-1588 | in every column the levels stay within the leaf's maxima and a value is present exactly at the maximum definition level |
| `ParquetWriter.RowsPerColumn` | parquet/parquet.cpp:1227-1588 | in every column the entries with repetition 0 are as many as the records |
| `ParquetWriter.GroupReadsBack` | parquet/parquet.cpp:838-999 | a written group decodes to exactly the records that were dissected |
| `ParquetWriter.Session` | parquet/parquet.cpp:1119-1673 | for every sequence of good and bad records, and of writes and closings that succeed or fail, the groups in the file decode to exactly the accepted records, in order; each of them says what the table passed in held, field by field and name by name, and the tables accepted are exactly those that can be said |
| `CuckooCommon.Clp2` | cuckoo_filter/common.c:11-20 | the least power of two not below the argument; zero for zero and beyond 2^31 |
| `CuckooCommon.LeastPowerIsLeast` | cuckoo_filter/common.c:11-20 | no smaller power of two would do |
| `CuckooCommon.Nlz` | cuckoo_filter/common.c:23-35 | counts the leading zero bits |
| `CuckooCommon.OtherBucketIsInvolution` | cuckoo_filter/cuckoo_filter.c:167 | the alternate bucket is in range and its alternate is the first one again, for every hash |
| `CuckooCommon.OtherBucketTells` | cuckoo_filter/cuckoo_filter.c:167 | two fingerprints lead from a bucket to the same other one if and only if their hashes agree in the bits that number the buckets, and a fingerprint has a single bucket if and only if these are zero |
| `CuckooCommon.ShiftIsDefined` | cuckoo_filter/cuckoo_filter.c:52-60 | for requests above four, the shift by nlz + 32 is below 64 if and only if eight or more items are requested |
| `CuckooCommon.CapacityCovers` | cuckoo_filter/cuckoo_filter.c:45-66 | the filter has room for the requested number of items if and only if that number is a multiple of four or its quarter, rounded down, is not a power of two |
| `CuckooCommon.SingleBucketRequest` | cuckoo_filter/cuckoo_filter.c:45-66 | a request whose filter has one bucket, and one whose filter is too small |
| `Cuckoo.Fingerprint16` | cuckoo_filter/common.c:38-42 | never the empty marker, and never more than 16 bits |
| `Cuckoo.Fingerprint16Iff` | cuckoo_filter/common.c:38-42 | two hashes have the same fingerprint if and only if they agree in their top 16 bits, or both have 0 or 1 there |
| `Cuckoo.CuckooFilter.SameClassIff` | cuckoo_filter/cuckoo_filter.c:145-167 | two keys are the same to the filter if and only if their fingerprints are the same and the first bucket of one is the first or the other bucket of the other |
| `Cuckoo.TellsApart` | cuckoo_filter/cuckoo_filter.c:145-206 | in an empty filter, after adding one key, a second with the same first bucket is found, and refused as a duplicate, if and only if the hashes agree in their top 16 bits or both have 0 or 1 there |
| `Cuckoo.CuckooFilter.BucketLookup` | cuckoo_filter/cuckoo_filter.c:77-83 | finds a fingerprint if and only if the bucket has it |
| `Cuckoo.CuckooFilter.BucketDelete` | cuckoo_filter/cuckoo_filter.c:86-95 | empties one slot with the fingerprint if there is one |
| `Cuckoo.CuckooFilter.BucketAdd` | cuckoo_filter/cuckoo_filter.c:98-107 | fills a free slot if there is one |
| `Cuckoo.CuckooFilter.BucketInsert` | cuckoo_filter/cuckoo_filter.c:110-142 | membership decides on a duplicate, otherwise the class is added, or, only when neither bucket had a free slot, the filter is full and holds old plus new minus one class |
| `Cuckoo.CuckooFilter.Relocate` | cuckoo_filter/cuckoo_filter.c:121-138 | for every sequence of random numbers: no class is ever stored twice, so the duplicate exit of the kick loop is never taken, and a full filter has lost exactly the class in hand |
| `CuckooCommon.FullIsCrowded` | cuckoo_filter/cuckoo_filter.c:110-120 | two full buckets mean that as many classes of the set share a bucket with the class as its buckets have slots |
| `Cuckoo.CuckooFilter.NotStored` | cuckoo_filter/cuckoo_filter.c:133 | the class in hand is in no slot |
| `Cuckoo.CuckooFilter.constructor` | cuckoo_filter/cuckoo_filter.c:45-66 | an empty filter of the computed size |
| `Cuckoo.CuckooFilter.Add` | cuckoo_filter/cuckoo_filter.c:145-175 | insertion into a set of classes, returning whether the class was absent; a full error comes only when both buckets of the class are full; the count is the size of the set, also after it |
| `Cuckoo.CuckooFilter.Query` | cuckoo_filter/cuckoo_filter.c:177-206 | membership in the set |
| `Cuckoo.CuckooFilter.Delete` | cuckoo_filter/cuckoo_filter.c:209-241 | removal from the set, returning whether it was there |
| `Cuckoo.CuckooFilter.Clear` | cuckoo_filter/cuckoo_filter.c:252-258 | the empty set |
| `Cuckoo.CuckooFilter.CountIsOccupancy` | cuckoo_filter/cuckoo_filter.c:168-171 | the count is the number of slots that are not empty |
| `Cuckoo.Perform` | cuckoo_filter/cuckoo_filter.c:145-258 | one call answers like a set and leaves the set's next state |
| `Cuckoo.Session` | cuckoo_filter/cuckoo_filter.c:45-258 | for every sequence of calls and random numbers the filter answers like a set of classes; only an add whose buckets are crowded may be refused and lose one class; the count is the size of the set |
| `CuckooExpireSpec.RankRoundTrip` | cuckoo_filter/cuckoo_filter_expire.c:62-75 | rank and byte are inverse to each other for every current interval |
| `CuckooExpireSpec.RankOfDecoded` | cuckoo_filter/cuckoo_filter_expire.c:62-69 | the rank of a byte is the distance of its absolute interval from the far end of the window |
| `CuckooExpireSpec.PruneRangeInGeneral` | cuckoo_filter/cuckoo_filter_expire.c:211-230 | for every forward move, the pruned bytes are those of the oldest intervals, as many as the jump modulo 256 |
| `CuckooExpireSpec.PruneRangeIsExpiry` | cuckoo_filter/cuckoo_filter_expire.c:211-230 | for a move of fewer than 256 intervals, they are exactly those that leave the window, and the others keep their meaning |
| `CuckooExpireSpec.AddIsExact` | cuckoo_filter/cuckoo_filter_expire.c:233-288 | one add on bytes is one add in absolute intervals |
| `CuckooExpireSpec.DeltaIsDistance` | cuckoo_filter/cuckoo_filter_expire.c:125-146 | the distance reported for a duplicate is the true one |
| `CuckooExpireSpec.OldestByteIsOldest` | cuckoo_filter/cuckoo_filter_expire.c:211-230 | the byte a sweep returns is that of the oldest absolute interval in the table |
| `CuckooExpireSpec.ExpiryIsExactIff` | cuckoo_filter/cuckoo_filter_expire.c:261-268 | for every table and forward move, expiry due to time is exact if and only if the clock jumps by fewer than 256 intervals or every entry lies in the range pruned by the jump modulo 256 |
| `CuckooExpireSpec.ExpiryIsExactForCurrent` | cuckoo_filter/cuckoo_filter_expire.c:261-268 | with an entry in the current interval, exactly the jumps of fewer than 256 intervals are exact |
| `CuckooExpireSpec.RoomTakesOneInterval` | cuckoo_filter/cuckoo_filter_expire.c:270-275 | making room removes exactly the entries of one absolute interval, the oldest found by the last sweep or the oldest of the window, and leaves all others as they are |
| `CuckooExpireSpec.StaleAfterLongJump` | cuckoo_filter/cuckoo_filter_expire.c:261-268 | an entry that survives a jump of 257 intervals |
| `CuckooExpireSpec.HoldsTheLast256` | cuckoo_filter/cuckoo_filter_expire.c:211-288 | the reference holds exactly the undeleted classes whose latest accepted add lies in the last 256 intervals |
| `CuckooExpire.Fingerprint32` | cuckoo_filter/common.c:45-49 | never the empty marker, and never more than 32 bits |
| `CuckooExpire.Fingerprint32Iff` | cuckoo_filter/common.c:45-49 | two hashes have the same fingerprint if and only if they agree in their top 32 bits, or both have 0 or 1 there |
| `CuckooExpire.ExpiringFilter.SameClassIff` | cuckoo_filter/cuckoo_filter_expire.c:233-260 | two keys are the same to the filter if and only if their fingerprints are the same and the first bucket of one is the first or the other bucket of the other |
| `CuckooExpire.TellsApart` | cuckoo_filter/cuckoo_filter_expire.c:233-322 | in an empty filter, after adding one key, a second with the same first bucket is found if and only if the hashes agree in their top 32 bits or both have 0 or 1 there |
| `CuckooExpire.ExpiringFilter.BucketLookup` | cuckoo_filter/cuckoo_filter_expire.c:112-122 | finds a fingerprint with its byte if and only if the bucket has it |
| `CuckooExpire.ExpiringFilter.BucketInsertLookup` | cuckoo_filter/cuckoo_filter_expire.c:125-146 | a class already there keeps the later of the two intervals, and the reported distance is between them |
| `CuckooExpire.ExpiringFilter.Vacate` | cuckoo_filter/cuckoo_filter_expire.c:149-159 | removes the class from the filter if the bucket has it |
| `CuckooExpire.ExpiringFilter.Settle` | cuckoo_filter/cuckoo_filter_expire.c:162-172 | adds the class with its byte if the bucket has room |
| `CuckooExpire.ExpiringFilter.Relocate` | cuckoo_filter/cuckoo_filter_expire.c:186-205 | class and interval byte travel together through the evictions; no class is stored twice |
| `CuckooExpire.ExpiringFilter.BucketInsert` | cuckoo_filter/cuckoo_filter_expire.c:175-208 | the table afterwards, for a duplicate, an added and a full outcome, the last only when the buckets of the class are crowded |
| `CuckooExpire.ExpiringFilter.PruneRange` | cuckoo_filter/cuckoo_filter_expire.c:211-230 | what is left is the table without the range, and the result is the oldest interval of the table before |
| `CuckooExpire.ExpiringFilter.MoveClock` | cuckoo_filter/cuckoo_filter_expire.c:261-268 | expiry due to time: clock, table and the oldest interval remembered |
| `CuckooExpire.ExpiringFilter.Admit` | cuckoo_filter/cuckoo_filter_expire.c:252-268 | an add is refused exactly when it is 256 or more intervals old, times before zero included; otherwise the clock is right |
| `CuckooExpire.ExpiringFilter.MakeRoom` | cuckoo_filter/cuckoo_filter_expire.c:270-275 | exactly at four fifths the interval remembered is pruned, or the next to come round when none is, and the oldest one found is remembered |
| `CuckooExpire.ExpiringFilter.Add` | cuckoo_filter/cuckoo_filter_expire.c:233-288 | clock, table, oldest interval remembered and outcome of an add, for every jump and filling |
| `CuckooExpire.ExpiringFilter.Query` | cuckoo_filter/cuckoo_filter_expire.c:291-322 | finds exactly the classes in the filter, with a byte that decodes to their interval |
| `CuckooExpire.ExpiringFilter.Delete` | cuckoo_filter/cuckoo_filter_expire.c:325-357 | removes the class, returning whether it was there |
| `CuckooExpire.ExpiringFilter.Clear` | cuckoo_filter/cuckoo_filter_expire.c:52-59 | the empty filter with its clock at the start |
| `CuckooExpire.ExpiringFilter.constructor` | cuckoo_filter/cuckoo_filter_expire.c:78-100 | an empty filter |
| `CuckooExpire.AddRefines` | cuckoo_filter/cuckoo_filter_expire.c:233-288 | the meaning of the table after an add is the reference add on its meaning before |
| `CuckooExpire.AddAnswers` | cuckoo_filter/cuckoo_filter_expire.c:233-288 | the answer of an add is the reference's: too old, a duplicate at the true distance, or added |
| `CuckooExpire.Perform` | cuckoo_filter/cuckoo_filter_expire.c:233-373 | every call leaves the state and gives the answer of the filter on bytes |
| `CuckooExpire.StepRefines` | cuckoo_filter/cuckoo_filter_expire.c:233-373 | a query, a delete, a clear, and an add that does not jump, prune for room or fail in crowded buckets does and answers what the reference does |
| `CuckooExpire.RunRefines` | cuckoo_filter/cuckoo_filter_expire.c:52-373 | a run of the filter on bytes without such adds is the run of the reference, with its answers |
| `CuckooExpire.Session` | cuckoo_filter/cuckoo_filter_expire.c:52-373 | for every sequence of calls and random numbers the filter runs and answers as the filter on bytes, jumps, prunings and full buckets included; while no add jumps 256 intervals, prunes for room or fails in crowded buckets, it is the reference and every answer is the reference's |
| `CTime.StartOfInterval` | circular_buffer/circular_buffer.c:186-190 | cutting a time down to its interval, with C's division, for negative times too |
| `CTime.IntervalBounds` | circular_buffer/circular_buffer.c:186-190 | a time lies in its interval, which begins at a multiple of the seconds per row; times before zero mirror those after |
| `CircularSpec.FindRowInWindow` | circular_buffer/circular_buffer.c:184-203 | a time has a row if and only if its interval is among the last ones, and it is that interval's row |
| `CircularSpec.Advanced` | circular_buffer/circular_buffer.c:108-129 | the rows cleared for a move by n intervals are exactly those that show a new interval |
| `CircularSpec.OwesAfterAdd` | circular_buffer/circular_buffer.c:226-252 | an add on a sum column moves value and delta alike |
| `CircularSpec.OwesAfterSet` | circular_buffer/circular_buffer.c:301-318 | so does a set |
| `CircularSpec.SettledByDelta` | circular_buffer/circular_buffer.c:691-720 | adding an emitted delta to a replica's value gives the source's value |
| `CircularBuffers.CircularBuffer.CopyRows` | circular_buffer/circular_buffer.c:100-101 | the memcpy, whose regions never overlap |
| `CircularBuffers.CircularBuffer.CopyClearedRow` | circular_buffer/circular_buffer.c:89-105 | the doubling copy clears exactly the rows behind the first one |
| `CircularBuffers.CircularBuffer.ClearRows` | circular_buffer/circular_buffer.c:108-129 | exactly the next rows are cleared, around the end of the array, all others survive |
| `CircularBuffers.CircularBuffer.constructor` | circular_buffer/circular_buffer.c:132-172 | nothing but NaN, and the clock at the end of the first window |
| `CircularBuffers.CircularBuffer.AdvanceRow` | circular_buffer/circular_buffer.c:184-203 | the window moves forward to a newer interval and the array shows the history through it |
| `CircularBuffers.CircularBuffer.AddAt` | circular_buffer/circular_buffer.c:223-255 | value and delta after an add, for every column type; an attempt to uninitialise a value changes nothing |
| `CircularBuffers.CircularBuffer.SetAt` | circular_buffer/circular_buffer.c:299-334 | value and delta after a set, for every column type; what the value then is of all the numbers set is `CellsAreWorth` |
| `CircularBuffers.CircularBuffer.Update` | circular_buffer/circular_buffer.c:216-340 | add and set as operations on the history, with their results and errors; the clock moves even when the call fails |
| `CircularBuffers.CircularBuffer.SetHeader` | circular_buffer/circular_buffer.c:343-369 | the type of one column changes |
| `CircularBuffers.CircularBuffer.Get` | circular_buffer/circular_buffer.c:265-278 | the history's cell inside the window, nil outside, an error for a bad column |
| `CircularBuffers.CircularBuffer.GetRange` | circular_buffer/circular_buffer.c:384-414 | consecutive intervals in order from the first to the last, across the wrap-around; nil and errors exactly where they are due |
| `CircularBuffers.CircularBuffer.IsRowDirty` | circular_buffer/circular_buffer.c:678-688 | whether some column of the row has a delta |
| `CircularBuffers.CircularBuffer.OutputCbufd` | circular_buffer/circular_buffer.c:691-720 | the dirty rows in chronological order with their deltas, which are cleared |
| `CircularBuffers.CircularBuffer.Serialize` | circular_buffer/circular_buffer.c:900-917 | the numbers written: clock, values, pending deltas |
| `CircularBuffers.CircularBuffer.ReadDeltas` | circular_buffer/circular_buffer.c:601-628 | where every number of the delta part goes, and when the text is refused |
| `CircularBuffers.CircularBuffer.FromString` | circular_buffer/circular_buffer.c:631-655 | every cell after reading a text, and when the text is refused, for any clock in the text |
| `CircularWindow.Run` | circular_buffer/circular_buffer.c:184-414 | after any sequence of adds, sets and outputs a read anywhere equals the unbounded reference restricted to the last rows intervals |
| `CircularWindow.AdvancingExposesNaN` | circular_buffer/circular_buffer.c:194-197 | advancing shows nothing but NaN in new intervals and leaves the others alone |
| `CircularMeaning.CellsAreWorth` | circular_buffer/circular_buffer.c:223-334 | after every sequence of adds, sets and outputs, for every interval and column: a cell nothing was given to is NaN; one that was only added to holds the sum; one that was only set holds the least number set in a min column, the greatest in a max column and the last one otherwise; and in sum and plain columns it is the last number set and all added since |
| `CircularMeaning.WorthNext` | circular_buffer/circular_buffer.c:223-334 | one more number given to a cell is taken and keeps this |
| `CircularMeaning.ClockIsNow` | circular_buffer/circular_buffer.c:184-203 | the clock is the newest interval a call has named, and never goes back |
| `CircularMeaning.DeltasArePending` | circular_buffer/circular_buffer.c:223-334 | a pending delta is what a sum column has gained since the last output, the value itself in a min or max column, and there is none in a plain one |
| `CircularRestore.ReadOutputs` | circular_buffer/circular_buffer.c:601-720 | reading the emitted lines back gives exactly the deltas of the dirty rows, in their rows |
| `CircularRestore.SaveAndRestore` | circular_buffer/circular_buffer.c:562-925 | a fresh buffer reading the saved text has the clock, column types, values and pending deltas from before saving; the saved one has only lost its deltas |
| `CircularReplica.SyncedAfterUpdate` | circular_buffer/circular_buffer.c:216-340 | any add or set on the source keeps pending deltas equal to what the replica lacks |
| `CircularReplica.FedOutputs` | circular_buffer/circular_buffer.c:691-720 | what feeding the emitted lines does to a replica that is not ahead |
| `CircularReplica.SettledByOutput` | circular_buffer/circular_buffer.c:691-720 | after an output that is fed, source and replica agree throughout the source's window |
| `CircularReplica.Publish` | circular_buffer/circular_buffer.c:691-720 | output on the source, adds on the replica in output order |
| `CircularReplica.Session` | circular_buffer/circular_buffer.c:184-720 | for every interleaving of adds, sets, advances and outputs, the source follows its reference and sum columns of the replica agree with it after each output |
| `XXHashBlocks.ConsumeAppend` | common/xxhash.c:356-361 | consuming blocks in two portions is consuming them at once |
| `XXHash32.Finish` | common/xxhash.c:369-387 | word loop, byte loop and final mix compute the tail function |
| `XXHash32.Blocks` | common/xxhash.c:456-473 | the lanes after all full blocks of the input |
| `XXHash32.OneShot` | common/xxhash.c:336-390 | the one-shot function is the specified hash |
| `XXHash32.State.Reset` | common/xxhash.c:559-570 | an empty message |
| `XXHash32.State.FinishBlock` | common/xxhash.c:603-613 | a completed block goes through the lanes and the buffer is empty |
| `XXHash32.State.Update` | common/xxhash.c:587-642 | buffer and lanes stand for the message with the input appended |
| `XXHash32.State.Digest` | common/xxhash.c:656-689 | the hash of everything passed to update, as long as its length is below 2^64 |
| `XXHash32.Stream` | common/xxhash.c:336-689 | for every seed and every division into updates, digest equals the one-shot hash of the concatenation |
| `XXHash32.WordMatters` | common/xxhash.c:326-390 | for every seed, two messages of the same length, of any length, that differ in one aligned word, or in one byte behind the last word, have different hashes: every step can be undone |
| `XXHash32.ByteMatters` | common/xxhash.c:326-390 | changing one byte of a message, of any length, changes its hash |
| `XXHash32.SeedMatters` | common/xxhash.c:364-390 | a message shorter than a block has a different hash for every seed |
| `XXHash32.KnownHashes` | xxhash/tests/test.lua:27-32 | the hashes of "foobar" for the seeds 0 and 1, and of a message of one block |
| `XXHash64.Finish` | common/xxhash.c:473-500 | the tail loops and the final mix |
| `XXHash64.OneShot` | common/xxhash.c:436-509 | the one-shot function is the specified hash |
| `XXHash64.State.Update` | common/xxhash.c:706-759 | buffer and lanes stand for the message with the input appended |
| `XXHash64.State.Digest` | common/xxhash.c:773-822 | the hash of everything passed to update |
| `XXHash64.Stream` | common/xxhash.c:436-822 | streaming equals one-shot for every seed and division |
| `XXHash64.WordMatters` | common/xxhash.c:436-500 | for every seed, two messages of the same length that differ in one word of eight or four bytes, or one byte, behind the last full block have different hashes |
| `XXHash64.ByteMatters` | common/xxhash.c:474-500 | changing one byte behind the last full block changes the hash of a message |
| `XXHash64.SeedMatters` | common/xxhash.c:470-500 | a message shorter than a block has a different hash for every seed |
| `XXHash64.KnownHashes` | xxhash/tests/test.lua:40-45 | the hashes of "foobar" for the seeds 0 and 1, before they are rounded to a double, of "foobar" twice and of a message of one block |
| `HyperLogLogSpec.Layout` | hyperloglog/redis_hyperloglog.h:156-178 | first byte and bit of a register |
| `HyperLogLogSpec.ReadGroup` | hyperloglog/redis_hyperloglog.h:156-164 | the getter reads what the unrolled sum reads, for all four positions in three bytes |
| `HyperLogLogSpec.WriteGroup` | hyperloglog/redis_hyperloglog.h:168-178 | setting one register of a group leaves the other three and the next group alone |
| `HyperLogLogSpec.RankIsPattern` | hyperloglog/redis_hyperloglog.c:172-199 | the rank is the length of the run of zeros and the one that ends it |
| `HyperLogLogSpec.RankIs` | hyperloglog/redis_hyperloglog.c:172-199 | the rank of a hash is n if and only if n - 1 bits from bit 14 on are clear and the next is set, bit 63 counting as set |
| `HyperLogLogSpec.IndexIff` | hyperloglog/redis_hyperloglog.c:172-199 | two hashes belong to the same register if and only if their last 14 bits agree |
| `HyperLogLogSpec.InverseIsPower` | hyperloglog/redis_hyperloglog.c:205-246 | what a register adds to the sum, times two to the power of the register, is one |
| `HyperLogLogSpec.RegistersAreDetermined` | hyperloglog/hyperloglog.c:86-134 | the registers are a function of the set of elements |
| `HyperLogLogSpec.UnionOfDescribed` | hyperloglog/hyperloglog.c:117-134 | register-wise maximum gives the registers of the union |
| `HyperLogLogSpec.ZerosAddOne` | hyperloglog/redis_hyperloglog.c:247-260 | counting zeros first and adding them at the end gives the same sum |
| `HyperLogLogSpec.CardRoundTrip` | hyperloglog/hyperloglog.c:145-165 | the cached count is read back as stored |
| `HyperLogLogSpec.MultiCountIffLastZero` | hyperloglog/hyperloglog.c:60-83 | a count of several objects uses the sum and zero count of their merge if and only if the last two registers of the merge are zero |
| `HyperLogLogSpec.MultiCountMissesLast` | hyperloglog/redis_hyperloglog.h:23 | an element in the last register alone is not seen at all: what is counted are the registers of the empty set |
| `HyperLogLogs.LastRegisterIsLost` | hyperloglog/hyperloglog.c:60-134 | two objects, one with a key added and one empty, that are counted together like two empty ones, although the first has an occupied register, for every estimate |
| `HyperLogLogs.HyperLogLog.GetRegister` | hyperloglog/redis_hyperloglog.h:156-164 | the register's value, below 64 |
| `HyperLogLogs.HyperLogLog.SetRegister` | hyperloglog/redis_hyperloglog.h:168-178 | this register changes and no other |
| `HyperLogLogs.HyperLogLog.PatLen` | hyperloglog/redis_hyperloglog.c:172-199 | index and rank of an element; the loop ends at bit 63 at the latest |
| `HyperLogLogs.HyperLogLog.Add` | hyperloglog/redis_hyperloglog.c:314-328 | the element joins the set; the answer is whether a register changed, and only then is the cached count dropped |
| `HyperLogLogs.HyperLogLog.Merge` | hyperloglog/hyperloglog.c:117-137 | the registers of the union; merging with itself changes nothing |
| `HyperLogLogs.HyperLogLog.DenseSum` | hyperloglog/redis_hyperloglog.c:205-246 | the unrolled loop computes the sum of 2^-reg and the number of zero registers |
| `HyperLogLogs.HyperLogLog.GenericSum` | hyperloglog/redis_hyperloglog.c:247-262 | so does the loop over the getter |
| `HyperLogLogs.RawSum` | hyperloglog/redis_hyperloglog.c:266-299 | so does the word-skipping loop over raw registers |
| `HyperLogLogs.HyperLogLog.Count` | hyperloglog/hyperloglog.c:140-170 | cached or not, the count is the one the registers give |
| `HyperLogLogs.HyperLogLog.Clear` | hyperloglog/hyperloglog.c:173-179 | the registers of the empty set |
| `HyperLogLogs.HyperLogLog.constructor` | hyperloglog/hyperloglog.c:39-57 | the registers of the empty set |
| `HyperLogLogs.SameElements` | hyperloglog/hyperloglog.c:86-137 | objects with the same elements have the same registers, however they got them |
| `HyperLogLogs.SplitAndMerge` | hyperloglog/hyperloglog.c:86-170 | adding everything and merging two parts in the other order give the same count, that of the registers of the set |
| `HyperLogLogs.SetCount` | hyperloglog/hyperloglog.c:60-83 | what a count of two or more objects is computed from |
| `KinesisSpec.ParseText` | aws/kinesis.cpp:187-205 | parsing a pushed checkpoint gives the sequence ids that were pushed |
| `KinesisSpec.AgreesWhenGrown` | aws/kinesis.cpp:590-661 | a growing stream never invalidates positions |
| `KinesisSpec.KnownAgrees` | aws/kinesis.cpp:452-462 | leaving shards without a sequence id out of a checkpoint loses nothing |
| `KinesisInvariant.ResumedPlace` | aws/kinesis.cpp:208-241 | an iterator asked for behind a known sequence id is the place right behind it, and is refused exactly when the service refuses |
| `KinesisInvariant.VisitedIsFine` | aws/kinesis.cpp:473-499 | a renewed iterator stands right behind the records returned, and the place of a shard is given up exactly when the service refuses for good |
| `KinesisInvariant.BatchIsFine` | aws/kinesis.cpp:590-622 | a batch continues exactly where the last one ended, and the new sequence id and iterator stand right behind it |
| `KinesisInvariant.RoundIsFair` | aws/kinesis.cpp:465-501 | round robin: every shard is considered in its turn from behind the cursor, at most once, until one is ready; those before it were not ready and those behind it are untouched |
| `KinesisInvariant.RoundIsGood` | aws/kinesis.cpp:465-501 | a round keeps every shard's position or gives it up, and gives up exactly those refused for good |
| `KinesisInvariant.RelistedIsGood` | aws/kinesis.cpp:296-323 | taking up new shards and erasing vanished ones keeps every position |
| `KinesisInvariant.RelistIsOrdered` | aws/kinesis.cpp:296-323 | afterwards the map has exactly the listed shards, once each, and the cursor is at one of them or at the end |
| `KinesisInvariant.CheckpointAgrees` | aws/kinesis.cpp:452-462 | a checkpoint, read back, says for every shard where the records returned end |
| `KinesisInvariant.AnsweredIsKept` | aws/kinesis.cpp:590-661 | whatever the service answers, the records returned continue the shard, and records come with a checkpoint that fits them |
| `KinesisInvariant.ReceiveIsKept` | aws/kinesis.cpp:563-667 | the same for a whole call, with the places it gives up |
| `KinesisInvariant.GivenUpIffRefused` | aws/kinesis.cpp:229-236 | a call gives up exactly the places of the shards of its round that the service refuses for good to continue |
| `KinesisInvariant.OpenedIsKept` | aws/kinesis.cpp:422-436 | a consumer started from a saved checkpoint goes on behind what was returned before |
| `Kinesis.RotationStep` | aws/kinesis.cpp:475 | stepping the cursor with its wrap-around goes through the shards in the order of the round |
| `Kinesis.PruneStep` | aws/kinesis.cpp:313-323 | erasing while iterating: the keys that stay, and where an erased cursor goes |
| `Kinesis.Consumer.ShardIterator` | aws/kinesis.cpp:208-241 | asks behind the sequence id, or by the iterator type without one; a final refusal clears the id |
| `Kinesis.Consumer.Renew` | aws/kinesis.cpp:482-488 | a shard without an iterator gets one, or waits |
| `Kinesis.Consumer.NextShard` | aws/kinesis.cpp:465-501 | the loop finds the first ready shard of the round and leaves the shards and the cursor as the round does |
| `Kinesis.Consumer.ListShards` | aws/kinesis.cpp:244-294 | all pages of the shard list, or an error code after the retries |
| `Kinesis.Consumer.Prune` | aws/kinesis.cpp:313-323 | exactly the shards that are no longer listed are erased, the others are unchanged, and an erased cursor moves to the next that stays |
| `Kinesis.Consumer.GetShards` | aws/kinesis.cpp:244-331 | afterwards the shards are the listed ones, known ones with everything they had, and new ones asked for by the type of the consumer, or nothing has changed |
| `Kinesis.Consumer.PushCheckpoints` | aws/kinesis.cpp:452-462 | one line for every shard with a sequence id, in map order |
| `Kinesis.Consumer.ParseCheckpoints` | aws/kinesis.cpp:187-205 | the sequence ids of a text, the first line for a shard winning, and when it is refused |
| `Kinesis.Consumer.Open` | aws/kinesis.cpp:422-436 | the shards of the checkpoint and of the first look at the list, for every iterator type |
| `Kinesis.Consumer.ReadShard` | aws/kinesis.cpp:590-667 | iterator, position, timer, checkpoint and reply for every answer of the service: a batch, the end of a shard, an expired iterator, throttling, a fatal error |
| `Kinesis.Consumer.Receive` | aws/kinesis.cpp:563-667 | the whole state and the reply of a call, for all answers of the service and clock readings |
| `KinesisRun.UnbrokenSinceGivenUp` | aws/kinesis.cpp:187-667 | over every run with growing, closing and vanishing shards, failures of every kind and restarts from the last checkpoint, for every iterator type: the records returned from a shard since its place was last given up are an unbroken part of it, a prefix for TRIM_HORIZON |
| `KinesisRun.UnbrokenWhenNeverRefused` | aws/kinesis.cpp:187-667 | everything returned from a shard that the service never refused for good to continue is an unbroken part of it, and for TRIM_HORIZON a prefix: in order, without gap or repetition |
| `KinesisRun.PrefixIffNotReadAgain` | aws/kinesis.cpp:229-236 | for TRIM_HORIZON, in every run, what was returned from a shard is a prefix of it if and only if no records were returned from it while its place stood given up: a refusal for good gives a place up, and only starting again with a checkpoint from before the refusal takes that back |
| `KinesisRun.LostWhenRefused` | aws/kinesis.cpp:229-236 | a call adds to the places given up exactly the shards whose turn comes in its round and which the service refuses for good to continue |
| `KinesisRun.RefusedShardIsReadAgain` | aws/kinesis.cpp:229-236 | a run in which the service refuses to continue behind a record, and the record is returned twice |
| `KinesisStart.RunsAreBegun` | aws/kinesis.cpp:208-241 | over every run, the starting place carried along for a shard is one the service granted for the type of the consumer, and every position, iterator and checkpoint fits it |
| `KinesisStart.StartsWhereGranted` | aws/kinesis.cpp:187-667 | over every run and for every iterator type, what was returned from a shard since its place was last given up begins exactly at the place granted for the type of the consumer |
| `KinesisStart.WholeStartsWhereGranted` | aws/kinesis.cpp:187-667 | so does everything returned from a shard that was never refused for good |
| `KinesisStart.NothingReturned` | aws/kinesis.cpp:465-501 | nothing is returned from a shard before an iterator was granted for it |
| `KinesisStart.LatestSkipsTheRest` | aws/kinesis.cpp:208-311 | over every run, a consumer of the newest records never returns a record that was in a shard before an iterator for it was first granted, restarts and refusals included |
| `KinesisPace.ShardsAreSorted` | aws/kinesis.cpp:465-501 | over every run the shards are considered in the order of their names |
| `KinesisPace.LessIff` | aws/kinesis.cpp:465-501 | the order of names is the one of dictionaries: the first difference decides, and a prefix comes first |
| `KinesisPace.PauseIs` | aws/kinesis.cpp:623-636 | after records the pause is one second and one more for every full two megabytes of data, five at most |
| `KinesisPace.ReadsArePaced` | aws/kinesis.cpp:465-501 | records are asked for only when the time of the shard has come, and the shard is left alone for one to five seconds afterwards |
| `KinesisPace.LooksHourly` | aws/kinesis.cpp:572-588 | the list of shards is not looked at within the hour, unless a shard has ended, and a look that succeeds starts the hour anew |
| `KinesisPace.AnswersAreTaken` | aws/kinesis.cpp:590-667 | an expired iterator is dropped and one refused otherwise kept; a call fails exactly for a refusal of another kind that is final; a granted batch is returned as it is, and a shard is done exactly when it is closed and read to its end |
| `KinesisPace.CursorMovesOn` | aws/kinesis.cpp:313-323 | a cursor whose shard is still listed stays, and another goes to the next shard behind it that is listed, or to none |
| `KinesisRun.Session` | aws/kinesis.cpp:187-667 | a program that calls receive and restarts from the last checkpoint gets exactly the records of the run, and so unbroken parts of all shards that were never refused |
| `IrcSpec.FramesAppend` | irc/irc.c:330-374 | splitting a stream into lines does not depend on where it is cut |
| `IrcSpec.ReadIsLink` | irc/irc.c:284-408 | on a connection that is up, a pass ends it exactly when the network fails, the incomplete line and the data overflow the buffer, or a text it writes is refused; otherwise everything read is framed |
| `IrcSpec.PassIsLink` | irc/irc.c:273-408 | the same with the attempt to connect; between passes the rejoin timer is set exactly in the verified state |
| `IrcSpec.RunIsFramed` | irc/irc.c:260-412 | in a run that stays up, the lines that went to the parser are the lines of everything the server sent, however it was divided |
| `IrcSpec.UpIffUnbroken` | irc/irc.c:260-412 | a run stays up if and only if no pass fails to connect, meets a network failure, overflows the buffer with its data behind the incomplete line, or has a text refused |
| `IrcMeaning.MessagesInOrder` | irc/irc.c:376-509 | over every run of passes and messages that stays up: the channel messages sent since the start, in order, and then the queue, are the queue of the start and then the messages accepted, each once and cut to the length of a text |
| `IrcMeaning.ReadSends` | irc/irc.c:376-408 | a pass sends the first message of the queue, if it sends one, and takes exactly that one out |
| `IrcMeaning.SentLinesArrive` | irc/irc.c:330-374 | lines sent with their ends arrive one by one, and nothing is left over |
| `IrcMeaning.WordsAreJoined` | irc/irc.c:95-123 | the words of a line, put together with blanks, are the line, and none holds a blank |
| `IrcMeaning.PingIsAnswered` | irc/irc.c:140-200 | a PING is answered with its own token in every state, and changes nothing else |
| `IrcMeaning.Conversation` | irc/irc.c:140-200 | the welcome, the entry and the kick as the lines a server writes them: what the monitor answers, the state it is in, and the time of the next attempt |
| `IrcMeaning.PingIff` | irc/irc.c:140-200 | a line is a PING if and only if it begins with that word and a blank |
| `IrcMeaning.WelcomeIff` | irc/irc.c:140-200 | a line ends the greeting if and only if it is not a PING and its second word is 001 |
| `IrcMeaning.EntryIff` | irc/irc.c:140-200 | a line puts the monitor in the channel if and only if it is not a PING, its second word is JOIN and it begins with the name of the monitor |
| `IrcMeaning.KickIff` | irc/irc.c:140-200 | a line takes it out if and only if it is not a PING, its second word is KICK and its fourth the name of the monitor |
| `Irc.Connection.TakeLine` | irc/irc.c:338-347 | the line up to a carriage return or NUL, cut to the line buffer; the rest of the input is untouched |
| `Irc.Connection.TakeLines` | irc/irc.c:330-374 | every complete line goes to the parser in order with its answers and transitions and the rest moves to the front, or an answer was refused and nothing is written after it |
| `Irc.Connection.Parse` | irc/irc.c:140-200 | the three transitions, each if and only if its line arrives and is not a PING, which is answered in every state; what is written and when it fails |
| `Irc.Connection.TryConn` | irc/irc.c:203-258 | an attempt to connect empties the buffer and the queue, and succeeds exactly when the connection is made and the greeting taken |
| `Irc.Connection.Finish` | irc/irc.c:376-408 | a due rejoin or the first message of the queue is written; the message leaves the queue only when it was taken; over a run that is `MessagesInOrder` |
| `Irc.Connection.Pass` | irc/irc.c:260-412 | status, timer, queue, texts written, stream and parsed lines after every pass of the monitor |
| `Irc.Connection.WriteChan` | irc/irc.c:480-509 | a message is queued, or dropped when the queue is full |
| `Irc.Run` | irc/irc.c:260-412 | the monitor over any sequence of passes and messages: it reports a dropped connection if and only if some pass breaks it, and otherwise the parser got exactly the lines of the whole stream and the messages accepted went out in order, each once |

## Left out

- Parquet: building annotates a tree value and returns it, where the source fills in the nodes in place; level values are unbounded where the source has 16 bits.
- Parquet: a finite number is any real; narrowing to float is not rounded, and a number beyond 64 bits converted to an integer column keeps its low bits, which C leaves undefined.
- Parquet: Lua metamethods, `dissect_message` and `dissect_fields`, repeated tuples, retrying `finalize` after a failure, and the parquet-cpp file writer with its own schema checks, encodings and properties.
- Parquet: the order of `lua_next` over a table is the order of its pairs.
- Cuckoo filters: the two hashes are arbitrary functions and the results of `rand()` an arbitrary sequence; false-positive rates and the text form are left out.
- Cuckoo filters: the documentation admits four or more items where `new` refuses four, and promises rounding up where the item count is first divided rounding down; the model follows the code.
- Cuckoo.CuckooFilter.constructor: asks for eight items or more where `new` accepts more than four, because five to seven give one bucket and a shift by 64, which C leaves undefined (`ShiftIsDefined`).
- Cuckoo.Session: asks for eight items or more for the same reason.
- CuckooExpire.Session: equals the reference in absolute intervals only while no add jumps 256 or more intervals, prunes for room or fails in crowded buckets, because the code then departs from it; `ExpiryIsExactIff` says exactly when a jump does.
- Expiring cuckoo filter: that the interval pruned for room is the least recently used one, which the source does not guarantee; restoring from text, which leaves the clock alone.
- Circular buffer: infinite values and rounding; interval numbers and times beyond 32 and 64 bits; a NaN in place of a time in a saved text; annotations, header text and the JSON part of the output; the cell address row * columns * 2 is a pair of indices.
- CircularReplica.Session: covers sum columns and a replica all of whose columns are sum columns, with the types of the source fixed.
- XXHash64.WordMatters: says nothing of a difference inside the full blocks, because the lanes of XXH64 are merged twice and two differences can cancel there.
- xxHash: memory alignment and byte order, as reads are little-endian on every machine; the canonical form; messages of 2^64 bytes and more.
- HyperLogLog: MurmurHash and the estimate computed from sum and zero count are arbitrary functions; text form, whose check looks at the byte behind the encoding byte.
- HyperLogLog: the table of the powers 2^-j is a function, and the eight tests for a word of raw registers are a loop.
- Kinesis: records that the service drops before they are read; the report of the delay, the producer, sleeping; a page of the shard list that promises more is not empty; the keys of the map are kept as an ordered list beside it.
- IRC: TLS, threads and locks, raw writes from another thread, and the exit flag; one reading of the clock per pass; the message queue is a sequence instead of a linked list.
- Bloom filter, Lua argument checks, and all modules that wrap other libraries.
