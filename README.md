# zrbin2sql in Dafny

A model of the part of `zrbin2sql.py` that turns MySQL row-change events into
SQL text, together with their rollbacks. It covers these pieces:

- **`convert_bytes_to_str`**: a recursive conversion that decodes every
  `bytes` object inside a value (inside dicts and lists too) as strict UTF-8.
- **Value rendering**: how a value is written in a VALUES list, a SET entry
  or a WHERE test.
- **`process_binlogevent`**: one record per row, plus, for update rows, the
  REPLACE rollback and the REPLACE-without-null rollback. It queues each
  record on one of three queues.
- **The `only_operation` check.**
- **The time-window split** of `[start_time, end_time]` into `max_workers`
  windows.
- **The resume position** (`next_binlog_file` / `next_binlog_pos`). It is
  advanced after each submitted event, and the decoder is reopened at it for
  the next window.
- **The per-window scan**: skip early events, stop at the first late one,
  submit the rest.
- **Draining the three queues** and the stable sort of each list by
  `event_time`.

## Modules

| file | module | what it holds |
|---|---|---|
| `common.dfy` | `Common` | `Option`, `Join` (Python's `str.join`) |
| `utf8.dfy` | `Utf8` | strict UTF-8 decoding (RFC 3629) and encoding, with both round trips |
| `values.dfy` | `Values` | the decoded Python values, `convert_bytes_to_str`, `json.dumps` text, `repr` of a list of names |
| `sql.dfy` | `SqlText` | literals, SET entries, WHERE tests, the three forms of table name |
| `synthesis.dfy` | `Synthesis` | per-row SQL, the update clause builders (loops that append), `process_binlogevent` |
| `synthesis_properties.dfy` | `SynthesisProperties` | what the generated statements and the queued records satisfy |
| `results.dfy` | `Results` | records, the queue class, draining, the stable sort by time |
| `windows.dfy` | `Windows` | the window arithmetic |
| `watermark.dfy` | `Watermarks` | the resume position as a class with `Observe` |
| `scanner.dfy` | `Scanner` | the per-window scan, the run over all windows, and the run's output |

## Model boundaries

The decoder (`BinLogStreamReader`) is a parameter. `Scanner.Decoder` maps a
resume position to the sequence of events read from it; each event comes with
the file name and offset the stream reports after reading it. Submitting a
job to the thread pool is modelled as running it to completion at once, so
the model fixes one interleaving of the jobs: the scan order. In the program
the jobs of one window run concurrently on `max_workers` threads, and only
`wait(tasks)` at the end of the window orders them against the next window.
Their queue appends can interleave in any order, so the model's queue
contents are one possible outcome among several. Each queue holds the same
records whatever the interleaving, and each job's own records stay in row
order. `Scanner.ProcessJob` and `Scanner.IsProcessJob` name the job that is
submitted.

### Where the code and its description differ

The model follows the code in each case:

- Nothing checks that `end_time >= start_time`. A reversed range is split
  into windows like any other (`Windows.ReversedRangeIsPartitioned`).
- Both ends of a window are inclusive, so two adjacent windows share their
  boundary instant.
- The resume position moves only for submitted events. Skipped events and
  the event that ends a window do not move it.
- When the file changes, the offset is kept unless the new offset is
  greater (`Watermarks.FileSwitchKeepsOffset`).
- In the INSERT rollback and the DELETE, a `None` is compared with
  `` `k`=NULL ``, which no row satisfies in SQL.

## Model

| member | source | states |
|---|---|---|
| `Utf8.Decode` | zrbin2sql.py:87 | defines `data.decode('utf-8')`: the text the bytes encode, or an error for bytes that are not well-formed UTF-8 |
| `Utf8.DecodeEncode` | zrbin2sql.py:87 | decoding the UTF-8 encoding of any text gives the text back |
| `Utf8.EncodeDecode` | zrbin2sql.py:87 | a byte string that decodes is exactly the encoding of what it decodes to |
| `Utf8.DecodeInjective` | zrbin2sql.py:87 | two byte strings that decode to the same text are equal |
| `Utf8.DecodeOneEncodeChar` | zrbin2sql.py:87 | the first character decoded from an encoded character followed by anything is that character, consuming exactly its encoding |
| `Utf8.EncodeCharDecodeOne` | zrbin2sql.py:87 | a decoded character re-encodes to exactly the bytes it was read from |
| `Values.ConvertBytesToStr` | zrbin2sql.py:81-89 | the conversion succeeds exactly when every `bytes` inside the value is valid UTF-8; a `bytes` becomes the `str` it decodes to, and a value that is not a `bytes`, list or dict comes back itself (lists and dicts: `Values.ConvertStructure`); the result holds no `bytes` and its dicts have distinct keys |
| `Values.ConvertItems` | zrbin2sql.py:84-85 | a list converts exactly when each item does, into the list of the items' conversions, in order |
| `Values.ConvertEntries` | zrbin2sql.py:82-83 | a dict converts exactly when all of its keys and values do; the result has distinct keys and holds only converted keys and values (which entries, `Values.ConvertEntriesLastWins`) |
| `Values.PutAll` | zrbin2sql.py:83 | defines storing a sequence of pairs, one after another, into an empty dict |
| `Values.PutAllKeys` | zrbin2sql.py:83 | the dict built by storing pairs in turn has distinct keys, and its keys are exactly the keys stored |
| `Values.PutAllEntries` | zrbin2sql.py:83 | every entry of that dict is the last pair stored under its key |
| `Values.PutAllCompleteness` | zrbin2sql.py:83 | every pair that no later pair overrides is an entry of that dict |
| `Values.PutAllDistinct` | zrbin2sql.py:83 | storing pairs whose keys are already distinct gives back those pairs, in order |
| `Values.ConvertPairs` | zrbin2sql.py:82-83 | the converted pairs exist exactly when every key and value of the dict converts; there is one per entry, in order, each a converted key and value |
| `Values.ConvertPairsAt` | zrbin2sql.py:83 | pair `i` is entry `i` with its key and its value each converted |
| `Values.ConvertStructure` | zrbin2sql.py:82-85 | a list converts to the list of its items' conversions; a dict converts to the dict the comprehension builds, which is its converted pairs stored in turn |
| `Values.ConvertEntriesLastWins` | zrbin2sql.py:83 | the converted dict's keys are exactly the converted keys, and its entries are exactly the converted pairs that no later entry's converted key overrides |
| `Values.PutAllLastWins` | zrbin2sql.py:83 | storing pairs in turn keeps exactly the keys stored, and for each key exactly the last pair stored under it |
| `Values.DictPut` | zrbin2sql.py:83 | storing an existing key keeps the key order; a new key goes last |
| `Values.DictPutMembers` | zrbin2sql.py:83 | after storing `k: x` the entry is present, and every other entry was there before |
| `Values.DictPutDistinct` | zrbin2sql.py:83 | storing a key keeps the keys distinct |
| `Values.DictPutNewKey` | zrbin2sql.py:83 | storing a new key appends exactly that entry |
| `Values.ConvertDecodedIsIdentity` | zrbin2sql.py:81-89 | a value with no `bytes` inside comes back unchanged |
| `Values.ConvertItemsIdentity` | zrbin2sql.py:84-85 | a list with no `bytes` inside comes back unchanged |
| `Values.ConvertEntriesIdentity` | zrbin2sql.py:82-83 | a dict with no `bytes` inside comes back unchanged, prefix by prefix |
| `Values.ConvertPairsIdentity` | zrbin2sql.py:82-83 | the entries of a dict with no `bytes` inside convert to themselves, prefix by prefix |
| `Values.ConvertIdempotent` | zrbin2sql.py:81-89 | converting a converted value changes nothing |
| `Values.ConvertMergesCollidingKeys` | zrbin2sql.py:83 | the keys `'a'` and `b'a'` collide after conversion: `{'a': 1, b'a': 2}` becomes `{'a': 2}` |
| `SqlText.Literals` | zrbin2sql.py:105-107 | one literal per column value, in order |
| `SqlText.Assignments` | zrbin2sql.py:112-121 | one `` `k`=literal `` test per column, in order |
| `SqlText.Conditions` | zrbin2sql.py:142-150 | one WHERE test per column, in order, with `IS NULL` for `None` |
| `SqlText.Columns` | zrbin2sql.py:260 | the column names of a row image, in order, one per column |
| `SqlText.NullRendering` | zrbin2sql.py:105-149 | `None` is `NULL` as a literal and in SET, `` `k` IS NULL `` in an UPDATE's WHERE, and `` `k`=NULL `` in the INSERT rollback and the DELETE |
| `SqlText.LiteralQuoting` | zrbin2sql.py:105-107 | text and dates are quoted verbatim; dicts and lists are quoted JSON; other values are `str(v)`, unquoted; a non-`None` value's WHERE test is its SET entry |
| `SqlText.Literal` | zrbin2sql.py:105-107 | defines one value as written in a VALUES list: `NULL`, quoted text or date, quoted `json.dumps`, or `str(v)` |
| `SqlText.Assignment` | zrbin2sql.py:113-119 | defines `` `k`=literal `` |
| `SqlText.Condition` | zrbin2sql.py:143-149 | defines an UPDATE's WHERE test: `` `k` IS NULL `` for `None`, otherwise `` `k`=literal `` |
| `SqlText.QualifiedName` | zrbin2sql.py:152 | defines `` `schema`.`table` ``, written whether or not there is a schema |
| `SqlText.InsertTarget` | zrbin2sql.py:103 | defines the INSERT target: qualified with a schema, the bare table name without |
| `SqlText.DeleteTarget` | zrbin2sql.py:243-244 | defines the DELETE target: qualified with a schema, `` `table` `` without |
| `Values.JsonText` | zrbin2sql.py:105 | defines `json.dumps(v, ensure_ascii=False)` for a converted value |
| `Values.PyListRepr` | zrbin2sql.py:226 | defines `str()` of the list of names in the field list: `[`, each name's `repr` joined with `, `, `]` |
| `Values.NonPrintable` | zrbin2sql.py:226 | defines the code points `repr` escapes because `str.isprintable` rejects them |
| `Common.Join` | zrbin2sql.py:224 | defines `sep.join(parts)` (also the joins at lines 104, 106, 150, 189 and 260) |
| `Values.PyRepr` | zrbin2sql.py:226 | defines `repr` of a `str`: the quote chosen as Python chooses it, around the escaped text |
| `Values.ReprChar` | zrbin2sql.py:226 | defines one character of `repr`: backslash, the quote, `\n`, `\r` and `\t` escaped, non-printable code points as `\xhh`, `\uhhhh` or `\Uhhhhhhhh`, anything else as itself |
| `Values.ReprEscape` | zrbin2sql.py:226 | the escaped text is never shorter than the text |
| `Values.Hex` | zrbin2sql.py:226 | a number written as exactly `width` hexadecimal digits |
| `Values.ReprPlain` | zrbin2sql.py:226 | printable text with no backslash and no quote character comes out of `repr` unchanged |
| `Values.ReprCharEscapes` | zrbin2sql.py:226 | a character is written as itself exactly when it is printable and neither a backslash nor the quote; otherwise it becomes an escape starting with a backslash |
| `Values.ReprNoBreakSpace` | zrbin2sql.py:226 | a no-break space (U+00A0) in a column name is written `\xa0` in the field list |
| `Synthesis.ParseOnlyOperation` | zrbin2sql.py:274-280 | an absent or empty value, and only such a value, sets no restriction; a non-empty value restricts the run to kind `k` exactly when its lower-cased form is `k`'s name, and a value that names no kind ends the run |
| `Synthesis.AsciiLower` | zrbin2sql.py:277 | defines the lowering of `only_operation`, applied to the letters `A` to `Z` only; the result has as many characters as the value |
| `Synthesis.LowerAgreesOnOperationNames` | zrbin2sql.py:276-278 | for any character-by-character lowering that treats ASCII as `str.lower()` does and turns no other character except U+212A into ASCII, a value lowers to `insert`, `update` or `delete` exactly when its `AsciiLower` does |
| `Synthesis.LowerWith` | zrbin2sql.py:277 | defines lowering a text character by character, with a given lowering per character |
| `Synthesis.LowersLikePython` | zrbin2sql.py:277 | defines the facts about `str.lower()` that the agreement needs |
| `Synthesis.Admits` | zrbin2sql.py:98-99 | defines the `only_operation` test (also at lines 126 and 238): an unset filter admits every kind, a set one only its own kind |
| `Synthesis.InsertSql` | zrbin2sql.py:102-108 | defines the INSERT: its target, the back-quoted column names and the literals |
| `Synthesis.InsertRollbackSql` | zrbin2sql.py:110-122 | defines the insert's rollback: `DELETE FROM` the INSERT target `WHERE` every `` `k`=literal ``, joined with `AND` |
| `Synthesis.DeleteSql` | zrbin2sql.py:242-255 | defines the DELETE, with the target wrapped in one more pair of back quotes |
| `Synthesis.DeleteRollbackSql` | zrbin2sql.py:257-266 | defines the delete's rollback: an INSERT whose column list is one join of the names inside one pair of back quotes |
| `Synthesis.UpdateStatement` | zrbin2sql.py:152 | defines `UPDATE` `` `schema`.`table` `` `SET` … `WHERE` … |
| `Synthesis.UpdateSql` | zrbin2sql.py:152 | defines the UPDATE: SET the after-image, WHERE the before-image |
| `Synthesis.UpdateRollbackSql` | zrbin2sql.py:174 | defines the direct rollback: SET the before-image, WHERE the after-image |
| `Synthesis.ReplaceSql` | zrbin2sql.py:188-190 | defines the REPLACE rollback: the after-image's names, the before-image's literals |
| `Synthesis.SparseValue` | zrbin2sql.py:199-223 | defines the value written for one before-image column: its own literal, or for `None` the after-image's (`'null'` for a dict or list), or nothing |
| `Synthesis.SparsePiece` | zrbin2sql.py:199-223 | defines the text written for one before-image column, looking the after-image up only for a `None` |
| `Synthesis.SparseValues` | zrbin2sql.py:199-224 | defines the REPLACE-without-null values, one piece per before-image column in order |
| `Synthesis.StaleKey` | zrbin2sql.py:206-223 | defines the leftover loop variable `k` the field list repeats |
| `Synthesis.Repeat` | zrbin2sql.py:206-223 | `n` copies of one name |
| `Synthesis.ReplaceSparseSql` | zrbin2sql.py:225-227 | defines the REPLACE-without-null rollback, whose field list is `str()` of the list of stale names |
| `Synthesis.ConvertImage` | zrbin2sql.py:101 | an image converts exactly when every value does; names and order are kept, and each value is its conversion |
| `SqlText.BacktickAll` | zrbin2sql.py:104 | one back-quoted name per name, in order: the column list of the INSERT, and at line 189 of the REPLACE rollback |
| `Synthesis.Lookup` | zrbin2sql.py:202 | `av[key]` succeeds exactly when the after-image has that column, and returns that column's value |
| `Synthesis.BuildSetClause` | zrbin2sql.py:132-140 | the appending loop yields the comma-joined SET entries of the image, in column order |
| `Synthesis.BuildWhereClause` | zrbin2sql.py:142-150 | the appending loop yields the ` AND `-joined WHERE tests of the image, in column order |
| `Synthesis.BuildReplaceValues` | zrbin2sql.py:177-188 | the appending loop yields one literal per before-image column, in order |
| `Synthesis.BuildSparse` | zrbin2sql.py:195-224 | the loop over the before-image yields the REPLACE-without-null values, and one copy of the stale name `k` per value |
| `Synthesis.SynthesizeUpdate` | zrbin2sql.py:129-227 | the four statements of an updated row: the update, its direct rollback, the REPLACE rollback and the REPLACE-without-null rollback |
| `Synthesis.UpdateRecords` | zrbin2sql.py:230-235 | defines the three records an updated row puts: the update with its direct rollback, with the REPLACE rollback, and with the REPLACE-without-null rollback, all stamped with the event's time |
| `Synthesis.UpdateRecordsRoute` | zrbin2sql.py:231-235 | an updated row puts exactly one record in each of the three queues |
| `Synthesis.ConvertedNullsCovered` | zrbin2sql.py:197-203 | when every before-image `None` column is present in the raw after-image, it is also present after conversion |
| `Synthesis.RowRecords` | zrbin2sql.py:94-268 | a row fails only when it is admitted and does not convert; otherwise its records carry the event's time, there are none when the filter excludes the kind, one direct record for an insert or delete, and one per queue for an update |
| `Synthesis.RowResultsFacts` | zrbin2sql.py:94-268 | over the first `n` rows: every record carries the event's time, each row's records are shaped as its kind demands, and a row fails only when it does not convert |
| `Synthesis.Collect` | zrbin2sql.py:94-268 | defines the row loop's records over the first `n` rows, which stop at the first row that raises |
| `Synthesis.CollectAt` | zrbin2sql.py:94-95 | every record collected from the rows carries the event's time |
| `Synthesis.CollectNothing` | zrbin2sql.py:98-99 | rows that yield nothing collect to nothing |
| `Synthesis.RaisedIsFinal` | zrbin2sql.py:94 | once a row raises, the later rows add nothing |
| `Synthesis.EventRecords` | zrbin2sql.py:93-98 | an event yields records only when its time is inside the window and the filter admits its kind, and each record carries the event's time |
| `Synthesis.ProcessRow` | zrbin2sql.py:97-268 | handling one row queues exactly that row's records, each on its own queue, or nothing when its conversion raises |
| `Synthesis.ProcessImageRow` | zrbin2sql.py:97-124 | an admitted insert row (and likewise a delete row, zrbin2sql.py lines 237-268) queues its one record on the direct queue, or nothing when its image fails to convert |
| `Synthesis.ProcessUpdateRow` | zrbin2sql.py:125-236 | an admitted update row queues its statement with each of the three rollbacks, one per queue, or nothing when either image fails to convert |
| `Synthesis.QueueRow` | zrbin2sql.py:94-268 | one turn of the row loop extends the queues by that row's records, or reports that the row raised |
| `Synthesis.QueueRows` | zrbin2sql.py:94-268 | the row loop extends each queue by its share of the rows' records, stopping at the first row that raises |
| `Synthesis.ProcessBinlogEvent` | zrbin2sql.py:80-268 | the job for one event extends each queue by exactly its share of the event's records, in order |
| `SynthesisProperties.ColumnListForms` | zrbin2sql.py:260 | joining names with `` `,` `` inside one pair of back quotes gives the same text as joining back-quoted names with `,` |
| `SynthesisProperties.DeleteRollbackIsInsert` | zrbin2sql.py:257-266 | with a schema and at least one column, the rollback of a delete is the INSERT written for the same row |
| `SynthesisProperties.DeleteRollbackLength` | zrbin2sql.py:257-266 | the rollback of a delete is 2 characters longer than the INSERT for each of: no schema, no column |
| `SynthesisProperties.DeleteRollbackIsInsertExactly` | zrbin2sql.py:257-266 | the rollback of a delete equals the INSERT if and only if there is a schema and at least one column |
| `SynthesisProperties.InsertRollbackSharesDeleteCondition` | zrbin2sql.py:242-255 | the rollback of an insert and the DELETE of the same row end with the same WHERE clause |
| `SynthesisProperties.UpdateRollbackSwapsImages` | zrbin2sql.py:152-174 | the direct rollback of an update is the update with the two images swapped, in both directions |
| `SynthesisProperties.SparseCount` | zrbin2sql.py:199-223 | each before-image column yields one REPLACE-without-null value or is dropped, never both |
| `SynthesisProperties.SparseWithoutNullsIsFull` | zrbin2sql.py:199-223 | with no `None` in the before-image, the REPLACE-without-null values are the REPLACE values and nothing is dropped |
| `SynthesisProperties.SparseNonNullStep` | zrbin2sql.py:214-223 | a last before-image column that is not `None` adds its own literal to the written values and nothing to the dropped columns |
| `SynthesisProperties.SparseFieldListIsStale` | zrbin2sql.py:199-227 | the REPLACE-without-null field list names the columns actually written exactly when every written column has the name the loop variable `k` is left holding, so two written columns with different names are always mislabelled |
| `SynthesisProperties.WrittenCount` | zrbin2sql.py:199-224 | the columns actually written are exactly as many as the values written, one per value |
| `SynthesisProperties.SparseFieldListMislabels` | zrbin2sql.py:199-227 | updating `a` and `b` from `1`, `2` to `3`, `4` writes both columns, yet the field list is `['b', 'b']` |
| `SynthesisProperties.Written` | zrbin2sql.py:199-223 | defines the before-image columns whose value the REPLACE-without-null rollback writes, in order |
| `SynthesisProperties.SparseNullColumn` | zrbin2sql.py:201-213 | a column that was `None` is dropped when still `None`, written as `'null'` when now a dict or list, and as its new literal otherwise |
| `SynthesisProperties.CollectRoutingDirect` | zrbin2sql.py:123 | when every row yields only direct records, so do the collected rows |
| `SynthesisProperties.CollectRoutingUpdate` | zrbin2sql.py:231-235 | when every row yields one record per queue, the collected rows give the three queues equal shares |
| `SynthesisProperties.CollectComplete` | zrbin2sql.py:94-268 | when every row converts and is admitted, nothing raises and there is one direct record per row |
| `SynthesisProperties.EventRecordsShape` | zrbin2sql.py:93-268 | inserts and deletes feed only the direct queue; an update feeds the three queues equally; an admitted event whose rows all convert gives one direct record per row |
| `SynthesisProperties.InjectedAssignment` | zrbin2sql.py:137 | an unescaped quote in a text value can forge a second SET entry |
| `SynthesisProperties.UnescapedTextIsAmbiguous` | zrbin2sql.py:152 | two different after-images can produce the same UPDATE text |
| `Results.RouteMembers` | zrbin2sql.py:123-268 | a queue receives only records of its own kind, taken from those produced |
| `Results.RouteAppend` | zrbin2sql.py:123-268 | records produced one after another reach each queue in the same order |
| `Results.Route` | zrbin2sql.py:123-268 | a queue receives at most the records produced |
| `Results.RecordQueue.Put` | zrbin2sql.py:123 | `put` appends the record at the back |
| `Results.RecordQueue.Get` | zrbin2sql.py:378 | `get` removes and returns the front record |
| `Results.SortByTime` | zrbin2sql.py:386-388 | defines `sorted(…, key=event_time)` as insertion of each record after every record with an equal or earlier time |
| `Results.RecordQueue.Empty` | zrbin2sql.py:377 | `empty()` is true exactly when nothing is queued |
| `Results.DrainQueue` | zrbin2sql.py:377-384 | draining yields the queue's contents front first and leaves it empty |
| `Results.InsertByTimePermutation` | zrbin2sql.py:386-388 | inserting a record adds exactly that record |
| `Results.InsertByTimeSorted` | zrbin2sql.py:386-388 | inserting into a time-ordered list keeps it ordered |
| `Results.InsertByTimeWithTime` | zrbin2sql.py:386-388 | inserting a record puts it after every record with the same time |
| `Results.SortByTimeCorrect` | zrbin2sql.py:386-388 | the sort is ordered by time, a permutation, and stable: records with equal times keep their order |
| `Results.Aggregate` | zrbin2sql.py:377-388 | the three lists are the sorted contents of the three queues, and the queues end empty |
| `Windows.Interval` | zrbin2sql.py:294 | the interval is the floor of the range over the worker count; a worker count of zero or less is refused |
| `Windows.Partition` | zrbin2sql.py:314-318 | one window per worker, window `i` as the loop computes it |
| `Windows.PartitionShape` | zrbin2sql.py:314-318 | the first window starts at `start_time` and the last ends at `end_time`; window `i` starts `i` intervals in; every window but the last lasts one interval and ends where the next starts |
| `Windows.IntervalNotNegative` | zrbin2sql.py:294 | a range that is not reversed has a non-negative interval |
| `Windows.IntervalsFit` | zrbin2sql.py:314-316 | the windows before the last never reach past `end_time` |
| `Windows.PartitionCovers` | zrbin2sql.py:314-318 | for a range that is not reversed, every window lies inside the range and every instant of the range lies in some window |
| `Windows.WindowOf` | zrbin2sql.py:314-318 | the window holding an instant of the range |
| `Windows.ReversedRangeIsPartitioned` | zrbin2sql.py:294-318 | a reversed range is still split, into windows running backwards |
| `Windows.Window` | zrbin2sql.py:315-318 | defines window `i`: it starts `i` intervals after `start_time`, lasts one interval, and the last one ends at `end_time` |
| `Watermarks.StrLess` | zrbin2sql.py:338 | defines Python's order on file names: lexicographic by code point, a proper prefix first |
| `Watermarks.StrLessIrreflexive` | zrbin2sql.py:338 | no file name is greater than itself |
| `Watermarks.StrLessTransitive` | zrbin2sql.py:338 | the order of file names is transitive |
| `Watermarks.StrLessTotal` | zrbin2sql.py:338 | two different file names are ordered one way, and never both ways |
| `Watermarks.AdvanceMonotone` | zrbin2sql.py:337-343 | the position never moves back; the file changes only to a strictly greater name; the offset changes only to a greater one, read in the tracked file |
| `Watermarks.FileSwitchKeepsOffset` | zrbin2sql.py:337-343 | moving to a greater file keeps the old offset unless the new one is greater |
| `Watermarks.OlderFileIgnored` | zrbin2sql.py:338-343 | an older file changes nothing |
| `Watermarks.AdvanceIdempotent` | zrbin2sql.py:337-343 | observing the same position twice is observing it once |
| `Watermarks.Watermark.constructor` | zrbin2sql.py:308-309 | the position starts at `binlog_file`, `binlog_pos` |
| `Watermarks.Watermark.Observe` | zrbin2sql.py:337-343 | the two guarded updates move the position as `Advance` says, never back |
| `Watermarks.Advance` | zrbin2sql.py:337-343 | defines the two guarded updates of the resume position for one observed `(log_file, log_pos)` |
| `Scanner.LookupsSucceedAt` | zrbin2sql.py:327 | when every update of a stream finds its `None` before-image columns in its after-image, so does each event and each prefix of it |
| `Scanner.BreakIndex` | zrbin2sql.py:331-334 | the first event that is not early and is late; every event before it is early or not late |
| `Scanner.Scan` | zrbin2sql.py:327-335 | the scan of the first `n` events submits at most `n` of them |
| `Scanner.Submitted` | zrbin2sql.py:327-335 | defines the events a window submits: the scan of all its events |
| `Scanner.Progress` | zrbin2sql.py:314-369 | defines the resume position and the records queued after the first `k` windows |
| `Scanner.RunOutput` | zrbin2sql.py:294-388 | defines what the run produces: each queue's records, sorted by time, or nothing for a refused worker count |
| `Scanner.ScanAdmitted` | zrbin2sql.py:331-335 | every submitted event comes from the stream and is stamped inside the window |
| `Scanner.ScanStopped` | zrbin2sql.py:333-334 | after the break, later events change nothing |
| `Scanner.ScanPrefix` | zrbin2sql.py:327-335 | the scan of the first `n` events submits the events before the break that are not early, and has stopped exactly when it reached the break |
| `Scanner.ScanIsBreakThenSkip` | zrbin2sql.py:327-335 | a window submits the events before the first late one, less the early ones |
| `Scanner.WindowRecords` | zrbin2sql.py:335 | defines the records a window's submitted events produce, event after event |
| `Scanner.Observed` | zrbin2sql.py:337-343 | defines the resume position after the two guarded updates for every submitted event in turn |
| `Scanner.ObservedNotAhead` | zrbin2sql.py:337-343 | observing any run of events never moves the position back |
| `Scanner.Dispatch` | zrbin2sql.py:335-343 | submitting an event extends the queues by its records, then advances the position by the stream's file and offset |
| `Scanner.ScanWindow` | zrbin2sql.py:327-356 | the window's loop submits exactly the scanned events, extends the queues by their records in order, and advances the position over them |
| `Scanner.WindowBounds` | zrbin2sql.py:314-318 | the bounds computed in the loop are window `i` of the partition |
| `Scanner.RunWindow` | zrbin2sql.py:314-369 | one window scans the stream opened at the position reached so far, and the decoder is reopened at the position reached after it |
| `Scanner.Run` | zrbin2sql.py:294-388 | the run's three lists are the ones defined window by window over the decoder, or `None` when the worker count is refused |
| `Scanner.WindowRecordsWithin` | zrbin2sql.py:93 | every record of a window is stamped inside it |
| `Scanner.WindowRecordsBalanced` | zrbin2sql.py:231-235 | a window gives the two REPLACE queues the same number of records |
| `Scanner.ProgressNotAhead` | zrbin2sql.py:358-369 | the reopen position never moves back from one window to a later one |
| `Scanner.ProgressBalanced` | zrbin2sql.py:231-235 | after any number of windows, the two REPLACE queues hold the same number of records |
| `Scanner.ProgressWithin` | zrbin2sql.py:314-335 | for a range that is not reversed, every record queued is stamped inside the range |
| `Scanner.SortedWithin` | zrbin2sql.py:386-388 | sorting keeps every record inside the range |
| `Scanner.RunOutputSorted` | zrbin2sql.py:377-388 | each output list is ordered by time, is a permutation of its queue, and keeps the queue order among equal times |
| `Scanner.RunReplaceListsAgree` | zrbin2sql.py:380-388 | the two REPLACE output lists have the same length |
| `Scanner.RunTimesInRange` | zrbin2sql.py:314-388 | for a range that is not reversed, every output record is stamped inside it |

## Left out

- `check_binlog_settings`: a database connection and `SHOW VARIABLES` queries, which are I/O.
- `BinLogStreamReader`: its construction, iteration, close and reopen are an external decoder. The model takes it as the `Scanner.Decoder` parameter, which maps a resume position to the events read from it.
- Threads: `ThreadPoolExecutor`, `wait` and the locks. A job runs to completion when it is submitted, so the model picks the scan-order interleaving of the jobs of one window; the program may interleave their queue appends in any order.
- `Scanner.Run`: its exact output lists hold for the scan-order interleaving of the jobs of each window only. In the program, the order among equal-time records of different events of one window depends on thread scheduling; the set of records in each list and their order by time do not.
- `Scanner.RunOutputSorted`: its clause that records with equal times keep their queue order describes the scan-order interleaving; in the program that queue order is the scheduling order.
- The tqdm progress bar, which is display only.
- Printing and writing the output files, along with the time-zone formatting of each record's time. Every output file is named from the schema and table of the `binlogevent` variable left over from the scan loop, that is from the last event the scan loop read, not from each record's own table; that defect is outside the model.
- `Values.NonPrintable`: Python's `repr` also escapes the code points left unassigned by the Unicode version of the running interpreter. Outside the blocks that no version has assigned, the model writes those raw.
- `Synthesis.AsciiLower`: lowers only `A` to `Z`, where Python's `str.lower()` lowers all of Unicode and can change a text's length (U+0130 becomes two characters). The filter still accepts and rejects the same values: outside ASCII, only U+212A KELVIN SIGN lowers into ASCII (to `k`), and U+0130 lowers to `i` followed by a non-ASCII combining dot; neither can spell `insert`, `update` or `delete`. `Synthesis.LowerAgreesOnOperationNames` proves this agreement from those facts about `str.lower()`, which are taken from the Unicode tables rather than proved.
- Parsing the command-line times (`strptime`, `mktime`) and the argument parser.
- `json.dumps` and `str()`: the model gives `json.dumps(v, ensure_ascii=False)` a rendering (`Values.JsonText`), but no property depends on its details. Values printed by `str()` (numbers, floats, decimals, times) are carried as their text in `Scalar`. Dates and datetimes are carried as their `str()` text in `Temporal`. Bytes inside a dict or list are decoded, but no date object is nested inside JSON.
- `Synthesis.ProcessBinlogEvent`: requires `UpdateLookupsSucceed`, so every `None` before-image column of an updated row is present in its after-image. The `KeyError` that the REPLACE-without-null builder would otherwise raise, and the `except` that prints it and leaves the variable stale or unbound, are not modelled. The REPLACE builder's own `try` cannot raise once the images have converted.
- `Scanner.Run`: requires `DecoderLookupsSucceed`, so the decoder only yields events that satisfy `UpdateLookupsSucceed`, for the same reason.
- A decoding error from `convert_bytes_to_str` ends the job for that event and keeps the records already queued, as an exception escaping a pool job does. The exception stored in the future is never looked at.
