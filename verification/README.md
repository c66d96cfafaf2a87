# FlexQL in Dafny

A model of FlexQL, an in-memory SQL engine with a write-ahead log, and proofs about it. The model follows the program's parts:

| part | files |
|---|---|
| B+ tree index | `Keys`, `BPTreePool` (the invariant), `BPTreeContents`, `BPTreeOrder`, `BPTreePutLeaf`, `BPTreeSplitLeaf`, `BPTreeSplitInternal`, `BPTreePromote`, `BPTreeSearch`, `BPTreeScan`, `BPTreeSize`, `BPTreeNode` and `BPTree` (the classes) |
| durability | `Crc32`, `Bytes`, `Wal`, `Codec`, `Snapshot`, `SavedTables`, `Durability` (the state machine), `Survival`, `LogTails`, `Database` |
| tables | `Values`, `Doubles`, `Comparisons`, `Arena`, `RowLayout`, `KeyOrder`, `TableSpec`, `RowStore` (the class), `TableRuns` |
| SQL | `Lexer`, `Numbers`, `Parser`, `ParserLoops` (the class), `Spellings`, `SqlText`, `Grammar`, `SampleTexts`, `ThrowingTexts`, `StatementSizes`, `Executor`, `Literals`, `Query`, `RowPlaces`, `Answers` |
| SQL over stored tables | `StoreQuery`, `StoredRuns`, `StoredEngine` (the class) |
| query cache | `LruCache` (the class), `LruHistory`, `CacheKeys`, `KeyForm`, `FromClause`, `CachedRuns`, `StaleAnswers`, `Engine` (the class) |
| thread pool | `ThreadPool` |

Code that changes things in place is modelled in place: tree nodes keep their key and slot arrays, rows are bytes in arena chunks, the cache keeps its list and map, the parser its position. Each such class carries a value that its `Valid()` ties to the memory, and the theorems are about that value. The clock, `std::stod` and the iteration order of hash maps are parameters. A `DECIMAL` is the bit pattern of a double that is not a NaN, ordered as doubles are. Files are byte sequences, and a rename is one step.

## Main results

- After any inserts the B+ tree denotes the map those inserts build, and each range scan reports exactly the matching rows in key order (`BPTree.Build`, `BPTree.Index.Range...`).
- Recovery after a crash between any two steps yields all logged statements as long as LSNs stay above the snapshot's and no statement throws (`Durability.RunIsDurable`, on bytes `Database.FilesAreDurable`). For every other run `Survival.RunSurvives` says what recovery yields and what it has lost, `LogTails.CutRecovers` what is lost with an unreadable end of the log, and `Database.RecoveryCompletesIff` with `ThrowingTexts.ThrowsIff` which files can be opened at all, by the tokens of their texts.
- After any run of inserts and sweeps on the byte-level table, scans and index queries answer from the rows inserted (`TableRuns.RunAndQuery`); the exact condition for an index answer is `TableSpec.IndexAnswerIff`, and `StoredEngine.RunAndSelect` has whole sessions of SQL texts over these tables, with rows that expire. The index agrees with a filtered scan if and only if the selected keys are distinct (`KeyOrder.IndexIsScan`).
- The hash join is the nested loop, row for row (`Query.HashJoin`). What a SELECT answers is said by the positions of rows and the names of columns (`Answers.SelectMeans`, `Answers.JoinMeans`), what an INSERT stores by what its literals spell (`Literals.InsertMeans`), and what an operator compares by integers, real numbers and texts (`Comparisons.CompareHolds`, `Doubles.RankIsReal`).
- The cache changes no answer of a plain single-table query (`CachedRuns.CacheTransparent`), and it does change others: three sessions of SQL texts end in a wrong answer (`StaleAnswers.StaleJoin`, `StaleAnswers.WrongCase`, `StaleAnswers.StaleBatch`).
- The lexer and the parser accept exactly the texts of the grammar, with its statement as the meaning (`Spellings.LexIff`, `Grammar.SqlIff`). Every statement of the documented grammar survives being written as text and read back (`SqlText.SqlRoundTrip`).

## Where the code does not do what its documentation promises

- Reopening an empty log after a snapshot restarts the LSNs at 1, so statements logged then are skipped by the next recovery (`Durability.LosingRun`, with texts `Database.LosingTexts`); the header of snapshot.h promises replay from the last LSN.
- A CREATE TABLE with a VARCHAR length that does not fit 32 bits, such as 3000000000 or -3000000000, in whichever column, makes `std::stoi` throw after the text was logged; nothing catches the exception, and every later start throws at that record, so the database cannot be opened (`ThrowingTexts.ThrowsIff`, `SqlText.LengthOutcome`, `Database.ClosingTexts`).
- A table or column name over 10 MB is saved but makes the whole snapshot unreadable, after the log has been truncated (`Snapshot.LoadSaved`, `Database.Database.TakeSnapshot`).
- snapshot.h describes rows as raw row bytes; the code writes typed values, and the model follows the code.
- A record with more than 10 MB of SQL can be appended but not read back, nor can anything after it (`Wal.ParseLogEncoded`).
- An index query shows one row per key, a scan all of them (`KeyOrder.RowOrderBag`).
- A join is invalidated through its left table only, string literals are folded by the cache key, and a batch that fails part of the way invalidates nothing (`StaleAnswers`); the design document promises that an INSERT invalidates the cached queries of its table.

## Model

| member | source | states |
|---|---|---|
| `BPTreeNode.TreeNode.FindLowerBound` | flexql/src/server/index/bptree.cpp:39-50 | Binary search over the in-place key array: every key before the result is less, none from it on is. |
| `BPTreeNode.TreeNode.InsertEntry` | flexql/src/server/index/bptree.cpp:84-91 | Shifting keys and row ids right in place inserts exactly one entry and moves no other. |
| `BPTreeNode.TreeNode.InsertChild` | flexql/src/server/index/bptree.cpp:170-177 | The in-place shift in an internal node inserts the key at its position and the child one slot later. |
| `BPTreeNode.TreeNode.TakeUpper` | flexql/src/server/index/bptree.cpp:106-111 | Copying the upper part of a node into an empty sibling yields exactly that part, for leaves and internal nodes. |
| `BPTreeNode.TreeNode.DropUpper` | flexql/src/server/index/bptree.cpp:112-112 | Lowering the key count leaves exactly the lower part. |
| `BPTree.Index.Alloc` | flexql/src/server/index/bptree.cpp:33-37 | A new node is appended to the pool, shares no array with any other, and changes none of them. |
| `BPTree.Index.FindLeaf` | flexql/src/server/index/bptree.cpp:52-67 | The descent ends at the leaf whose key interval contains the key; it terminates because levels fall. |
| `BPTreeSearch.RouteStays` | flexql/src/server/index/bptree.cpp:55-65 | One step of the descent: the chosen child is responsible for the key and lies one level lower. |
| `BPTreeSearch.LeafDecides` | flexql/src/server/index/bptree.cpp:186-195 | That one leaf decides membership and value of the key for the whole tree. |
| `BPTreePutLeaf.PutLeafKeepsInv` | flexql/src/server/index/bptree.cpp:71-97 | Writing an entry keeps separators, depths, parent pointers, occupancy and leaf chain, up to one leaf that may now be full. |
| `BPTreePutLeaf.PutLeafMap` | flexql/src/server/index/bptree.cpp:71-97 | The same write updates the denoted map at exactly this key, and the size grows iff the key is new. |
| `BPTreeSplitLeaf.SplitLeafKeepsInv` | flexql/src/server/index/bptree.cpp:102-120 | Splitting a full leaf keeps the invariant, with the right half pending for its parent and spliced into the doubly linked chain. |
| `BPTreeSplitLeaf.SplitLeafContents` | flexql/src/server/index/bptree.cpp:102-120 | Splitting a leaf changes no entry of the tree, nor their order. |
| `BPTreeSplitInternal.SplitInternalKeepsInv` | flexql/src/server/index/bptree.cpp:124-142 | Splitting an overfull internal node keeps the invariant; the middle key moves up and every moved child gets its new parent. |
| `BPTreeSplitInternal.SplitInternalContents` | flexql/src/server/index/bptree.cpp:124-142 | Splitting an internal node changes no entry. |
| `BPTreePromote.NewRootKeepsInv` | flexql/src/server/index/bptree.cpp:147-159 | Growing a new root above a split root keeps the invariant and settles the pending half. |
| `BPTreePromote.AttachKeepsInv` | flexql/src/server/index/bptree.cpp:161-177 | Inserting the separator and the right half into the parent keeps the invariant, up to one node that may now be full. |
| `BPTreePromote.ParentHasSlot` | flexql/src/server/index/bptree.cpp:161-168 | The search for the left half among the parent's children always succeeds, at the slot the invariant says. |
| `BPTree.Index.InsertIntoParent` | flexql/src/server/index/bptree.cpp:146-182 | The cascade of promotions ends (it climbs towards the root), restores the settled invariant and changes no entry. |
| `BPTree.Index.SplitInternalNode` | flexql/src/server/index/bptree.cpp:124-144 | Halving an internal node in memory and promoting its middle key restores the settled invariant and changes no entry. |
| `BPTree.Index.SplitLeafNode` | flexql/src/server/index/bptree.cpp:102-122 | Halving a leaf in memory and promoting the right half's first key restores the settled invariant and changes no entry. |
| `BPTree.Index.Insert` | flexql/src/server/index/bptree.cpp:71-100 | Insert keeps the whole invariant and the tree afterwards denotes the old map with the key bound to the new row id. |
| `BPTree.Build` | flexql/src/server/index/bptree.cpp:71-100 | After any sequence of inserts the tree denotes the map they build (the last row id of a key wins) and its size field is that map's size. |
| `BPTree.Index.Find` | flexql/src/server/index/bptree.cpp:186-195 | Find returns the row id the map holds for the key, or -1. |
| `BPTreeOrder.ContentsAscending` | flexql/src/server/index/bptree.cpp:199-282 | Reading the leaf chain from the left gives strictly ascending keys. |
| `BPTree.Index.RangeEq` | flexql/src/server/index/bptree.cpp:199-206 | Reports exactly the row ids whose key equals the argument. |
| `BPTree.Index.RangeGt` | flexql/src/server/index/bptree.cpp:208-223 | Reports exactly the row ids with greater keys, once each, ascending, though it starts in the middle of the chain; a prefix of that if the callback stops. |
| `BPTree.Index.RangeGe` | flexql/src/server/index/bptree.cpp:225-237 | The same for keys at or above the argument, all entries from the lower bound on. |
| `BPTree.Index.RangeLt` | flexql/src/server/index/bptree.cpp:239-249 | The same for smaller keys, though it returns at the first key that is not smaller. |
| `BPTree.Index.RangeLe` | flexql/src/server/index/bptree.cpp:251-260 | The same for keys at or below the argument. |
| `BPTree.Index.RangeNe` | flexql/src/server/index/bptree.cpp:262-272 | The same for all other keys. |
| `Comparisons.ScanMeans` | flexql/src/server/index/bptree.cpp:199-282 | A range scan picks exactly the entries whose key compares with the argument as an integer, a real number or a text, by rising key in the same sense. |
| `Comparisons.ReportMeans` | flexql/src/server/index/bptree.cpp:199-282 | What any of the six scans reports on integer keys: the row ids of exactly the entries whose integer compares with the argument, by rising integer, or a prefix of them at which the callback stopped. |
| `BPTreeScan.IsVisitUnique` | flexql/src/server/index/bptree.cpp:208-272 | What a scan must report is determined by the entries, the operator and the callback alone. |
| `BPTreeSize.RootLeaves` | flexql/src/server/index/bptree.cpp:102-182 | The leaves below the root, left to right, are the leaf chain. |
| `BPTreeSize.SizeBound` | flexql/src/server/index/bptree.h:27-28 | A tree of height h >= 2 holds at least 2 * (order/2) * (MIN_KEYS+1)^(h-2) entries. |
| `BPTreeSize.SizeBound256` | flexql/src/server/index/bptree.h:27-28 | At order 256 that is 2 * 128^(h-1): height, and so lookups, are logarithmic. |
| `Crc32.TableEntry` | flexql/src/server/storage/wal.cpp:33-42 | The inner loop computes eight bit-by-bit steps of the reflected polynomial. |
| `Crc32.InitTable` | flexql/src/server/storage/wal.cpp:31-44 | Every table entry is the eight-step image of its index. |
| `Crc32.TableStepIsAbsorb` | flexql/src/server/storage/wal.cpp:48-52 | One table lookup, shift and xor equals absorbing the byte bit by bit (section 8 of RFC 1952). |
| `Crc32.Compute` | flexql/src/server/storage/wal.cpp:46-54 | The table-driven loop computes the bit-by-bit CRC-32. |
| `Crc32.FeedInjective` | flexql/src/server/storage/wal.cpp:46-54 | Feeding the same bytes never makes two different states equal. |
| `Crc32.BurstDetected` | flexql/src/server/storage/wal.cpp:46-54 | Any change confined to at most four consecutive bytes changes the checksum. |
| `Crc32.CheckValue` | flexql/src/server/storage/wal.cpp:31-54 | The checksum of the ASCII digits 1 to 9 is 0xCBF43926, the check value of CRC-32. |
| `Bytes.LeAt` | flexql/src/server/storage/wal.cpp:85-121 | The byte at each position of an encoded number is its digit to the base 256, least significant first. |
| `Wal.Layout` | flexql/src/server/storage/wal.cpp:85-121 | The bytes of a record by position: 5E BA 7A DA, the checksum of all that follows it, the LSN, the length, the text. |
| `Wal.AppendRecord` | flexql/src/server/storage/wal.cpp:85-121 | Append adds exactly the record's encoding at the end of the file. |
| `Wal.ReadRecord` | flexql/src/server/storage/wal.cpp:153-194 | Reading one record agrees with the format: magic, size limit, length and checksum are all checked. |
| `Wal.ReadAll` | flexql/src/server/storage/wal.cpp:196-207 | The reading loop returns the records up to the first place that does not parse. |
| `Wal.ParseLogEncoded` | flexql/src/server/storage/wal.cpp:153-207 | Reading an appended log returns exactly the records before the first payload over 10 MB. |
| `Wal.LogRoundTrip` | flexql/src/server/storage/wal.cpp:85-207 | So reading returns all appended records if and only if every payload is at most 10 MB. |
| `Wal.CutLog` | flexql/src/server/storage/wal.cpp:153-207 | Cutting the file at any byte returns exactly the records that lie wholly before the cut. |
| `Wal.DamageDetected` | flexql/src/server/storage/wal.cpp:153-194 | A change of up to four consecutive bytes inside a record's LSN or payload is always rejected. |
| `Wal.DamagedLog` | flexql/src/server/storage/wal.cpp:196-221 | With such damage in one record, reading returns exactly the records before it. |
| `Durability.StepKeeps` | flexql/src/server/database.cpp:75-173 | Every step (append, apply, snapshot rename, truncate, crash of an anchored process, reopen) keeps the durability invariant; an apply, if its statement does not throw. |
| `Durability.RunIsDurable` | flexql/src/server/database.cpp:75-173 | In every run without throwing statements, with a crash between any two steps, memory and recovery hold the fold of all logged statements, provided each crash hits a process whose next LSN is above the snapshot LSN. |
| `Durability.RecoveryAfterReopen` | flexql/src/server/database.cpp:131-173 | After a reopen and any further statements, recovery yields what the disk held followed by these statements without the first (snapshot LSN + 1 - next LSN) of them, and throws where that throws. |
| `Durability.LosslessIff` | flexql/src/server/storage/wal.cpp:58-76 | A statement that changes the outcome of recovery survives a crash after a reopen if and only if the reopened log continues above the snapshot LSN. |
| `Durability.LosingRun` | flexql/src/server/storage/wal.cpp:58-142 | For any three statements that execute: snapshot, truncate, reopen on the empty log (LSNs restart at 1), log the third, crash; recovery ends with the result of the first two. |
| `Durability.ReplayCompletesIff` | flexql/src/server/database.cpp:152-172 | Where throwing is a matter of the text, the replay completes if and only if no record above the snapshot LSN throws. |
| `Durability.StaysClosed` | flexql/src/server/database.cpp:152-172 | A log on which the replay throws still does so after any further appends. |
| `Durability.ClosingRun` | flexql/src/server/database.cpp:75-82 | A statement that throws is logged first, so after the process ends recovery throws, with everything before that statement intact in the log. |
| `LogTails.CutRecovers` | flexql/src/server/database.cpp:152-172 | In every anchored run without throwing statements, however much of the log is read: recovery yields the history without exactly the statements above the snapshot LSN in the unread part. |
| `Survival.RunSurvives` | flexql/src/server/database.cpp:75-173 | In every run without throwing statements, whichever processes crash: recovery yields exactly the fold of the statements in the snapshot and those logged above its LSN, and memory that of the snapshot and all records not yet skipped by a recovery. |
| `Survival.NothingLostIff` | flexql/src/server/database.cpp:157-159 | Recovery has everything that memory had if and only if no record not yet skipped lies at or below the snapshot LSN. |
| `Survival.RunAccounts` | flexql/src/server/database.cpp:75-173 | In every such run the statements whose result memory holds and those that recoveries have skipped add up, as multisets, to all statements ever logged, and what memory or recovery holds is in the order in which it was logged. |
| `Snapshot.Save` | flexql/src/server/storage/snapshot.cpp:62-134 | The nested writing loops produce exactly the file format. |
| `Snapshot.LoadFile` | flexql/src/server/storage/snapshot.cpp:138-263 | The nested reading loops agree with the format on every byte string, failures included. |
| `Snapshot.LoadSaved` | flexql/src/server/storage/snapshot.cpp:62-263 | Loading a saved snapshot restores the LSN and every table's name, schema and rows, whatever order the tables were written in, if and only if no table or column name is over 10 MB; otherwise loading fails. |
| `SavedTables.ExecKeepsSavable` | flexql/src/server/storage/snapshot.cpp:62-134 | Executing a text of at most 10 MB leaves tables whose names, columns, lengths and values fit the snapshot format and its reader. |
| `SavedTables.LoadedSavable` | flexql/src/server/storage/snapshot.cpp:138-263 | Whatever bytes a snapshot file holds, the tables loaded from it fit the format again. |
| `StatementSizes.StatementPieces` | flexql/src/server/parser/parser.cpp:55-205 | The names, values and column lists of a parsed statement are made of the text's characters and are no longer than it. |
| `Executor.IsMutatingSql` | flexql/src/server/database.cpp:24-37 | The scanning loops decide exactly whether the first word is CREATE or INSERT, in any case. |
| `Executor.MutationsAreLogged` | flexql/src/server/database.cpp:75-82 | Every text that lexes and parses to a CREATE or INSERT, and every text on which the parser throws, is classified as mutating, and so logged. |
| `Executor.UnloggedChangesNothing` | flexql/src/server/database.cpp:75-82 | A text that is not logged leaves every table as it was, and so does a logged text that does not parse to a mutation; a text on which the parser throws, throws on every database. |
| `Executor.SelectsAreNotLogged` | flexql/src/server/database.cpp:24-37 | No text that parses to a SELECT is classified as mutating. |
| `Literals.ReadMeans` | flexql/src/server/executor/executor.cpp:53-60 | Reading an integer gives n if and only if the text is white space, a sign if any, zeros and the decimal digits of n, and perhaps something else, with n in range. |
| `Literals.PlainSpelling` | flexql/src/server/executor/executor.cpp:53-60 | The plain decimal text of every integer is read as that integer. |
| `Literals.LiteralMeans` | flexql/src/server/executor/executor.cpp:49-87 | A literal parses to a value if and only if it denotes it: the integer it spells in 32 or 64 bits, the text itself, or what std::stod returns. |
| `Literals.AcceptMeans` | flexql/src/server/executor/executor.cpp:191-222 | A list of literals is accepted as a row if and only if each field is what its literal denotes in its column and no text is too long. |
| `Literals.RejectMeans` | flexql/src/server/executor/executor.cpp:191-222 | It is rejected if and only if the number of values is wrong, or some literal denotes no value that fits its column. |
| `Literals.FitsIff` | flexql/src/server/executor/executor.cpp:191-222 | When that is, type by type: the length of the text, an integer in range that it spells, or a number for std::stod. |
| `Literals.BatchMeans` | flexql/src/server/executor/executor.cpp:191-222 | The rows of a batch that are taken are those its lists stand for, in order, up to the first list that stands for none. |
| `Literals.InsertMeans` | flexql/src/server/executor/executor.cpp:175-230 | An INSERT appends exactly those rows to its table and leaves columns and the other tables alone. |
| `Executor.SchemaColumns` | flexql/src/server/executor/executor.cpp:140-161 | The schema has one column for each definition, in order, under its upper-case name, with the length asked for or the default. |
| `Executor.CreateMeans` | flexql/src/server/executor/executor.cpp:128-169 | A CREATE TABLE adds an empty table with those columns under the upper-case name and changes no other; it does nothing if the name is taken. |
| `Executor.CreateFits` | flexql/src/server/parser/parser.cpp:121-132 | Every parsed column length fits the 16-bit field. |
| `Executor.SchemaFits` | flexql/src/server/storage/schema.cpp:10-22 | So the schema of a parsed CREATE TABLE fits the row layout. |
| `Database.FilesRecover` | flexql/src/server/database.cpp:131-173 | Recovery from the bytes of snapshot.dat and wal.log is recovery from the disk state those bytes encode, with the log up to the first record over 10 MB, exceptions included. |
| `Database.TornAppendRecovers` | flexql/src/server/storage/wal.cpp:85-121 | If a crash tears the last append at any byte, recovery is as if the append had not begun. |
| `Database.FilesAreDurable` | flexql/src/server/database.cpp:75-173 | The durability theorem on bytes: the files of any such run, if no text has a length out of range or creates a table without columns, recover to the result of the history without exactly the statements at or behind a record over 10 MB that are not in the snapshot; with no such record, to that of the whole history. |
| `Database.RecoveryCompletesIff` | flexql/src/server/database.cpp:131-173 | Any snapshot and log file can be opened if and only if no text above the snapshot LSN has, by its tokens, a VARCHAR length out of range, provided none of them begins CREATE TABLE name ( ). |
| `Database.ClosingTexts` | flexql/src/server/database.cpp:75-82 | The closing run with texts: CREATE TABLE T (X VARCHAR(255)), CREATE TABLE A (X VARCHAR(n)) for any integer n that does not fit 32 bits, crash; the database cannot be opened again. |
| `Database.LosingTexts` | flexql/src/server/storage/wal.cpp:58-142 | The losing run with texts: CREATE, INSERT, clean shutdown, reopen, INSERT, crash; recovery differs from the fold of the log's history, by the last row. |
| `Database.InsertSurvivesIff` | flexql/src/server/storage/wal.cpp:58-76 | On any disk that recovers with such a table, the first INSERT text after reopening survives a crash if and only if the log continues above the snapshot LSN. |
| `Database.SnapshotsLoad` | flexql/src/server/database.cpp:107-127 | In every run of texts of at most 10 MB, crashes included, a snapshot of any state loads as the tables it was taken of, up to the numbers of tables and rows that the format can count. |
| `Database.ReplayLog` | flexql/src/server/database.cpp:152-172 | The replay loop skips covered records, executes the others in order, and ends with the exception of the first that throws. |
| `Database.Database.Open` | flexql/src/server/database.cpp:41-62 | Opening loads the snapshot, replays the log as far as it can be read and numbers on from there; as the reopen step does if all of it can be read; if the replay throws there is no database; the tables can always be saved again. |
| `Database.Database.Execute` | flexql/src/server/database.cpp:75-82 | Execute logs a mutating text before running it, performs exactly the append and apply steps, and throws if and only if the text has a length out of range, with the tables unchanged; a text of at most 10 MB keeps the tables savable. |
| `Database.Database.TakeSnapshot` | flexql/src/server/database.cpp:107-127 | Taking a snapshot changes no table and performs the save and truncate steps; the files then recover to the tables if no name is over 10 MB, and to nothing at all otherwise. |
| `Values.CompareIsSatisfies` | flexql/src/common.h:133-155 | Within one type the value operators are the operators on index keys; what those mean is `Comparisons.CompareHolds`. |
| `Doubles.RankIsReal` | flexql/src/common.h:133-155 | The order of the bit patterns of two doubles is the order of the real numbers that their sign, exponent and fraction stand for; equality likewise. |
| `Comparisons.StrLessIff` | flexql/src/common.h:144-152 | One text is below another if and only if they agree up to some position where the first has ended or has the smaller character. |
| `Comparisons.CompareHolds` | flexql/src/common.h:133-155 | All six operators on values of one type mean comparison of the integers, of the real numbers or of the texts that they stand for; of different types, values are unequal. |
| `Values.FindColumn` | flexql/src/server/storage/schema.cpp:10-26 | Returns the last column of that name, or -1 if there is none. |
| `RowLayout.OffsetsApart` | flexql/src/server/storage/schema.cpp:15-19 | No field reaches into a later field or into the expiry bytes. |
| `RowLayout.WriteRow` | flexql/src/server/storage/table.cpp:32-62 | After writing, every field, the expiry and the flag can be found in the bytes, and nothing outside the row has changed. |
| `RowLayout.FieldBack` | flexql/src/server/storage/table.cpp:66-90 | A field that was written is read back as the same value. |
| `RowLayout.ReadRow` | flexql/src/server/storage/table.cpp:92-99 | The reading loop returns exactly the row that was written. |
| `RowLayout.ReadListed` | flexql/src/server/storage/table.cpp:101-108 | Reading a list of columns returns exactly those fields of the row that was written. |
| `Arena.AlignUp` | flexql/src/server/storage/arena.cpp:46-46 | The result is the first multiple of the alignment at or above the offset. |
| `Arena.Arena.AllocateNewChunk` | flexql/src/server/storage/arena.cpp:30-40 | A new chunk is at least as large as asked for and leaves the others in place. |
| `Arena.Arena.Allocate` | flexql/src/server/storage/arena.cpp:41-61 | Blocks handed out are aligned, in bounds and pairwise disjoint, in old and new chunks alike. |
| `Arena.Arena.Reset` | flexql/src/server/storage/arena.cpp:63-73 | Reset keeps the first chunk and forgets every block. |
| `RowStore.Table.Insert` | flexql/src/server/storage/table.cpp:144-178 | A valid row is stored unchanged beside all earlier rows and indexed under its key; an invalid row changes nothing. |
| `RowStore.Table.IsRowValid` | flexql/src/server/storage/table.cpp:112-124 | Reads flag and expiry from the bytes: the row is live at the given time. |
| `RowStore.Table.ScanAll` | flexql/src/server/storage/table.cpp:182-194 | Returns the live rows in insertion order, unchanged. |
| `RowStore.Table.ScanWhere` | flexql/src/server/storage/table.cpp:214-235 | Returns the listed columns of the live rows that satisfy the comparison, in insertion order; on the primary key, what the index gives. |
| `RowStore.Table.IndexRange` | flexql/src/server/storage/table.cpp:254-281 | Returns the listed columns of the live ones among the last rows of the keys that satisfy the operator, in key order; the whole rows are the live rows by key if and only if every key asked for with a live row has a live last row. |
| `RowStore.Table.CleanupExpired` | flexql/src/server/storage/table.cpp:285-304 | Clears exactly the flags of expired rows, touches no other byte, and the row counter keeps counting set flags. |
| `TableSpec.IndexAnswerIff` | flexql/src/server/storage/table.cpp:144-281 | The index answers a key condition with the most recently inserted live row of each key, in key order, if and only if every matching key that has a live row has a live last row. |
| `TableSpec.AgingLasts` | flexql/src/server/storage/table.cpp:159-163 | That condition holds whenever rows expire in insertion order. |
| `TableSpec.IndexAnswer` | flexql/src/server/storage/table.cpp:144-281 | If rows expire in insertion order, an index query returns, in key order, the most recently inserted unexpired row of each key that satisfies the operator. |
| `TableSpec.HistoryAging` | flexql/src/server/storage/table.cpp:159-163 | Under a clock that does not go back, rows do expire in insertion order, whatever inserts and sweeps there were. |
| `TableSpec.ClockWentBack` | flexql/src/server/storage/table.cpp:112-124 | If the clock went back between two inserts of a key, a scan can show a row that the index hides. |
| `TableSpec.ScanIsHistory` | flexql/src/server/storage/table.cpp:144-304 | A scan returns every inserted row that has not expired by then, however often the table was swept before. |
| `TableSpec.SweepInvisible` | flexql/src/server/storage/table.cpp:285-304 | A sweep is invisible to every later scan. |
| `TableSpec.SweepUnread` | flexql/src/server/storage/table.cpp:285-304 | A sweep is invisible to every later index query. |
| `TableSpec.ReloadAnswers` | flexql/src/server/storage/snapshot.cpp:251-256 | At a fixed clock the index rebuilt from a snapshot answers a range query as before if and only if every key asked for with a live row has a live last row. |
| `TableRuns.RunEvents` | flexql/src/server/storage/table.cpp:144-304 | Running any inserts and sweeps on the byte-level table leaves exactly the rows, expiries and flags of that history; rejected rows leave no trace. |
| `TableRuns.RunAndQuery` | flexql/src/server/storage/table.cpp:144-304 | After any run of inserts and sweeps under a clock that does not go back, the scan, the index query and the row counter are as the theorems above say. |
| `KeyOrder.FilterCommutes` | flexql/src/server/storage/table.cpp:254-281 | Selecting by key from the index is indexing the selected rows. |
| `KeyOrder.RowOrderBag` | flexql/src/server/storage/table.cpp:144-178 | The index holds every row exactly when no key repeats, and fewer rows otherwise. |
| `KeyOrder.IndexIsScan` | flexql/src/server/storage/table.cpp:218-221 | A condition on the primary key finds the same rows through the index as through a full scan, as multisets, if and only if no two selected rows share a key. |
| `Query.BuildIndex` | flexql/src/server/executor/executor.cpp:348-352 | The hash index maps every value to the positions of the equal right values, in order. |
| `Query.BucketIsEnough` | flexql/src/server/executor/executor.cpp:354-359 | Visiting one bucket finds every match of a left row, in order. |
| `Query.HashJoin` | flexql/src/server/executor/executor.cpp:346-410 | The hash join returns exactly the row sequence of the nested loop with equality, duplicates, WHERE clause and output columns included. |
| `Query.NestedLoopJoin` | flexql/src/server/executor/executor.cpp:411-481 | The nested loops return the filtered product, left rows first. |
| `Query.JoinFlips` | flexql/src/server/executor/executor.cpp:341-481 | Exchanging the two tables gives the same rows, each as often. |
| `RowPlaces.FilterAt` | flexql/src/server/storage/table.cpp:214-235 | A filtered scan returns the rows at rising positions, exactly those that pass. |
| `RowPlaces.ScanAt` | flexql/src/server/storage/table.cpp:112-194 | After any inserts and sweeps a scan returns the rows of exactly the inserts whose time to live, counted from the insert, has not passed, in their order. |
| `RowPlaces.OrderFilterAt` | flexql/src/server/storage/table.cpp:254-281 | An index query returns the rows at exactly the positions that pass and whose key comes at no later position. |
| `RowPlaces.ProductAt` | flexql/src/server/executor/executor.cpp:341-481 | A join returns one row for each pair of positions that matches, and no other, by rising left and then right position. |
| `Query.ProjectRows` | flexql/src/server/executor/executor.cpp:526-580 | Skipping the projection when it would be the identity changes no answer. |
| `Query.ResolvePositions` | flexql/src/server/executor/executor.cpp:514-525 | Returns for every name the position of the last column with that name; fails if and only if some name is no column. |
| `Query.PositionsMean` | flexql/src/server/executor/executor.cpp:514-525 | The same of the specification function. |
| `Query.ExecJoin` | flexql/src/server/executor/executor.cpp:264-496 | The join statement as a whole, by hash or by loops, computes the answer that `Answers.JoinMeans` describes, errors included. |
| `Answers.JoinMeans` | flexql/src/server/executor/executor.cpp:264-496 | A join fails if and only if a table, an ON column or a listed column is missing. Else its rows belong to exactly the pairs of positions whose ON values compare and whose WHERE row (the left one if its table has the column, else the right one) satisfies the literal, by rising left and then right position; for * each row is the left row and then the right row under dotted names, and for a list the value under each name is that column of the table it names. |
| `Query.ExecSelect` | flexql/src/server/executor/executor.cpp:250-594 | A SELECT without the cache on table values computes the answer that `Answers.SelectMeans` and `Answers.JoinMeans` describe, errors included. |
| `Answers.SelectMeans` | flexql/src/server/executor/executor.cpp:498-580 | A single-table SELECT fails if and only if the table or a column is missing or the literal denotes nothing. Else under each name stands that column of the rows that the WHERE clause leaves: all; or those that satisfy it, in insertion order; or, on the primary key, the newest row of each key that satisfies it, by rising key. |
| `Answers.StarReturnsTable` | flexql/src/server/executor/executor.cpp:498-580 | SELECT * without WHERE returns the rows of the table unchanged if no two columns share a name. |
| `Query.SelectIsFilter` | flexql/src/server/executor/executor.cpp:498-580 | A single-table SELECT means project-of-filter: the same sequence off the primary key, the same multiset on it if the selected keys are distinct, and fewer rows otherwise. |
| `StoreQuery.FindRows` | flexql/src/server/executor/executor.cpp:537-565 | On a stored table at a given time, the rows of a SELECT come from the full scan, the index or the filtering scan as the clause asks, with the errors of unknown columns and bad literals. |
| `StoreQuery.StoredRowsIff` | flexql/src/server/executor/executor.cpp:537-565 | These are the rows that the clause selects from the live rows of the table if and only if the index can answer: each matching key with a live row has a live last row. |
| `StoreQuery.ExecStored` | flexql/src/server/executor/executor.cpp:250-580 | A SELECT over the stored tables, joins included, calls the tables' own scans and returns their projected rows, errors included. |
| `StoreQuery.StoredIsShown` | flexql/src/server/executor/executor.cpp:250-580 | So it answers as the specification does on the tables of live rows at that time, if the index can answer. |
| `StoreQuery.AgingAnswers` | flexql/src/server/storage/table.cpp:159-163 | A table whose rows expire in insertion order can always answer. |
| `StoreQuery.SelectOfHistory` | flexql/src/server/executor/executor.cpp:498-580 | After any inserts and sweeps under a clock that does not go back, a single-table SELECT over the stored table answers as the specification does on the inserted rows that have not expired. |
| `StoredRuns.EffectShows` | flexql/src/server/executor/executor.cpp:128-230 | A text changes what the stored tables show at a later time as it changes tables without expiry, unless it is an INSERT whose rows have expired by then. |
| `StoredRuns.SessionShows` | flexql/src/server/executor/executor.cpp:112-230 | After any session of texts, at any time, the stored tables show what the texts would have built if the INSERTs expired by then had never run and nothing ever expired. |
| `StoredEngine.InsertStored` | flexql/src/server/executor/executor.cpp:191-222 | On a stored table the rows of a batch go into arena and index one by one until one is rejected, each with the expiry of that moment. |
| `StoredEngine.StoredExecutor.ExecuteText` | flexql/src/server/executor/executor.cpp:93-122 | CREATE, INSERT and SELECT texts on a map of stored tables, disjoint in memory: exactly the effect and the reply of the session model, at any clock that does not go back. |
| `StoredEngine.RunAndSelect` | flexql/src/server/executor/executor.cpp:93-580 | After any session of texts over stored tables a SELECT answers as from value tables built by the texts whose INSERTs have not expired, and only those. |
| `Engine.InsertBatch` | flexql/src/server/executor/executor.cpp:191-222 | Rows of a batch go in one by one, each as its literals denote, until a list stands for no row; the accepted ones stay. |
| `Engine.SchemaOf` | flexql/src/server/executor/executor.cpp:140-161 | The loop yields a schema that fits the row layout: one column per definition, in order, with the upper-case name, the kind, and the length asked for or the default. |
| `Engine.SqlExecutor.ExecuteSql` | flexql/src/server/executor/executor.cpp:112-122 | The executor with its cache object performs exactly one step of the session machine and returns its reply: an answer, success or error, or the parser's exception. |
| `Engine.SqlExecutor.ExecSelectSql` | flexql/src/server/executor/executor.cpp:236-248 | A hit returns the cached answer and refreshes it; a miss computes the answer and caches it only on success. |
| `Engine.SqlExecutor.InsertSql` | flexql/src/server/executor/executor.cpp:175-230 | A whole batch invalidates its table's queries, a rejected one does not. |
| `Engine.SqlExecutor.CreateSql` | flexql/src/server/executor/executor.cpp:128-169 | Adds an empty table with that schema, or changes nothing if the name is taken, and keeps every table well formed. |
| `LruCache.NormalizeLoop` | flexql/src/server/cache/lru_cache.cpp:18-45 | The loop computes the cache key that `KeyForm.KeyOfWords` describes. |
| `KeyForm.KeyOfWords` | flexql/src/server/cache/lru_cache.cpp:18-45 | The key of a text, followed by some semicolons, is its words in capitals with one space between them, and the key ends in no semicolon. |
| `KeyForm.WordsOf` | flexql/src/server/cache/lru_cache.cpp:18-45 | Every text is made of such words and white space. |
| `LruCache.Cache.Get` | flexql/src/server/cache/lru_cache.cpp:47-63 | Returns the cached value iff the key is present, and moves it to the front of the recency list. |
| `LruCache.Cache.Put` | flexql/src/server/cache/lru_cache.cpp:65-100 | Map and list stay in bijection and refine the recency list: overwrite in front, or insert in front after evicting the last entry of a full cache. |
| `LruCache.Cache.Evict` | flexql/src/server/cache/lru_cache.cpp:78-83 | A full cache loses exactly its last list entry, from both map and list. |
| `LruCache.Cache.InvalidateTable` | flexql/src/server/cache/lru_cache.cpp:102-119 | Removes exactly the cached keys whose extracted table matches, despite stale and duplicate tracking entries. |
| `LruCache.PurgeIsWithoutAll` | flexql/src/server/cache/lru_cache.cpp:102-119 | Erasing the tracked keys one by one is removing the keys of that table. |
| `LruHistory.RunSound` | flexql/src/server/cache/lru_cache.cpp:47-119 | After any run: at most capacity entries, no key twice, most recently used first, every value the one last stored under its key with no invalidation of its table since. |
| `LruHistory.EvictsLeastRecent` | flexql/src/server/cache/lru_cache.cpp:78-83 | A put pushes out another key only from a full cache, and only the one whose last use lies furthest back. |
| `CacheKeys.LexSq` | flexql/src/server/cache/lru_cache.cpp:18-45 | A text without quotes and its squeezed upper-case form have the same tokens up to case. |
| `CacheKeys.KeyTokens` | flexql/src/server/cache/lru_cache.cpp:18-45 | The tokens of such a text are those of its key, up to case and trailing semicolons. |
| `CacheKeys.SelectUpper` | flexql/src/server/parser/parser.cpp:262-336 | Parsing commutes with upper-casing the tokens. |
| `CacheKeys.KeyDetermines` | flexql/src/server/cache/lru_cache.cpp:18-45 | Every text with a plain key is the query of that key, up to the case of its names. |
| `FromClause.TrackedUnderFrom` | flexql/src/server/cache/lru_cache.cpp:89-99 | A key is tracked under its FROM table if no word of the select list ends in FROM. |
| `FromClause.TextIsPlain` | flexql/src/server/cache/lru_cache.cpp:18-45 | A complete SELECT on one table, without quotes, whose literal is a number and whose select list has no word ending in FROM, has a key that is tracked under its table and reads as the same query. |
| `CachedRuns.KeyTransparent` | flexql/src/server/executor/executor.cpp:175-248 | In any session whose INSERTs are whole or nothing, whatever else it runs, a SELECT whose key is plain is answered as the tables would answer it, on a hit as on a miss. |
| `CachedRuns.CacheTransparent` | flexql/src/server/executor/executor.cpp:175-248 | The same of the caller's text: a complete single-table SELECT without quotes, with a numeric literal if any, and no word of its select list ending in FROM. |
| `StaleAnswers.OldAnswer` | flexql/src/server/executor/executor.cpp:193-225 | A cached query keeps its old answer through an INSERT that fails part of the way, and through one into a table its key is not tracked under. |
| `StaleAnswers.JoinGoesStale` | flexql/src/server/cache/lru_cache.cpp:89-99 | A cached join of two tables keeps its old answer through every INSERT into its right table. |
| `StaleAnswers.JoinChanges` | flexql/src/server/executor/executor.cpp:341-481 | Such an INSERT can change the join's true answer: two pairs of tables with one row more or less. |
| `StaleAnswers.StaleJoin` | flexql/src/server/cache/lru_cache.cpp:89-119 | A session of five texts (two CREATEs, an INSERT, the join, an INSERT into the right table) after which the join is answered wrongly. |
| `StaleAnswers.CaseShared` | flexql/src/server/cache/lru_cache.cpp:18-45 | Texts that differ in letter case only share one cache entry, string literals included. |
| `StaleAnswers.CaseMatters` | flexql/src/server/executor/executor.cpp:547-548 | Two literals that differ in case only have different answers on a table with one row. |
| `StaleAnswers.WrongCase` | flexql/src/server/cache/lru_cache.cpp:18-63 | A session (CREATE, INSERT 'a', SELECT for 'a') after which the SELECT for 'A' is answered wrongly, with the rows for 'a'. |
| `StaleAnswers.PartialInsert` | flexql/src/server/executor/executor.cpp:193-222 | A batch whose second row has too few values fails, and its first row stays. |
| `StaleAnswers.StaleBatch` | flexql/src/server/executor/executor.cpp:193-225 | A session (CREATE, SELECT, such a batch) after which the SELECT is answered wrongly, without the row that stayed. |
| `ThreadPool.RunKeeps` | flexql/src/server/concurrency/thread_pool.cpp:9-45 | Every popped task is with one worker or has run once; a worker exits only from a stopped, drained pool; in every state of every interleaving. |
| `ThreadPool.ShutdownDrains` | flexql/src/server/concurrency/thread_pool.cpp:34-45 | When the winning shutdown call has joined all workers (at least one), exactly the accepted tasks have run, each once, and the queue is empty. |
| `ThreadPool.NothingAcceptedAfterExit` | flexql/src/server/concurrency/thread_pool.h:63-85 | No task is accepted after a worker has exited. |
| `ThreadPool.NoWorkersNoDrain` | flexql/src/server/concurrency/thread_pool.cpp:34-45 | With no workers a shutdown can finish with a task that never ran. |
| `Lexer.Tokenize` | flexql/src/server/parser/lexer.cpp:114-195 | The token loop computes the token list that `Spellings.LexIff` describes, and reports an error iff some lexeme is bad. |
| `Spellings.Characters` | flexql/src/server/parser/lexer.cpp:48-80 | Which characters are white space, digits, letters and parts of names, and the capital of each letter. |
| `Spellings.TokenBack` | flexql/src/server/parser/lexer.cpp:54-195 | Every spelling of every token is read as that token, whatever follows that does not continue it: keywords in any case, <> and !=, whole and fractional numbers with a sign, strings in either quotes with escapes. |
| `Spellings.TokenForth` | flexql/src/server/parser/lexer.cpp:54-195 | Whatever is read as a token is one of its spellings, read to its end. |
| `Spellings.LexIff` | flexql/src/server/parser/lexer.cpp:114-195 | A text lexes to a token list if and only if it is made of spellings of these tokens, each set apart from the next, with any white space between them. |
| `Lexer.ScanString` | flexql/src/server/parser/lexer.cpp:91-112 | Reads up to the closing quote, dropping the backslash of an escape; an unclosed string is an error. |
| `Lexer.ScanNumber` | flexql/src/server/parser/lexer.cpp:54-69 | Reads digits with at most one dot. |
| `Lexer.ScanIdent` | flexql/src/server/parser/lexer.cpp:71-80 | Reads the longest run of identifier characters. |
| `ParserLoops.TokenParser.CreateHere` | flexql/src/server/parser/parser.cpp:72-148 | The moving-position parser for CREATE TABLE agrees with the grammar function, errors and the length exception included. |
| `ParserLoops.TokenParser.InsertHere` | flexql/src/server/parser/parser.cpp:152-205 | The same for INSERT with its nested loops. |
| `ParserLoops.TokenParser.SelectHere` | flexql/src/server/parser/parser.cpp:262-336 | The same for SELECT with its optional clauses. |
| `ParserLoops.ParseText` | flexql/src/server/parser/parser.cpp:340-357 | Lexing and parsing a text yields the statement, a syntax error or the exception that the grammar function says. |
| `Grammar.ParseReads` | flexql/src/server/parser/parser.cpp:55-336 | Every token list of the grammar is accepted with its meaning: any operator, any token as a value, stray commas, a missing operator and a closing semicolon included. |
| `Grammar.ReadsParse` | flexql/src/server/parser/parser.cpp:55-336 | Every accepted token list is one of the grammar, and its syntax tree is that meaning. |
| `Grammar.SqlIff` | flexql/src/server/parser/parser.cpp:340-357 | A text parses to a statement if and only if it lexes to tokens of the grammar that mean that statement. |
| `Grammar.TextMeans` | flexql/src/server/parser/parser.cpp:340-357 | A statement of the grammar written with any spelling of each token and any white space parses to its meaning. |
| `SqlText.LexRender` | flexql/src/server/parser/lexer.cpp:114-195 | Tokens written out with escapes lex back to themselves. |
| `SqlText.ParseBack` | flexql/src/server/parser/parser.cpp:55-336 | Every statement written as tokens parses back to itself and leaves only the end marker. |
| `SqlText.SqlRoundTrip` | flexql/src/server/parser/parser.cpp:340-357 | Every statement of the documented grammar, rendered with quoted and escaped literals, lexes and parses back to the same syntax tree. |
| `SqlText.LengthOutcome` | flexql/src/server/parser/parser.cpp:86-140 | CREATE TABLE with any list of columns, each with or without a length and that any integer: parses, with the lengths modulo 2^16, if every length fits 32 bits, and throws if one is too great or too small. |
| `ThrowingTexts.ThrowsIff` | flexql/src/server/parser/parser.cpp:72-148 | For every text: the parser throws if and only if the text lexes and its tokens are CREATE TABLE name (, whole column definitions each with a comma, and a VARCHAR whose length literal lies outside the 32-bit range. |
| `ThrowingTexts.LexInts` | flexql/src/server/parser/lexer.cpp:54-69 | Every integer literal of a text is an optional minus sign and digits, so it has a value. |
| `Numbers.StoiIntText` | flexql/src/server/parser/parser.cpp:128-128 | std::stoi returns the value of such a literal if it fits 32 bits and throws otherwise. |
| `ThrowingTexts.CreatesEmptyIff` | flexql/src/server/parser/parser.cpp:72-148 | For every text: it creates a table without columns if and only if it lexes and begins CREATE TABLE name ( ). |

## Left out

- Sockets, wire framing, result formatting, the client library and the shell: input, output and presentation.
- Concurrent statements on one executor, and snapshots taken while statements run: the executor and the database are modelled as sequential; only the thread pool is modelled with interleavings, and only its safety.
- Durability.RunIsDurable: rows, not expiry times; it takes executing a statement to be a function of the tables, so no row expires during the run. It says nothing of runs with throwing statements, of which `Durability.ReplayCompletesIff` says whether they can be reopened.
- Database.FilesAreDurable: excludes texts that create a table without columns, as do `Database.RecoveryCompletesIff` and `Database.Database.Execute`; the code then reads the first of no columns, and its outcome is not defined.
- Engine.SqlExecutor.ExecuteSql: excludes the same texts.
- Survival.RunSurvives: no throwing statements, as in `Durability.RunIsDurable`.
- CachedRuns.CacheTransparent: no row expires while its query is cached; cached answers have no expiry time in the code.
- CachedRuns.CacheTransparent: one direction only; for joins, string literals and partial batches `StaleAnswers` has sessions with wrong answers, but another stale entry may happen to hold the right rows, and no condition on the texts alone decides that.
- Query.ExecSelect: works on table values; `StoreQuery.ExecStored` is the same statement over the stored tables, without the cache.
- StoredEngine.StoredExecutor.ExecuteText: without the query cache, whose answers do not expire in the code, and without the background sweeps, which `TableSpec.SweepInvisible` and `TableSpec.SweepUnread` show to be invisible; it excludes texts that create a table without columns.
- Database.SnapshotsLoad: numbers of tables and rows must fit the format's 32-bit and 64-bit counts, as in `Snapshot.LoadSaved` and `Database.Database.TakeSnapshot`; log records of less than 4 GB and LSNs below 2^64 in `Database.FilesRecover`, `Database.FilesAreDurable` and `Database.Database.Open`.
- Answers.JoinMeans: if the operator is not `=` the ON columns must be of one type; the parser yields no other operator.
- StoreQuery.StoredIsShown: one direction only, since a projection can hide the difference; for the rows before the projection `StoreQuery.StoredRowsIff` has both.
- RowStore.Table.IndexRange: gathers the reported row ids in a list and then reads the rows, where the code reads each row in the callback, which never stops the scan.
- Arena.Arena.Allocate: alignment is modelled by division, which is the code's bit mask when the alignment is a power of two, as the only alignment used (8) is; a failing malloc is not modelled.
- RowLayout.WriteRow: row sizes are unbounded, where the code's row size is a 32-bit number.
- Wal.AppendRecord: LSNs are unbounded, where the code's wrap at 2^64.
- Snapshot.LoadFile: fails on a type code over 3, where the code would keep the code; no saved snapshot has one (`Snapshot.LoadSaved`).
- Comparisons between values of different types other than equality, and NaN: the code reads the wrong member of a union, or breaks the order of keys.
- Torn log tails followed by more appends: later records can become unreadable, and the model only says what recovery reads.
- Line and column numbers of tokens, the wording of error messages, and success messages.
- The tree's scan_all, the table's scan_projected and index_lookup: each is a scan above with a fixed operator or column list, and no statement calls them.
- Memory statistics, the lock manager, the TTL thread's timer, clear and the hit-rate report of the cache: none of them changes a row, an answer or a file.
