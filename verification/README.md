# Verified models of the WCDB tools and the Cordova runtime

The repository is an iOS shell around a bundled copy of WCDB (C) and Cordova's
`cordova.js`. This project models the parts of it that hold real logic and proves what
they promise. `dafny verify dfyconfig.toml` checks everything.

The models take the source's form. Code that changes state step by step is a class whose
methods keep the source's loops and in-place updates; each method is proved to do what a
function on values says, and the theorems are about that function, for all inputs, runs or
reachable states. `hide` statements only keep definitions folded where a proof does not
need them.

## What is modelled

**Backup pipeline** (`BackupBuffers`, `BackupProtocol`). A producer prints a dump into one
of two 8192-byte buffers while a writer deflates the other one; one mutex and one condition
variable guard them. The two threads are a step system. Over every interleaving no byte is
lost, repeated or reordered, no buffer is shared, no wakeup is lost, and every run that is
not kept alive by spurious wakeups alone ends, with everything written unless the writer
has failed.

**Dump format** (`DumpFormat`, `DumpBytes`, `DumpWriter`, `DumpReader`, `DumpRecover`,
`DumpRoundTrip`, `DumpExactness`, `DumpTruncation`, `DumpCommits`). The tag format is printed
by `mm_backup.c` and executed by `mm_recover.c`. SQLite is an arbitrary oracle and what the
reader does is the trace of its calls. The round trip is proved below 65536 bytes a datum and
shown to fail from there on, since the tail is read over the blocks. Every byte prefix of a
dump makes a prefix of its calls. Which rows are followed by a commit, which failures end a
recovery and what is counted is proved of the trace of any run.

**Backup files** (`SectionFormat`, `SectionFiles`). Header, sections, placeholder and size,
short writes, and the cipher as exclusive or with a positional key stream. Deflate is left
abstract: a body is the bytes it puts out, and parameters tell where a stream ends and what
inflate makes of it. `Recovery` puts dumps, files and recovery together.

**FTS5 query parser** (`Fts5Tables` to `Fts5Parser`). The generated LALR(1) parser with its
compressed tables, its stack array of 100 and its driver. `Auto` is the automaton as
fts5parse.out lists it, and the tables are proved to encode it. The parser is proved sound
and complete: it accepts a token sequence and returns a tree exactly if the tree is a
derivation in the 26 rules that respects precedence and associativity, can be built in 99
stack entries, and is rejected by no semantic action (`Fts5Actions`).

**Repair kit** (the modules `Repair...`). Integers, varints, records, payloads with overflow
chains, and the recursive page walk with its status array, against the SQLite Database File
Format (sections 1.6, 1.7 and 2.1). A read outside a page or a payload is `Undefined`,
`Outside` or `Lost`, as is the use of a variable that was never set. The walk is proved to
end on every page graph, to report the rows of every represented tree, and, from the master
table, the rows of every table of a represented database that the walk reaches.
`RepairReach` is about walks on any page graph, `RepairIndex` about indexes, which the code
misreads, `RepairSweep` about the parse of every page. `RepairDamage` is what the kit is
for: of a b-tree with overwritten pages, unreadable cells and numbers that lead nowhere or
back, the rows of the readable parts are reported and no others. `RepairExamples` has small
files that meet the predicates.

**Cordova runtime** (`ModuleLoader`, `CommandQueue`, `StickyChannels`). The module loader
with its cycle detection, the queue of commands to the native side with pokes and timers,
and sticky channels with `join`.

**Tokenizer** (`TokenizerText`, `TokenizerCursor`). The decoding loop with its offset map,
and the cursor over a word-break iterator. The iterator, `u_isspace` and the normalisation
of a token's text are parameters.

## Where the code falls short

- A text, blob or statement of 65536 bytes or more is not recovered (`DumpExactness`).
- A nine-byte varint is misread (`RepairInts.LongVarint`): in the file format, to which the
  code refers, its ninth byte holds eight bits.
- A writer that fails after `dump_write_end` is not noticed: success is returned for an
  incomplete file (`BackupProtocol.SuccessExactly`, `BackupProtocol.LateFailure`).
- The cell pointers of an interior index page are read from byte 8, where the file format
  has them from byte 12. So stray numbers are walked, the last three children of a page
  are missed, and a table that a stray number leads to is reported as rows of the index;
  or bytes outside of the page are read (`RepairIndex.IndexView`, `RepairIndex.StrayTable`,
  `RepairExamples.StrayExample`). An index reports nothing exactly under the condition of
  `RepairReach.SilentExactly`.
- A cell pointer of 32768 or more, which pages of 65536 bytes have, is read as a negative
  number (`RepairInts.PointerExactly`); such pages are not represented.
- When every page is parsed, a table that the master table does not lead to is reported
  more than once if a page of it has a lower number than its root
  (`RepairSweep.ParsedTwice`).
- A row id below 0 or from 2^31 on is reported wrongly, and some from 2^56 on make the rest
  of their page be taken for damage (`RepairTree.RowidExactly`, `RepairTree.CellRead`).
- On an interior page 1 the right-most child is read from the file header
  (`RepairTree.FirstPageChildren`), so a schema of more than one page is never read whole
  from the master table (`RepairDatabase.SchemaExactly`).
- A module whose factory failed counts as built (`ModuleLoader.FailureIsForgotten`).
- An id that every object inherits, such as `toString`, cannot be defined, and requiring it
  is reported as a cycle (`ModuleLoader.Loader.Define`, `ModuleLoader.CycleExactly`).
- A function that throws in `nativeEvalAndFetch` strands its commands unless a poke or a
  timer is left over (`CommandQueue.StepInv`, `CommandQueue.ThrowStrands`).
- A `join` that lists an unfired channel twice never calls back
  (`StickyChannels.JoinExactly`).

## Model

| member | source | states |
|---|---|---|
| `BackupBuffers.Context.Copy` | wcdb/backup/mm_backup.c:158-169 | One pass of the copy loop, in place: the current buffer grows by as much of the data as fits, the other buffer stays, `in_avail` and `in_full` follow the fill level, and a signal is due if one of them is set. |
| `BackupBuffers.Context.Swap` | wcdb/backup/mm_backup.c:81-90 | The writer's critical section: it leaves with the buffer that was current and its fill, the producer gets the other one, empty, and both flags are cleared. |
| `BackupBuffers.Copied` | wcdb/backup/mm_backup.c:158-167 | As a value: what the current buffer holds grows by exactly the bytes that fit, and nothing else changes. |
| `BackupBuffers.Swapped` | wcdb/backup/mm_backup.c:81-90 | As a value: the taken buffer keeps its bytes, and the new current one holds none. |
| `BackupProtocol.StepInv` | wcdb/backup/mm_backup.c:70-193 | Every step of either thread (lock, copy, park, signal, swap, deflate, finish) keeps the invariant on locks, byte stream, file placement, flags, finishing and wakeups. |
| `BackupProtocol.RunInv` | wcdb/backup/mm_backup.c:70-193 | The invariant holds after any interleaving of any length. |
| `BackupProtocol.NoByteIsLost` | wcdb/backup/mm_backup.c:70-173 | In every reachable state the accepted bytes are those already deflated, then the unread rest of the taken buffer, then the current buffer; the writer never reads the buffer that the producer fills; no body byte is in the file before the section placeholder. |
| `BackupProtocol.ProducerLeavesTakenSlot` | wcdb/backup/mm_backup.c:140-173 | A copy by the producer leaves the bytes under the writer's input pointer as they are. |
| `BackupProtocol.FinishCoversEverything` | wcdb/backup/mm_backup.c:77-93 | Once the writer has seen the finish flag, what it holds is everything accepted and not yet deflated. |
| `BackupProtocol.NeverBothParked` | wcdb/backup/mm_backup.c:77-94 | The two threads are never parked at the same time, so one signal suffices. |
| `BackupProtocol.NoDeadlock` | wcdb/backup/mm_backup.c:70-193 | No wakeup is lost: wherever only a spurious wakeup is possible, both threads are at the end of their code; otherwise a real step is possible. |
| `BackupProtocol.StepProgress` | wcdb/backup/mm_backup.c:70-193 | Each step other than a spurious wakeup decreases a well-founded measure. |
| `BackupProtocol.RunsEnd` | wcdb/backup/mm_backup.c:70-193 | A run that never ends has spurious wakeups after every point, so every other run ends. |
| `BackupProtocol.EndMeansDone` | wcdb/backup/mm_backup.c:70-193 | Where nothing but a spurious wakeup is possible: the file's body is exactly what the deflate calls have put out; an error that is reported is one of the writer; where success is returned, all input has been deflated and the stream ended if and only if the writer has not failed. |
| `BackupProtocol.SuccessExactly` | wcdb/backup/mm_backup.c:743-768 | A run that returns success has set the finish flag where the writer had not failed before, and its file is complete if and only if the writer has not failed after it either. |
| `BackupProtocol.LateFailure` | wcdb/backup/mm_backup.c:743-768 | A run without input whose writer fails at its first deflate call returns success with an empty body. |
| `DumpFormat.VarintFits` | wcdb/backup/mm_backup.c:235-255 | A printed integer takes a tag and one to nine bytes, so the twelve-byte buffer is never overrun. |
| `DumpWriter.Writer.WriteVarint` | wcdb/backup/mm_backup.c:235-255 | The loop prints exactly the sign tag and the seven-bit groups of the magnitude. |
| `DumpWriter.Writer.WriteData` | wcdb/backup/mm_backup.c:259-290 | Whole 65536-byte blocks behind LARGE_DATA, then the tail with a one- or two-byte length. |
| `DumpWriter.Writer.WriteValue` | wcdb/backup/mm_backup.c:361-389 | Each of the five column types in its own tag. |
| `DumpWriter.Writer.WriteRows` | wcdb/backup/mm_backup.c:338-417 | A table is one prepared statement with its rows, and nothing at all if it has no row; the statement count grows by the rows. |
| `DumpWriter.Writer.WriteItems` | wcdb/backup/mm_backup.c:259-417 | A whole dump is the encoding of its items in order. |
| `DumpBytes.ValueBytes` | wcdb/backup/mm_backup.c:361-389 | The bytes of a value of each of the five types. |
| `DumpBytes.LongBytes` | wcdb/backup/mm_backup.c:281-285 | A text or blob of 256 to 65535 bytes has the long tag and a two-byte length, low byte first. |
| `DumpBytes.LargeBytes` | wcdb/backup/mm_backup.c:267-285 | Three blocks and a short rest: the LARGE_DATA tag with the number of blocks, the blocks, and then the rest with its own length. |
| `DumpBytes.OneShotBytes` | wcdb/backup/mm_backup.c:281-286 | The bytes of a statement to run once. |
| `DumpBytes.RepeatedBytes` | wcdb/backup/mm_backup.c:338-417 | The bytes of a prepared statement with two rows. |
| `DumpRecover.Recover.ReadVarint` | wcdb/backup/mm_recover.c:135-155 | The reading loop: it fails exactly when the groups do not end, and otherwise returns the signed value and consumes exactly its bytes. |
| `DumpRecover.Recover.ReadLarge` | wcdb/backup/mm_recover.c:200-216 | LARGE_DATA: refused if a buffer is pending, else the blocks are read and the write position is reset to their start. |
| `DumpRecover.Recover.EndRow` | wcdb/backup/mm_recover.c:326-362 | The loop body does one row as the reader's step does; which rows commit, what `fatal` ends and what is counted is stated in `DumpCommits`. |
| `DumpRecover.Recover.BindTag` | wcdb/backup/mm_recover.c:368-453 | The bind tags: the value read, the position it is bound at, and what is consumed. |
| `DumpRecover.Recover.Oneshot` | wcdb/backup/mm_recover.c:218-252 | A one-shot statement: text read behind the pending buffer, executed, counted. |
| `DumpRecover.Recover.Repeated` | wcdb/backup/mm_recover.c:254-285 | A prepared statement: its text is prepared, and a failure leaves no statement. |
| `DumpRecover.Recover.OuterTag` | wcdb/backup/mm_recover.c:193-285 | One tag outside of rows: the end of the stream, blocks, a one-shot, the head of a repeated statement, or an unknown tag. |
| `DumpRecover.Recover.RunTags` | wcdb/backup/mm_recover.c:179-468 | The two nested loops make exactly the calls of the step function, on any bytes and any behaviour of SQLite. |
| `DumpCommits.CommitsEvery256` | wcdb/backup/mm_recover.c:326-362 | On any bytes and however SQLite behaves: a commit follows exactly those successful rows that make the successful statements and rows a multiple of 256; values are bound and rows run only while a statement is prepared; no call follows one whose failure ends the recovery (any finalize, and with `fatal` any other call but a bind), and then FAILED is returned; the success counter is right, and with `fatal` no failure is counted. |
| `DumpCommits.EveryRowIsCounted` | wcdb/backup/mm_recover.c:218-467 | For every dump: FAILED is returned if and only if the last call ends the recovery; if OK is returned, each one-shot statement and each row has been counted once, as a success or a failure, and each failed commit as one failure more. |
| `DumpBytes.WrongTag` | wcdb/backup/mm_recover.c:199-467 | A byte that is no tag, or a tag of the other loop, ends the recovery with FAILED and without a further call. |
| `DumpBytes.BlocksTwice` | wcdb/backup/mm_recover.c:200-202 | Blocks that come while others wait for their text end the recovery with FAILED. |
| `DumpRoundTrip.SignedRoundTrip` | wcdb/backup/mm_recover.c:135-155 | The sign-split integer comes back for every int64. |
| `DumpRoundTrip.GroupsRoundTrip` | wcdb/backup/mm_recover.c:142-149 | Seven-bit groups come back with their exact length, whatever follows. |
| `DumpRoundTrip.DumpRun` | wcdb/backup/mm_recover.c:179-468 | On every dump at all the reader runs the items with each datum cut to what follows its 65536-byte blocks. |
| `DumpExactness.RoundTrip` | wcdb/backup/mm_recover.c:192-467 | With all data below 65536 bytes the reader makes exactly the calls of the original items: same statements, same values at positions 1..n, same order. |
| `DumpExactness.RoundTripExactly` | wcdb/backup/mm_recover.c:200-216 | When SQL succeeds, the original calls are made if and only if every text and blob is below 65536 bytes. |
| `DumpExactness.LargeBlobIsLost` | wcdb/backup/mm_recover.c:313-322 | A blob of 65536 bytes comes back empty: the tail is read over the blocks. |
| `DumpTruncation.StepExtend` | wcdb/backup/mm_recover.c:192-467 | A step that did not miss bytes is the same with more bytes; one that did has done nothing. |
| `DumpTruncation.TruncatedTrace` | wcdb/backup/mm_recover.c:192-467 | Cutting any stream short yields a prefix of the calls, however SQLite behaves. |
| `DumpTruncation.TruncatedDump` | wcdb/backup/mm_recover.c:192-467 | From any byte prefix of a dump, however SQLite behaves, a prefix of the calls for the whole dump is made: some of its one-shots and rows in order, each row with its own values at 1..n, never a partly read row; if SQLite does not fail, a prefix of them all. |
| `DumpTruncation.CutReported` | wcdb/backup/mm_recover.c:192-197 | For every dump and every cut: OK only where the cut falls at an item boundary or right behind the blocks of an item's SQL text, and there it is OK when SQL succeeds. |
| `DumpTruncation.TruncationNoticed` | wcdb/backup/mm_recover.c:192-299 | With data below 65536 bytes, however SQLite behaves, a cut is reported OK if and only if it falls between two items and running those before it is OK. |
| `DumpTruncation.CleanTruncationNoticed` | wcdb/backup/mm_recover.c:192-299 | If SQLite does not fail, a cut is reported OK if and only if it falls between two items. |
| `SectionFiles.Backup.Init` | wcdb/backup/mm_backup.c:599-635 | Full: a new file with its header. Incremental: the old file, refused if and only if its header is wrong. Without a key the section flags say so. |
| `SectionFiles.Backup.WriteOut` | wcdb/backup/mm_backup.c:107-119 | One output buffer is written whole through any sequence of short writes; unless flag bit 0 is set, a bit of it is flipped if and only if the bit of the cipher stream at its place is set. The size counter wraps at 2^32. |
| `SectionFiles.Backup.Run` | wcdb/backup/mm_backup.c:722-762 | Below 2^32 bytes: the file grows by exactly one section whose header has the flags and the body's length, and nothing before it changes; unless flag bit 0 is set, the body is enciphered from position 0 of the stream. |
| `SectionFiles.BackupAppends` | wcdb/backup/mm_backup.c:599-635 | A file of sections with one more section is the file of the longer list. |
| `SectionFiles.Recover.ReadHeader` | wcdb/backup/mm_recover.c:73-92 | Accepts exactly the magic with version 1 or 2. |
| `SectionFiles.Recover.FillInput` | wcdb/backup/mm_recover.c:108-123 | At most 4096 bytes more, never past the body; unless flag bit 0 is set, a bit is flipped if and only if the bit of the cipher stream at its place is set. |
| `SectionFiles.Recover.ReadSection` | wcdb/backup/mm_recover.c:104-129 | Pieces of at most 4096 bytes go to inflate, decrypted, until its stream ends, and one piece more where the end is reported together with a full output buffer and no input is left; without an end within the announced size it fails. |
| `SectionFiles.Recover.Run` | wcdb/backup/mm_recover.c:546-564 | The section loop reads section after section, the next header where the last one's reading has stopped, or fails where a stream does not end. |
| `SectionFiles.ReadStreams` | wcdb/backup/mm_recover.c:546-564 | Where each body is one whole deflate stream, the reader finds exactly the sections that the format defines. |
| `SectionFiles.FileRoundTrip` | wcdb/backup/mm_recover.c:546-564 | After one full and any number of incremental backups, whose bodies are whole deflate streams, the reader finds all their sections in order, in the clear. |
| `Recovery.FileRecovers` | wcdb/backup/mm_recover.c:514-564 | With deflate and inflate an inverse pair and data below 65536 bytes: recovering the file of one full and any number of incremental backups makes exactly the calls that running all their items in order would make, however SQLite behaves. |
| `SectionFormat.SectionsExactly` | wcdb/backup/mm_recover.c:546-564 | The reader finds given sections if and only if the file is their encoding, up to a last partial header. |
| `SectionFormat.CryptTwice` | wcdb/backup/mm_recover.c:116-118 | Decryption at the same stream position undoes encryption. |
| `SectionFormat.CryptEnciphers` | wcdb/backup/mm_recover.c:112-116 | A bit of the result differs from the data if and only if the bit of the stream at that position is set. |
| `SectionFormat.CryptZeros` | wcdb/backup/mm_recover.c:112-116 | Zeros come out as the bytes of the stream from that position on. |
| `SectionFormat.FileExample` | wcdb/backup/mm_recover.c:546-564 | A concrete file of two sections, byte by byte: the header, flags and sizes low byte first, a ciphered body and one in the clear. |
| `SectionFormat.CryptAppend` | wcdb/backup/mm_recover.c:116-118 | The size of the chunks in which a stream is encrypted or decrypted does not matter. |
| `Fts5Tables.TerminalMoves` | wcdb/sqlcipher/fts5parse.c:614-671 | The compressed tables give exactly the automaton's moves for all 29 states and 16 terminals. |
| `Fts5Tables.NonterminalMoves` | wcdb/sqlcipher/fts5parse.c:677-702 | The same for gotos, where a failing assert counts as no move. |
| `Fts5Parser.RuleInfoOf` | wcdb/sqlcipher/fts5parse.c:790-820 | yyRuleInfo agrees with the rules as yyRuleName spells them. |
| `Fts5Lr.ReductionFindsRule` | wcdb/sqlcipher/fts5parse.c:828-870 | Every reduction finds exactly the right-hand side of its rule on the stack, and the state below has a move for its left-hand side. |
| `Fts5Driver.GotoExists` | wcdb/sqlcipher/fts5parse.c:677-702 | The asserts of the goto lookup never fail; acceptance is the goto of rule 0 in state 0. |
| `Fts5Driver.ParsePath` | wcdb/sqlcipher/fts5parse.c:1199-1311 | After any call the stack is a path of the automaton with index 0..99, and each entry carries a derivation of its symbol. |
| `Fts5Driver.ReductionsBounded` | wcdb/sqlcipher/fts5parse.c:1199-1311 | One token causes at most one reduction more than a potential of the stack, so at most 1785, in spite of empty rules and default reductions. |
| `Fts5Soundness.NodePrecedence` | wcdb/sqlcipher/fts5parse.c:215-259 | Each tree a reduction builds has OR outside AND outside NOT, each grouped to the left. |
| `Fts5Soundness.Soundness` | wcdb/sqlcipher/fts5parse.c:1199-1311 | A query read without an error has one result: a derivation of exactly its tokens that respects precedence and fits the stack. |
| `Fts5Completeness.Simulate` | wcdb/sqlcipher/fts5parse.c:1199-1311 | Reading the tokens of a tree that is wanted in the current state amounts to pushing that tree. |
| `Fts5Completeness.Completeness` | wcdb/sqlcipher/fts5parse.c:1199-1311 | Every derivation of a query that respects precedence and can be built in 99 entries is accepted and returned. |
| `Fts5Completeness.ParserExactly` | wcdb/sqlcipher/fts5parse.c:1199-1311 | The parser returns a tree without error if and only if the tree is such a derivation. |
| `Fts5Completeness.Unambiguous` | wcdb/sqlcipher/fts5parse.c:376-403 | No query has two such derivations. |
| `Fts5Parser.YyParser.FindShiftAction` | wcdb/sqlcipher/fts5parse.c:614-671 | A pending reduction is returned as it is; otherwise the code found means the automaton's move. |
| `Fts5Parser.YyParser.FindReduceAction` | wcdb/sqlcipher/fts5parse.c:677-702 | The lookup is within the tables and yields a goto or acceptance. |
| `Fts5Parser.YyParser.StackOverflow` | wcdb/sqlcipher/fts5parse.c:707-725 | The stack is emptied and one error is reported. |
| `Fts5Parser.YyParser.Shift` | wcdb/sqlcipher/fts5parse.c:750-785 | The entry is pushed on the array of 100 with the action code renumbered, or the stack overflows. |
| `Fts5Parser.YyParser.Reduce` | wcdb/sqlcipher/fts5parse.c:828-1082 | The right-hand side is replaced by a node in place, or accepted at the bottom, or an empty rule overflows a full stack; a semantic action's error is kept. |
| `Fts5Parser.YyParser.Act` | wcdb/sqlcipher/fts5parse.c:1199-1290 | One pass of the loop is the reduction that state and token ask for, or the token, which a syntax error drops and does nothing else (error recovery is switched off in line 36). |
| `Fts5Parser.YyParser.Parse` | wcdb/sqlcipher/fts5parse.c:1170-1325 | One call on the array does what the step function says. |
| `Fts5Actions.ReducedBad` | wcdb/sqlcipher/fts5parse.c:870-1060 | A reduction adds its own node to those whose action may have reported an error, and loses none. |
| `Fts5Actions.RunBad` | wcdb/sqlcipher/fts5parse.c:1199-1311 | While the parser itself reports no error, a node whose action has reported one stays in the parser's hands to the end. |
| `Fts5Parser.ParseQuery` | wcdb/sqlcipher/fts5.c:5024-5027 | The token loop succeeds if and only if the query has such a derivation and no semantic action of it reports an error, and returns it. |
| `RepairInts.ParseInt64` | wcdb/repair/sqliterk_util.c:50-104 | Two's complement, big-endian, for lengths 1, 2, 3, 4, 6 and 8 on all bytes; MISUSE for other lengths. |
| `RepairInts.IntRoundTrip` | wcdb/repair/sqliterk_util.c:50-104 | Every value that fits n bytes is read back from its encoding in n bytes. |
| `RepairInts.ParseVarint64` | wcdb/repair/sqliterk_util.c:127-153 | The loop: at most nine bytes, seven bits from each. |
| `RepairInts.VarintExactly` | wcdb/repair/sqliterk_util.c:127-153 | The varint encoding of section 1.6 is inverted, with its exact length, if and only if the value is below 2^56. |
| `RepairInts.LongVarint` | wcdb/repair/sqliterk_util.c:139-149 | A nine-byte varint is taken for damage or loses a bit of its value. |
| `RepairInts.PointerExactly` | wcdb/repair/sqliterk_util.c:50-104 | An unsigned two-byte field is read as it is if and only if it is below 32768. |
| `RepairInts.Varint32Exactly` | wcdb/repair/sqliterk_util.c:109-124 | Through the int version the value survives if and only if it is below 2^31. |
| `RepairInts.Varint32Reads` | wcdb/repair/sqliterk_util.c:109-124 | Every 64-bit varint through the int version: the low 32 bits below 2^56, else damage or the low 32 bits of the misread value. |
| `RepairInts.ReadAsExactly` | wcdb/repair/sqliterk_util.c:109-124 | A signed 64-bit number in a varint is read as itself if and only if it is from 0 to 2^31 - 1. |
| `RepairExamples.RowidExample` | wcdb/repair/sqliterk_util.c:109-124 | A concrete page whose row has the id 2^31, which is reported as -2^31. |
| `RepairInts.ParseNumber` | wcdb/repair/sqliterk_util.c:162-180 | The eight bytes of a double in reverse order. |
| `RepairValues.Values.constructor` | wcdb/repair/sqliterk_values.c:72-96 | An empty array with room for four. |
| `RepairValues.Values.AutoGrow` | wcdb/repair/sqliterk_values.c:141-171 | Doubles a full array and keeps all its values. |
| `RepairValues.Values.AddInteger64` | wcdb/repair/sqliterk_values.c:303-330 | Appends the value and keeps the others. |
| `RepairValues.Values.AddNumber` | wcdb/repair/sqliterk_values.c:339-366 | Appends the value and keeps the others. |
| `RepairValues.Values.AddText` | wcdb/repair/sqliterk_values.c:375-413 | Appends the value and keeps the others. |
| `RepairValues.Values.AddBinary` | wcdb/repair/sqliterk_values.c:416-449 | Appends the value and keeps the others. |
| `RepairValues.Values.AddNull` | wcdb/repair/sqliterk_values.c:452-469 | Appends the value and keeps the others. |
| `RepairValues.Values.Clear` | wcdb/repair/sqliterk_values.c:125-138 | Empties the array and keeps its room. |
| `RepairRecord.AddValue` | wcdb/repair/sqliterk_btree.c:558-600 | The branch on the serial type: which value is added, which types are damage, where a read leaves the payload. |
| `RepairRecord.ParseRecord` | wcdb/repair/sqliterk_btree.c:531-607 | The loop appends exactly the decoded values to the array and returns how decoding ended. |
| `RepairRecordFormat.DecodeExactly` | wcdb/repair/sqliterk_btree.c:531-607 | The one-pass loop accepts a payload with some values if and only if, in two passes, the serial types fill the header exactly, are valid, the lengths tile the body exactly, and the values are those of the pieces. |
| `RepairRecordFormat.SerialTable` | wcdb/repair/sqliterk_btree.c:796-807 | The body length and the kind of value of each serial type, as the table of section 2.1 lists them. |
| `RepairRecordFormat.ValueRoundTrip` | wcdb/repair/sqliterk_btree.c:796-807 | A stored value has a valid serial type, a body of that type's length, and is read back from it. |
| `RepairRecordFormat.RecordRoundTrip` | wcdb/repair/sqliterk_btree.c:531-607 | Decoding an encoded list of values returns that list. |
| `RepairPayload.LocalSplit` | wcdb/repair/sqliterk_btree.c:449-466 | On overflow the local part is between minLocal and maxLeaf and not all; if it is more than minLocal the rest is a multiple of usable - 4. |
| `RepairPayload.SplitExactly` | wcdb/repair/sqliterk_btree.c:449-466 | The split is the one of the file format and no other: all of a payload within usable - 35 bytes; else what leaves no gap on the last overflow page, if that is between the least local size and usable - 35; else the least local size, the whole part of 32 (usable - 12) / 255 less 23. |
| `RepairPayload.SplitExample` | wcdb/repair/sqliterk_btree.c:449-466 | Of 5000 bytes on pages of 4096, 908 are local. |
| `RepairPayload.FetchRejects` | wcdb/repair/sqliterk_btree.c:432-475 | MISUSE if and only if the size is not positive, DAMAGED if and only if the local part would run past the page. |
| `RepairPayload.LocalLeavesNoGap` | wcdb/repair/sqliterk_btree.c:449-466 | If an allowed split fills the overflow pages exactly, it is the one taken. |
| `RepairPayload.ChainedFollow` | wcdb/repair/sqliterk_btree.c:488-528 | A zero-terminated chain, whose pages but the last are full, is followed to its end: exactly its pages, exactly the rest of the payload. |
| `RepairPayload.FetchRebuilds` | wcdb/repair/sqliterk_btree.c:449-529 | A payload stored as the file format splits it is fetched whole, with its overflow pages in order. |
| `RepairWalk.Walk` | wcdb/repair/sqliterk_btree.c:208-359 | The recursion ends on every page graph, by the set of pages not being checked, and leaves the set of pages being checked as it was. |
| `RepairWalk.DepthBounded` | wcdb/repair/sqliterk_btree.c:208-359 | No page is parsed inside itself: the nesting is at most the number of pages not being checked. |
| `RepairWalk.WalkEnds` | wcdb/repair/sqliterk_btree.c:208-359 | If each page can be read by itself and payloads are local, the walk has a result on every graph, cyclic ones included. |
| `RepairTree.WalkReadsTree` | wcdb/repair/sqliterk_btree.c:208-425 | On pages that represent a table b-tree below a root other than page 1, with any well-formed records, each row is reported once, left to right with the right-most child last, with its row id as an int, its values and overflow pages, and exactly the tree's pages become checked. |
| `RepairDamage.WalkSaves` | wcdb/repair/sqliterk_btree.c:208-425 | Whatever is left of a b-tree, with overwritten pages, leaves that can be read up to a cell, child numbers that are no page and pages that lead back up: exactly the rows of the readable parts are reported, from left to right; their pages become checked, the overwritten and torn ones damaged or invalid. |
| `RepairDamage.UnreadableFails` | wcdb/repair/sqliterk_btree.c:387-418 | A stored cell whose row id cannot be read as an int is rejected as damage. |
| `RepairDamage.DamageExample` | wcdb/repair/sqliterk_btree.c:208-359 | A concrete file: the first leaf is overwritten and the second child is the root itself, and the row of the last leaf is reported. |
| `RepairTree.CellRead` | wcdb/repair/sqliterk_btree.c:387-418 | Any stored cell is read whole, with its row id as an int, or is taken for damage if the row id's nine-byte varint is. |
| `RepairTree.RowidExactly` | wcdb/repair/sqliterk_btree.c:397-411 | A stored cell is reported with its own row id if and only if that is from 0 to 2^31 - 1. |
| `RepairReach.SilentWalk` | wcdb/repair/sqliterk_btree.c:208-359 | On any page graph, cyclic ones included: if no page that can be reached has a row to report, the walk reports nothing, and exactly those pages become checked, or damaged if they are. |
| `RepairReach.SilentExactly` | wcdb/repair/sqliterk_btree.c:208-359 | A walk that ends reports no row if and only if no page that can be reached is a table leaf whose first cell can be read. |
| `RepairReach.ReachSplit` | wcdb/repair/sqliterk_btree.c:308-337 | What can be reached from a page is that page and what its children lead to without coming back to it. |
| `RepairIndex.IndexView` | wcdb/repair/sqliterk_btree.c:254-307 | On an interior index page of n cells the code sees one or two stray numbers and the children of all but the last two cells, instead of the n + 1 children of the file format; or it reads outside of the page. |
| `RepairIndex.Halves` | wcdb/repair/sqliterk_btree.c:254-280 | The stray offsets are the halves of the right-most child's number. |
| `RepairIndex.FirstStray` | wcdb/repair/sqliterk_btree.c:254-307 | The first stray number is no page of a file of less than 2^25 pages if the right-most child is below 65536, and the number of cells if it is from 65536 to 131071 and there is no free block. |
| `RepairIndex.IndexesQuiet` | wcdb/repair/sqliterk_btree.c:208-359 | If the stray numbers on the pages of some indexes are no pages, or pages of these indexes, the walk over each of them reports nothing. |
| `RepairIndex.WalkIndex` | wcdb/repair/sqliterk_btree.c:208-359 | The walk over such an index: no row, and exactly the pages it comes to become checked. |
| `RepairIndex.ReachIsSeen` | wcdb/repair/sqliterk_btree.c:254-307 | Where no stray number is a page, on every interior page the last three children (both, if there are two) and all below them are missed, and exactly the rest is reached. |
| `RepairIndex.StrayTable` | wcdb/repair/sqliterk_btree.c:254-337 | If a stray number is the root of a table, the table's rows are reported as the index's. |
| `RepairExamples.StrayExample` | wcdb/repair/sqliterk_btree.c:254-337 | A concrete file with an index of four pages whose walk reports a table's row and none of its leaves. |
| `RepairDatabase.WalkHidden` | wcdb/repair/sqliterk_btree.c:324-337 | The leaves of a system table other than the master table are passed over, and exactly its pages without overflow pages become checked. |
| `RepairWalk.KindExactly` | wcdb/repair/sqliterk_btree.c:664-671 | A name that begins with sqlite_sequence, sqlite_autoindex or sqlite_stat makes a b-tree one whose rows are passed over; one that begins with sqlite_master, or page 1, makes it the master table. |
| `RepairSweep.NotABtree` | wcdb/repair/sqliterk_btree.c:137-151 | A page whose type is none of the four is not opened, and its status stays. |
| `RepairTree.FirstPageChildren` | wcdb/repair/sqliterk_btree.c:302-307 | For an interior page 1 the walk sees the children of the file format if and only if bytes 8 and 108 hold the same number. |
| `RepairTree.FirstPageLosesRightmost` | wcdb/repair/sqliterk_btree.c:302-307 | With the magic string in place the right-most child of an interior page 1 is missed. |
| `RepairDatabase.SchemaExactly` | wcdb/repair/sqliterk_btree.c:302-307 | Nothing of the schema is missed if and only if it fits on page 1: otherwise all that lies below the right-most child of page 1 is. |
| `RepairExamples.SplitExample` | wcdb/repair/sqliterk_btree.c:302-307 | A concrete file whose schema takes two leaves: of its two rows the walk reports the first. |
| `RepairParser.Parser.ReadPage` | wcdb/repair/sqliterk_btree.c:232-307 | Type, cell count, cell pointers and child pointers of a page, with the checks in the order of the code. |
| `RepairParser.Parser.ParsePage` | wcdb/repair/sqliterk_btree.c:208-359 | The recursive method changes the status array and reports rows as the walk function says. |
| `RepairParser.Parser.ParsePages` | wcdb/repair/sqliterk_btree.c:316-319 | Every child in turn, whatever the others returned. |
| `RepairParser.Parser.ParseTable` | wcdb/repair/sqliterk_btree.c:180-199 | On a represented tree: its rows, in order, and its pages checked. |
| `RepairParser.Parser.ParseCell` | wcdb/repair/sqliterk_btree.c:365-425 | The rows of a leaf page up to the first bad cell. |
| `RepairParser.Parser.ReadCell` | wcdb/repair/sqliterk_btree.c:387-418 | Payload size, row id and payload of one cell, with the failures of each. |
| `RepairParser.Parser.ParsePayload` | wcdb/repair/sqliterk_btree.c:432-607 | The payload is fetched, local part and chain, and decoded into a row; a size that is not positive, or a local part past the page, is rejected. |
| `RepairParser.Parser.ReadChain` | wcdb/repair/sqliterk_btree.c:483-529 | The overflow loop fills the buffer piece by piece, lists the pages and marks each of them. |
| `RepairParser.Parser.PutStatus` | wcdb/repair/sqliterk_pager.c:636-648 | Sets one page's status, and nothing for a number that is no page. |
| `RepairParser.Parser.OnBeginParsePage` | wcdb/repair/sqliterk.c:311-321 | Refuses a page that is being checked, and marks any other. |
| `RepairDatabase.WalkReadsDatabase` | wcdb/repair/sqliterk.c:235-308 | Parsing the master table, of any number of pages, of a database whose tables are represented, and whose indexes are and lead the walk to no table, reports each of the rows it reaches and behind it, left to right, the rows of the table it names; exactly the pages of these tables, and those of the indexes that the walk comes to, become checked. |
| `RepairExamples.IndexDatabase` | wcdb/repair/sqliterk.c:235-308 | A concrete database with an index of four pages: the schema entry is reported, and of the index only the root becomes checked. |
| `RepairSweep.SweepCovers` | wcdb/repair/sqliterk.c:120-133 | After parsing every page, each page of a b-tree type has been looked at, whatever the file holds. |
| `RepairSweep.SweepReadsDatabase` | wcdb/repair/sqliterk.c:120-133 | Parsing every page of a database from a fresh start reports what parsing the master table reports, and then once each table that this has not come to, if the root of each such table has the lowest number of its pages and the walk from any other page comes to no table leaf. |
| `RepairSweep.ParsedTwice` | wcdb/repair/sqliterk.c:120-133 | A child that is parsed as a root before its parent: its rows are reported, and again with all rows of the parent. |
| `RepairDatabase.RecurseReads` | wcdb/repair/sqliterk.c:262-305 | After a row of the master table: the table or index it names, opened and typed by its name, or nothing. |
| `RepairDatabase.LeadsExactly` | wcdb/repair/sqliterk.c:267-290 | A row of the master table leads to the b-tree at its fourth value exactly if its first two values are texts and that page is there and opens. |
| `RepairDatabase.LeadsNowhere` | wcdb/repair/sqliterk.c:267-290 | Any other row, or one of another table, leads nowhere: the statuses stay. |
| `RepairParser.Parser.OnParseColumn` | wcdb/repair/sqliterk.c:235-308 | Reports the row and, for the master table, walks the b-tree the row names. |
| `RepairParser.Parser.ParseMaster` | wcdb/repair/sqliterk.c:186-192 | On a represented database: all the rows it reaches, in order, if page 1 has not been looked at; otherwise nothing. |
| `RepairParser.Parser.ParseRoot` | wcdb/repair/sqliterk.c:136-161 | Nothing for a page that has been looked at; otherwise the b-tree below it is opened and walked. |
| `RepairParser.Parser.Parse` | wcdb/repair/sqliterk.c:120-133 | Every page in turn, whatever becomes of each. |
| `RepairParser.Parser.OnEndParsePage` | wcdb/repair/sqliterk.c:324-347 | Checked, damaged or invalid, by the result. |
| `ModuleLoader.Restores` | IOSFrame/www/cordova.js:57-75 | On success and on error the stack and the map of modules in progress are as before. |
| `ModuleLoader.ResolveRelative` | IOSFrame/www/cordova.js:43-50 | `./x` in a module takes the place of what follows the last dot of its id. |
| `ModuleLoader.ResolveUndotted` | IOSFrame/www/cordova.js:43-50 | In a module whose id has no dot, `./x` takes the place of its last letter. |
| `ModuleLoader.ResolveExample` | IOSFrame/www/cordova.js:43-50 | From a.b, `./x` is a.x and `x` is x. |
| `ModuleLoader.CycleExactly` | IOSFrame/www/cordova.js:60-63 | The path that a cycle error names is a cycle of the require graph if and only if the id is not a name inherited from Object.prototype. |
| `ModuleLoader.RequireExactly` | IOSFrame/www/cordova.js:57-75 | Between calls, whatever earlier ones did: require succeeds if and only if everything reachable through unbuilt modules is defined under a name that is not inherited, and on no cycle; then exactly the reachable unbuilt factories have run, each once and each done after those it requires. An error names something reachable that is missing, a reachable cycle, or an inherited name. |
| `ModuleLoader.FailureIsForgotten` | IOSFrame/www/cordova.js:53-74 | A second require of an id does what the first did if and only if the id is unknown or everything it needs can be loaded; otherwise it succeeds, runs nothing, and hands out a module whose factory never returned. |
| `ModuleLoader.ForgottenExample` | IOSFrame/www/cordova.js:53-74 | A module that requires an undefined one: the first require fails, the second one succeeds. |
| `ModuleLoader.InheritedExample` | IOSFrame/www/cordova.js:57-63 | With nothing defined, requiring "toString" reports a cycle. |
| `ModuleLoader.Loader.Define` | IOSFrame/www/cordova.js:77-86 | Refuses an id that is taken or inherited, else adds the module. |
| `ModuleLoader.Loader.RequireId` | IOSFrame/www/cordova.js:57-75 | The method on the loader's variables does what the function says, with the finally clause on both paths. |
| `ModuleLoader.Loader.Build` | IOSFrame/www/cordova.js:41-55 | The factory is deleted and run: its requires in order, up to the first error. |
| `CommandQueue.StepInv` | IOSFrame/www/cordova.js:926-1037 | Every event conserves the commands and keeps one poke for each fail-safe timer ever set, and it leaves every queued command with a poke or a fail-safe timer pending if and only if it is harmless: no function throws, or nothing pushed since the last nested fetch waits, or a deferred poke or a timer outlives what the function did. |
| `CommandQueue.PokesExactly` | IOSFrame/www/cordova.js:926-1000 | The native side is poked, once, if there is a body and a command enters an empty queue outside of an evaluation, or a deferred poke fires, or the fail-safe timer finds a queue and an unchanged bridge, and at no other event; then a new timer is set. Without a body the poke is deferred. Which timers go is stated as well. |
| `CommandQueue.QueueExactly` | IOSFrame/www/cordova.js:926-1037 | What is in the queue after each event. |
| `CommandQueue.RunPokes` | IOSFrame/www/cordova.js:926-1037 | In a run of any events the pokes are as many as those that were due. |
| `CommandQueue.RunInv` | IOSFrame/www/cordova.js:926-1037 | In every order of events, queued commands are attended to in every state if and only if all events are harmless. |
| `CommandQueue.RunConserves` | IOSFrame/www/cordova.js:926-1037 | In every order of events, throwing ones included, the commands pushed are those handed over and then those queued. |
| `CommandQueue.ActFollows` | IOSFrame/www/cordova.js:926-1037 | What an evaluated function does to queue, pokes and timers is told by a summary that does not depend on the state. |
| `CommandQueue.ThrowStrands` | IOSFrame/www/cordova.js:1028-1037 | After any event that is not harmless no poke or timer is pending for the queued commands, and no number of further commands pokes. |
| `CommandQueue.ThrowExample` | IOSFrame/www/cordova.js:1028-1037 | At the start, a function that pushes a command and throws is not harmless; with a nested fetch in between it is. |
| `CommandQueue.IosExec.ExecCommand` | IOSFrame/www/cordova.js:926-935 | Pushes the command and pokes only for the first one outside an evaluation. |
| `CommandQueue.IosExec.PokeNative` | IOSFrame/www/cordova.js:969-1000 | Without a body a deferred poke is added and nothing else; with one, exactly one poke is made and exactly one new fail-safe timer is set. |
| `CommandQueue.IosExec.HandleBridgeChange` | IOSFrame/www/cordova.js:948-967 | A changed bridge takes the whole queue in order. |
| `CommandQueue.IosExec.OnFailSafe` | IOSFrame/www/cordova.js:991-999 | Nothing for an empty queue, else the changed bridge or another poke. |
| `CommandQueue.IosExec.NativeFetchMessages` | IOSFrame/www/cordova.js:1002-1014 | Clears the last fail-safe timer and hands over the whole queue. |
| `CommandQueue.IosExec.NativeEvalAndFetch` | IOSFrame/www/cordova.js:1028-1037 | The function, then the fetch unless it threw; the nesting count is restored on both paths. |
| `StickyChannels.StepInv` | IOSFrame/www/cordova.js:711-785 | numHandlers is the number of handlers on every channel after every operation, and a fired channel has none. |
| `StickyChannels.InOrderCount` | IOSFrame/www/cordova.js:771-777 | A subscribed handler is called exactly once by a fire. |
| `StickyChannels.InOrderAscends` | IOSFrame/www/cordova.js:771-777 | The handlers are called by increasing guid. |
| `StickyChannels.UnsubscribeHas` | IOSFrame/www/cordova.js:743-756 | Afterwards the handler is not subscribed to this channel; it still is to the others, and other handlers to all. |
| `StickyChannels.StepJoined` | IOSFrame/www/cordova.js:645-658 | Whatever happens to the channels, other joins included, a join's counter stays the number of its unfired channels plus those repeated, and its callback has run once if that is zero and not before. |
| `StickyChannels.JoinExactly` | IOSFrame/www/cordova.js:645-658 | After any later events the callback has run exactly once if all channels have fired and no unfired one was listed twice, and not at all otherwise. |
| `StickyChannels.JoinTwiceExample` | IOSFrame/www/cordova.js:645-658 | A join that lists one channel twice: the channel fires, and the callback never runs. |
| `StickyChannels.Channels.SubscribeTo` | IOSFrame/www/cordova.js:711-738 | A fired channel calls the handler at once; otherwise it is added once, under its guid. |
| `StickyChannels.Channels.UnsubscribeFrom` | IOSFrame/www/cordova.js:743-756 | Removes the handler if it is there. |
| `StickyChannels.Channels.FireChannelAt` | IOSFrame/www/cordova.js:761-785 | Calls a copy of the handlers in order of their guids; a sticky channel then forgets them. |
| `StickyChannels.Channels.JoinChannels` | IOSFrame/www/cordova.js:645-658 | Subscribes the counting handler in list order, and stops at a channel that is not sticky. |
| `TokenizerText.Open` | wcdb/fts/mm_tokenizer.c:236-276 | Both buffers suffice for every input, so the append never fails; read as UTF-16 the text gives exactly the code points up to the first NUL, with a space for each ill-formed sequence, and each code point's byte offset is recorded. |
| `TokenizerText.Utf16Reads` | wcdb/fts/mm_tokenizer.c:247-268 | A reader of UTF-16 gets back the code points, with U+0020 for the ill-formed ones. |
| `TokenizerText.Utf16Example` | wcdb/fts/mm_tokenizer.c:247-268 | U+4E2D, U+1F600 and an ill-formed byte as units. |
| `TokenizerText.Utf16Short` | wcdb/fts/mm_tokenizer.c:247-265 | The UTF-16 index never passes the number of bytes consumed. |
| `TokenizerCursor.NextIsRest` | wcdb/fts/mm_tokenizer.c:302-370 | A call hands out the next token of the text if output succeeds, and ends exactly when none is left. |
| `TokenizerCursor.RunIsTokens` | wcdb/fts/mm_tokenizer.c:302-370 | A whole run from the opened cursor is the tokens of the text, numbered in turn. |
| `TokenizerCursor.WholeRun` | wcdb/fts/mm_tokenizer.c:302-370 | The tokens handed out by a whole run are numbered 0, 1, 2 and so on, non-empty, disjoint, increasing, and begin and end between code points. |
| `TokenizerCursor.NumberedInTurn` | wcdb/fts/mm_tokenizer.c:155-159 | Only tokens whose text could be produced take a number, in turn, and each is one of the tokens of the text. |
| `TokenizerCursor.TokensInOrder` | wcdb/fts/mm_tokenizer.c:302-370 | The tokens are non-empty, disjoint, increasing and begin and end between code points. |
| `TokenizerCursor.TokensCover` | wcdb/fts/mm_tokenizer.c:320-341 | A position is outside all tokens if and only if it lies in a segment of status 0 to 99 that starts with white space, U+200B or a star. |
| `TokenizerCursor.TokensProper` | wcdb/fts/mm_tokenizer.c:343-370 | A token is a whole segment of a status other than 400 to 499 that is not ignored, or a single code point of a segment of status 400 to 499. |
| `TokenizerCursor.SplitPoints` | wcdb/fts/mm_tokenizer.c:166-191 | A run of ideographs is cut into exactly its code points. |
| `TokenizerCursor.TokenOffsets` | wcdb/fts/mm_tokenizer.c:157-158 | The byte offsets of a token are where its first code point begins and its last one ends. |
| `TokenizerCursor.MmCursor.FindSplitedIdeoToken` | wcdb/fts/mm_tokenizer.c:166-191 | One code point of the pending run, or the end of the run. |
| `TokenizerCursor.MmCursor.NextToken` | wcdb/fts/mm_tokenizer.c:302-370 | The method on the cursor's fields does what the function says. |

## Left out

- Cancelling a backup or a recovery: `canceled` is written without the lock, and a producer that faces a full buffer then makes no progress.
- Error clean-up in `mm_backup_run` and in `dump_read_and_run_tag` (what is freed or finalized after a failure), allocation failures everywhere, and logging.
- DumpRecover.Recover.ReadVarint: groups behind the tenth are shifted by 64 bits or more, which C leaves undefined; the model takes the value modulo 2^64. A dump has no such groups.
- DumpRecover.Recover.ReadLarge: the byte counts `(length + 1) * 65536` and `length * 65536` overflow C's int from 32767 blocks on, which leaves their value undefined; in the model they do not wrap. A dump has so many blocks only for data within 65536 bytes of 2^31.
- The uint32 sum `avail + size` in `dump_write_stream` is taken without wrap-around, since one call never passes 2^32 bytes.
- A second `mm_backup_run` on the same context: `sec_pos` and the cipher state are set once, by `mm_backup_init`, and the model starts each run from there.
- zlib, RC4's key schedule, SQLCipher's page decryption and ICU's rules.
- The SQL that the backup runs to list tables, rows and columns, and table descriptors and conditions.
- DumpExactness.RoundTripExactly: stated for a SQLite that reports success, because a failing one may hide the difference.
- SectionFiles.Backup.Run: nothing is promised for files or bodies of 2^32 bytes and more, where the 32-bit fields wrap.
- fts5.c's flattening of AND and OR nodes and its phrase and column objects: the tree is the parse tree. Which semantic actions report an error is a parameter. The tokens come from `fts5ExprGetToken`, which with its errors is not part of this model.
- RepairWalk.WalkEnds: asks that pages can be read by themselves and payloads are local, because an overflow chain can unmark a page that is being checked or never end; such a walk is `Lost` in the model.
- RepairTree.WalkReadsTree: asks for a root other than page 1, because of the right-most child of an interior page 1.
- RepairDamage.WalkSaves: a rejected cell with overflow pages, an index page among the children, and a b-tree whose rows lead to other b-trees are not among the damage described.
- The payloads of index cells and their overflow pages, which the code does not read; an index is represented by its pages and children.
- RepairParser.Parser.OnParseColumn: callbacks that return an error mark the page being parsed as discarded, and it can then be entered again without end; callbacks succeed in the model.
- Header parsing and the integrity flags of the pager.
- RepairDatabase.WalkReadsDatabase: asks that no walk over an index comes to a table leaf, because its rows would be reported as well; `RepairIndex.IndexesQuiet` says what to check. Schema entries that name another b-tree `sqlite_master` are not part of the represented databases, nor are files of more than 1.8 billion pages, in which the bytes of the magic string are a page number.
- RepairSweep.SweepReadsDatabase: asks that all other pages come to no table leaf; otherwise the walks from them report rows as well.
- Recovery.FileRecovers: the statements that `mm_recover_run` runs itself before the first and after the last section.
- Root page numbers of the master table that are stored as text or real: their conversion is a parameter.
- Reading the file: pages are whole, and every read of a valid page succeeds.
- The contents of `exports` objects, properties added to `Object.prototype`, `define.remove`, and factories that require conditionally or catch errors.
- JSON, callbacks by id, and base64 in the exec module; calls through `execProxy` after a bridge change go to the other bridge and not to this queue.
- Handlers that subscribe, unsubscribe or fire channels while a channel fires, fire arguments, and onHasSubscribersChange.
- A UTF-8 decoder: each step of U8_NEXT is given as a code point and the bytes it took. A failing `ubrk_open`.
- `wcdb/sqlcipher/parse.c` and `lempar.c`, which use the driver modelled here with larger tables; `keywordhash.h`, `sqliterk_output.cpp`, `vfslog.c` and `mm_cipher.c`; and the rest of `cordova.js`: DOM events, object merging and helpers.
