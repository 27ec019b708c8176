# Verified model of the agent's stateful core

This project models the parts of the CloudNan agent that carry real state, parsing or arithmetic, and
proves what they are for. Paths below are relative to the agent's repository.

**Encrypted dumps.** A dump is cut into 1 MiB AEAD blocks (`Encrypter`), the frames are cut again into
8 MiB multipart parts (`Uploader`), and a restore reads them back in pieces of any size over a source
that may return short reads (`Decrypter`). `Frames` is the wire format on byte sequences; `Export` and
`Restore` are the two operations around the pipeline; `Progress` is the protocol of their progress
chunks, over every interleaving of the operation and its ticker. The cipher is ideal for the log of what
was sealed in one export: `Aead.Tagged` (a seal is 16 bytes longer), `Aead.OpensAll` (what is in the log
opens to its plaintext) and `Aead.OpensOnly` (nothing else opens). The round trip needs the first two,
authenticity the last; `Frames.IdealExists` shows that every export has a cipher with all three. The
vault needs only that its seals open. `StderrTail` is the writer that keeps the end of the
tool's error output.

**The SQL scanner.** `SqlScan` has the tokens, `SqlStrip` the comment stripper and single-statement
check, `SqlTokens` their reference definition on token lists, `SqlIdempotence` the proof that removing
comments never makes a new token, `SqlClassify` the read-or-write verdict, `SqlParens` the parenthesis
matcher on tokens, `SqlPrint` and `SqlWithPrint` a printer of WITH queries, `SqlQuote` the quoting
functions and the statements built from them, `SqlEngine` the engines' reading of quoted texts against
the scanner's. `SqlForms` says in terms of the text itself what becomes of each comment, quoted text and
terminator, and which first words make a statement a Read.

**AI file operations.** `FileTree` is the file system and what the commands in a rollback recipe do to it,
`Undo` the operations, their recipes and the undoing of one step and of whole runs, `UndoExactly` the
exact condition for a run, `AiOps` the operations step by step with their failures, `AiRuns` runs through
the manager, `Recipes` the recipe texts and what a shell makes of them, `Janitor` the eviction of old
backups.

**Log shipping.** `LogRing` has the ring, its draining, and every interleaving of producers and senders.

**Durable rewriters.** `Vault` is the credential vault, `Sshd` the rewriting and reading of sshd_config,
`SshdLines` the same in terms of the text of each line, `SshdManager` the editor's operations with their
backups, `Shell` shell quoting against the token rules of
sections 2.2, 2.3, 2.6.2 and 2.7.4 of the POSIX.1-2017 Shell Command Language.

`Wrappers`, `Bytes`, `Strings` and `Numbers` hold what these share. A step that can fail for reasons
outside the program (a disk, a network, a random source) is a field of a record that each call takes
(`Weather`, `Surroundings`) or a `reliable` flag of the object that is called. Contracts say what happens
on each failure, and that nothing else fails.

## Findings

Where the code and its documentation disagree the model follows the code.

- `internal/database/decrypt_stream.go:143-145` and `:164-166` wrap an end of stream so that it is still
  recognised at line 106. A ciphertext cut right after a nonce or right after a length field therefore
  looks like a complete one, though the comments promise that only a cut between frames does
  (`Frames.DecodeCut` gives all cases, `Frames.TruncationCanLookClean` a concrete one).
- `internal/database/classify.go:343-345` returns an empty statement for `stmt; -- comment` without a final
  newline, also when the statement before the terminator is not empty (`SqlTokens.StripByTokens`).
- `internal/database/classify.go:424-444` lets a backslash escape a quote in a single-quoted text, although
  its comment says that it does not. PostgreSQL with standard strings ends the text there, so that one
  statement for the scanner can be two for the engine (`SqlEngine.ReadAsOne`, `SqlEngine.SeenAsTwo`); and
  MySQL escapes double quotes too, so that the scanner refuses some single statements
  (`SqlEngine.RefusedAsTwo`). `SqlEngine.SameTokens` says exactly when the readings agree.
- `internal/database/quote.go:48-52` doubles backslashes. MySQL reads that back; PostgreSQL, with standard
  strings, reads every backslash twice (`SqlQuote.PostgresReadsBack`).
- Rollback recipes do not always bring a file back: `install` puts it inside a directory that a later
  write made in its place (`Undo.ClashLosesTheFile`; `Undo.UndoStep` and `UndoExactly.UndoneExactly` have
  the exact conditions for a step and for a run), a symlink comes back owned by root (`Undo.LinkOwner`),
  and `ln` takes a link target of a dash and more for an option (`Recipes.RecipeReadsBack`).
- `internal/filesystem/aiops.go:414`, `:481` and `:495` name a backup by the invocation and the last
  component of the path, so two operations of one invocation on files of one name share a backup
  (`AiOps.SamePlace`), and undoing the first restores what the second one found (`Undo.SharedBackup`).
- `internal/filesystem/aiops.go:593-597` drops the errors of the deferred closes that flush an archive, so
  a delete can succeed with an archive that ends early (`AiOps.DeletedTreeBack` has the exact condition
  under which the tree can still be restored). `:548` and `:589` empty the backup file before they write
  it, so a capture that fails also destroys an earlier backup at that path
  (`AiOps.Manager.CaptureBackup`).
- `internal/database/ops_restore.go:504-506` fails a restore without dropping the database that it has just
  created, and so does `:484-486` when CREATE DATABASE is executed and its answer is lost; the errors of the
  two DROP statements are dropped (`Restore.FlushLeavesTarget`, `Restore.LeftDespiteDrops`;
  `Restore.OpRestoreDump` says exactly when a failed run leaves a target).
- `internal/executor/executor.go:117-126` appends quoted arguments to the command; when the command ends
  inside a comment or on the last line of a here-document, they become part of that (`Shell.LineRead`).
- `internal/agent/logshipper.go:466-490` runs once per connection; when two overlap, lines can be delivered
  out of order, though none is lost other than by eviction, and none sent twice (`LogRing.OrderExactly`, `LogRing.RunKeepsInvariant`).
- `internal/ssh/sshd_config.go:479-480` names a backup by the second, so a second update in that second
  overwrites the backup that the first one offered (`SshdManager.SameSecond`, `SshdManager.RestoreExactly`).

## Model

| member | source | states |
|---|---|---|
| Bytes.BigEndianRoundTrip | internal/database/encrypt_stream.go:149-160 | A length or block number written big-endian decodes to itself while it fits the field. |
| Bytes.ChunksUnique | internal/database/encrypt_stream.go:103-124 | There is only one way to cut a text into full blocks and one non-empty last one. |
| Bytes.ChunksShape | internal/database/encrypt_stream.go:103-140 | The canonical cut loses nothing, is full but for the last block, and has the number of blocks that rounding up gives. |
| Bytes.CeilDivBounds | internal/database/encrypt_stream.go:103-140 | The number of blocks is the least that holds the text. |
| Frames.LengthField | internal/database/encrypt_stream.go:144-176 | The layout of a frame: nonce, a length field that decodes to the ciphertext's length and is within the reader's limits, ciphertext. |
| Frames.EncodeSize | internal/database/encrypt_stream.go:144-176 | A stream is 32 bytes longer than its plaintext for every block. |
| Frames.IdealExists | internal/database/encrypt_stream.go:144-176 | The hypotheses about the cipher hold together: for the blocks of every export some cipher opens exactly what was sealed. |
| Frames.NextHonestFrame | internal/database/decrypt_stream.go:122-184 | The reader opens an honest frame and leaves exactly what follows it. |
| Frames.NextTornFrame | internal/database/decrypt_stream.go:122-184 | How a frame that is cut anywhere ends the stream: as a clean end exactly after 0, 12 or 16 bytes. |
| Frames.DecodeEncode | internal/database/decrypt_stream.go:90-184 | If the blocks that were sealed open, decoding the encoded stream gives their plaintext and then the end of stream. |
| Frames.CutExists | internal/database/decrypt_stream.go:122-184 | Every cut of a stream lies some bytes into some frame. |
| Frames.DecodeCut | internal/database/decrypt_stream.go:105-166 | A stream cut at any byte decodes to exactly the whole blocks before the cut, and then to a clean end exactly when the cut is 0, 12 or 16 bytes into a frame. |
| Frames.EofExactly | internal/database/decrypt_stream.go:127-166 | For arbitrary bytes, the lengths and contents for which the reader reports a clean end. |
| Frames.TruncationCanLookClean | internal/database/decrypt_stream.go:143-166 | A truncated stream that is taken for a complete empty one. |
| Frames.OpenedIsLogged | internal/database/decrypt_stream.go:168-181 | Under an ideal cipher, what opens as block k is block k of the export, whatever the frame is. |
| Frames.DecodeAuthentic | internal/database/decrypt_stream.go:141-183 | Whatever bytes are read (frames reordered, repeated, dropped, altered), the plaintext delivered is the first k blocks of the export. |
| Encrypter.StreamEncrypter.FlushBlock | internal/database/encrypt_stream.go:144-176 | Moves the buffer into one new block whose frame reaches the sink, or changes neither; fails only if the sink or the random source does. |
| Encrypter.StreamEncrypter.Write | internal/database/encrypt_stream.go:103-124 | Takes all of the input, or says how much; keeps the plaintext equal to the blocks and the buffer, all blocks full, and the sink equal to their frames. |
| Encrypter.StreamEncrypter.Close | internal/database/encrypt_stream.go:129-140 | Leaves exactly the canonical blocks of all plaintext written, however it was split into writes; closing again does nothing. |
| Uploader.ObjectOfAll | internal/database/uploader.go:204-232 | What the store assembles from the listed parts is the uploaded bodies in order. |
| Uploader.ChunkUploader.UploadCurrentPart | internal/database/uploader.go:252-290 | Turns the buffer into the next part, numbered from 1, or leaves it for a retry or abort. |
| Uploader.ChunkUploader.UploadTail | internal/database/uploader.go:192-215 | Before completion the parts are the 8 MiB chunks of all accepted bytes, or one empty part for an empty stream. |
| Uploader.ChunkUploader.Write | internal/database/uploader.go:148-175 | Accepts a prefix of its input and keeps parts and buffer equal to all accepted bytes; an error sticks; with a reliable store there is none. |
| Uploader.ChunkUploader.Close | internal/database/uploader.go:181-232 | Ends with one completion for an object equal to all accepted bytes and no abort, or with one abort and no completion that was answered well; completion is asked for only with at least one part and all bytes. |
| Uploader.ChunkUploader.Abort | internal/database/uploader.go:236-240 | The abort request is issued once, however often it is asked for. |
| Uploader.BodiesAreChunks | internal/database/uploader.go:148-215 | Full parts and a non-empty tail, or a lone empty part, are determined by the bytes. |
| Export.WriteAll | internal/database/ops_export.go:352-356 | The copy loop takes every write, or stops at a failure; it fails only if the store or the random source does. |
| Export.ClosePipeline | internal/database/ops_export.go:375-390 | Closing in order makes the object canonical and complete, or leaves the abort to the caller, or has aborted. |
| Export.FinalizeFailure | internal/database/ops_export.go:436-446 | The sink is aborted once, and the trace ends with FAILED. |
| Export.Transfer | internal/database/ops_export.go:349-402 | From the first byte to the terminal chunk: the object is complete and canonical, or the sink is aborted. |
| Export.OpExportDump | internal/database/ops_export.go:128-403 | In every run: a well-formed trace of chunks, a constructed sink ends completed with no abort or aborted exactly once, and a success leaves the canonical encryption of all output, with its exact size. Succeeds unless something fails. |
| Decrypter.ReadFull | internal/database/decrypt_stream.go:127-166 | Fills the buffer over any short reads, or reports the end, distinguishing no byte from some bytes. |
| Decrypter.StreamDecrypter.ReadFrame | internal/database/decrypt_stream.go:122-184 | Reads one frame as the format's reader defines it, error for error up to end or damage. |
| Decrypter.StreamDecrypter.NextFrame | internal/database/decrypt_stream.go:122-184 | One frame further, bytes delivered and bytes buffered still make up a beginning of what the stream decodes to. |
| Decrypter.StreamDecrypter.Read | internal/database/decrypt_stream.go:90-116 | For every buffer size: what is delivered followed by what is left is the decoding of the stream; an end or error is reported exactly where the decoding has it, the end again on every later call; and under an ideal cipher it is a beginning of the export. |
| Decrypter.FrameAuthentic | internal/database/decrypt_stream.go:168-181 | A frame that opens at position k appends block k of the export. |
| Restore.Pump | internal/database/ops_restore.go:376-396 | The copy loop pipes the whole decoding, with buffers of any sizes, and succeeds exactly when the stream ends cleanly. |
| Restore.Target.SetUp | internal/database/ops_restore.go:466-536 | Creating the target, statement by statement: when it succeeds, and when a failure leaves the database; a statement may be executed and its answer lost. |
| Restore.FlushLeavesTarget | internal/database/ops_restore.go:498-506 | A failed FLUSH PRIVILEGES leaves the new database though every DROP would have worked. |
| Restore.LeftDespiteDrops | internal/database/ops_restore.go:466-536 | With DROPs that work, a target is left exactly when the answer to its creation is lost or privileges cannot be flushed. |
| Restore.OpRestoreDump | internal/database/ops_restore.go:158-430 | In every run: a well-formed trace of chunks; a success keeps the target it created and has piped the whole stream; a failure leaves a target exactly when the answer to its creation was lost, privileges could not be flushed, or the DROP that was due was not executed; and what is piped is a beginning of the export, whatever the object holds. |
| Restore.ExportThenRestore | internal/database/ops_restore.go:158-430 | Export then restore is the identity on the dump, for all sizes of writes, parts, reads and short reads; the object has the exact size N + 32 * ceil(N / 2^20); and whatever arrives instead of the object, what is piped is a beginning of the dump. |
| Restore.StoredObject | internal/database/encrypt_stream.go:103-176 | The canonical encryption of a text has that size, in the least number of blocks, and decodes to the text. |
| Progress.MainKeeps | internal/database/ops_export.go:203-402 | Every step of the operation's goroutine keeps the protocol's invariant. |
| Progress.TickerKeeps | internal/database/ops_export.go:329-347 | So does every step of the ticker. |
| Progress.ProtocolHolds | internal/database/ops_export.go:203-402 | Over every interleaving the two never emit at the same time, a returned run has emitted a well-formed trace, and the buffered output is what was sent live. |
| Progress.NothingAfterReturn | internal/database/ops_restore.go:229-429 | Once the operation has returned, nothing is emitted. |
| Progress.OneTerminal | internal/database/ops_restore.go:229-429 | A well-formed trace has its only terminal chunk at its end, COMPLETED exactly on success. |
| StderrTail.BoundedWriter.Write | internal/database/ops_export.go:576-588 | However the output is cut into writes, the buffer holds the last bytes of all of it. |
| SqlScan.QuoteEndLocal | internal/database/classify.go:424-483 | A quoted text stays one when anything but its quote follows. |
| SqlScan.DollarLocal | internal/database/classify.go:488-513 | A dollar-quoted text stays one whatever follows, although finding it looks ahead over the whole rest. |
| SqlScan.SkipSingleQuoted | internal/database/classify.go:424-444 | The loop finds the end that the definition of a quoted text gives. |
| SqlScan.SkipIdentQuoted | internal/database/classify.go:448-483 | The same for double quotes and backticks. |
| SqlScan.SkipDollarQuoted | internal/database/classify.go:488-513 | The same for dollar quotes. |
| SqlStrip.StripCommentsAndCheckSingle | internal/database/classify.go:323-415 | The loop computes the stripped statement, or the first error, of the recursive definition that the lemmas are about. |
| SqlStrip.Turn | internal/database/classify.go:334-410 | One turn of the loop keeps output and rest equal to the result. |
| SqlForms.BlockComment | internal/database/classify.go:348-376 | A block comment, whatever it holds, becomes one space before the terminator and nothing behind it. |
| SqlForms.LineComment | internal/database/classify.go:341-369 | A line comment with its newline becomes one space before the terminator and nothing behind it. |
| SqlForms.OpenLineComment | internal/database/classify.go:341-369 | A line comment without a newline becomes one space at the end; behind the terminator it takes the statement away. |
| SqlForms.QuotedText | internal/database/classify.go:377-397 | A text in single quotes, double quotes or backticks, made of plain bytes, doubled quotes and, in single quotes, escapes, is kept as it is. |
| SqlForms.DollarText | internal/database/classify.go:398-405 | A text between two occurrences of a dollar tag, up to the first that closes it, is kept as it is. |
| SqlForms.Terminator | internal/database/classify.go:334-340 | Behind the terminator white space and further terminators are passed over. |
| SqlForms.SecondStatement | internal/database/classify.go:334-357 | Any other byte behind the terminator that opens no comment is a second statement. |
| SqlIdempotence.StripErases | internal/database/classify.go:323-415 | The output is the input with texts erased or replaced by spaces, never with a byte added. |
| SqlIdempotence.TokenStays | internal/database/classify.go:323-415 | A token that was kept is the same token in the output: removing comments opens no comment, quote or dollar quote. |
| SqlIdempotence.StripIdempotent | internal/database/classify.go:323-415 | Stripping a stripped statement succeeds and changes nothing. |
| SqlTokens.LexLossless | internal/database/classify.go:334-410 | Tokens make up the text. |
| SqlTokens.TailByTokens | internal/database/classify.go:336-365 | What may follow the terminator: whitespace, terminators and comments. |
| SqlTokens.StripByTokens | internal/database/classify.go:323-415 | A text passes exactly when it has tokens and only blank ones after the first terminator; it becomes the tokens before it with one space for a comment, or nothing when an open line comment ends the rest. |
| SqlClassify.ConsumeIdent | internal/database/classify.go:192-247 | The length of the identifier at the front, quoted, bracketed or plain. |
| SqlClassify.MatchParen | internal/database/classify.go:252-317 | The loop returns what the recursive matcher does. |
| SqlParens.MatchByTokens | internal/database/classify.go:252-317 | For every text the matcher finds the first closing parenthesis token that brings the depth to 0, and -1 when there is none before a token that is not closed. |
| SqlClassify.ClassifyWith | internal/database/classify.go:118-187 | The loop over the CTE list, which consumes input on every turn, gives the verdict of the recursive definition. |
| SqlClassify.ClassifyStatement | internal/database/classify.go:68-93 | The verdict, or why there is none. |
| SqlForms.VerdictByWord | internal/database/classify.go:55-93 | A statement whose first word, in any case, is one of the seven reading ones is a Read; with any other but WITH, or none, it is a Write. |
| SqlForms.NoVerdict | internal/database/classify.go:68-78 | A text is refused with its cause, refused as empty, or has a first word. |
| SqlForms.WithVerdict | internal/database/classify.go:78-130 | A statement that starts with WITH has the verdict of its list. |
| SqlForms.ListVerdict | internal/database/classify.go:131-187 | A list is a Read if and only if it is read to its end and SELECT or VALUES follows. |
| SqlClassify.SameVerdictStripped | internal/database/classify.go:68-93 | A statement and its stripped form get the same verdict. |
| SqlPrint.BodyUnchanged | internal/database/classify.go:323-415 | A body of balanced parentheses, quoted texts and plain bytes passes the stripper unchanged. |
| SqlPrint.ParenMatched | internal/database/classify.go:252-317 | The matcher finds the parenthesis that closes a printed body, whatever follows. |
| SqlWithPrint.ListRead | internal/database/classify.go:118-187 | The loop consumes every printed entry, its name quoted, in brackets or plain, and the keyword behind the list decides: Read exactly for SELECT and VALUES. |
| SqlWithPrint.PrintedQueryVerdict | internal/database/classify.go:68-187 | Every printed WITH query whose first name is not spelled RECURSIVE is a Read if its keyword, in any case, is SELECT or VALUES, and else a Write. |
| SqlWithPrint.NoName | internal/database/classify.go:131-136 | A WITH list that does not go on with a name makes the query a Write. |
| SqlWithPrint.NoAs | internal/database/classify.go:139-151 | A name, with or without columns, that AS does not follow makes it a Write. |
| SqlWithPrint.NoBody | internal/database/classify.go:148-165 | AS without a parenthesis behind it makes it a Write. |
| SqlWithPrint.OpenBody | internal/database/classify.go:162-169 | A parenthesis behind AS that is not closed makes it a Write. |
| SqlWithPrint.RecursiveParen | internal/database/classify.go:118-136 | RECURSIVE with a parenthesis right behind it makes it a Write. |
| SqlQuote.QuotedIdentReadsBack | internal/database/quote.go:35-43 | A quoted name is one token for every name, unless its quote follows, and reads back as the name. |
| SqlQuote.NamesReadBack | internal/database/quote.go:35-43 | Both quoting functions for names, each under its engine's quote. |
| SqlQuote.LiteralIsInert | internal/database/quote.go:48-52 | A quoted value is one token for every value, unless a quote follows. |
| SqlQuote.MySQLReadsBack | internal/database/quote.go:48-52 | MySQL reads the value back. |
| SqlQuote.PostgresReadsBack | internal/database/quote.go:48-52 | PostgreSQL reads it back exactly when it holds no backslash. |
| SqlQuote.StatementIsOne | internal/database/classify.go:323-415 | Plain words around quoted names and values make one statement that the stripper returns unchanged. |
| SqlQuote.CreateUserIsOneStatement | internal/database/ops_create.go:89-106 | So the CREATE USER statements are one statement for every user, host and password. |
| SqlQuote.CreateUserText | internal/database/ops_create.go:89-106 | Their text: the user, the host and the password each in its place. |
| SqlEngine.SameTokens | internal/database/classify.go:323-483 | On every text that the scanner cuts into tokens, an engine that lets a backslash escape in single quotes, in double quotes, in both or in neither cuts it into the same tokens if and only if it reads each of the quoted ones as a whole. |
| SqlEngine.OneStatementForBoth | internal/database/classify.go:323-415 | Then what passes as one statement is one statement of the same tokens for the engine. |
| SqlEngine.PlainQuotesAgree | internal/database/classify.go:424-483 | The readings can differ only in quoted texts with a backslash. |
| SqlEngine.ReadAsOne | internal/database/classify.go:68-93 | Texts such as SELECT '\'; DROP TABLE t; --' are one reading statement for the classifier. |
| SqlEngine.SeenAsTwo | internal/database/classify.go:424-444 | The same texts are more than one statement for PostgreSQL. |
| SqlEngine.RefusedAsTwo | internal/database/classify.go:448-464 | Texts such as SELECT "\";b" are one statement for MySQL, and the scanner does not pass them. |
| FileTree.ArchiveHoldsTree | internal/filesystem/aiops.go:588-636 | An archive made from the parent directory holds exactly the tree. |
| Undo.EffectKeepsShape | internal/filesystem/aiops.go:185-337 | Operations leave every node in a directory. |
| Undo.UndoStep | internal/filesystem/aiops.go:413-510 | After an operation, and with leftover directories from elsewhere, its recipe brings the tree back if and only if no such directory blocks it: for a file or symlink, one in its place; for a tree, one in the place of some file or symlink of it that is not empty. |
| Undo.UndoRestores | internal/filesystem/aiops.go:185-510 | A simple sufficient condition for runs: if no write makes a directory where an earlier delete took a file or symlink, the recipes in reverse order bring back every node with content, mode and owner, and only directories made by writes remain. |
| UndoExactly.StepLands | internal/filesystem/aiops.go:413-510 | What one recipe does, path by path, on any tree that the later recipes leave. |
| UndoExactly.RunLands | internal/filesystem/aiops.go:185-510 | What undoing any run leaves: all that was there, the directories that writes made and no extraction replaced, and the nodes that were misplaced. |
| UndoExactly.UndoneExactly | internal/filesystem/aiops.go:185-510 | For every run that stores no backup over another, undoing it brings the tree back if and only if no directory is left where the tree held a file or symlink and no node stays misplaced. |
| UndoExactly.EmptyDirectoryYields | internal/filesystem/aiops.go:486-491 | A run that makes a directory in the place of a deleted file and is undone all the same: the file was part of a tree, and its extraction replaces the empty directory. |
| Undo.SharedBackup | internal/filesystem/aiops.go:414-509 | Two writes of one file that share a backup: undoing them leaves the content between the two, which is the old one only if the first had not changed it. |
| Undo.ClashLosesTheFile | internal/filesystem/aiops.go:500-508 | A run of two operations whose undoing loses the file. |
| Undo.UndoWrite | internal/filesystem/aiops.go:413-510 | A write or edit is always undone: the old file or symlink is back, or the new file gone. |
| Undo.LinkOwner | internal/filesystem/aiops.go:448-465 | A deleted symlink comes back exactly as it was if and only if root owned it. |
| Undo.TornArchive | internal/filesystem/aiops.go:588-636 | A deleted tree is restored from an archive that can be read in part if and only if every node of it can be read as it was. |
| AiOps.Manager.CaptureBackup | internal/filesystem/aiops.go:413-510 | Succeeds under an exact condition; what the backup then holds, with an archive that was not flushed to its end; and what a failure leaves, with an earlier backup emptied. |
| AiOps.Manager.TarGzDir | internal/filesystem/aiops.go:588-636 | The archive is whole only if it was flushed, which does not affect success. |
| AiOps.Manager.CopyFilePreservingMode | internal/filesystem/aiops.go:538-557 | The copy is whole on success; on failure the file at its path is torn, once it was opened. |
| AiOps.Manager.ReplaceFile | internal/filesystem/aiops.go:208-253 | Puts content, mode and owner in place at once, or changes nothing but, if cleaning up fails, leaves the temporary file. |
| AiOps.Manager.AIWrite | internal/filesystem/aiops.go:185-255 | Succeeds under an exact condition, and then the file has the content, the mode asked for or else the old one or 0644, and the old owner if setting it works, and nothing else has changed but for directories above it; a failure keeps all that was there; in every case what was at the path is still there or in the backup. |
| AiOps.Manager.AIEdit | internal/filesystem/aiops.go:261-303 | Cut at the leftmost places of the old string, the file is joined again by the new one, in all places or in its only one, with its mode and owner; what has none, or several without leave to replace all, is refused and nothing changes. |
| AiOps.Manager.AIDelete | internal/filesystem/aiops.go:308-337 | Succeeds under an exact condition, and then nothing is left at the path and below, and all else is as it was; what a removal that stops on the way leaves; trees over the limits stay; in every case what was there is still there or in the backup, unless an archive was not flushed. |
| AiOps.CapturesExactly | internal/filesystem/aiops.go:413-510 | A backup is made if and only if each of its steps works and a tree is within both limits. |
| AiOps.WritesExactly | internal/filesystem/aiops.go:185-255 | A write is made if and only if in addition its own steps work, no file stands in the way, and invocation and size are allowed. |
| AiOps.InfoFields | internal/filesystem/aiops.go:421-510 | The record of a backup, field by field, for a file, a directory, a symlink and nothing. |
| Strings.CutReplaced | internal/filesystem/aiops.go:278-291 | Counting and replacing a string in terms of the parts between its leftmost occurrences that do not overlap. |
| Strings.CutExists | internal/filesystem/aiops.go:278-291 | Every text has such parts. |
| AiOps.DeletedTreeBack | internal/filesystem/aiops.go:588-636 | A deleted tree can be restored if and only if its archive was flushed or still holds every node. |
| AiOps.SamePlace | internal/filesystem/aiops.go:414-495 | Two backups are in one place if and only if they are made in one invocation under one name, with the suffix that archives get. |
| AiRuns.InvocationsApart | internal/filesystem/aiops.go:414-495 | Calls of different invocations keep each other's backups. |
| AiRuns.PerformAndUndo | internal/filesystem/aiops.go:185-510 | A run of calls through the manager, which goes through exactly when each call is accepted where the ones before leave it, and its undoing: with archives that were flushed and backups that do not meet, the tree is back under the exact condition. |
| Recipes.RecipeReadsBack | internal/filesystem/aiops.go:413-510 | The recipe's text, read by a shell and the commands, is the recipe, except exactly for a symlink target of a dash and more. |
| Recipes.TextsRestore | internal/filesystem/aiops.go:413-510 | Undoing a run by running the recipe texts in reverse order works under the same exact condition, if no symlink target is a dash and more. |
| Numbers.DigitsReadBack | internal/filesystem/aiops.go:503-507 | Octal and decimal numerals read back as the number. |
| Numbers.ItoaReadsBack | internal/ssh/sshd_config.go:76-79 | A printed int is read back by Atoi. |
| Numbers.ItoaForm | internal/ssh/sshd_config.go:128-154 | It is its digits, behind a minus sign exactly if it is negative. |
| Numbers.AtoiExactly | internal/ssh/sshd_config.go:76-79 | What Atoi reads: digits behind at most one sign, if the value fits. |
| Janitor.EvictOld | internal/filesystem/janitor.go:62-85 | Removes exactly the removable directories that are too old, and counts the others. |
| Janitor.EvictOverCap | internal/filesystem/janitor.go:90-99 | Evicts oldest first and no more than needed. |
| Janitor.RunJanitorCycle | internal/filesystem/janitor.go:45-100 | After a cycle: what is older than 30 days is gone if it could be removed; what is not is gone only for the cap of 1 GiB, oldest first and no more than needed, until the rest fits or cannot be removed; all else stays. |
| Janitor.RecentStay | internal/filesystem/janitor.go:71-92 | When the directories of the last 30 days fit the cap together, each of them stays. |
| Janitor.CleanCycle | internal/filesystem/janitor.go:45-100 | When removals work, no directory is over the age and the rest is within the cap. |
| LogRing.LineRing.Push | internal/agent/logshipper.go:63-70 | Appends; a full ring loses its oldest line. |
| LogRing.LineRing.PushFront | internal/agent/logshipper.go:72-79 | Puts back at the head; a full ring loses its newest line. |
| LogRing.LineRing.Pop | internal/agent/logshipper.go:81-90 | Takes the oldest line, if any. |
| LogRing.DrainStream | internal/agent/logshipper.go:466-490 | Sends in order as many lines as the connection takes; the line whose send failed is the head again. |
| LogRing.StepMoves | internal/agent/logshipper.go:63-90 | No step adds or loses a line but a push, which adds one. |
| LogRing.StepKeepsOrder | internal/agent/logshipper.go:466-490 | With at most one sender, delivered, in-flight and buffered lines stay in the order they were pushed. |
| LogRing.RunKeepsInvariant | internal/agent/logshipper.go:63-490 | Over every interleaving with any number of senders: the ring is bounded, and every pushed line is delivered, in flight, buffered or evicted, exactly one of them once; with one sender the order is kept too. |
| LogRing.OrderExactly | internal/agent/logshipper.go:466-490 | For every ring size, all runs deliver in the order of the pushes if and only if there is at most one sender. |
| LogRing.SendersCanReorder | internal/agent/logshipper.go:466-490 | A run that delivers out of order, for every ring size and every number of senders from two on. |
| LogRing.TruncateLogLine | internal/agent/logshipper.go:92-109 | Cuts a long line at the last rune start within the limit and marks it; what is left of a text of runes is the first of them, at most three bytes below the limit. |
| Vault.SealedReadsBack | internal/database/vault.go:374-413 | The file written for a map decodes to that map, for every nonce. |
| Vault.VaultIsMap | internal/database/vault.go:104-200 | In every run of calls, each answer is the one that a plain map gives after the calls answered before, whatever errors occur in between. |
| Vault.DeletedIsGone | internal/database/vault.go:157-200 | In every run, after a delete that was answered and until the name is stored again, a Get says that it is absent and a List does not have it. |
| Vault.StoredIsGot | internal/database/vault.go:104-200 | After a store that was answered and until the name is stored or deleted again, a Get finds that entry, its time set if it had none, and a List has it. |
| Vault.SameAnswer | internal/database/vault.go:104-200 | Calls on other names, and calls that fail, change no answer about a name. |
| Vault.RunCalls | internal/database/vault.go:104-200 | Any calls of the vault, one after the other, make a run as these results mean it. |
| Vault.BlobForms | internal/database/vault.go:290-325 | Which files stand for no entries, which are corrupt, and which hold a map. |
| Vault.StoredIsFound | internal/database/vault.go:104-178 | A stored credential stays until its name is stored or deleted again. |
| Vault.Vault.AcquireFileLock | internal/database/lockfile_unix.go:24-51 | May create an empty file, which stands for the same entries. |
| Vault.Vault.ReadAll | internal/database/vault.go:290-325 | Yields the entries that the file stands for, or fails. |
| Vault.Vault.WriteAll | internal/database/vault.go:328-371 | At every moment, and after every failure, the file stands for the complete old entries or the complete new ones. |
| Vault.Vault.Get | internal/database/vault.go:104-125 | Answers as a map does and changes nothing that is stored. |
| Vault.Vault.Put | internal/database/vault.go:128-153 | Stores the entry, with its time set if it had none, or leaves the entries as they were; never anything in between; a corrupt file is left alone. |
| Vault.Vault.Delete | internal/database/vault.go:157-178 | The same for deleting; deleting what is not there succeeds. |
| Vault.Vault.List | internal/database/vault.go:182-200 | Every name once. |
| Shell.BuildLine | internal/executor/executor.go:117-126 | The loop quotes every argument and joins them behind the command. |
| Shell.QuotesReadBack | internal/executor/executor.go:412-414 | Both quoting functions are read by a shell as one word equal to their input. |
| Shell.LineRead | internal/executor/executor.go:117-126 | The line has the command's own tokens, parameters in them included, and then exactly the arguments, without a parameter in them, if and only if the command does not end inside a comment or on the last line of a here-document. |
| Strings.JoinSplit | internal/ssh/sshd_config.go:106 | Splitting into lines and joining them gives the text back. |
| Strings.SplitJoin | internal/ssh/sshd_config.go:173 | Joining lines and splitting gives the lines back. |
| SshdManager.UpdateLines | internal/ssh/sshd_config.go:110-150 | Rewrites in place exactly the lines, commented out or not, of requested keys, and tells which keys have one. |
| SshdLines.WrittenExactly | internal/ssh/sshd_config.go:110-150 | The lines that are rewritten: the keyword in any case, behind blanks and at most one number sign with blanks, as a word of its own. |
| SshdLines.UpdateByLines | internal/ssh/sshd_config.go:106-173 | Line by line: lines that name a requested key are rewritten in place, all others stay as they are, and behind them come only a blank line, the marker and the settings that had no line. |
| SshdLines.ReadExactly | internal/ssh/sshd_config.go:60-75 | The lines that are read as settings: keyword, blanks, value, whatever follows. |
| SshdLines.SettingsByLines | internal/ssh/sshd_config.go:52-90 | Each setting read is what the last line that sets it says; without one, port 22 and yes. |
| SshdLines.ReadBack | internal/ssh/sshd_config.go:44-173 | Reading back an update, setting by setting. |
| Sshd.RewriteIdempotent | internal/ssh/sshd_config.go:93-173 | Updating twice is updating once. |
| Sshd.RequestedLines | internal/ssh/sshd_config.go:109-167 | Afterwards a requested key has an active line and all its active lines carry the value. |
| Sshd.UpdateThenRead | internal/ssh/sshd_config.go:44-173 | A reader that takes the last line and one that takes the first both get the requested values, and for other settings what they got before. |
| Sshd.SetThenGet | internal/ssh/sshd_config.go:44-173 | So GetCurrentConfig returns what UpdateConfig was asked for, on every file whose lines fit its scanner; an update writes no line that does not fit. |
| SshdManager.SSHDConfigManager.GetCurrentConfig | internal/ssh/sshd_config.go:44-90 | Reads the settings line by line up to the first line that is too long, which is an error. |
| SshdManager.SSHDConfigManager.UpdateConfig | internal/ssh/sshd_config.go:93-192 | Succeeds exactly when the file is there and every step works, with the file rewritten and the old one under its second; what each failing step leaves of both; the old file is never lost. |
| SshdManager.RunEvents | internal/ssh/sshd_config.go:93-192 | Any calls of UpdateConfig and RestoreBackup, one after the other, make a run as the results below mean it. |
| SshdManager.RestoreExactly | internal/ssh/sshd_config.go:460-492 | In every run, a successful restore of the backup that an update opened gives back the file that this update replaced if and only if the last update of that second to open the backup stored just that. |
| SshdManager.RestoreUndoes | internal/ssh/sshd_config.go:460-471 | In every run, SSHDConfigManager.RestoreBackup on the backup that an update named gives back the file that the update replaced, unless another update of that second opened the backup; and it succeeds exactly when its own steps do. |
| SshdManager.BackupStays | internal/ssh/sshd_config.go:474-492 | A backup stays until an update of the same second opens it again. |
| SshdManager.SameSecond | internal/ssh/sshd_config.go:474-492 | After two updates in one second the first one's backup restores the original if and only if the first had changed nothing. |

## Left out

- Transport and control plane: gRPC streams, TLS, enrolment, heartbeat, reconnection and backoff timers.
- Metrics, firewall, container and host discovery, path and command block lists: probing and fixed tables.
- Subprocesses and their arguments, the gzip layer (the encrypter's input is whatever gzip writes), SQL
  engines and the S3 protocol below its three requests.
- The cipher itself, the JSON codec (a pair of functions with a round-trip law) and random numbers
  (parameters). Sealing is functional, so nonces that repeat are not modelled as a danger.
- LocalFileSink and the local file source: only the multipart sink is modelled.
- Widths of counters: part numbers and byte counters are unbounded; block numbers are too, but their
  8-byte encoding wraps, so the authenticity results ask for fewer than 2^64 blocks.
- Restore.OpRestoreDump: the privileges themselves and connections to the target; decompression is part of
  the restore tool.
- Progress.ProtocolHolds: the ticker's estimate of the total and the byte counts inside chunks.
- Unicode: case and whitespace follow ASCII; strings are bytes.
- Shell.LineRead: outside single quotes, expansions other than a dollar sign with a name, a digit or a
  special parameter are not covered by the model of a shell (`${`, `$(`, backquotes, and dollar signs
  whose meaning POSIX leaves open); nor are dollar signs, backquotes and backslashes in a here-document
  whose delimiter is not quoted. Tokens are those before expansion.
- SqlEngine.SameTokens: an engine is taken to differ from the scanner in quoted texts alone; nested
  comments, escape strings and other dialects of comments and names are not modelled.
- Undo.UndoRestores: its condition is only sufficient; UndoExactly.UndoneExactly has the exact one.
- UndoExactly.UndoneExactly: paths have no symlinked parents, are not the root, and lie outside the
  backup root; hard links, special files and modification times are not modelled; the recipes are run by
  root; `tar` replaces whatever is at an entry's place, except a directory that is not empty by something
  that is none. Backups that are stored over one another are outside its condition (Undo.SharedBackup).
- AiOps.Manager.AIWrite: the resolution of the path and the block list come before it; the mode is taken
  as the permission bits alone.
- Janitor.RunJanitorCycle: sizes are what walking the directories yields, times are plain integers, and the
  order of equal times is left open.
- Vault.Vault.Put: one process; the lock is taken on a file that the rename replaces, so two processes are
  not serialised. Audits of owners and modes are steps that may fail. Directory entries are assumed to
  survive a crash in order.
- SshdManager.SSHDConfigManager.UpdateConfig: included files and the systemd socket are one step that may fail;
  Match blocks and quoted or `=`-separated arguments are read as the agent reads them.
- SqlClassify.ClassifyStatement: a verdict of Read is about keywords, not about effects.
- LogRing.RunKeepsInvariant: how lines get their text, and the idle poll.
