# The SQL helper's text and session logic

A Dafny model, with proofs, of the native helper behind the TEDI SQL Explorer (`sidecar-src/src`). It has three parts.

**Text.** The helper reads SQL with one dialect-aware lexer: every character of a script is either bare SQL or part of a
run (string, quoted identifier, comment, dollar-quoted string). Scripts are split at bare semicolons, and the pieces are
lexed again, alone, to be classified, gated on read-only connections, and tracked for their effect on the transaction.
`Lexer` holds the lexer twice: as a pure function that reads left to right, and as the in-place scanner that fills a
mask. `LexerLaws`, `RunEnds`, `Tokens`, `Split`, `Words`, `Analysis`, `AnalysisLaws`, `Keywords`, `Gate`, `Quoting` and
`Segments` build on it; `Ident`, `SqlText` and `Export` are the printers whose output it must read, `Overrun`, `Reload`
and `ReadBack` say which exports can be read back at all, and `InsertRead` what they say.

**Sessions.** `Session` pairs what the helper remembers of a connection with a server that may do more than one thing
with a statement, and that reads the statements the helper sends for a context (`ContextText`); `Coherence` is about the
cached context, `Seen` about the transactions the session knows of; `Batch`, `BatchLaws` and `BatchEnds` run a script
under a row limit and a shared byte budget (`Sizes`); `Editor` and `EditorLaws` are one run of the query editor, with
its retry; `Protocol` is every interleaving of runs, idle timers and closes around the one editor slot; `Pools` is the
race of tasks that open one pool for each database.

**Printers with a public reader.** `PgArray` (array literals), `Csv` and `JsonRead`, `Like`, `Page` and `PageRead`
(search patterns, their placeholders, and the page they select), `Url` (percent-encoding), `Grouping` (catalog rows
folded into indexes and foreign keys). Each reader is written here as the specification of its printer.

Code that changes things step by step is modelled by methods and classes, each proved against a function of the same
behaviour; the laws are proved of that function. What the outside does (rows, errors, timeouts, cancels, the order in
which tasks come in) is a parameter, and the laws hold for every value of it.

Where the code does less than its comments say or its users expect, the code was followed, the input that fails is
shown, and so is the exact condition under which it does not:

- the read-only gate is said to refuse every data-modifying `WITH` (`sidecar-src/src/sqltext.rs:281-290`), but it looks
  for the keyword at the very beginning of the text only (`Gate.RefusedIffInFront`, `Gate.BracketedDelete`);
- exported SQL is said to re-run against the source database (`sidecar-src/src/export.rs:272-273`). But the printer
  leaves backslashes alone, which MySQL reads, and on every engine it prints a user's JSON document with the shape of a
  binary cell as if its `b64` were base64. An export splits into its rows, each cell in its place, exactly when its
  cells stay within their quotes (`ReadBack.ReadsBackIffRowsOk`; the inputs are `Reload.LoneBackslashExport` and
  `ReadBack.PosingDocumentExport`), and on MySQL a text comes back as it was exactly when each of its backslashes stands
  before a `%` or a `_` (`SqlText.TextCellReadsBack`, `SqlText.TwoBackslashes`);
- the cached context is taken to be in place on the server, but names set inside a PostgreSQL transaction can be taken
  back, and an abandoned statement can move them unseen (`Coherence.StatementExact`, `Coherence.RollbackUndoesSwitch`,
  `Coherence.AbandonedUseIsMissed`);
- a connection is said to be closed when a statement left a transaction or untracked state on it
  (`sidecar-src/src/session.rs:73-75`), but an abandoned statement that the server runs all the same is not observed
  (`Session.AbandonedExact`, `Session.AbandonedBeginIsMissed`);
- the user is to be told when an open transaction is lost, but the helper goes by its own flag, and with MySQL's
  autocommit off, or turned on once more within a transaction, one is open that the flag does not show
  (`Seen.ShowsExact`, `Seen.SwitchOnUnseen`, `Editor.LossIsToldIffSeen`, `Seen.UnseenIsLostSilently`);
- nor does a run that fails while it replaces a lost connection leave a notice of the transaction lost with it
  (`Editor.FailedRunKeeps`, `Editor.OneLossOnTheWay`);
- nested arrays are said to survive as array literals (`sidecar-src/src/bind.rs:133-135`), but PostgreSQL takes only
  those of one shape throughout (`PgArray.PostgresReadsIffRectangular`, `PgArray.RaggedIsRefused`);
- only the timer armed by the last run is said to fire (`sidecar-src/src/query.rs:252`), but its epoch check and its
  lock are separate steps (`Protocol.LastIffNoneAnswered`, `Protocol.AtomicTimersAreLast`, `Protocol.OneStaleTimer`).

`dafny verify dfyconfig.toml` checks the whole project.

## Model

| member | source | states |
|---|---|---|
| Lexer.CodeMask | sidecar-src/src/sqltext.rs:38-81 | the scanner that fills the mask in place, with its looks back and ahead, computes exactly the left-to-right lexer's mask; every step advances and stays within bounds |
| Lexer.ScanToken | sidecar-src/src/sqltext.rs:45-79 | from any position, the scanner's next end and masked flag are the lexer's next token |
| Lexer.LookBack | sidecar-src/src/sqltext.rs:58-60 | looking back at two characters of the text is the same as the state a lexer carries along from any earlier position |
| Lexer.LineEnd | sidecar-src/src/sqltext.rs:88-93 | a line comment's end is where the lexer's line run ends |
| Lexer.BlockCommentEnd | sidecar-src/src/sqltext.rs:96-113 | the depth counter never underflows, and the loop ends where the recursive reading of open comments does |
| Lexer.QuotedEnd | sidecar-src/src/sqltext.rs:117-134 | the loop over doubled quotes and escapes, which may step past the end, ends where the quoted run does |
| Lexer.BracketEnd | sidecar-src/src/sqltext.rs:65-68 | a bracketed name ends where the lexer's bracket run does |
| Lexer.DollarTagEnd | sidecar-src/src/sqltext.rs:138-149 | finds a dollar tag exactly where the lexer reads one |
| Lexer.FindFrom | sidecar-src/src/sqltext.rs:151-156 | the window search finds what the recursive search finds |
| Lexer.DollarEnd | sidecar-src/src/sqltext.rs:69-72 | a dollar-quoted string ends with its closing tag, or the text; a lone `$` is a run of one |
| RunEnds.LineEndsAtNewline | sidecar-src/src/sqltext.rs:88-93 | a line comment has no newline in it and stops at the first |
| RunEnds.BracketEndsAtBracket | sidecar-src/src/sqltext.rs:65-68 | a bracketed name ends at its first `]`, or at the end of the text when there is none |
| RunEnds.QuotedRunIsContained | sidecar-src/src/sqltext.rs:117-134 | a quoted run that ends before the text does ends at a quote no other follows, and holds only doubled quotes and whole escapes |
| RunEnds.QuotedRunEnds | sidecar-src/src/sqltext.rs:117-134 | a quoted run ends at the one place where it closes, be it the last character of the text; only when there is no such place does it reach the end unclosed |
| RunEnds.FlatCommentEndsAtClose | sidecar-src/src/sqltext.rs:95-113 | where comments do not nest, a comment ends at the first `*/` |
| RunEnds.BalancedIsOneRun | sidecar-src/src/sqltext.rs:95-113 | a comment whose body is a tree of nested comments is read as one run ending at the mark that closes it |
| RunEnds.RunIsBalanced | sidecar-src/src/sqltext.rs:95-113 | conversely every nesting run is such a balanced comment, or no depth closes before the end of the text |
| Tokens.LookIs | sidecar-src/src/sqltext.rs:57-61 | the lexer's memory is read off the text before: an identifier character, or an E that is no end of a longer word |
| Tokens.DashComment | sidecar-src/src/sqltext.rs:49-54 | `--` opens a comment up to the newline on every engine, on MySQL only before whitespace or at the end of the text |
| Tokens.HashComment | sidecar-src/src/sqltext.rs:55 | `#` does so on MySQL only |
| Tokens.NestedComment | sidecar-src/src/sqltext.rs:56 | on PostgreSQL a comment with balanced comments in it is one token |
| Tokens.OpenComment | sidecar-src/src/sqltext.rs:56 | one that is never balanced takes the rest of the text |
| Tokens.FlatComment | sidecar-src/src/sqltext.rs:56 | on MySQL and SQLite the token at `/*` ends with the first `*/`, or with the text |
| Tokens.QuoteToken | sidecar-src/src/sqltext.rs:57-64 | each quote opens a run on each engine, but for a backtick on PostgreSQL, and ends where it closes, with backslashes that escape in MySQL's strings and PostgreSQL's E-strings only |
| Tokens.BracketToken | sidecar-src/src/sqltext.rs:65-68 | `[` opens a name up to the first `]` on SQLite and is bare elsewhere |
| Tokens.DollarToken | sidecar-src/src/sqltext.rs:69-72 | on PostgreSQL a dollar tag outside an identifier opens a string up to its first repetition, any other `$` is a run of one; elsewhere it is bare |
| Tokens.BareToken | sidecar-src/src/sqltext.rs:73-76 | no other character opens a run |
| LexerLaws.MaskCut | sidecar-src/src/sqltext.rs:38-81 | cutting a text before a character no token reaches over keeps its mask, except for the last two characters of a MySQL text that ends in `--` |
| LexerLaws.MaskSplit | sidecar-src/src/sqltext.rs:45-80 | from any token boundary on, the mask is that of the rest alone |
| LexerLaws.CodeReaches | sidecar-src/src/sqltext.rs:73-79 | there is a token boundary before and after every bare character |
| LexerLaws.ReachAgree | sidecar-src/src/sqltext.rs:45-79 | a boundary and the mask before it do not depend on what follows the next character |
| Split.SplitLoop | sidecar-src/src/sqltext.rs:160-172 | the loop with its start index splits at exactly the bare semicolons |
| Split.PushTrimmed | sidecar-src/src/sqltext.rs:174-179 | a stretch is trimmed and appended unless nothing is left |
| Split.MaskRestart | sidecar-src/src/sqltext.rs:38-81 | lexing restarts cleanly after every bare `;` |
| Split.SplitHomomorphism | sidecar-src/src/sqltext.rs:160-172 | when the `;` after `a` is bare, splitting `a;b` is splitting `a` and splitting `b`, in all dialects |
| Split.StatementInPlace | sidecar-src/src/query.rs:293-333 | every statement is a stretch of its script, has the mask it has there (but for a trailing MySQL `--`), and splits again to exactly itself |
| Split.NothingIsLost | sidecar-src/src/sqltext.rs:160-179 | conservation: the statements hold, in order, the whole script but blanks and the bare semicolons |
| Split.StatementsAreTrimmed | sidecar-src/src/sqltext.rs:174-179 | no statement is empty, begins or ends with a blank |
| Gate.JudgedInPlace | sidecar-src/src/query.rs:296-332 | what the batch runner makes of a statement lexed alone is what the whole script's bare text says at its place; the transaction effect too, if and only if the two texts agree or neither switches autocommit |
| Gate.ExportGate | sidecar-src/src/sqltext.rs:269-276 | the export gate lets a script through if and only if it has a statement and lets through every statement of it alone |
| Words.FindFirst | sidecar-src/src/sqltext.rs:151-156 | the search finds the first occurrence, or there is none; it also closes dollar quotes |
| Words.ScanFinds | sidecar-src/src/sqltext.rs:307-317 | although matches do not overlap, the scan finds a whole-word match exactly when there is one anywhere |
| Words.ScanIsTokenisation | sidecar-src/src/sqltext.rs:307-317 | the substring scan with boundary checks is true if and only if a keyword is one of the maximal words |
| Words.WordsConcat | sidecar-src/src/sqltext.rs:191-198 | words do not reach across a gap |
| Analysis.GateIsExact | sidecar-src/src/sqltext.rs:291-303 | allowed if and only if a read, with no write keyword among its words when the text after blanks begins with WITH, and no ANALYZE when it begins with EXPLAIN |
| Keywords.FetchKeyword | sidecar-src/src/sqltext.rs:201-227 | each of the nine words that fetch is a read with rows, and passes the gate unless the text begins with WITH or EXPLAIN |
| Keywords.FetchBehind | sidecar-src/src/sqltext.rs:291-303 | behind a leading WITH it passes if and only if none of five write words is a word of the text, behind a leading EXPLAIN if and only if neither ANALYZE nor ANALYSE is |
| Keywords.WriteKeyword | sidecar-src/src/sqltext.rs:206-208 | each of the seven words that write is a write without rows, and refused |
| Keywords.DdlKeyword | sidecar-src/src/sqltext.rs:209-210 | each of the eleven words of DDL is DDL without rows, and refused |
| Keywords.ControlKeyword | sidecar-src/src/sqltext.rs:211-213 | each of the nine words of control is a read without rows, and allowed |
| Keywords.OtherKeyword | sidecar-src/src/sqltext.rs:214-226 | any other first word, or none, is unknown: fetched, and refused |
| Keywords.EffectIs | sidecar-src/src/sqltext.rs:233-257 | exactly which statements begin a transaction for the session, and which end one, MySQL's autocommit and DDL among them |
| Keywords.AssignedIs | sidecar-src/src/sqltext.rs:243-247 | the value a SET assigns is what follows its last `=`, trimmed, in any case |
| Gate.RefusedIffInFront | sidecar-src/src/sqltext.rs:277-303 | a WITH that writes or an EXPLAIN ANALYZE is refused exactly when that keyword is the very first thing in the text |
| Gate.BracketLetsThrough | sidecar-src/src/sqltext.rs:277-303 | a bracket in front lets every such statement through, whatever stands around its DELETE |
| Gate.BracketedDelete | sidecar-src/src/sqltext.rs:277-303 | one that gets through, on PostgreSQL: a bracketed WITH whose DELETE returns its rows |
| Gate.ControlIsAllowed | sidecar-src/src/sqltext.rs:212-215 | transaction control and session switches are reads without rows, and allowed |
| AnalysisLaws.JudgeAcrossGap | sidecar-src/src/sqltext.rs:183-303 | no judgement depends on how much space stands where a literal was blanked |
| Quoting.EnclosedIsOneRun | sidecar-src/src/sqltext.rs:117-134 | a quoted text is one run, ending at its own closing quote, if and only if its body has only doubled quotes and whole escapes |
| Quoting.DoubledIsContained | sidecar-src/src/export.rs:264-296 | doubling quotes gives such a body always, or where backslashes escape, exactly when every backslash takes a character that is not the quote |
| Quoting.ReadsBack | sidecar-src/src/export.rs:264-296 | where backslashes do not escape, a printed literal or name reads back as its text |
| Quoting.PairedReads | sidecar-src/src/export.rs:296 | where they do, as on MySQL, a text whose escapes pair up reads back as the text with its escapes decoded |
| Quoting.ReadsBackIffKept | sidecar-src/src/export.rs:296 | and as itself if and only if every backslash stands before a `%` or a `_` |
| Quoting.LiteralMask | sidecar-src/src/sqltext.rs:38-81 | the mask around a literal is the same whatever is inside |
| Quoting.LiteralIsOpaqueInScript | sidecar-src/src/sqltext.rs:160-303 | for any two texts in a literal at a code position, the script has as many statements and each is classified, tracked and gated alike |
| Quoting.AfterBareIsPosition | sidecar-src/src/sqltext.rs:45-76 | the start of a text and the place after any bare non-identifier character are code positions |
| Ident.IdentReadsBack | sidecar-src/src/schema.rs:364-388 | a name is accepted exactly when it is non-empty and has no NUL or line break, and its quoted form reads back as the name |
| Ident.QualifyIsInjective | sidecar-src/src/schema.rs:391-404 | a qualified name names one schema and one table |
| Ident.NameIsOpaque | sidecar-src/src/schema.rs:370-388 | the name inside a quoted identifier never influences the analysis of the script around it |
| Segments.SegsMask | sidecar-src/src/sqltext.rs:38-81 | in a text made of plain stretches and contained literals, exactly the literals are masked, whatever follows |
| Segments.SegsAreOneStatement | sidecar-src/src/sqltext.rs:160-172 | such a text ended by `;` is one statement, whatever follows |
| SqlText.ExportSplitsIntoRows | sidecar-src/src/export.rs:187-223 | an SQL export of any rows, whatever the names and cell texts, splits into exactly its INSERT statements, one a row, when its cells stay within their quotes |
| SqlText.TextCellIsOneRun | sidecar-src/src/export.rs:285-306 | a text or JSON cell is one masked run of its INSERT; its own engine reads it as the cell's text, on MySQL if and only if its backslashes are kept, else with its escapes decoded |
| SqlText.TextCellReadsBack | sidecar-src/src/export.rs:285-306 | for every text cell: reading the literal gives back the text if and only if the engine is not MySQL or every backslash is kept |
| SqlText.TwoBackslashes | sidecar-src/src/export.rs:296 | a cell of two backslashes is one run on MySQL and taken for one backslash |
| SqlText.TextCellExact | sidecar-src/src/export.rs:296 | exactly when a text cell stays one run: always on PostgreSQL and SQLite, on MySQL when its escapes pair up |
| SqlText.BinaryCellExact | sidecar-src/src/export.rs:274-304 | the same for the literal of a binary cell, on every engine: one run if and only if its text holds no quote or escape that ends it, always where it is printed in hexadecimal |
| SqlText.TextIsOpaque | sidecar-src/src/export.rs:285-296 | two text cells are analysed alike in any script they stand in |
| Overrun.EndIsMasked | sidecar-src/src/sqltext.rs:45-80 | once a MySQL literal has run over its closing quote, the lexer has text and statement the wrong way round: whatever comments and quotes the later cells hold, the `;` of the row is masked |
| Overrun.UnpairedMasksEnd | sidecar-src/src/sqltext.rs:57-80 | a MySQL text whose escapes do not pair up brings this about |
| Reload.SplitsIffRowsOk | sidecar-src/src/export.rs:187-223 | an SQL export splits into exactly its INSERT statements when every row stays within its quotes, and only then, unless it holds a document that passes for a binary cell and has a quote or backslash in it |
| Reload.LoneBackslashExport | sidecar-src/src/export.rs:296 | the export that fails: one row whose only cell is a lone backslash, on MySQL and nowhere else |
| InsertRead.InsertReadsBack | sidecar-src/src/export.rs:187-223 | read as its own engine reads it, an INSERT whose cells stay within their quotes names the table and the columns and gives, in order, what each cell says |
| InsertRead.ExportSaysRows | sidecar-src/src/export.rs:187-308 | an export of cells that come back splits into one INSERT a row, and each says the table, the columns and the very values, blobs decoded |
| ReadBack.ReadsBackIffRowsOk | sidecar-src/src/export.rs:187-308 | for every engine and any cell values: an SQL export splits into exactly its INSERT statements, with each quoted cell, text or binary, one masked run at the place it is printed, if and only if every cell stays within its quotes |
| ReadBack.PosingDocumentExport | sidecar-src/src/export.rs:274-304 | an export that splits into its row on no engine: a JSON document marked as bytes whose `b64` is a quote |
| Export.Formatter.constructor | sidecar-src/src/export.rs:167-177 | a formatter starts empty |
| Export.Formatter.Columns | sidecar-src/src/export.rs:179-197 | after the header the text is that of an export without rows so far |
| Export.Formatter.Row | sidecar-src/src/export.rs:199-226 | one more row turns the text of the rows so far into that of one row more, in all three formats |
| Export.Formatter.Finish | sidecar-src/src/export.rs:228-233 | the finished text is that of the whole export |
| Export.BodyAppend | sidecar-src/src/export.rs:199-226 | what a row appends, with the prefix built once, is what the export of one row more adds |
| Export.RunExport | sidecar-src/src/export.rs:100-125 | the streaming loop exports exactly the first `limit` rows, or fails when an error comes first, be it on the row after the last |
| Export.TakenIs | sidecar-src/src/export.rs:100-125 | an export fails exactly when one of its first rows, or the one after them, is an error, and else takes those rows and no more |
| JsonRead.JsonRoundTrip | sidecar-src/src/export.rs:217-218 | a reader of RFC 8259 gets back every value from its JSON text, escapes included |
| JsonRead.ExportReadsBack | sidecar-src/src/export.rs:206-233 | the whole JSON export reads back as the array of its rows |
| JsonRead.CellUnderColumn | sidecar-src/src/export.rs:207-212 | in the object of a row each cell is under its own column, of columns of one name the last |
| JsonRead.ColumnsInOrder | sidecar-src/src/export.rs:207-212 | columns of different names keep their order |
| JsonRead.RenderedReads | sidecar-src/src/export.rs:236-254 | what a CSV cell shows: nothing for null, a text itself, a blob by its size, any other as JSON that reads back |
| Csv.FieldReadsBack | sidecar-src/src/export.rs:256-262 | an escaped field reads back as its text, with commas, quotes, CR and LF in it |
| Csv.RecordReadsBack | sidecar-src/src/export.rs:199-205 | a printed line reads back as its cells |
| Csv.ExportReadsBack | sidecar-src/src/export.rs:179-205 | an RFC 4180 reader gets back the header and every rendered cell of an export, in order |
| Session.Session.constructor | sidecar-src/src/session.rs:76-99 | a session opens with nothing applied and is marked for closing exactly when it is sticky |
| Session.Session.ApplyContext | sidecar-src/src/session.rs:112-148 | the new state is the old one with the context applied, unless it already was, cannot be quoted, or the server fails |
| Session.Session.Observe | sidecar-src/src/session.rs:151-169 | a statement that succeeded changes transaction, dirty mark, cached context and close mark as its text says |
| Session.WordsSee | sidecar-src/src/sqltext.rs:233-267 | what the server takes for opening or ending a transaction or for a SET or USE, the session sees; it sees no end without one of COMMIT, END, ROLLBACK, a MySQL SET of autocommit or MySQL DDL |
| Session.StepStaysGuarded | sidecar-src/src/session.rs:151-169 | every step keeps this, unless an abandoned statement opens a transaction or sets something on an unmarked connection: a connection with a transaction, autocommit off or user state is marked for closing |
| Session.AbandonedExact | sidecar-src/src/query.rs:331-349 | an abandoned statement keeps it, whatever the server makes of it, if and only if the connection is marked or the statement neither opens a transaction nor sets anything |
| Session.PoolStaysClean | sidecar-src/src/session.rs:76-99 | over every run, abandoned statements included that meet that condition, a connection that is not closed goes back without transaction, with autocommit on and without user state |
| Session.MarkStays | sidecar-src/src/session.rs:166-168 | the close mark is never taken back |
| Session.MarkedIff | sidecar-src/src/session.rs:151-168 | a one-off session is marked for closing if and only if a statement that opens a transaction or sets something has run to its end on it |
| Session.SentIsAsked | sidecar-src/src/session.rs:112-148 | read by a reader of USE and SET search_path, what is sent for a context asks for exactly that context; nothing is sent when it asks for nothing, unless SQLite is probed; it is refused exactly when its name cannot be quoted |
| Session.AskedIs | sidecar-src/src/session.rs:121-136 | a context asks for its database on MySQL and its schema on PostgreSQL, an empty name being none, and for nothing on SQLite |
| ContextText.UseIsRead | sidecar-src/src/session.rs:121-123 | a USE of any name reads back as the name |
| ContextText.PathIsRead | sidecar-src/src/session.rs:130-135 | so does a search path of any schema |
| Session.AbandonedBeginIsMissed | sidecar-src/src/query.rs:331-349 | the case that fails: a BEGIN that was cancelled but ran on the server goes back to the pool unseen |
| BatchLaws.OneOffLeavesPoolClean | sidecar-src/src/query.rs:146-157 | a one-off batch leaves the pool clean, whatever its statements, unless one was cut short that opens a transaction or sets something on an unmarked connection |
| BatchLaws.CuttingReadsIsHarmless | sidecar-src/src/query.rs:311-349 | so it does when the statements cut short neither open a transaction nor set anything, such as reads that time out |
| Coherence.StepStaysCoherent | sidecar-src/src/session.rs:112-169 | every step keeps the cached context true, unless names are taken back, or moved by an abandoned statement |
| Coherence.StatementExact | sidecar-src/src/session.rs:150-165 | a statement, whether done, failed or abandoned, keeps it true whatever the server does if and only if it has no names but those in force to take back, and does not move names unseen |
| Coherence.CacheIsCoherent | sidecar-src/src/session.rs:112-169 | over every run in which no context switch is taken back, inside a transaction or not, the server resolves names as the cached context asks |
| Coherence.CommittedSwitchesStay | sidecar-src/src/session.rs:112-169 | so it is, told from what the helper sends and hears, whenever PostgreSQL transactions that switch contexts are committed, with no statement failed in them; on MySQL and SQLite whenever no abandoned statement moves names |
| Coherence.OpenedIsTraced | sidecar-src/src/session.rs:89-98 | a session just opened may start such a run, whatever names the connection was left with |
| Coherence.RollbackUndoesSwitch | sidecar-src/src/session.rs:127-165 | a run that fails: schema a, BEGIN, schema b, ROLLBACK |
| Coherence.AbandonedUseIsMissed | sidecar-src/src/query.rs:331-349 | another: a MySQL USE that was given up on and ran all the same |
| Seen.ShowsExact | sidecar-src/src/session.rs:150-156 | a statement leaves the session knowing of the open transaction, whatever the server does, if and only if it is no MySQL SET that may turn autocommit off, none that the session takes for the end of a transaction the server goes on with, nor an abandoned BEGIN unknown to the session |
| Seen.ShowsIffAtAll | sidecar-src/src/session.rs:150-156 | the same condition on the session's own flag is exactly that it holds for every server state the session may be facing |
| Seen.TransactionIsSeen | sidecar-src/src/session.rs:150-156 | over every run of such statements the session's flag shows the server's open transaction |
| Seen.NoTransactionLostSilently | sidecar-src/src/query.rs:169-240 | after such a history a transaction open on the server is still in the slot after a run that succeeds, or a statement of the batch ended it, or the user is told; the idle timer sees it too |
| Seen.TransactionUnseen | sidecar-src/src/session.rs:150-156 | with MySQL autocommit off: SET, COMMIT and a DELETE end in a transaction the session does not know of |
| Seen.SwitchOnUnseen | sidecar-src/src/sqltext.rs:242-252 | autocommit turned on, where it is on, within a transaction: the session takes it for the end, the server goes on |
| Seen.UnseenIsLostSilently | sidecar-src/src/query.rs:184-237 | and a run that finds its connection gone succeeds without a word of it |
| Batch.CollectRows | sidecar-src/src/query.rs:471-510 | the row loop with its early exits collects what the specification of both caps says |
| Batch.CollectedIsPrefix | sidecar-src/src/query.rs:471-510 | a result is a prefix of its stream of at most `limit` rows, truncated if and only if a further row was there, by size only when the budget was used up |
| Batch.CollectedIsCharged | sidecar-src/src/query.rs:500-502 | every row taken is charged, and all but the last stay below the budget |
| BatchEnds.CollectedExact | sidecar-src/src/query.rs:471-510 | a read fails exactly on an error that both caps let it come to; one cut by its size has used up the budget |
| Sizes.SizeIsExact | sidecar-src/src/query.rs:435-448 | the estimated size of a value is the length of its JSON text in bytes, but for commas, escapes and the width of its atoms |
| Batch.RunOneMethod | sidecar-src/src/query.rs:517-559 | a read MySQL refuses to prepare is repeated as text on the budget that is left |
| Batch.RunStatement | sidecar-src/src/query.rs:296-353 | one statement's result, the budget left, whether the batch goes on, and what the session observed |
| Batch.ExecuteBatch | sidecar-src/src/query.rs:286-356 | the loop with its three exits yields the results, the broken flag and the session of the recursive run over the split statements |
| BatchLaws.ResultsAlign | sidecar-src/src/query.rs:296-355 | results match a prefix of the statements one to one |
| BatchLaws.SentOnceInOrder | sidecar-src/src/query.rs:296-355 | each statement is sent at most once and in order; a broken batch ends with the statement that broke it |
| BatchLaws.EveryStatementAnswered | sidecar-src/src/query.rs:296-355 | unless broken or cancelled, every statement has a result |
| BatchLaws.OnlySafeIsSent | sidecar-src/src/query.rs:301-308 | on a read-only connection nothing is sent that the gate refuses |
| BatchLaws.BrokenFirst | sidecar-src/src/query.rs:216-219 | broken with one result means the first statement, and no other, was sent |
| BatchEnds.BatchEndsWell | sidecar-src/src/query.rs:289-351 | a batch ends with its statements, or with the first under which the connection dies or the user cancels, and is broken in the first of these cases only |
| BatchEnds.BrokenIff | sidecar-src/src/query.rs:317-327 | a batch is broken if and only if a statement it answered ran whole into a connection error, of its rows, of their plain-text repetition or of its execution; it is the last one sent |
| BatchEnds.BatchTells | sidecar-src/src/query.rs:296-349 | every statement reached is sent unless cancelled or refused, is answered with its rows, its count or an error as it went, and is told to the session as done, failed or abandoned |
| BatchLaws.ResultsArePrefixes | sidecar-src/src/query.rs:471-534 | over a whole batch, every rows result is a truncated-exactly prefix of one of its streams |
| BatchLaws.StatementCharges | sidecar-src/src/query.rs:471-534 | the budget left is the budget less every row decoded: rows of failed, repeated and cut reads as well; what is returned is the end of them |
| BatchLaws.BudgetIsShared | sidecar-src/src/query.rs:294-316 | over a whole batch, all rows returned but the last stay below the byte budget |
| BatchLaws.DecodedIsWithin | sidecar-src/src/query.rs:294-316 | so do all rows it decodes but the last, returned or not |
| Editor.FirstStatementIsRead | sidecar-src/src/query.rs:242-246 | true exactly when the script has a first statement and it classifies as a read |
| Editor.NoSilentLoss | sidecar-src/src/query.rs:169-240 | a transaction the session knows of before a run that succeeds is still in the slot, or a statement of the batch ended it, or the user is told |
| Editor.LossIsToldIffSeen | sidecar-src/src/query.rs:184-235 | a run that succeeds tells of a lost connection, whatever happens, if and only if the session's flag showed a transaction |
| Editor.SwitchIsRefused | sidecar-src/src/query.rs:170-179 | a database switch under an open transaction is refused and the session stays as it was |
| EditorLaws.ReadyIsRequested | sidecar-src/src/query.rs:158-206 | a run never goes on with the session of another database, and its session is in the context asked for, unless it is the one found under an open transaction |
| EditorLaws.LeftIsRequested | sidecar-src/src/query.rs:199-237 | the session a run leaves belongs to the database asked for |
| EditorLaws.EmptyIsReplaced | sidecar-src/src/query.rs:169-206 | an empty slot, or the session of another database, is replaced by a new session in its context, or the run fails and leaves none |
| EditorLaws.GoneIsReplaced | sidecar-src/src/query.rs:184-206 | so is a session whose connection is gone, with a notice of its transaction |
| EditorLaws.AnsweringIsKept | sidecar-src/src/query.rs:184-186 | a session that answers is kept, in the context asked for |
| EditorLaws.UnaskedIsKept | sidecar-src/src/session.rs:113-115 | one in its context is not asked, when it was not idle or has a transaction open |
| EditorLaws.FaultIsKept | sidecar-src/src/query.rs:191-197 | one that refuses the context is kept; the run fails, unless a transaction is open |
| EditorLaws.ResultsAreTheLast | sidecar-src/src/query.rs:207-237 | results, notice and session are those of the last attempt, and there is a second one exactly when the first broke under its first statement, a read, with no transaction open, and a new connection holds |
| EditorLaws.RefusedSendsNothing | sidecar-src/src/query.rs:169-206 | a run that cannot begin sends nothing of its script |
| Editor.FailedRunKeeps | sidecar-src/src/query.rs:169-231 | under an open transaction: a run fails with the session kept if and only if the switch was refused, and fails with the session lost if and only if the connection was gone and the new one could not be had, or died under a first read and a third could not |
| Editor.LossOnTheWay | sidecar-src/src/query.rs:186-204 | the latter can happen to any session that a run has a context to send to |
| Editor.OneLossOnTheWay | sidecar-src/src/query.rs:186-204 | one run it happens to |
| Editor.WritesAreSentOnce | sidecar-src/src/query.rs:210-246 | in a run, successful or not, no statement is sent more than twice, and twice only the first one when it classifies as a read |
| Editor.EmptySlotHasNoNews | sidecar-src/src/query.rs:199-235 | a run that finds no session has no loss to tell, and one that fails puts no new session in the slot |
| Editor.Connection.constructor | sidecar-src/src/state.rs:54-75 | a connection starts without session and notice |
| Editor.Connection.SetNotice | sidecar-src/src/state.rs:77-79 | the notice is the one set |
| Editor.Connection.TakeNotice | sidecar-src/src/state.rs:81-83 | taking hands out the notice and leaves none |
| Editor.Connection.IdleClose | sidecar-src/src/query.rs:259-273 | a timer that is not due, or finds the lock taken, does nothing; else it empties the slot and leaves a notice exactly when a transaction was open |
| Editor.Connection.OpenFresh | sidecar-src/src/query.rs:200-205 | a sticky session with its context in place, or none |
| Editor.Connection.PrepareSession | sidecar-src/src/query.rs:169-207 | slot and local notice after the switch, probe and reopen rules |
| Editor.Connection.RunAttempts | sidecar-src/src/query.rs:209-232 | slot, results and notice after the batch and its one retry |
| Editor.Connection.RunQuery | sidecar-src/src/query.rs:113-240 | a whole editor run refines the specification the laws are about; the pending notice goes to a run with nothing of its own to tell, and an empty script changes nothing |
| Editor.Connection.Close | sidecar-src/src/state.rs:86-89 | closing empties the slot |
| Protocol.StepKeeps | sidecar-src/src/query.rs:162-275 | every step of a run, timer or close keeps: one lock holder, a pending notice only beside an empty slot, every notice delivered or pending |
| Protocol.EveryInterleavingKeeps | sidecar-src/src/query.rs:162-275 | over every interleaving, notices are delivered once each and in order, and while the lock is free a pending notice means an empty slot |
| Protocol.NeverOverwritten | sidecar-src/src/query.rs:265-270 | a timer about to set a notice finds none pending |
| Protocol.PendingStays | sidecar-src/src/query.rs:233-235 | a pending notice changes by nothing but a run that takes it, and that run has it to tell |
| Protocol.RunLeavesItsWork | sidecar-src/src/query.rs:199-239 | whether it succeeds or fails, a run leaves in the slot what its work comes to; a failed one gives back the lock and takes no notice |
| Protocol.HolderAlone | sidecar-src/src/query.rs:158-239 | only the holder of the editor lock touches the slot and the notice |
| Protocol.IdleLossIsTold | sidecar-src/src/query.rs:263-275 | a timer that closed a session with an open transaction leaves a notice that stays pending until it is handed to a run, whatever comes in between |
| Protocol.TellingStays | sidecar-src/src/query.rs:233-239 | what a run has to tell it goes on to answer, and it comes to tell by taking the notice only |
| Protocol.FirstAnswerDelivers | sidecar-src/src/query.rs:233-239 | as long as a pending notice is not delivered, no further run has got to its answer: the first that does delivers it |
| Protocol.StaleTimerFires | sidecar-src/src/query.rs:251-265 | a timer past its epoch check can be overtaken by any whole run and then closes the session that run left |
| Protocol.LastIffNoneAnswered | sidecar-src/src/query.rs:251-265 | when a timer past its check comes to fire, it is the last one armed if and only if no run answered in between |
| Protocol.AtomicTimersAreLast | sidecar-src/src/query.rs:237-265 | were check and lock one step, and unlock and epoch bump one step, every timer that takes the session would be the last one armed, with no run still to arm its own |
| Protocol.StaleTimerIsReached | sidecar-src/src/query.rs:237-265 | two runs around a check, from a fresh connection, reach the stale timer |
| Protocol.OneStaleTimer | sidecar-src/src/query.rs:237-265 | with any script, on PostgreSQL |
| Pools.Registry.Publish | sidecar-src/src/state.rs:124-133 | an entry already there stays and wins, and the late pool goes to close; else the pool is published |
| Pools.Registry.BackendFor | sidecar-src/src/state.rs:102-134 | with others publishing while it connects: entries stay, a task gets the base pool or the published one whose url names its database, fails only when it can neither find nor open one, and its own pool is published or handed to close |
| Pools.StepFits | sidecar-src/src/state.rs:102-134 | every step keeps: each pool was built for its database, and whoever got one got the published one |
| Pools.StepKeepsPools | sidecar-src/src/state.rs:117-133 | every step keeps each opened pool held by its task, published, or handed to close |
| Pools.RaceKeeps | sidecar-src/src/state.rs:102-134 | under any number of racing tasks the above holds and no entry ever changes |
| Pools.OnePoolPerDatabase | sidecar-src/src/state.rs:102-134 | any two tasks that got a pool for a database, at whatever times, got the same one, built from a url whose last path segment decodes to that database |
| Pools.BasePoolOtherwise | sidecar-src/src/state.rs:103-113 | a task gets the base pool at once if and only if the engine is not PostgreSQL, or it names no database or the attached one |
| Url.EncodeLoop | sidecar-src/src/db.rs:187-198 | the byte loop computes the encoding |
| Url.DecodeEncode | sidecar-src/src/db.rs:187-198 | RFC 3986 decoding gives back the bytes, so the encoding is injective |
| Url.EncodedIsSegment | sidecar-src/src/db.rs:187-198 | nothing in an encoded name ends its path segment |
| Url.UrlNamesDatabase | sidecar-src/src/db.rs:205-220 | the new url keeps the query, and its last path segment decodes to the database |
| Url.OnlyTheSegmentChanges | sidecar-src/src/db.rs:205-220 | repointing twice is repointing once: scheme, credentials, host and query stay |
| Url.PartsStay | sidecar-src/src/db.rs:200-220 | in a url put together from its parts only the path changes: scheme, credentials and host, and query stay |
| PgArray.TwoPassesAreOne | sidecar-src/src/bind.rs:136-137 | the two replacing passes are one escape for each character |
| PgArray.ElementReadsBack | sidecar-src/src/bind.rs:130-139 | an element, nested or not, reads back as its value, with null distinct from the text NULL |
| PgArray.ArrayRoundTrip | sidecar-src/src/bind.rs:117-125 | a reader of the array literal grammar gets back any array, of any depth |
| PgArray.TextFormIsInjective | sidecar-src/src/bind.rs:117-139 | arrays with the same text hold the same values |
| PgArray.PostgresReadsIffRectangular | sidecar-src/src/bind.rs:117-139 | PostgreSQL, which also wants matching extents and no more than six dimensions, reads the text as that array if and only if the array is rectangular, and refuses it otherwise |
| PgArray.RaggedIsRefused | sidecar-src/src/bind.rs:133-135 | a ragged array of depth two, which it refuses |
| Like.LikePattern | sidecar-src/src/rows.rs:78-89 | a text matches the pattern built by the loop if and only if it holds the term literally |
| Like.MatchesIffHolds | sidecar-src/src/rows.rs:76-89 | the same of the pattern as a function: escaping is exact substring search |
| Like.FoldedSearch | sidecar-src/src/rows.rs:122-127 | folding pattern and cell alike, a character to one or several, searches without regard to case |
| Page.BuildPageSql | sidecar-src/src/rows.rs:99-154 | refused exactly for a bad direction or an unquotable name; else one bound pattern for each placeholder of the page and of the count alike |
| Page.SelectMarks | sidecar-src/src/rows.rs:119-148 | whatever names hold, the page read has exactly the placeholders of its predicates, on PostgreSQL numbered from 1 in order |
| PageRead.PageIsRead | sidecar-src/src/rows.rs:128-154 | read back from its text, the page asks for the table, the columns searched, the ordering and its direction, and the window of rows; the count for the same table and columns |
| PageRead.SearchedIff | sidecar-src/src/rows.rs:114-122 | exactly which columns are searched: with a term, the named ones among those asked for |
| Grouping.GroupRows | sidecar-src/src/meta.rs:38-55 | the loop with its pending group hands out the groups of the specification, in order |
| Grouping.CollectFks | sidecar-src/src/meta.rs:288-308 | so does the loop that extends its last entry; columns and referenced columns are equal in number |
| Grouping.RunsIff | sidecar-src/src/meta.rs:35-55 | there is exactly one way to cut the rows, in order, into non-empty stretches of one key with neighbours of different keys, and it is the one computed |
| Grouping.KeysOnceIffClustered | sidecar-src/src/meta.rs:35-55 | each key is reported once if and only if the rows of a key stand together |
| Grouping.GroupIsComplete | sidecar-src/src/meta.rs:35-55 | on such rows a group holds every column of its key, in order |

## Left out

- Bytes: a text is a sequence of Unicode scalar values. Every character the lexer gives a meaning to is ASCII, so runs found by character and by byte are the same; positions count characters.
- Unicode letters: `char::is_alphanumeric` is modelled as every non-ASCII character that is no blank, and `to_uppercase` on directions as ASCII.
- Integer width: `usize` and `u64` counters do not wrap; only `saturating_sub` on the budget and `saturating_mul` on the offset are written out.
- HTTP routes, authentication, process start, request tracking and the `/cancel` endpoint: a cancel is part of what happens to a statement.
- The drivers: row decoding, column headers, catalog queries, bind macros, real pools and sockets. Rows, errors and replies are parameters.
- Error texts, elapsed times and PostgreSQL error positions: an error result carries its statement only.
- JSON numbers are texts of number characters, whose order is not looked at.
- MySQL is read with backslash escapes, its default; `NO_BACKSLASH_ESCAPES` is not modelled, nor is autocommit moved by a statement that does not name it; a `SET` that assigns a quoted or computed value, or several, may move it either way.
- The server model is limited to what the code names: BEGIN, START TRANSACTION, COMMIT, END, ROLLBACK, SAVEPOINT, SET, USE and DDL. `COMMIT AND CHAIN`, stored procedures, `set_config` and settings inside functions are not in it.
- A run's database is taken as resolved: the request's, else the connection's own, else the pool's. The notice of a one-off batch, which repeats its session's flag, is not modelled.
- Protocol.FirstAnswerDelivers: a run whose client goes away before its answer arrives counts as answered.
- Pools.RaceKeeps: does not model teardown, so nothing is said of a pool published after the connection was closed.
- PgArray.PostgresReadsIffRectangular: keeps nested empty arrays apart, which PostgreSQL takes for one empty array where its version reads them at all, and says nothing of elements that do not fit the column's type.
- Coherence.CacheIsCoherent: is about the statements a session runs; names moved by another session are not modelled.
- Editor.Connection.IdleClose: takes the slot and sets the notice in one step; the separate steps, and the epoch check before them, are those of `Protocol`.
- Export.Formatter.Row: takes the rows so far as a ghost argument, which the source does not have.
- The text of the table SQL behind an export, row edits, DDL rebuilding and everything under `src/` (panels, dialogs, tree, settings).
