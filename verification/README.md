# Model of the agent's hard core

This project models five parts of the agent and proves what they promise.

- **SQL text.** The MySQL scanner behind every DDL check (`SqlScanner`), scanning pieces of a text
  (`SqlContext`, `SqlEdges`), masking twice (`MaskingTwice`), stripping ALGORITHM and LOCK clauses (`AlterClauses`,
  `AlterRescan`, `StrippingTwice`), identifiers (`Identifiers`), finding a statement's target (`DdlTarget`), reading
  clauses (`DdlClauses`), building online DDL (`OnlineDdl`, `OnlineDdlScan`, `OnlineDdlAgain`, `OnlineDdlHidden`),
  retargeting a statement (`TargetScan`, `TargetSwap`, `Retargeted`) and the text for pt-online-schema-change
  (`PtoscSql`, `PtoscRescan`). For PostgreSQL, replacing parameters by NULL (`PgLexer`, `PgRelex`); nested comments
  follow section 4.1.5 and dollar quotes section 4.1.2.4 of the PostgreSQL manual. There are two kinds of theorems.
  Re-scanning theorems: the edited text scans to the predicted tokens. And grammars: what a scanner or a pattern finds
  is, in both directions, what a description in bytes and words says (`SqlGrammar`, `PgGrammar`, `TargetGrammar`,
  `ClauseGrammar`, `OnlineRules`, `PtoscRules`, with `Quotes` shared by them).
- **The connection pool** (`ConnectionPool`, `PoolRuns`, `PoolRules`): an LRU pool with reference counts, pins and
  deferred close, for any number of callers that interleave between its locked sections.
- **Schema changes** (`SchemaChange`, `SchemaChangeRuns`, `SchemaChangeMethods`): backup, rehearsal on a scratch table,
  production DDL, fallback and cleanup, as a trace of external steps with arbitrary outcomes.
- **EXPLAIN collection and AWS parameters** (`MySqlExplain`, `PgExplain`, `ApplyPlan` and their `...Runs`,
  `MySqlExplainSessions`, `PgExplainConnections`, `ApplyPlanRules`): one pinned session switched between schemas, shared
  results of equal statements, and recommendations that become a plan, batches and an accounted result.
- **The table-size cache** (`TableSize`, `SnapshotCache`): the last good snapshot, its size policy and the isolation
  of copies, in 64-bit arithmetic.

Text is a sequence of bytes (`Bytes`, `Decimals`, `SortedText`, `Wrappers` and `ExplainErrors` hold what several modules
share). Objects that the program updates in place are classes whose methods are proved against functions on values; the
lemmas in the other modules are about those functions, and those in the `...Grammar`, `...Rules`, `...Methods`,
`...Sessions` and `...Connections` modules say what they do over events, words and bytes. What the outside world
answers is a parameter: an outcome for each step, or the n-th reply to the n-th request.

Some claims are false of the code. Each has its exact condition and an input or run that fails:

- Clause stripping keeps clauses apart if and only if they end in code (`AlterRescan.StrippedClauses`,
  `LineCommentSwallows`).
- Stripping is idempotent if and only if rescanning its result finds only kept clauses, evenly spaced
  (`StrippingTwice.StrippedTwice`, `StrippingTwiceDiffers`).
- Masking is idempotent if and only if no two dashes of code stand directly before a masked byte
  (`MaskingTwice.MaskedTwice`, `MaskingTwiceDiffers`).
- Appended clauses are code if and only if the statement ends in code before the separator, where a final `--` counts
  as code before a comma but not before a space (`OnlineDdlScan.AppendedInCode`, `AppendedAfterComma`,
  `OnlineDdlHidden.ClausesInComment`).
- Pinning marks an entry if and only if it is still listed (`PoolRuns.PinMarksListed`, `PinMissesEvicted`).
- An EXPLAIN has its schema selected if and only if the name is not empty or a USE of the empty name was accepted; else
  it is explained in `mysql`, the schema of a new connection (`MySqlExplainRuns.EveryRun`, `UnnamedSchema`).
- A plan comes with an error if and only if the first variant failed without a denial and a later one, before any
  denial, got a plan (`MySqlExplainRuns.PlanAfterError`, `PlanAndError`).

## Model

| member | source | states |
|---|---|---|
| `SqlScanner.ScanSQL` | task-automator/pkg/phase2/utils.go:103-211 | the in-place scan returns the mask that a pure region lexer over the original bytes gives, and the two reported flags, which that lexer gives without looking at the masking options |
| `SqlScanner.Advance` | task-automator/pkg/phase2/utils.go:115-207 | one turn of the loop takes exactly the next token of the lexer: its length, the state after it, its warnings, and its bytes blanked as their region asks with no other byte touched |
| `SqlScanner.MaskShape` | task-automator/pkg/phase2/utils.go:80-91 | masking keeps the length, changes a byte only to a space and never changes CR or LF |
| `SqlScanner.PlainCode` | task-automator/pkg/phase2/utils.go:137-207 | a byte of plain code is no quote, no `#` and does not open a block comment |
| `SqlScanner.FullyMasked` | task-automator/pkg/phase2/utils.go:80-91 | fully masked text holds no quote, no `#` and no comment opener, and every visible byte is an unchanged byte of code |
| `SqlScanner.MaskGrows` | task-automator/pkg/phase2/utils.go:80-101 | from comments only, to strings, to everything, what is hidden only grows |
| `MaskingTwice.MaskedTwice` | task-automator/pkg/phase2/utils.go:80-91 | masking everything twice is masking it once if and only if no two dashes of code stand directly before a masked byte, for every text |
| `MaskingTwice.MaskingTwiceDiffers` | task-automator/pkg/phase2/utils.go:199-206 | of two dashes before a quoted letter the mask is the two dashes and blanks, and masking that again changes it |
| `SqlContext.ViewContext` | task-automator/pkg/phase2/utils.go:103-211 | text that ends in plain code is scanned alike whatever harmless text follows, except where a final `--` would become a comment |
| `SqlGrammar.RegionsExactly` | task-automator/pkg/phase2/utils.go:103-211 | a text has the regions of the scanner if and only if these are those of its pieces by a grammar in bytes: comments to the end of a line, comments to the first `*/`, quoted texts with doubled and escaped quotes, and single bytes of code |
| `SqlGrammar.WarnedExactly` | task-automator/pkg/phase2/utils.go:103-211 | the scanner warns of exactly what the pieces warn of: a block comment that goes on with `!` or `M!`, and a quote behind a backslash that is read in pairs |
| `SqlGrammar.MaskBytes` | task-automator/pkg/phase2/utils.go:80-101 | what each option shows of a byte, by the region that it is in |
| `AlterClauses.StripAlterOnlineDDLClauses` | task-automator/pkg/phase2/ptosc.go:193-228 | the loop with depth and start returns the top-level clauses that are neither empty nor an ALGORITHM or LOCK clause, trimmed, in order and joined, or an error when there is none |
| `AlterClauses.AppendClause` | task-automator/pkg/phase2/ptosc.go:199-205 | closing a clause appends it exactly if it is not empty and not an online clause |
| `AlterRescan.ChangesSound` | task-automator/pkg/phase2/ptosc.go:193-228 | each kept clause is, scanned by itself or before a comma, one clause without a top-level comma that is no online clause |
| `AlterRescan.RescanJoined` | task-automator/pkg/phase2/ptosc.go:193-228 | rescanning joined clauses finds exactly those clauses if and only if each but the last ends in plain code before its comma |
| `AlterRescan.StrippedClauses` | task-automator/pkg/phase2/ptosc.go:193-228 | for every body, rescanning the stripped result gives exactly the original kept clauses if and only if each but the last is closed; which is sufficient, not necessary, for stripping to be idempotent |
| `StrippingTwice.StrippedFixed` | task-automator/pkg/phase2/ptosc.go:193-228 | stripping leaves a text as it is if and only if rescanning it finds only clauses that are kept and its top-level commas are each followed by exactly one space, with no other white space at the ends of clauses |
| `StrippingTwice.StrippedTwice` | task-automator/pkg/phase2/ptosc.go:193-228 | so stripping a body twice is stripping it once if and only if that holds of the stripped text |
| `StrippingTwice.StrippingTwiceDiffers` | task-automator/pkg/phase2/ptosc.go:193-228 | it does not hold for `a#`, line break, `,b(`, line break, `,LOCK)`: the first pass keeps all of it, the second drops `LOCK)` |
| `OnlineRules.CutIs` | task-automator/pkg/phase2/ptosc.go:206-220 | a clause ends at the first comma that is outside parentheses: from no place before it do more parentheses open than close |
| `OnlineRules.KeptExactly` | task-automator/pkg/phase2/ptosc.go:198-205 | a clause is left out if and only if it is empty or begins with the word ALGORITHM or LOCK, in any case |
| `OnlineRules.NoneOnlineLeft` | task-automator/pkg/phase2/ptosc.go:193-228 | stripping fails if and only if no other clause is there, and if the kept clauses are closed no clause found on rescanning begins with either word |
| `AlterRescan.StrippedWithoutLineComments` | task-automator/pkg/phase2/ptosc.go:193-228 | so it is for every body without line comments |
| `AlterRescan.LineCommentSwallows` | task-automator/pkg/phase2/ptosc.go:200-203 | without that condition it fails for `a#`, a line break and `,b`: trimming eats the line break that ended the comment; stripping that body is idempotent all the same |
| `Identifiers.UndoubledDoubled` | task-automator/pkg/phase2/utils.go:52-64 | undoubling a quote byte undoes doubling it |
| `Identifiers.UnquoteQuoted` | task-automator/pkg/phase2/utils.go:52-64 | unquoting the backtick-quoted escaped form of any name gives the name |
| `Identifiers.QuotedIsOneRegion` | task-automator/pkg/phase2/execution.go:826-828 | to the scanner the quoted form of any name is one closed region, whatever bytes it holds, if no backtick follows |
| `Identifiers.ParseCanonical` | task-automator/pkg/phase2/utils.go:41-50 | parsing the canonical form of two non-empty names gives both back as qualified |
| `DdlTarget.IdentWithin` | task-automator/pkg/phase2/utils.go:10-10 | appending a separator and text without quotes neither extends nor creates an identifier |
| `DdlTarget.AlterComma` | task-automator/pkg/phase2/utils.go:12-12 | appending after a comma leaves the target of an ALTER TABLE statement that goes on after it where it is |
| `DdlTarget.CreateTrailer` | task-automator/pkg/phase2/utils.go:13-13 | appending `CLAUSE=VALUE` or white space after a space leaves the target of such a CREATE INDEX statement where it is |
| `DdlTarget.TargetSpacing` | task-automator/pkg/phase2/utils.go:12-13 | white space after a statement that goes on after its target leaves the target where it is |
| `TargetGrammar.AlterFound` | task-automator/pkg/phase2/utils.go:12-12 | ALTER, up to two of ONLINE and IGNORE, TABLE, an optional IF EXISTS and a table reference: a target is found if and only if the text can be read so, and of all readings it is the one whose reference begins last and then is the longest |
| `TargetGrammar.CreateFound` | task-automator/pkg/phase2/utils.go:13-13 | the same of CREATE, an optional OR REPLACE, an optional kind, INDEX, an optional IF NOT EXISTS, a name, an optional method, ON and a table reference |
| `TargetGrammar.TargetExactly` | task-automator/pkg/phase2/execution.go:739-747 | the target of a statement is that of its reading as ALTER TABLE, and only without one that of a reading as CREATE INDEX |
| `DdlClauses.BlankParentheses` | task-automator/pkg/phase2/execution.go:749-767 | the in-place loop blanks exactly the parentheses and what they hold from a start position on |
| `DdlClauses.TopLevelShows` | task-automator/pkg/phase2/execution.go:749-767 | a byte still shown stands outside all parentheses, and one outside them that is no parenthesis is shown |
| `OnlineRules.TopLevelIs` | task-automator/pkg/phase2/execution.go:749-767 | a byte is shown if and only if it is no parenthesis and from no place before it more parentheses open than close; else there is a space |
| `DdlClauses.AssignsAreStarts` | task-automator/pkg/phase2/execution.go:776-787 | no more `CLAUSE=VALUE` than `CLAUSE=` matches are ever found |
| `DdlClauses.FindExtend` | task-automator/pkg/phase2/execution.go:776-781 | what a clause pattern finds in a tail and in text appended to it is what it finds in both together, given as many assignments as assignment starts |
| `ClauseGrammar.ReadExactly` | task-automator/pkg/phase2/execution.go:770-795 | a clause is absent if and only if no place of the tail begins one, and read with a value if and only if exactly one place does and the value stands there, after an equals sign or as a known value after white space |
| `OnlineDdl.OnlineDDLTopLevelTail` | task-automator/pkg/phase2/execution.go:739-768 | the tail after the target with parentheses and their contents blanked, or an error if no target is found |
| `OnlineDdlScan.SplitGives` | task-automator/pkg/phase2/execution.go:700-727 | if the split-off statement is closed, it is code up to a last visible byte that is no semicolon, and the suffix is only comments and white space |
| `OnlineDdlScan.TidySplit` | task-automator/pkg/phase2/execution.go:700-737 | a tidy statement joined with its suffix is split into the same two parts again, and the suffix is scanned as comments |
| `OnlineDdlScan.Append` | task-automator/pkg/phase2/execution.go:688-695 | clauses appended to a statement that ends in code are code, and the statement is masked as before under every option |
| `OnlineDdlScan.AppendedInCode` | task-automator/pkg/phase2/execution.go:688-695 | after a space the appended clauses are code if and only if the statement ends in code: closed quotes and comments and no trailing `--` |
| `OnlineDdlScan.AppendedAfterComma` | task-automator/pkg/phase2/execution.go:688-695 | after a comma they are code if and only if the statement ends in code before that comma, a trailing `--` included |
| `OnlineDdlHidden.ClausesInComment` | task-automator/pkg/phase2/execution.go:642-698 | `CREATE INDEX k ON t (a) --` directly before an empty block comment builds without error, and every appended byte is in a line comment |
| `OnlineRules.BuildsOnline` | task-automator/pkg/phase2/execution.go:642-698 | a text is built if and only if it is one statement without ambiguity, has a target, and its ALGORITHM and LOCK are absent or one of INPLACE, INSTANT, NOCOPY and NONE |
| `OnlineRules.RefusedUnsupported` | task-automator/pkg/phase2/execution.go:670-681 | it is refused as unsupported if and only if such a statement names COPY or DEFAULT, or with an online algorithm LOCK DEFAULT, SHARED or EXCLUSIVE |
| `OnlineRules.BuiltText` | task-automator/pkg/phase2/execution.go:683-698 | what is built: the statement, the missing clauses after a comma or a space, and the comments after it |
| `OnlineDdlAgain.ReadAfter` | task-automator/pkg/phase2/execution.go:770-795 | an absent clause that is appended is read as present once with its value, and any other clause is read as before |
| `OnlineDdlAgain.TailStays` | task-automator/pkg/phase2/execution.go:739-768 | the top-level tail of the completed statement is the old tail followed by the appended text, with the same target |
| `OnlineDdlAgain.CompleteAgain` | task-automator/pkg/phase2/execution.go:656-697 | a completed statement has one allowed ALGORITHM and LOCK NONE at top level, and completing it again changes nothing |
| `OnlineDdlAgain.BuiltAgain` | task-automator/pkg/phase2/execution.go:642-698 | for a closed, balanced statement with a body: the result is statement, appended clauses and comments, which split and scan as such; the clauses are code; its tail is ready; building again returns it unchanged |
| `OnlineDdlAgain.AppendedAtTopLevel` | task-automator/pkg/phase2/execution.go:688-695 | the appended clauses stand outside all parentheses, and the target stays where it is |
| `OnlineDdlAgain.BuiltTarget` | task-automator/pkg/phase2/execution.go:642-698 | the built text, trailing comments included, has the target of the statement it was built from |
| `PtoscSql.MaskTopLevelSQL` | task-automator/pkg/phase2/ptosc.go:249-269 | the fully masked text with parentheses and what they hold blanked |
| `PtoscRescan.AlterRescanned` | task-automator/pkg/phase2/ptosc.go:148-176 | the text built from an ALTER TABLE is the clauses of the whole statement's mask after the target, without the online ones; rescanning the text gives exactly these if and only if each but the last is closed |
| `PtoscRescan.ChangeIndexTarget` | task-automator/pkg/phase2/ptosc.go:12-12 | the CREATE INDEX pattern for changes finds the table that the target pattern finds, except that OR REPLACE makes it find nothing |
| `PtoscRescan.IndexRescanned` | task-automator/pkg/phase2/ptosc.go:178-190 | online clauses are taken out of exactly the top-level tail that online DDL reads them from, and the rest follows the index definition |
| `PtoscRescan.ClausesRemoved` | task-automator/pkg/phase2/ptosc.go:230-247 | a tail comes back whole if and only if no clause begins at the beginning of a word in it, and else shorter |
| `PtoscRescan.WaitFound` | task-automator/pkg/phase2/ptosc.go:187-189 | a wait is found if and only if one begins at the beginning of a word |
| `PtoscRules.ChangesExactly` | task-automator/pkg/phase2/ptosc.go:148-191 | a change is built if and only if the text is one unambiguous statement that is an ALTER TABLE without a refused modifier and with a clause to keep, or else a CREATE INDEX with a column list and without a wait |
| `PtoscRules.ModifierIs` | task-automator/pkg/phase2/ptosc.go:167-175 | the first IGNORE or IF EXISTS before the target, in any case, is what is refused |
| `PtoscRules.ClauseIs` | task-automator/pkg/phase2/ptosc.go:233-233 | the clause that is taken out: ALGORITHM or LOCK, an equals sign or white space, and one of eight values that ends there |
| `PtoscRules.TakenOut` | task-automator/pkg/phase2/ptosc.go:230-247 | a tail without such clauses is kept, and else it is kept to the first one, which is left out before the search goes on after it |
| `PtoscRules.WaitIs` | task-automator/pkg/phase2/ptosc.go:11-11 | a wait is NOWAIT, or WAIT, white space and a number that is a word of its own |
| `PtoscRules.DefinitionIs` | task-automator/pkg/phase2/ptosc.go:12-12 | the index definition begins after CREATE and ends, without white space, where white space, ON and the table follow |
| `PtoscRules.IndexText` | task-automator/pkg/phase2/ptosc.go:182-190 | the change for a CREATE INDEX is `ADD `, the definition, a space and the tail |
| `TargetScan.TargetFound` | task-automator/pkg/phase2/execution.go:740-746 | wherever the patterns find a target over masked text, the scanner is in plain code on both sides of it, given no backslash-escaped quote |
| `TargetSwap.TargetSwaps` | task-automator/pkg/phase2/execution.go:811-824 | with a canonical reference in the place of its target, the target the patterns find is exactly that reference |
| `Retargeted.RetargetScans` | task-automator/pkg/phase2/execution.go:811-824 | rewriting the target of a statement without ambiguous quotes changes only its bytes; the result names exactly the new table and has the same top-level tail |
| `Retargeted.RehearsalFaithful` | task-automator/pkg/phase2/execution.go:486-494 | every statement built from a sound one has a target to rewrite, and so it is for its rehearsed form |
| `SchemaChange.Executor.Execute` | task-automator/pkg/phase2/execution.go:79-193 | for every outcome of the external steps, the events and the result of a run are those of the protocol |
| `SchemaChange.Executor.ExecuteWithOnlineDDL` | task-automator/pkg/phase2/execution.go:463-589 | preparation errors, the pinned work and the warnings, in the order of the code |
| `SchemaChange.Executor.WithPinnedLockWaitTimeout` | task-automator/pkg/phase2/execution.go:596-629 | acquire, read, reduce, work, restore or discard, release, with each early return |
| `SchemaChange.Executor.Rehearse` | task-automator/pkg/phase2/execution.go:500-546 | scratch schema, scratch table, preflight and production, with the drop whenever the table was created |
| `SchemaChange.Executor.CleanupTestTable` | task-automator/pkg/phase2/execution.go:631-640 | a drop attempt, after which a session that timed out is discarded |
| `SchemaChange.Executor.ExecuteWithPTOSC` | task-automator/pkg/phase2/ptosc.go:15-33 | a dry run and then, only if it succeeded, the migration |
| `SchemaChange.Executor.Change` | task-automator/pkg/phase2/execution.go:140-192 | the choice of method and the fallback after an unsupported online DDL |
| `SchemaChangeMethods.OnlineTells` | task-automator/pkg/phase2/execution.go:463-589 | the online method ends as unsupported if and only if its failed step said so, or, without any step, building refused a listed ALGORITHM or LOCK value |
| `SchemaChangeMethods.MethodsChosen` | task-automator/pkg/phase2/execution.go:140-186 | a dry run or migration happens only when allowed, and, where online DDL is allowed too, only after an unsupported failure; then, with a usable configuration, a dry run does happen |
| `SchemaChangeMethods.OnlineEnds` | task-automator/pkg/phase2/execution.go:140-165 | allowed online DDL succeeds if and only if production did; after any other failure the run ends with the online error and without a step of pt-online-schema-change |
| `SchemaChangeMethods.StopsEarly` | task-automator/pkg/phase2/execution.go:88-138 | nothing follows a failed capacity check or a failed backup, and the result says which it was |
| `SchemaChangeMethods.ChecksFirst` | task-automator/pkg/phase2/execution.go:79-138 | the checks come first, once each at most, and a plan that is not valid starts none |
| `SchemaChangeMethods.PtoscArguments` | task-automator/pkg/phase2/ptosc.go:35-146 | the connection string and the change text that both calls get, part by part |
| `SchemaChangeMethods.NamedIs` | task-automator/pkg/phase2/execution.go:292-295 | a target needs a database and a name that are not blank |
| `SchemaChangeMethods.SuccessSays` | task-automator/pkg/phase2/execution.go:138-192 | a success names the method that made the change, and the backup |
| `SchemaChangeMethods.WarningsTell` | task-automator/pkg/phase2/execution.go:540-589 | the warnings of a success: a scratch table left, a session not restored, the online error and the fallback |
| `SchemaChangeRuns.RunAccepted` | task-automator/pkg/phase2/execution.go:79-193 | every run keeps to a monitor of what each step requires, and ends with no scratch table and no pinned session |
| `SchemaChangeRuns.AcceptedAt` | task-automator/pkg/phase2/execution.go:463-640 | at each event of an accepted trace the monitor allows it, and what the monitor remembers is explained by earlier events |
| `SchemaChangeRuns.ProductionGuarded` | task-automator/pkg/phase2/execution.go:500-541 | production DDL is the built statement and runs only after the requested backup, and after that statement retargeted to a scratch copy of the source succeeded |
| `SchemaChangeRuns.MigrationGuarded` | task-automator/pkg/phase2/ptosc.go:15-135 | the migration runs only after the requested backup and after a successful dry run with the same connection and alter text |
| `SchemaChangeRuns.ScratchDropped` | task-automator/pkg/phase2/execution.go:523-531 | every scratch table that was created gets a drop attempt later in the run |
| `SchemaChangeRuns.SessionPutBack` | task-automator/pkg/phase2/execution.go:614-625 | once the lock timeout was changed, the session is restored or discarded before it is released |
| `SchemaChangeRuns.RehearsalIsolated` | task-automator/pkg/phase2/execution.go:479-541 | for a sound statement, what was rehearsed before production names exactly the scratch table of the run and goes on after it as the production statement does |
| `SchemaChangeRuns.SuccessIsOneChange` | task-automator/pkg/phase2/execution.go:138-192 | a run returns success exactly when one change step reported success; otherwise none did |
| `PgLexer.SkipBlockComment` | metrics/postgresql/explain_sql.go:127-153 | the end of a nested block comment, or that it never closes |
| `PgLexer.SkipQuoted` | metrics/postgresql/explain_sql.go:463-504 | the end of a quoted string or identifier, with doubled quotes and, in an E-string, backslash escapes |
| `PgLexer.DollarQuoteTag` | metrics/postgresql/explain_sql.go:506-524 | the tag at a dollar sign, if there is one |
| `PgLexer.ContainsUnquotedParameter` | metrics/postgresql/explain_sql.go:420-461 | whether a parameter occurs in code before anything that never closes |
| `PgLexer.ReplaceParametersWithNull` | metrics/postgresql/explain_prepared.go:180-241 | the copying loop returns the tokens with each parameter in code written as NULL, or the query unchanged if something never closes |
| `PgRelex.BehindDecides` | metrics/postgresql/explain_sql.go:482-490 | the look-behind for an escape string is decided by an automaton over the text before the quote |
| `PgRelex.ParameterShape` | metrics/postgresql/explain_prepared.go:221-232 | a parameter token is a dollar sign and all the digits after it |
| `PgRelex.Relex` | metrics/postgresql/explain_prepared.go:180-241 | the rewritten text scans to exactly the original tokens with each parameter turned into four code letters |
| `PgRelex.ReplacedScans` | metrics/postgresql/explain_prepared.go:180-241 | tokens are the query cut into pieces, only parameters are replaced, and no unquoted parameter remains |
| `PgRelex.ReplacedTwice` | metrics/postgresql/explain_prepared.go:180-241 | replacement is idempotent, for every query |
| `PgRelex.UnchangedExactly` | metrics/postgresql/explain_prepared.go:180-241 | a query comes back unchanged if and only if it has no unquoted parameter or holds something that never closes |
| `PgRelex.ContainsIsHas` | metrics/postgresql/explain_sql.go:420-461 | the scan finds a parameter exactly if the tokens hold one |
| `PgGrammar.TokenExactly` | metrics/postgresql/explain_prepared.go:180-241 | a token is next if and only if it is one by a grammar in bytes: a line comment to the line feed or the end, a block comment to where its openers and closers first balance, a quoted text to the first quote that is neither doubled nor escaped, a dollar quote to the first repetition of its tag, a dollar sign and digits, or one byte of code |
| `PgGrammar.LexIs` | metrics/postgresql/explain_prepared.go:180-241 | a query is tokens of that grammar to its end, or to where something begins that never closes |
| `PgGrammar.AfterLineComment` | metrics/postgresql/explain_prepared.go:186-191 | a line comment ends with its line: what replacement makes of the text before it and of the rest is joined with the comment between, unchanged |
| `ConnectionPool.Pool.constructor` | utils/database_connection_pool.go:44-49 | a new pool is empty and open, with the default limit for a non-positive one |
| `ConnectionPool.Pool.Begin` | utils/database_connection_pool.go:54-69 | the first half of Acquire: refused, reused, or room made and a connect needed |
| `ConnectionPool.Pool.Finish` | utils/database_connection_pool.go:82-96 | the second half: the new handle closed and refused, closed in favour of a listed one, or inserted with eviction over the limit |
| `ConnectionPool.Pool.UseEntry` | utils/database_connection_pool.go:130-139 | a listed entry moves to the front and gains a reference |
| `ConnectionPool.Pool.EvictIdleEntry` | utils/database_connection_pool.go:155-162 | the walk from the back evicts the first entry that is unpinned and unreferenced, if any |
| `ConnectionPool.Pool.EvictOverLimitEntries` | utils/database_connection_pool.go:143-151 | the walk from the back that evicts unpinned entries while over the limit |
| `ConnectionPool.Pool.EvictAt` | utils/database_connection_pool.go:164-172 | an entry leaves list and map and is closed if unreferenced |
| `ConnectionPool.Pool.ReleaseEntry` | utils/database_connection_pool.go:177-184 | a reference is given back; an evicted entry without references is closed |
| `ConnectionPool.Pool.MarkPinned` | utils/database_connection_pool.go:107-111 | the entry listed under a name is pinned, if there is one |
| `ConnectionPool.Pool.CloseAll` | utils/database_connection_pool.go:121-126 | the pool is closed and every listed entry evicted |
| `ConnectionPool.Releaser.Fire` | utils/database_connection_pool.go:174-185 | the first call gives the reference back, later calls change nothing |
| `PoolRuns.StepKeeps` | utils/database_connection_pool.go:53-186 | every step of any caller keeps the invariant of map, list, reference counts, flags and closes |
| `PoolRules.BeginIs` | utils/database_connection_pool.go:54-69 | a closed pool refuses; a listed name is shared and nothing is connected; any other name is to be connected, and a full pool first gives up the unpinned, unreferenced handle used longest ago, if there is one |
| `PoolRules.FinishIs` | utils/database_connection_pool.go:82-96 | a closed pool refuses and closes the new handle; a name listed meanwhile is shared and the new handle closed; any other name gets an entry held once, and a full pool gives up the unpinned entry used longest ago |
| `PoolRuns.SafeAlways` | utils/database_connection_pool.go:53-186 | in every interleaving: listed handles are open, at most the limit are listed, references equal outstanding releases, no referenced handle is closed, none is closed twice, map and list agree, and the list is in the order of last use |
| `PoolRuns.VictimIsOldest` | utils/database_connection_pool.go:143-162 | the victim of an eviction is the least recently used entry that may be evicted, also while an insertion has the list over the limit |
| `PoolRuns.BeginEvicts` | utils/database_connection_pool.go:66-68 | making room before connecting closes at most one handle, and only at the limit: the least recently used one that is unpinned and idle |
| `PoolRuns.OverLimitEvictsOne` | utils/database_connection_pool.go:143-151 | one over the limit, exactly one entry is evicted, the last unpinned one of the list |
| `PoolRuns.FinishEvicts` | utils/database_connection_pool.go:93-95 | an insertion evicts nothing below the limit and at it exactly one entry: the least recently used unpinned one, which may be the entry just inserted |
| `PoolRuns.ClosedForever` | utils/database_connection_pool.go:54-58 | once closed, the pool stays closed and empty in every continuation |
| `PoolRuns.CloseEmpties` | utils/database_connection_pool.go:117-127 | closing empties the pool |
| `PoolRuns.LateAcquire` | utils/database_connection_pool.go:82-87 | an Acquire that connected after Close is refused and closes what it opened |
| `PoolRuns.AllClosedOnce` | utils/database_connection_pool.go:164-186 | closed, with no caller connecting and all releases fired, every handle ever opened was closed exactly once |
| `PoolRuns.PinMarksListed` | utils/database_connection_pool.go:102-114 | pinning marks the acquired entry exactly if it is still listed |
| `PoolRuns.PinMissesEvicted` | utils/database_connection_pool.go:99-114 | a run from a new pool of one handle that reaches the other case: the entry of a caller that still uses it was evicted, and pinning leaves it unpinned |
| `PoolRuns.PinnedStays` | utils/database_connection_pool.go:99-114 | a pinned listed handle stays listed and open until Close |
| `MySqlExplain.ExplainCollectionState.Session` | utils/explain_collection_state.go:153-180 | the pinned session or the remembered connect error; a failed pin is not remembered; a new session has `mysql` selected |
| `MySqlExplain.ExplainCollectionState.ResetSession` | utils/explain_collection_state.go:186-193 | the session and the memory of its schema are dropped, if there is a session |
| `MySqlExplain.ExplainCollectionState.TryBeginAttempt` | utils/explain_collection_state.go:80-89 | true once for each non-empty key |
| `MySqlExplain.ExplainCollectionState.MarkDatabaseFailed` | utils/explain_collection_state.go:106-117 | the reason of a failed schema is remembered |
| `MySqlExplain.ExplainCollectionState.UseExplainSchema` | metrics/mysql/dbCollectQueries.go:620-644 | the loop of two attempts: reuse, USE, and a new session after a broken one |
| `MySqlExplain.ExplainCollectionState.ExecuteExplain` | metrics/mysql/dbCollectQueries.go:660-719 | up to three EXPLAINs, with the early returns and the error kept from an earlier one |
| `MySqlExplain.ExplainCollectionState.Attempted` | metrics/mysql/dbCollectQueries.go:579-605 | the selection, the explanation and the one retry on a new session |
| `MySqlExplain.ExplainCollectionState.ExplainRow` | metrics/mysql/dbCollectQueries.go:545-617 | one row: filters, failed schema, begun key, attempt and what is written back |
| `MySqlExplain.ExplainCollectionState.CollectExplain` | metrics/mysql/dbCollectQueries.go:521-618 | the loop over the ranking with its limit of plans |
| `MySqlExplainRuns.EveryRun` | metrics/mysql/dbCollectQueries.go:521-644 | in every run, an EXPLAIN is sent with its schema selected on the server if and only if the schema name is not empty or the server accepted a USE of the empty name on that connection before, and else in `mysql`, which a new connection has selected; a schema marked failed is never used again; no key is begun twice |
| `MySqlExplainSessions.EverySession` | metrics/mysql/dbCollectQueries.go:579-644 | in every run no session is left on a connection whose last EXPLAIN told that it is gone, and after such an EXPLAIN the next one goes to a later connection, unless it is the next variant of the same query |
| `MySqlExplainSessions.RowAttempt` | metrics/mysql/dbCollectQueries.go:579-617 | a row whose first explanation broke is explained again on a later connection and carries that explanation; a second break drops the session; a failed selection, first or again, marks the schema and the row |
| `MySqlExplainSessions.RowNotAttempted` | metrics/mysql/dbCollectQueries.go:545-578 | which rows send nothing, and what is written into them |
| `MySqlExplainSessions.SelectTries` | metrics/mysql/dbCollectQueries.go:620-644 | a selection sends no USE on a session that has the schema, else one, and a second on a later session only after the first broke its own |
| `MySqlExplainSessions.SessionOpens` | utils/explain_collection_state.go:153-180 | opening a session asks nothing when there is one or a connect failed before; a failed connect is kept with its reason, a failed pin is not, and a new connection has `mysql` selected |
| `MySqlExplain.VariantsAre` | metrics/mysql/dbCollectQueries.go:660-664 | the second variant has a single quote for each double quote, the third a backtick |
| `MySqlExplainRuns.UnnamedSchema` | metrics/mysql/dbCollectQueries.go:628-636 | the other case is reached: a row without a schema name, on a new session, is explained in the `mysql` schema, the default that utils/utils.go:103-106 puts in place of an empty name |
| `MySqlExplainRuns.CollectRows` | metrics/mysql/dbCollectQueries.go:521-618 | at most 100 plans, counting exactly the rows that gained one; rows with a plan or error and rows outside the ranking stay as they were |
| `MySqlExplainRuns.GoesOn` | metrics/mysql/dbCollectQueries.go:540-544 | a pass goes on with the next row until 100 plans are found |
| `MySqlExplainRuns.PlanAfterError` | metrics/mysql/dbCollectQueries.go:660-719 | a plan comes with an error exactly when the first variant failed without a denial and a later one, before any denial, got a non-empty plan |
| `MySqlExplainRuns.PlanAndError` | metrics/mysql/dbCollectQueries.go:579-617 | a first pass whose row ends with both: its EXPLAIN fails as written and finds a plan with other quotes |
| `MySqlExplainRuns.ExplainSends` | metrics/mysql/dbCollectQueries.go:660-719 | one to three EXPLAINs are sent: the query and its two re-quoted forms in order |
| `MySqlExplainRuns.ExplainReplies` | metrics/mysql/dbCollectQueries.go:660-719 | the first plan or denial, or else the third reply, gives the plan or the error; a missing SELECT privilege is `need_grant_permission` |
| `PgExplain.ExplainCollectionState.Connect` | utils/explain_collection_state.go:121-146 | the remembered reason of a failed database, the handle in hand, or one acquired; a failure is remembered |
| `PgExplain.ExplainCollectionState.CollectExplainDetails` | metrics/postgresql/explain.go:12-82 | the three loops, for every iteration order of the maps |
| `PgExplain.ExplainCollectionState.VisitRow` | metrics/postgresql/explain.go:31-71 | one row of a ranking: filters, failed database, recorded or begun key, connection, execution and what is written back |
| `PgExplainRuns.ExecutedOnce` | metrics/postgresql/explain.go:12-82 | over any number of rankings each explain key is executed at most once |
| `PgExplainConnections.EveryExecution` | metrics/postgresql/explain.go:12-82 | over any number of rankings every execution is on a connection to the database of its row, and a database once failed is neither connected nor executed on again |
| `PgExplainConnections.VisitLogs` | metrics/postgresql/explain.go:31-71 | a visit connects unless it has the database in hand, and executes once it has, only for a new key |
| `PgExplainConnections.VisitRows` | metrics/postgresql/explain.go:52-71 | a visited row keeps what it had, carries the failure of its database, or what the server replied |
| `PgExplainConnections.VisitFails` | utils/explain_collection_state.go:121-146 | a database fails if and only if a connect for a new row of it is refused, with that reason |
| `PgExplainConnections.UnreachedRows` | metrics/postgresql/explain.go:52-81 | after a ranking, a row visited while or before its database failed carries the failure, unless a result for its key fills it |
| `PgExplainRuns.Quota` | metrics/postgresql/explain.go:26-71 | a ranking counts exactly the executions that found a plan, at most 100 |
| `PgExplainRuns.GoesOn` | metrics/postgresql/explain.go:26-29 | a ranking goes on with the next row until 100 plans are found |
| `PgExplainRuns.KeyExactly` | metrics/postgresql/explain.go:95-101 | rows have one explain key if and only if database, query id and query agree, given that the first two hold no zero byte |
| `PgExplainRuns.SiblingsShare` | metrics/postgresql/explain.go:73-81 | after a ranking every row of an executed key carries that plan and error, and every row of a key with an earlier result carries a result recorded for it |
| `PgExplainRuns.SiblingsAgree` | metrics/postgresql/explain.go:73-81 | so siblings agree in plan and error, even when their database failed meanwhile |
| `ApplyPlan.ScopeState.BuildScopeParameter` | awsrds/parameters.go:260-321 | one name is planned or skipped with its reason, by the checks in their order |
| `ApplyPlan.BuildApplyPlan` | awsrds/parameters.go:215-252 | plans and skips of both scopes over the recommended names in ascending order, instance membership first, absent names skipped with the instance |
| `ApplyPlanRules.PlanExactly` | awsrds/parameters.go:260-321 | a parameter is in the plan of a scope if and only if its scope is the home of the name, the server is an Aurora writer if that is the cluster, the entry is modifiable and supports the engine mode, the wanted value differs from the live or else current one, and the type is dynamic, or static without the dynamic-only option; with its value and method |
| `ApplyPlanRules.SkipsExactly` | awsrds/parameters.go:260-321 | a name is skipped with a reason if and only if that is the first of these checks that fails |
| `ApplyPlanRules.RouteIs` | awsrds/parameters.go:225-251 | every name is planned or rejected by these rules, and a name in neither group is absent |
| `ApplyPlanRules.WantedIs` | awsrds/parameters.go:351-423 | the wanted value of a name, with 1024 bytes to the unit of work_mem and maintenance_work_mem and 8192 to that of the other three |
| `ApplyPlanRules.NumberExactly` | awsrds/parameters.go:356-360 | a text is taken for a number if and only if it is one by section 6 of RFC 8259: a minus or none, an integer without leading zeros, a fraction or none and an exponent or none |
| `ApplyPlanRules.TextExactly` | awsrds/parameters.go:351-375 | what each kind of value stands for |
| `SortedText.SortStrings` | awsrds/parameters.go:225-229 | sorting returns the same names in ascending order of their bytes |
| `SortedText.OneOrder` | awsrds/parameters.go:225-229 | a set of names has one ascending order, so the plan does not depend on how the map is walked |
| `ApplyPlan.Client.ApplyScopeBatches` | tasks/task_apply_aws.go:475-531 | the loop of batches: calls made, parameters and names applied, and the failed batch |
| `ApplyPlan.Client.ApplyAWSPlan` | tasks/task_apply_aws.go:450-473 | the instance batches and then the cluster batches, unless one failed |
| `ApplyPlanRuns.PlanningConverges` | awsrds/parameters.go:260-321 | once the planned values are the live values, the same recommendations give an empty plan in both scopes |
| `ApplyPlanRuns.UnitsExact` | awsrds/parameters.go:389-423 | a PostgreSQL memory parameter is planned as a number of native units that amounts to exactly the recommended bytes |
| `ApplyPlanRuns.EveryNamePlaced` | awsrds/parameters.go:225-251 | every recommended name is planned or skipped, once, in one scope |
| `ApplyPlanRuns.EveryNameAccounted` | tasks/task_apply_aws.go:450-531 | every recommended name is exactly once applied, skipped, in a failed batch or in a tail that was not attempted |
| `ApplyPlanRuns.BatchesSplit` | tasks/task_apply_aws.go:475-531 | applied parameters, failed batch and tail make up the plan in order, with no tail unless a batch failed |
| `ApplyPlanRuns.BatchesSent` | tasks/task_apply_aws.go:475-531 | calls carry twenty parameters of their scope, and one to twenty at the end of the plan; together they are the attempted part of it, and all but the last succeeded |
| `ApplyPlanRuns.NoClusterAfterFailure` | tasks/task_apply_aws.go:460-471 | before any cluster call every instance call succeeded and the instance plan was applied whole |
| `ApplyPlanRuns.AppliedPrefix` | tasks/task_apply_aws.go:475-531 | what is applied is a prefix of the plan, which is sorted by name |
| `Decimals.ParsePrinted` | awsrds/parameters.go:389-404 | reading a printed number gives it back |
| `Decimals.DecimalsRoundTrip` | awsrds/parameters.go:378-384 | truncation of plain decimals truncates its own results to themselves, which is what convergence asks of the float conversion |
| `SnapshotCache.CloneEngine` | metrics/tablesize/values.go:102-116 | a copy with the same contents that shares no object with the original |
| `SnapshotCache.Cache.Peek` | utils/cache/cache.go:47-56 | a fresh copy of the last good snapshot, or nothing |
| `SnapshotCache.Cache.GetOrRefresh` | metrics/tablesize/cache.go:82-109 | refreshed exactly when the snapshot is not usable; what is stored, what is answered, and that the answer is a fresh copy |
| `SnapshotCache.ChangeReturned` | utils/cache/cache.go:83-92 | whatever sequence of changes a caller makes to a returned snapshot - inner maps, links, removals - leaves what the cache holds |
| `SnapshotCache.ChangeRefreshed` | utils/cache/cache.go:83-91 | so do any such changes to the object a refresh returned |
| `SnapshotCache.HoldsLastGood` | utils/cache/cache.go:63-93 | after any calls the cache holds the last successful refresh, with the expiry set then |
| `SnapshotCache.Expires` | metrics/tablesize/cache.go:82-101 | a snapshot of a large server expires as configured, and any other after 11 hours and 55 minutes |
| `SnapshotCache.EveryReply` | utils/cache/cache.go:63-93 | every reply is the value of the last successful refresh, stale exactly if this refresh failed; an error only before the first success |
| `SnapshotCache.NoErrorAfterSuccess` | utils/cache/cache.go:75-81 | after the first success there are no errors |
| `SnapshotCache.RefreshesWhen` | metrics/tablesize/cache.go:87-89 | a refresh is called exactly when nothing is held, it has expired, or its size category changed, the category in unbounded integers |
| `TableSize.EligibleExact` | metrics/tablesize/cache.go:111-127 | the 64-bit test for a large server is the test in unbounded integers |
| `TableSize.EngineTotal` | metrics/tablesize/values.go:89-99 | the loop returns the unbounded sum of the engines' `Total Size` metrics as sizes, cut off at the largest 64-bit number; a missing or non-numeric metric counts 0 |
| `TableSize.TotalAnyOrder` | metrics/tablesize/values.go:89-99 | the sum is the same for every iteration order |
| `TableSize.EngineTableCount` | metrics/tablesize/values.go:119-125 | the count is the unbounded sum of the `Table Number` metrics modulo 2^64 |
| `TableSize.FloatSaturates` | metrics/tablesize/values.go:66-74 | a float becomes its integer part kept within 0 and the largest 64-bit number, an infinity the nearer of the two, and NaN 0 |
| `TableSize.WordsSize` | metrics/tablesize/values.go:39-50 | text counts as its decimal number, or as the float it reads as if it is none within 64 bits, whatever white space is around it |
| `TableSize.NumbersSize` | metrics/tablesize/values.go:51-64 | a number counts as itself, printed or not, and a negative or missing one as 0 |
| `TableSize.RAMSaturates` | metrics/tablesize/values.go:14-37 | memory in units of 1024 bytes is scaled with exact saturation |
| `TableSize.TTLSaturates` | metrics/tablesize/values.go:77-86 | seconds become nanoseconds with exact saturation, and 0 if not positive |

## Left out

- Pool entries are numbered positions of a table, not pointers; a handle is a number; each locked section is one atomic
  step; goroutines, timeouts inside `database/sql` and idle-time settings are not modelled.
- The regular expressions are matched by hand over bytes, in the order of their alternatives. Unicode case folding
  (the long s, the Kelvin sign), Unicode white space and the upper bound U+FFFF of bare identifiers are not modelled.
- Validating and qualifying a DDL target, REFERENCES qualification, and the rename and partition-exchange checks:
  a request is modelled from the validated statement on.
- Digests of scratch table names, disk capacity arithmetic, backup programs and external commands: each is a step
  with an outcome.
- Logging, stage timing, redaction and debug output: no state that the properties need.
- PtoscRescan.ClausesRemoved: what is left of a CREATE INDEX tail is not searched for clauses again.
- SchemaChange.Executor.Execute: result texts of errors are kinds, and a method other than none stands for every backup
  method.
- Typed-parameter rewriting and prepared EXPLAIN for PostgreSQL, and the detection of data-modifying statements.
- MySqlExplain.ExplainCollectionState.CollectExplain: the row filters on names, statement kind and age are two flags
  of a row, and the order of the ranking is a parameter. A row without a schema name is accepted; the caller that
  exists (metrics/mysql/dbCollectQueries.go:148-196) gives a missing one as the text `NULL`, which the filter drops.
- PgExplain.ExplainCollectionState.CollectExplainDetails: the row filters are a flag of a row, the normalized query id
  is a field, and the pool behind a connection is a reply; the pool is modelled by itself.
- ApplyPlanRuns.PlanningConverges: asks of the float conversion that a printed truncated value reads back as itself, and
  of the live tables that entries are indexed by their own name, as reading a parameter group indexes them.
- ApplyPlan.BuildApplyPlan: the library's sort is an insertion sort with the same result; floats come with their printed
  form.
- Waiting for AWS, reboot checks, exit codes and group validation, and the failures they add to a result later.
- SnapshotCache.Cache.GetOrRefresh: the generic cache and its table-size policy are one class for engine maps; the two
  locks are one atomic step, and a refresh that panics is not modelled.
- TableSize.FloatSaturates: a finite float stands as the real number it is; the rounding in reading text as a float
  belongs to that conversion, which is a parameter.
- Metric gathering, HTTP repeaters, cloud clients, GCP and Azure, task dispatch, timers and configuration defaults.
