# lazysql: a verified model

lazysql is a terminal client for PostgreSQL, MySQL, MariaDB, SQLite and DuckDB.
This project models the parts of it where a mistake would reach the user's data,
and proves what they promise. It is written in Dafny; `dafny verify dfyconfig.toml`
checks all of it.

- **Lexing and rendering SQL** (`Text`, `Sqlhl`, `SqlhlLocality`, `TokenReading`,
  `Literal`, `Fragments`, `Ddl`, `ExpressionReading`, `RequestReading`, `CreateTable`,
  `ColumnReading`, `EngineLiterals`). The never-failing tokenizer as a class whose
  scanner is proved against a function of the text that is left, and that against an
  automaton that reads one character at a time; a locality theorem over the whole
  scanner; the quoting of literals and identifiers, which the tokenizer reads back; the
  validators of typed types and DEFAULT expressions, which admit exactly the fragments
  that stay inside their clause; and CREATE TABLE, whose text reads back as the columns
  that were asked for, for the tokenizer and, under a condition on typed strings, for
  the engine.
- **Scripts** (`Statements`, `ScriptReading`, `InsertScript`, `InsertReading`,
  `InsertExport`). The statement splitter is lossless and idempotent and cuts exactly at
  the semicolons at top level; an exported INSERT script splits into exactly its
  statements, and they read back as the rows.
- **Staged changes** (`Changeset`, `Merge`, `MergeInputs`, `ChangeText`). The op list
  with its index, over every run of commands; the merging of cell edits, which leaves
  the database as running the changes one by one would; and the texts and arguments of
  the statements, which read back as what was meant.
- **Interactive transactions** (`TxText`, `Tx`, `TxWords`). The handle is a sound account
  of the server's transaction in every run, and gives up none that is still open, against
  a server that may do whatever the comments of the monitors say it does, on all five
  engines; what it refuses is what the server takes for control or an implicit commit.
- **SSH tunnels** (`Tunnel`, `Forward`). Teardown in every interleaving of dials,
  owners and closes; the objects are classes with one method a mutex section, and
  the protocol is a state machine over those sections.
- **ALTER COLUMN** (`AlterColumn`, `AlterInputs`, `AlterRequest`). The spellings of the engines, run on
  an abstract table, end in the same column. The rules for DEFAULT and ON UPDATE are
  those of MySQL's manual and SQLite's documentation; which bare expressions the other
  engines take, and what else a server refuses, are parameters.
- **Graphs and trees** (`DdlOrder`, `PlanForest`). Foreign-key order and the SQLite plan.
- **Filters and placeholders** (`Filter`, `FilterParse`, `FilterRoundTrip`,
  `FilterTheorem`, `FilterMeaning`, `FilterTyped`, `Placeholders`, `ParameterReading`,
  `Markers`, `Collisions`). The quick filter printed and parsed back, and the rows it
  selects; values bound to the holes of a statement.
- **Streaming and windows** (`Stream`, `Columns`, `Grid`). Export page by page or in
  one pass, with projection; the display order and the windows of the grid.

Modules whose names end in Reading hold readers written without the functions that
write or scan a text; the theorems that connect the two say what a text means.

Text is a sequence of characters. What Unicode says about spaces, letters and digits,
which words are keywords, and which letters make a typed string of the quote after them
are parameters; they only have to agree with ASCII. `Sqlhl.Coded` says what the letters
are in the tokenizer.

## Where the code and its promises part

Ten promises hold only under a condition. The lemmas state the condition, as an
if-and-only-if wherever both halves are true, and a concrete input shows that it is
needed.

- `ErrTxLost` says that nothing in the transaction was committed. When the reply to a
  COMMIT is lost with the connection, the server may have committed
  (`Transactions.LostMeansNotCommitted`, `Transactions.LostReplyCommitted`).
- The spelling of a MySQL expression default is parenthesized, the family of
  CURRENT_TIMESTAMP aside, which is a bare default for DATETIME and TIMESTAMP. The code
  goes by the first letters and by the first and last character. `NOW() + INTERVAL 1 DAY`
  and `CURRENT_DATE` are left bare and are not of the family; `(1) + (2)` starts and ends
  with a parenthesis and is left as it is. The family itself is left bare whatever the
  column's type and precision and after ALTER COLUMN .. SET DEFAULT, so a timestamp
  column with a kept CURRENT_TIMESTAMP cannot become a date (`AlterColumns.ExprMeans`,
  `AlterColumns.AlterReaches`, `AlterInputs.StartsLikeNow`, `AlterInputs.TodayLeftBare`,
  `AlterInputs.TwoGroups`, `AlterInputs.StampSuits`, `AlterInputs.RetypeLosesStamp`).
- A default that was accepted is one for its engine. SQLite wants parentheses around an
  expression, and `1 + 2` is written without (`AlterColumns.DefaultMeans`,
  `AlterInputs.SumNotTaken`).
- An accepted expression stays inside its clause. It does for the tokenizer; an engine
  that has backslashes escape after fewer prefixes than the tokenizer ends some typed
  strings earlier (`EngineLiterals.EngineReads`, `EngineLiterals.NationalDiffers`).
- A column has the type and the nullability that were asked for. A type may itself hold
  a word NOT or DEFAULT, which the check of types does not look for: `int NOT NULL` is
  accepted as the type of a nullable column (`ColumnReading.ColumnReads`,
  `ColumnReading.TypeTakesClause`).
- A filter's text parses back to the filter. It does not when a float column is
  compared with an integer spelling or with `inf`, when a boolean is typed as a letter
  or a digit, or when a column is called AND, OR or, in first place, WHERE
  (`FilterTheorem.RoundTrip`, `FilterTheorem.BooleanLetterLost`).
- A bound statement carries the dialect's own markers. On PostgreSQL a hole that
  directly follows a word, as in `x?` or a slice `a[lo:hi]`, becomes part of that word
  (`Markers.BoundReadsBack`, `Markers.MarkerBecomesName`); and the number of a marker
  may be one that the statement already uses, as in `SELECT $01, ?`
  (`Collisions.MarkerNumbers`, `Collisions.NumberTaken`, `Collisions.ZeroOneTaken`).
- Every placeholder is asked for. Placeholders that touch, as in `??` or `:a:b`, are one
  token and asked for once (`Collisions.OwnHole`, `Collisions.Neighbours`).
- Merging the cell edits of a row is safe as long as no delete of it is staged. It is
  not when one of the edits but the last sets a key column, nor when what is staged
  between two of them gives a row the key, takes the key that the second gives, inserts
  the key or changes the table's schema (`Merge.MergingPreservesMeaning`,
  `Merge.KeyEditMatters`, `MergeInputs.KeyGivenBetween`, `MergeInputs.KeyDeletedBetween`,
  `MergeInputs.InsertedBetween`, `MergeInputs.ColumnAddedBetween`).
- Every row of a SQLite plan is shown. Rows whose parents go round in a circle are not
  (`PlanForest.EveryRowOnce`).

The key of a staged change names its target as long as its names and key values hold
no NUL; within one table a NUL matters only in front of the last key value
(`Changesets.OneTableKeys`, `Changesets.NulCollides`).

## Model

| member | source | states |
|---|---|---|
| `Sqlhl.Scanner.Emit` | internal/sqlhl/sqlhl.go:113-130 | a token ends where it is said to, clamped into the rest of the source, and merges with a neighbour of its own kind: the tokens stay the maximal runs of the kinds so far |
| `Sqlhl.Scanner.RunEnd` | internal/sqlhl/sqlhl.go:216-226 | the end of a run of spaces, digits or identifier characters |
| `Sqlhl.Scanner.LineEnd` | internal/sqlhl/sqlhl.go:231-236 | a line comment ends before its newline or at the end of the source |
| `Sqlhl.Scanner.BlockCommentEnd` | internal/sqlhl/sqlhl.go:241-261 | a block comment ends at its own `*/`, nested only where the dialect nests, or runs to the end |
| `Sqlhl.Scanner.QuotedEnd` | internal/sqlhl/sqlhl.go:266-280 | a quoted token ends at the quote that is neither doubled nor escaped, or runs to the end |
| `Sqlhl.Scanner.NextDollar` | internal/sqlhl/sqlhl.go:290-323 | a dollar sign starts a placeholder, a dollar-quoted string or an operator |
| `Sqlhl.Scanner.NextWord` | internal/sqlhl/sqlhl.go:330-343 | a word, or a string with its one-letter prefix |
| `Sqlhl.Scanner.NextHole` | internal/sqlhl/sqlhl.go:177-202 | `?`, `:` and `@` start a placeholder, a cast or an operator |
| `Sqlhl.Scanner.NumberEnd` | internal/sqlhl/sqlhl.go:362-393 | hexadecimals, decimals, fractions and exponents end where their last digit does |
| `Sqlhl.Scanner.Next` | internal/sqlhl/sqlhl.go:139-214 | one step of scan: the kind and the extent of the lexeme at the position |
| `Sqlhl.Scanner.Scan` | internal/sqlhl/sqlhl.go:139-214 | the loop ends at the end of every source with exactly the runs of its kinds |
| `Sqlhl.Tokenize` | internal/sqlhl/sqlhl.go:83-87 | the tokens of every source are the maximal runs of the kinds its characters have |
| `Sqlhl.KindsOf` | internal/sqlhl/sqlhl.go:92-100 | one kind per character |
| `Sqlhl.RunsTile` | internal/sqlhl/sqlhl.go:113-130 | tokens are non-empty, contiguous, cover the source exactly once, hold characters of one kind only, and no two neighbours share a kind |
| `Sqlhl.TokensReassemble` | internal/sqlhl/sqlhl.go:83-87 | the tokens of any source tile it and their texts put it back together |
| `Sqlhl.TilingUnique` | internal/sqlhl/sqlhl.go:83-87 | no other token list has these properties |
| `TokenReading.LeadTakes` | internal/sqlhl/sqlhl.go:139-214 | one step of scan takes exactly the characters that a reading one character at a time gives one kind, and reading starts afresh after it |
| `TokenReading.KindsRead` | internal/sqlhl/sqlhl.go:83-87 | the kinds of every source are those of a reading one character at a time: line comments, block comments with their depth, runs between quotes, dollar bodies with their tag, words, placeholders and numbers, each on the dialects that have it |
| `SqlhlLocality.LeadCloses` | internal/sqlhl/sqlhl.go:139-214 | a scanning step that ends inside a text ends there whatever follows it, for every kind of token |
| `SqlhlLocality.SentinelSettles` | internal/db/ddl.go:571-584 | the sentinel parenthesis comes out as a token of its own exactly when every token of the fragment ends inside it |
| `SqlhlLocality.LexicalLocality` | internal/db/ddl.go:558-584 | if scanning a + " )" ends in a lone parenthesis, then in front of every text that starts with a space, a comma or a parenthesis a keeps its kinds and the text keeps its own |
| `SqlhlLocality.TokenLocality` | internal/sqlhl/sqlhl.go:113-130 | the same in tokens: those of a, then those of t moved up, merged at most at a seam of one kind |
| `Literal.TwoPasses` | internal/db/literal.go:50-58 | doubling backslashes and then quotes escapes each character once: neither pass sees the output of the other |
| `Literal.QuoteStringReadsBack` | internal/db/literal.go:50-58 | for any text a string literal is one String token of its engine in front of anything but a quote, and stands for the text |
| `Literal.QuoteIdentReadsBack` | internal/db/dialect_postgres.go:21-23 | for any name, on every engine, a quoted identifier is one QuotedIdent token in front of anything but its quote, and names what was quoted |
| `Fragments.FragmentAppend` | internal/db/ddl.go:558-570 | fragments that stay inside their clause compose: one after another they are a fragment whose tokens are those of both |
| `Fragments.FragmentParens` | internal/db/ddl.go:558-570 | a text whose parentheses balance is a fragment once it stands in parentheses of its own |
| `Fragments.SimpleFragment` | internal/db/ddl.go:501-510 | text of the characters a type may hold, balanced and without loose commas, is a fragment |
| `Ddl.ValidateTypeName` | internal/db/ddl.go:511-539 | accepts a type exactly when its pattern, its parentheses and its commas are right, and names the first fault otherwise |
| `Ddl.TypeFragment` | internal/db/ddl.go:511-539 | an accepted type stays inside its clause |
| `Ddl.NestOperator` | internal/db/ddl.go:590-606 | the depth counter over the characters of one operator token |
| `Ddl.NestToken` | internal/db/ddl.go:587-607 | the depth counter over one token |
| `Ddl.ValidateExpression` | internal/db/ddl.go:571-612 | refuses what leaves a token open, holds a comment or a semicolon, closes what it never opened, has a loose comma or leaves a parenthesis open, in this order |
| `Ddl.ExpressionFragment` | internal/db/ddl.go:558-612 | an expression is accepted if and only if it is a fragment: it stays inside the clause it is put in |
| `ExpressionReading.ExpressionReads` | internal/db/ddl.go:558-612 | an expression is accepted if and only if, read one character at a time, it leaves nothing open, has no comment and no semicolon, closes what it opens and has every comma in parentheses |
| `ExpressionReading.TypeReads` | internal/db/ddl.go:505-539 | a type is accepted if and only if it starts with a letter or an underscore, holds only the characters of types, closes what it opens and has every comma in parentheses |
| `ExpressionReading.LineCommentRefused` | internal/db/ddl.go:558-584 | behind any accepted expression two hyphens and what follows them on the line are one comment, and the text is refused as left open |
| `RequestReading.NumberReads` | internal/db/ddl.go:541-548 | a number is accepted if and only if it is a sign or none, digits with a point somewhere or nowhere, and an exponent or none |
| `RequestReading.AcceptsGood` | internal/db/ddl.go:404-422 | a CREATE TABLE is accepted if and only if the table and every column have a name without a NUL, no two columns the same, every type, text, number and expression is what it has to be, and there is a column |
| `Ddl.NumberFragment` | internal/db/ddl.go:541-548 | an accepted numeric default is a fragment |
| `Ddl.ValidateColumnDef` | internal/db/ddl.go:471-485 | the first fault of name, type and default, or none |
| `Ddl.ValidateCreateTable` | internal/db/ddl.go:404-422 | passes exactly when every column passes, there is one and no name is listed twice |
| `Ddl.RenderColumnDef` | internal/db/ddl.go:651-661 | the string builder writes name, type, NOT NULL and DEFAULT |
| `Ddl.RenderColumns` | internal/db/ddl.go:667-679 | the column loop writes the definitions joined by commas and collects the key columns in order |
| `Ddl.RenderCreateTable` | internal/db/ddl.go:663-683 | the whole statement |
| `CreateTableStructure.ExprDefaultFragment` | internal/db/ddl_dialects.go:159-171 | an accepted expression default is a fragment however MySQL spells it |
| `CreateTableStructure.ColumnFragment` | internal/db/ddl.go:651-661 | every accepted column definition is a fragment whose first token is the quoted name of the column |
| `CreateTableStructure.CreateTableReads` | internal/db/ddl.go:663-683 | the tokens of any accepted CREATE TABLE read as one parenthesized list whose items are exactly the rendered definitions and the key, whatever names, texts, types and expressions it holds |
| `CreateTableStructure.ReadingMeans` | internal/db/ddl.go:663-683 | such a reading means: no structural semicolon or comment, parentheses that close for the last time at the last character, and the items put back together with their commas are the list |
| `CreateTableStructure.ReadingCommas` | internal/db/ddl.go:668-681 | a text that reads as a list has exactly one operator comma directly inside its outer parentheses between two items |
| `CreateTableStructure.CommaCount` | internal/db/ddl.go:668-681 | the operator commas directly inside the list's parentheses, counted over the text of any accepted CREATE TABLE by its tokens, number the columns less one, and one more with a key |
| `CreateTableStructure.ItemsNameColumns` | internal/db/ddl.go:651-683 | item i begins with the quoted name of column i, and the key clause names no column |
| `ColumnReading.ColumnReads` | internal/db/ddl.go:618-661 | an accepted definition reads back as the name, the trimmed type, the nullability and the default that were asked for, the default standing for what was asked, if and only if the type has no word NOT or DEFAULT outside parentheses |
| `ColumnReading.CreateTableDefines` | internal/db/ddl.go:663-683 | an accepted CREATE TABLE names the database and the table asked for and has an item for every column, in order, that reads back as that column under this condition |
| `ColumnReading.AddColumnDefines` | internal/db/ddl.go:685-688 | so does an accepted ADD COLUMN |
| `ColumnReading.TypeTakesClause` | internal/db/ddl.go:501-539 | a nullable column of the accepted type `int NOT NULL` is defined as an int that is not nullable |
| `CreateTableStructure.KeyIndexesAre` | internal/db/ddl.go:672-681 | the positions collected for the key ascend strictly and are exactly those of the key columns |
| `CreateTableStructure.KeyNamesAre` | internal/db/ddl.go:672-681 | the key's names are the names at those positions, one for one |
| `CreateTableStructure.KeyReads` | internal/db/ddl.go:677-681 | the text of a PRIMARY KEY clause reads as a list whose items are exactly the quoted names |
| `CreateTableStructure.KeyItemReads` | internal/db/ddl.go:672-681 | the last item of a CREATE TABLE with a key reads in its turn as a list that names exactly the key columns, each once, in column order |
| `CreateTableStructure.CreateTableStatement` | internal/db/ddl.go:347-361 | a CREATE TABLE is rendered exactly when it is valid, and then reads as above |
| `CreateTableStructure.AddColumnReads` | internal/db/ddl.go:685-688 | an accepted ADD COLUMN balances, has no comment or semicolon, and no comma that could start a second action |
| `EngineLiterals.AlikeAccepted` | internal/sqlhl/sqlhl.go:325-336 | an expression accepted by the tokenizer is a fragment for an engine that has backslashes escape after other prefixes, whenever every typed string of it ends where the engine's does |
| `EngineLiterals.PlainAlike` | internal/sqlhl/sqlhl.go:325-336 | typed strings end alike in every text without a backslash |
| `EngineLiterals.EngineReads` | internal/db/ddl.go:558-607 | under that condition on its expressions an accepted CREATE TABLE reads for the engine, too, as exactly the list of its definitions and the key |
| `EngineLiterals.NationalDiffers` | internal/sqlhl/sqlhl.go:325-336 | a national string that holds a backslash in front of a quote is accepted as one string, where an engine that has backslashes escape after E only sees a loose comma and an open string |
| `Statements.SkipBlockComment` | internal/db/statements.go:132-139 | skips to the first `*/` or the end |
| `Statements.SkipQuoted` | internal/db/statements.go:146-162 | skips to the closing quote or the end |
| `Statements.DollarTag` | internal/db/statements.go:185-194 | reads a dollar-quote delimiter, or none |
| `Statements.SkipDollarQuoted` | internal/db/statements.go:167-181 | skips a dollar-quoted body to its own tag or the end |
| `Statements.NextItem` | internal/db/statements.go:66-90 | one step of the switch |
| `Statements.PushSpan` | internal/db/statements.go:53-64 | trims a statement and records it unless it is blank |
| `Statements.SplitStatementSpans` | internal/db/statements.go:46-94 | the loop computes the split of the script |
| `Statements.SplitLossless` | internal/db/statements.go:46-94 | spans are ordered, disjoint, trimmed and equal to the text they cover, and everything outside them is white space or a separating semicolon |
| `ScriptReading.SplitReads` | internal/db/statements.go:46-94 | the statements of every script are its stretches between the semicolons that stand at top level of a reading one character at a time, trimmed, the blank ones dropped: `--` to the end of the line, `#` and backticks on MySQL and MariaDB only, `/* */` without nesting, quotes with MySQL's backslash, dollar bodies on PostgreSQL only |
| `Statements.SplitAgain` | internal/db/statements.go:46-94 | splitting a produced statement again gives just that statement |
| `Statements.StatementAt` | internal/db/statements.go:105-120 | picks the span holding the caret, else the last one that starts before it, else the first |
| `Statements.PickedUnique` | internal/db/statements.go:105-120 | what it picks is determined |
| `InsertScript.InsertStatement` | internal/db/literal.go:132-156 | the string builder writes columns and literals, a missing value as NULL |
| `InsertScript.InsertPassed` | internal/db/literal.go:132-156 | the splitter finds no separator in a written INSERT, whatever its names and values hold, up to its own semicolon |
| `InsertScript.InsertIsOneStatement` | internal/db/literal.go:132-156 | what is left of it without the semicolon is one trimmed statement that splits into itself |
| `InsertScript.ScriptSplits` | internal/export/export.go:288-292 | a script of such statements splits into exactly them |
| `InsertReading.InsertReads` | internal/db/literal.go:132-156 | a written INSERT reads back as the row it was written for: the database and the table, the columns in order, and a literal for each that stands for the value of that column, NULL past the end of a short row |
| `InsertExport.SqlWriter.Row` | internal/export/export.go:288-292 | appends one statement, which inserts the row, and a newline |
| `InsertExport.Export` | internal/export/export.go:275-294 | an exported script of n rows splits, under its own engine's rules, into n statements, and statement k inserts row k |
| `Changesets.KeyIsTarget` | internal/db/changeset.go:47-52 | for NUL-free names and values two changes have one key if and only if they are the same kind of change to the same target |
| `Changesets.OneTableKeys` | internal/db/changeset.go:116-120 | for the rows of one table, keys of one length, the same holds whenever the values in front of the last are NUL-free: names, the last value and the value of a one-column key may hold a NUL |
| `Changesets.NulCollides` | internal/db/changeset.go:116-120 | with a NUL in the first of two key columns two different rows of one table share a key |
| `Changesets.Changeset.StageChange` | internal/db/changeset.go:136-144 | replaces the change with that key in its place, or appends; the index stays the inverse of the list |
| `Changesets.Changeset.RemoveAt` | internal/db/changeset.go:147-153 | drops one change, keeps the order of the others and repairs the index |
| `Changesets.Changeset.RemoveKey` | internal/db/changeset.go:156-163 | drops the change with a key if there is one |
| `Changesets.Changeset.Stage` | internal/db/changeset.go:168-175 | stages a cell edit; a restaged cell keeps the old value of its first edit |
| `Changesets.Changeset.StageDelete` | internal/db/changeset.go:181-193 | stages a row delete once and drops exactly the cell edits of that row |
| `Changesets.Changeset.StageInsert` | internal/db/changeset.go:197-202 | stages an insert under the next identity |
| `Changesets.Changeset.UnstageRow` | internal/db/changeset.go:223-244 | drops the delete and the cell edits of one row, keeps all others in order, and counts what it dropped |
| `Changesets.Changeset.Clear` | internal/db/changeset.go:338-341 | drops everything; the identity counter goes on |
| `Changesets.Changeset.Do` | internal/db/changeset.go:136-243 | any command acts as one step of the state machine and keeps list, index and counter consistent |
| `Changesets.RunKeeps` | internal/db/changeset.go:136-243 | over every run of commands the keys are pairwise distinct and every staged insert has an identity that was handed out |
| `Changesets.IssuedCount` | internal/db/changeset.go:197-202 | over every run the identities come out as 1, 2, 3 and never repeat, whatever is unstaged or cleared |
| `Changesets.RestageKeeps` | internal/db/changeset.go:165-175 | a restaged cell keeps its position and its first old value, and no other change moves |
| `Changesets.DeleteClearsCells` | internal/db/changeset.go:177-193 | after StageDelete no edit of that row is staged, every other change is still there, in the order it had, and the delete is last |
| `Merge.CollectDeleted` | internal/db/changeset.go:489-494 | the rows with a staged delete |
| `Merge.FillGroups` | internal/db/changeset.go:526-528 | every group is rendered at its row's first edit, in whatever order the map is walked |
| `Merge.Flatten` | internal/db/changeset.go:530-536 | the kept slots end to end |
| `Merge.Statements` | internal/db/changeset.go:488-537 | renders the merged statements, or fails exactly when a staged schema change is not supported |
| `Merge.MergingPreservesMeaning` | internal/db/changeset.go:465-487 | the merged statements leave every database as running each staged change in staging order would, as long as names and key values are NUL-free, a table has one list of key columns, no edit but a row's last sets a key column, and whatever is staged between two edits of one row lets the second pass: neither of the two gives a row the key that the other goes by, no row with the edit's key is inserted, and the schema of the table is left alone |
| `ChangeTexts.ChangeDoes` | internal/db/changeset.go:33-113 | every staged change does what it asks: an edit sets one column of the rows with its key, a delete drops those rows, an insert adds the row that is stored, and no other table is touched |
| `ChangeTexts.MultiUpdateSQL` | internal/db/changeset.go:370-392 | the text of a merged UPDATE, read back with its arguments, sets every column to its own new value on the rows with the key; without key columns it is no statement |
| `ChangeTexts.DeleteSQL` | internal/db/changeset.go:394-404 | the same for a DELETE |
| `ChangeTexts.InsertSQL` | internal/db/changeset.go:405-440 | an INSERT read back with its arguments gives every column its own value, NULL where none is given; without columns it is a row of defaults in the engine's spelling |
| `ChangeTexts.WriteKeyPredicates` | internal/db/changeset.go:443-456 | one comparison for every key column, its value appended to the arguments |
| `ChangeTexts.UpdateReads` | internal/db/changeset.go:370-392 | for any row, columns and values the UPDATE reads back as the UPDATE that was meant |
| `Merge.MergeStep` | internal/db/changeset.go:465-487 | staging one more change does one more change to the database, merged or not |
| `Merge.Commute` | internal/db/changeset.go:465-487 | an UPDATE and a statement that go by different keys, neither giving a row the key of the other, commute; so do an UPDATE and an INSERT of another row, or a schema change of another table |
| `Merge.DeletedRowNotMerged` | internal/db/changeset.go:459-464 | an edit of a row with a staged delete keeps its own statement in its own place |
| `Merge.MergedColumnsDistinct` | internal/db/changeset.go:370-392 | a merged UPDATE sets no column twice |
| `Merge.KeyEditMatters` | internal/db/changeset.go:370-392 | an edit of a key column merged with a later edit of its row changes the outcome: the condition is needed |
| `MergeInputs.KeyGivenBetween` | internal/db/changeset.go:465-487 | an edit that gives another row the key, staged between two edits of a row, makes merging and running one by one differ |
| `MergeInputs.KeyDeletedBetween` | internal/db/changeset.go:465-487 | so does a delete of the key that the second edit gives |
| `MergeInputs.InsertedBetween` | internal/db/changeset.go:477-482 | so does an insert with the key, on every server that stores it so |
| `MergeInputs.ColumnAddedBetween` | internal/db/changeset.go:483-487 | so does a schema change that adds the column the second edit sets |
| `TxText.SavepointIsAdmissible` | internal/db/tx.go:378-416 | a partial rollback is refused neither as transaction control nor as an implicit commit |
| `TxText.Classified` | internal/db/tx.go:378-449 | what the session takes for a partial rollback, for transaction control and for an implicit commit is exactly what the server does, by its words in any mixture of cases |
| `Transactions.AdmitExact` | internal/db/tx.go:203-225 | an active transaction refuses exactly control statements and implicit commits; an aborted one lets exactly a partial rollback through |
| `TxWords.FirstWordFound` | internal/db/statements.go:317-340 | comments and white space in front do not hide a statement's first word, and the rest of its words are those of the rest of its text |
| `TxWords.TypedControlRefused` | internal/db/tx.go:378-402 | a typed BEGIN, START, COMMIT, END or ABORT, behind comments and white space and in any mixture of cases, is refused whatever follows it |
| `TxWords.TypedRollback` | internal/db/tx.go:404-416 | a typed ROLLBACK is refused; ROLLBACK TO is let through, in an aborted transaction too |
| `Transactions.ExecSound` | internal/db/tx.go:203-267 | a statement leaves the handle a true account of the server: active means open and usable, aborted means failed, refused statements change nothing |
| `Transactions.ExecExact` | internal/db/tx_dialects.go:48-244 | while the connection and the probes answer, the handle is active, aborted or lost exactly as the server's transaction is open, failed or over: what an error left open is never given up |
| `Transactions.CommitExact` | internal/db/tx_dialects.go:48-244 | an active handle's Commit is nil exactly when the server committed, and the handle goes on exactly when there is a transaction left |
| `Transactions.CommitSound` | internal/db/tx.go:289-313 | a nil Commit is sent only in an open transaction and means the server committed; a failed one leaves the truth |
| `Transactions.RollbackSound` | internal/db/tx.go:315-337 | a rollback always spends the handle, commits nothing, and never pools a connection with a transaction on it |
| `Transactions.StepSafe` | internal/db/tx_dialects.go:48-244 | every event keeps every handle sound and moves it only along the lifecycle, on all engines |
| `Transactions.RunSafe` | internal/db/tx.go:166-354 | in every run, between any two calls, every handle tells the truth about the server; while a statement runs, before settle stores its outcome, the state can be read and is the one before the statement |
| `Transactions.OneOpenHandle` | internal/db/tx.go:166-196 | a session never has two open handles |
| `Transactions.NilCommitCommitted` | internal/db/tx.go:289-313 | in every run a nil Commit means the server committed then |
| `Transactions.EndsAreFinal` | internal/db/tx.go:203-244 | over any stretch of a run closed stays closed and lost goes only to closed |
| `Transactions.RevivedByPartialRollback` | internal/db/tx.go:203-225 | an aborted handle becomes active again only through ROLLBACK TO SAVEPOINT |
| `Transactions.LostMeansNotCommitted` | internal/db/tx.go:59-62 | a lost handle has committed nothing unless the reply to its COMMIT was lost with the connection |
| `Transactions.LostReplyCommitted` | internal/db/tx.go:289-313 | when that reply is lost, a handle can be lost although the server committed |
| `Transactions.Conn.Begin` | internal/db/tx.go:166-196 | refused while a handle holds the slot, else a fresh active handle takes it |
| `Transactions.Conn.RollbackOpenTx` | internal/db/tx.go:359-369 | closing the session spends the open handle and frees the slot |
| `Transactions.InteractiveTx.Settle` | internal/db/tx.go:228-237 | the flag of the rollback hook, the count of successful statements and the state the monitor reads |
| `Transactions.InteractiveTx.Exec` | internal/db/tx.go:246-267 | admits, runs and settles as the step function says, keeps the handle sound, and refuses exactly what the server would take for control or an implicit commit |
| `Transactions.InteractiveTx.FinishUp` | internal/db/tx.go:342-354 | closes the handle, pools or discards the connection and frees its own slot only |
| `Transactions.InteractiveTx.Commit` | internal/db/tx.go:289-313 | as the step function says; done means the server went from open to committed |
| `Transactions.InteractiveTx.Rollback` | internal/db/tx.go:315-337 | as the step function says; always ends closed |
| `Tunnels.Tunnel.CheckOpen` | internal/sshtunnel/tunnel.go:186-192 | the first section of a dial refuses on a closed tunnel and changes nothing |
| `Tunnels.Tunnel.Register` | internal/sshtunnel/tunnel.go:200-214 | registers a connection unless the tunnel was closed meanwhile |
| `Tunnels.Tunnel.BeginClose` | internal/sshtunnel/tunnel.go:220-235 | the first close takes the connections and empties the set, a later one takes nothing |
| `Tunnels.Tunnel.Forget` | internal/sshtunnel/tunnel.go:263-270 | an owner's Close takes its connection out of the set |
| `Tunnels.RunInv` | internal/sshtunnel/tunnel.go:186-270 | the protocol invariant holds in every interleaving of dials, owners and closes |
| `Tunnels.CloseTearsDown` | internal/sshtunnel/tunnel.go:220-252 | once any Close has returned, every connection handed out is closed or inside its own owner's Close, and the client is down |
| `Tunnels.SignalledOnce` | internal/sshtunnel/tunnel.go:220-252 | closeCh is never closed twice |
| `Tunnels.LateDialDropped` | internal/sshtunnel/tunnel.go:186-215 | a dial that lost the race is not handed out, and one that returned an error has nothing open |
| `Tunnels.ClosedIsFinal` | internal/sshtunnel/tunnel.go:186-215 | nothing is handed out after the tunnel was closed |
| `Forwards.Forward.Admit` | internal/sshtunnel/forward.go:89-96 | an accepted client is registered unless the forward was closed |
| `Forwards.Forward.Remove` | internal/sshtunnel/forward.go:109-114 | a finished splice takes its client out of the set |
| `Forwards.Forward.BeginClose` | internal/sshtunnel/forward.go:147-160 | the first close cancels the context and takes a snapshot of the clients |
| `Forwards.RunInv` | internal/sshtunnel/forward.go:82-171 | in every interleaving the wait group counts the accept loop and the live splices, and every open client belongs to one of them |
| `Forwards.CloseTearsDown` | internal/sshtunnel/forward.go:147-171 | once Close has returned, every accepted connection and every remote end is closed, the accept loop is gone and no splice remains |
| `Forwards.NeverCountedFromZero` | internal/sshtunnel/forward.go:98-99 | the wait group is never counted up from zero while someone may wait |
| `DdlOrder.SortStrings` | internal/db/ddlorder.go:68-72 | the alphabetical fallback is ascending and a permutation |
| `DdlOrder.LeqDecided` | internal/db/ddlorder.go:68-72 | alphabetical order is decided by the first character in which two names differ |
| `DdlOrder.Collect` | internal/db/ddlorder.go:18-34 | what every relation waits for: its references inside the export, without itself |
| `DdlOrder.CollectReady` | internal/db/ddlorder.go:39-44 | the relations whose references are all emitted, in input order |
| `DdlOrder.Discharge` | internal/db/ddlorder.go:55-64 | emitted relations are waited for no more |
| `DdlOrder.Stuck` | internal/db/ddlorder.go:45-50 | no ready relation while some are left means a cycle among them |
| `DdlOrder.RespectedNoCycle` | internal/db/ddlorder.go:7-16 | an order in which everything follows what it references rules a cycle out |
| `DdlOrder.DDLOrder` | internal/db/ddlorder.go:17-66 | a permutation of the input; acyclic if and only if the references within it have no cycle, and then everything follows all it references, round by round: a round has, in alphabetical order, exactly the relations left that reference only earlier rounds; otherwise the sorted list |
| `AlterColumns.PgAlterColumn` | internal/db/ddl_dialects.go:30-55 | one ALTER TABLE with the actions needed, and the rename last |
| `AlterColumns.MysqlAlterColumn` | internal/db/ddl_dialects.go:95-129 | one CHANGE COLUMN that restates the definition, or only the default and the name |
| `AlterColumns.AlterColumnSeparate` | internal/db/ddl.go:766-787 | one statement an aspect, the rename last |
| `AlterColumns.SchemaStatements` | internal/db/ddl.go:347-361 | nothing to change, unsupported, refused with the first fault, or the engine's statements |
| `AlterColumns.ExtraReadsBack` | internal/db/ddl_dialects.go:110-126 | AUTO_INCREMENT, ON UPDATE and DEFAULT_GENERATED read from the EXTRA text are those the column has |
| `AlterColumns.KeptDefaultMeans` | internal/db/ddl_dialects.go:131-152 | the default a CHANGE COLUMN restates stands for the default the column has, on MySQL and MariaDB, and is taken in a definition of the final type under the same condition |
| `AlterColumns.ExprMeans` | internal/db/ddl_dialects.go:154-171 | however MySQL and MariaDB spell an expression default it stands for the expression, and MySQL takes it if and only if: a text that starts like the code's list is, whole, CURRENT_TIMESTAMP, NOW(), LOCALTIME or LOCALTIMESTAMP, stands in the definition of a DATETIME or TIMESTAMP, and has its precision; any other that starts and ends with a parenthesis is one parenthesized expression |
| `AlterInputs.TwoGroups` | internal/db/ddl_dialects.go:166-170 | `(1) + (2)` is accepted and left as it is, so it is not in parentheses |
| `AlterInputs.StartsLikeNow` | internal/db/ddl_dialects.go:159-166 | `NOW() + INTERVAL 1 DAY` is accepted and left bare, though it is not of the family |
| `AlterInputs.TodayLeftBare` | internal/db/ddl_dialects.go:162 | `CURRENT_DATE` is accepted and left bare, and MySQL takes it nowhere without parentheses |
| `AlterInputs.StampSuits` | internal/db/ddl_dialects.go:154-166 | CURRENT_TIMESTAMP is left bare everywhere; MySQL takes it for a timestamp, but not for a date, a datetime(6), or in ALTER COLUMN .. SET DEFAULT |
| `AlterInputs.RetypeLosesStamp` | internal/db/ddl_dialects.go:97-109 | changing a timestamp column with a kept CURRENT_TIMESTAMP to date fails on every table: the CHANGE COLUMN restates the default |
| `AlterInputs.SumNotTaken` | internal/db/ddl.go:632-647 | on SQLite the accepted expression `1 + 2` is written after DEFAULT without the parentheses SQLite wants |
| `AlterColumns.DefaultMeans` | internal/db/ddl.go:632-647 | the rendered text of any accepted default stands for the default that was asked for; MySQL takes it under the condition above, SQLite if it is a literal, a keyword constant or in parentheses, the other engines if they take what is left without parentheses |
| `AlterColumns.AlterReaches` | internal/db/ddl_dialects.go:30-218 | running the statements of any supported change names only columns that are there and ends in the column asked for, kept default and ON UPDATE included, all others untouched, if and only if the new name is free, the default is spelled for the place and the final type it stands with, a restated ON UPDATE suits the final type, and the server allows every definition on the way; otherwise it fails |
| `AlterRequests.AlterDoes` | internal/db/ddl_dialects.go:30-218 | if no statement fails, the table has in the place of the old column the one asked for, said of the request alone: the new name or the old if it is blank, the new type unless it differs only in case or outer space, the nullability, and the default unless it is kept; every other column is as it was |
| `AlterRequests.RenderedWhen` | internal/db/ddl.go:347-361 | there is nothing to change exactly when no aspect is asked for, SQLite refuses exactly what asks for more than a name, and statements are rendered exactly for the rest of the valid requests |
| `AlterColumns.EnginesAgree` | internal/db/ddl_dialects.go:30-218 | one request ends in the same table on every two engines on which it does not fail |
| `AlterColumns.StaysDistinct` | internal/db/ddl.go:271-278 | no two columns share a name afterwards |
| `Filters.BuildFilter` | internal/db/filter.go:68-99 | nil without conditions, the first refusal, or expressions, arguments and text with placeholders numbered in order |
| `FilterMeaning.FilterMeans` | internal/db/filter.go:68-99 | a built filter, read back with its arguments, is true, false and unknown of exactly the rows of which its conditions are: every operator means what SQL makes of its symbol, between its own column and its own value |
| `FilterTyped.ValueBound` | internal/db/filter.go:131-178 | the argument of a condition stands for the value that was typed and is of a kind that goes with the column's type; a LIKE compares text |
| `FilterTyped.TypedKept` | internal/db/filter.go:297-317 | a typed comparison that is parsed keeps its meaning: the filter compares the named column, by the operator that was typed, with the value of the literal, for every operator the parser takes |
| `FilterTyped.NullKept` | internal/db/filter.go:297-305 | so does a typed IS NULL or IS NOT NULL |
| `Filters.SplitAnd` | internal/db/filter.go:359-407 | the loop over quotes, keywords and parentheses computes the terms, or gives up |
| `FilterParse.ParseFilter` | internal/db/filter.go:268-295 | nil for a blank text, the verbatim fragment, or the parsed comparisons |
| `FilterRoundTrip.LiteralReads` | internal/db/filter.go:323-354 | the text shown for a value reads as that value if and only if it is faithful: text always, integers always, floats spelled as numbers that are not integers, booleans spelled true or false |
| `FilterRoundTrip.TermReads` | internal/db/filter.go:299-317 | the term of any condition on a bare column, with its backtracking matches, parses to that condition |
| `FilterTheorem.SplitFrom` | internal/db/filter.go:359-407 | the text of conditions splits at the ANDs put in and no other, whatever quotes, parentheses or ANDs the values hold, exactly when no column is AND or OR |
| `FilterTheorem.WhereLost` | internal/db/filter.go:273-275 | a first column called WHERE makes the text verbatim |
| `FilterTheorem.RoundTrip` | internal/db/filter.go:68-115 | for any conditions on bare columns the text parses back to the same filter if and only if every value is faithful, no column is AND or OR and the first is not WHERE |
| `FilterTheorem.TextRoundTrip` | internal/db/filter.go:101-115 | text, LIKE and null-test conditions always parse back |
| `FilterTheorem.BooleanLetterLost` | internal/db/filter.go:107-112 | a boolean typed as t does not parse back |
| `Placeholders.ExtractPlaceholders` | internal/db/placeholders.go:30-51 | one prompt for every hole that starts with `?` and one for every name, in order of first appearance; a hole is a token, so placeholders that touch are one |
| `Placeholders.SlotExists` | internal/db/placeholders.go:87-124 | every hole has a prompt to take its value from |
| `Placeholders.SlotUnique` | internal/db/placeholders.go:126-141 | exactly one |
| `Placeholders.SlotsShared` | internal/db/placeholders.go:81-86 | two holes share a value if and only if they have one name; a positional value goes to one hole |
| `Placeholders.SlotsUsed` | internal/db/placeholders.go:23-51 | every prompt is some hole's |
| `Placeholders.PositionalIndex` | internal/db/placeholders.go:129-141 | the prompt with n positional ones before it |
| `Placeholders.BindPlaceholders` | internal/db/placeholders.go:87-124 | refuses a wrong number of values; else every hole becomes the marker of its number, everything else stays, and argument k is the value entered for hole k's prompt |
| `ParameterReading.ParameterOf` | internal/db/placeholders.go:104-123 | a marker read back stands for the argument of its own number, counted in the marker on PostgreSQL and by the markers before it elsewhere |
| `Placeholders.WovenOwn` | internal/db/placeholders.go:104-123 | filled with their own texts the holes give the statement back: nothing else was touched |
| `Markers.Splice` | internal/sqlhl/sqlhl.go:139-214 | text in front of a hole keeps its kinds when a marker takes the hole's place, unless a dollar sign would join on to it |
| `Markers.BoundReadsBack` | internal/db/placeholders.go:81-124 | read back, every marker is a placeholder and everything else what it was; on PostgreSQL if and only if no hole directly follows a word or the start of a dollar tag |
| `Markers.MarkerBecomesName` | internal/db/placeholders.go:118-121 | `x?` is bound to `x$1` on PostgreSQL, which has no placeholder |
| `Collisions.HolesAre` | internal/sqlhl/sqlhl.go:113-130 | the holes are exactly the whole runs of placeholder characters that start with `?` or `:` |
| `Collisions.OwnHole` | internal/db/placeholders.go:30-51 | a `?` or a name is a hole of its own, and so has a value of its own, if and only if no placeholder touches it on either side |
| `Collisions.Neighbours` | internal/db/placeholders.go:30-51 | `??` is asked for once, and `:a:b` once, under the name a:b |
| `Collisions.MarkerNumbers` | internal/db/placeholders.go:81-124 | on PostgreSQL the bound statement has one parameter of the number of hole k more than the statement had, zeros in front of a number counting for nothing: the number is fresh if and only if the statement does not use it |
| `Collisions.NumberTaken` | internal/db/placeholders.go:118-121 | `SELECT $1, ?`, `SELECT $01, ?` and every other spelling of the number are bound with both places on parameter 1 |
| `Collisions.ZeroOneTaken` | internal/db/placeholders.go:118-121 | `SELECT $01, ?` is bound to `SELECT $01, $1`, which uses parameter 1 twice |
| `Streams.Resolve` | internal/export/project.go:27-42 | the loops find every kept column by position while its name matches, else by first name, else drop it |
| `Streams.ProjectedCells` | internal/export/project.go:27-52 | a projected table has exactly the kept columns that are still there, in their order and under their names, and every row its own cells of those columns |
| `Streams.ProjectedPage` | internal/export/project.go:53-72 | projecting a page is a page of the projection |
| `Streams.PageThrough` | internal/export/project.go:56-72 | a wrapped pager returns pages of the projected table |
| `Streams.Stream` | internal/export/export.go:411-487 | if nothing fails: begun once, the first min(rows, cap) rows in order, ended once, for any page size, truncated if and only if the table reaches the cap, progress spaced; if something fails: a prefix of that without the end |
| `Streams.WritePage` | internal/export/export.go:451-460 | the rows of a page until the context or the writer gives up |
| `Streams.Feed.OnRow` | internal/export/export.go:519-539 | one callback: a row written, the cap reached, or a failure that leaves what was written |
| `Streams.RunQuery` | internal/export/project.go:76-91 | a wrapped runner hands over the projected rows, with the columns worked out once |
| `Streams.StreamQuery` | internal/export/export.go:508-558 | the same rows as Stream, truncated if and only if the table goes past the cap |
| `PlanForest.Index` | internal/db/explain.go:514-520 | rows by id, the last of an id winning |
| `PlanForest.Attach` | internal/db/explain.go:521-529 | every row is appended to its parent's list, or to the roots |
| `PlanForest.Build` | internal/db/explain.go:530-537 | the recursion ends and builds the tree of a row |
| `PlanForest.BuildSQLitePlan` | internal/db/explain.go:509-543 | builds the forest of the rows |
| `PlanForest.ForestShows` | internal/db/explain.go:505-508 | a row that hangs from a root is shown once, any other not at all |
| `PlanForest.EveryRowOnce` | internal/db/explain.go:505-508 | every row is shown exactly once if and only if the parent links have no cycle |
| `PlanForest.ForestPlaced` | internal/db/explain.go:505-508 | rows without a parent in the result are at the top, every other under its parent, siblings in row order |
| `PlanForest.DistinctIds` | internal/db/explain.go:521-526 | with distinct ids a row hangs from the row its parent names |
| `PlanForest.OneLineARow` | internal/db/explain.go:122-144 | the rendering has one line for each row shown, indented to its level |
| `Columns.OrderShows` | internal/ui/colview.go:29-50 | the display order holds every column that is not hidden exactly once and is never empty |
| `Columns.PinnedLead` | internal/ui/colview.go:52-61 | the pinned columns lead it, as many as pinnedCount says, and the others follow in table order |
| `Columns.DataView.VisibleOrder` | internal/ui/colview.go:29-50 | the loops compute the display order |
| `Columns.DataView.StepCol` | internal/ui/colview.go:86-96 | the cursor moves through the display order and stops at its edges |
| `Columns.DataView.SettleCol` | internal/ui/colview.go:102-118 | a cursor on a hidden column goes to the next one drawn in table order, else to the last one before it |
| `Columns.DataView.TogglePin` | internal/ui/colview.go:153-167 | pins or unpins the cursor's column; no name is pinned twice and the cursor stays drawn |
| `Columns.DataView.HideColumn` | internal/ui/colview.go:172-194 | the last column drawn stays; otherwise the columns with the name of the cursor's are drawn no more, all others as before, unless nothing else is left to draw, and then they are drawn still; the cursor moves to the next column drawn in table order, else to the last before it |
| `Grid.ColumnWindow` | internal/ui/datagrid.go:277-303 | the window scrolled just far enough to show the cursor: it fits or is one column, and could not be wider |
| `Grid.WindowUnique` | internal/ui/datagrid.go:277-303 | there is only one such window |
| `Grid.RowWindowShows` | internal/ui/datagrid.go:310-324 | the cursor's row is in the window, there is no gap under the last row, and a window that shows the cursor stays |
| `Grid.GridLayout` | internal/ui/datagrid.go:422-468 | lays out the pinned edge, the scrolling columns and the rows |
| `Grid.LayoutShows` | internal/ui/datagrid.go:422-468 | for any widths, offsets and pins the drawn columns are distinct, include the cursor's, and fit the box unless the scrolling part is one column; the cursor's row is shown with no gap below |
| `Grid.LayoutSettles` | internal/ui/datagrid.go:422-468 | laying out again from the settled offsets gives the same layout and no other |

## Left out

- Bytes: sources are sequences of characters, so UTF-8 decoding and byte offsets are not modelled.
- Unicode case folding: upper and lower case are those of ASCII; the folding of non-ASCII letters in keywords, types and regular expressions is not modelled.
- Keyword and function lists of the tokenizer: the keywords are an arbitrary set of words, so function names and keywords are told apart only by membership.
- Go's regular expressions: the patterns of identifiers, operators, numbers, types, comparisons and null tests are matched by hand, with the backtracking they need.
- EngineLiterals: the engine differs from the tokenizer in its typed strings only; other differences of an engine's lexer, such as MySQL's space after two hyphens, are not modelled.
- Agreement of the splitter and the tokenizer: they differ by design on nested comments, DuckDB dollar quotes and prefixed strings, so each is held to its own promise.
- Float and time rendering: a finite float is a text of the numeric pattern, an infinity, a NaN or a time any text, quoted as the code quotes it; values of types the scanner does not normalize are such texts too.
- InsertExport.Export: the table definition that may stand in front of the rows is the server's own text and not part of the script here.
- ColumnReading.ColumnReads: a type that holds the words of other clauses, such as PRIMARY KEY or CHECK, is read as a type here.
- FilterTyped.TypedKept: how a typed fragment falls into its terms is the splitting at AND of `Filters.SplitAnd`; what a fragment kept verbatim means is the engine's.
- Merge.MergingPreservesMeaning: the condition is sufficient. Its clauses on key columns and on what stands between two edits each have an input that fails without them; a clause may be broken without harm, as when the values set are the values there. The server is one without constraints, triggers or errors, and a schema change is one opaque statement on the database.
- ALTER COLUMN text: statements are values that hold names, types and the text of the default; that quoted names read back is proved with the quoting.
- AlterColumns.AlterReaches: a column is its name, type, nullability, default, AUTO_INCREMENT and ON UPDATE. Comments, character sets, collations and generation expressions (EXTRA VIRTUAL GENERATED and STORED GENERATED), all of which CHANGE COLUMN drops, are not part of it. Names are compared exactly. What introspection reports is what `Describes` says; how MySQL reports a BIT default is not covered.
- Other schema changes: renames, drops, truncation and indexes are single expressions over the same quoting.
- Transactions.RunSafe: the window in which a statement has run and its outcome is not yet stored is inside one event; a reader in another goroutine sees the older state there.
- Transactions: a statement is one server reaction; several statements in one text, PREPARE TRANSACTION and the server's own parser are not modelled. The server is taken to see the kind of statement that its leading words say, found among the significant tokens of the text.
- Contexts, timeouts and logging: a cancelled call is an error the server or the writer may return at any point.
- Tunnels.CloseTearsDown: teardown is safety over every interleaving; that every close in the end returns is not stated.
- Tunnel and forward scheduling: the goroutines are program counters of a state machine whose steps are the mutex sections of the classes and the actions between them; `lastErr` and half-closing a copy direction are not modelled.
- Streams.Stream: the two branches that a first page always rules out, a cap already used up before reading and a writer never begun, are not written out; the table does not change during the export.
- Streams.StreamQuery: the runner's own driver loop is a loop over the rows of one fixed result.
- FilterTheorem.RoundTrip: columns are bare identifiers; any other name is shown without quotes, which the parser is not meant to take apart.
- Writers other than SQL: CSV, JSON and Markdown use library encoders or single expressions.
- PostgreSQL and MySQL plans: their JSON trees are decoded by recursion on a tree that is already there.
- Grid cells and headers: formatting, styles, hints, clicks and key handling.
- The session's other logs, process lists, type classification and data source names: only easy members.
