# mini-sqlite in Dafny

A model of the query pipeline of mini-sqlite, a teaching database written three
times: in Go (the reference), in Rust and in Python. A statement goes through
four stages:

- the **command parser** turns text into a command;
- the **executor** runs the command against a catalog of databases, an active
  database and a commit log, and answers with status lines;
- the **table store** (`btree`) holds each database's tables: an ordered column
  list, rows in insertion order, and hash indexes from a cell's key to row
  positions;
- the **pager** frames a blob into fixed-size pages and encodes the `.dat` file
  image. The **commit log** (`lsm_tree`) buffers one entry per data change until
  COMMIT.

Everything is immutable datatypes and pure functions. The executor is a
state-transition function from a state and a parsed command to a new state and
the output lines. A runtime panic (Go), exception (Python) or index error (Rust)
is a `Fault` outcome. The model states which parsed commands crash each executor
and which statement texts crash each parser, with two exceptions: the lone-quote
panic of the literal reader is stated on its own and is not reached through the
parsers, and a crash that depends on whether a regular expression matches is
stated only relative to that pattern's captures, since the patterns are
parameters.

| module | file | models |
|---|---|---|
| `Base`, `Strings`, `Decimal`, `Sorting` | base.dfy, strings.dfy, decimal.dfy, sorting.dfy | results and outcomes; the string library calls the parsers make (`TrimSpace`, `Fields`, `Split`, `Index`, `ToUpper`); `%d` rendering and `ParseInt`; sorted listings |
| `Values`, `KeyFunctions`, `Indexes` | values.dfy, keys.dfy, index.dfy | cell values; Go's `makeKey`, Rust's key and Python's raw-value key; index buckets |
| `Tables`, `RustTables` | table.dfy, rust_table.dfy | the table store, generic in the key function, and the Rust store's own error paths |
| `Commands`, `Literals`, `GoParser`, `RustParser`, `PyParser` | commands.dfy, literals.dfy, go_parser.dfy, rust_parser.dfy, py_parser.dfy | the parsed commands and the three parsers |
| `CommitLog`, `Pager` | commit_log.dfy, pager.dfy | the commit log and the pager |
| `Executors`, `GoExecutor`, `PyExecutor`, `RustExecutor`, `Divergences` | executor.dfy, go_executor.dfy, py_executor.dfy, rust_executor.dfy, divergence.dfy | the shared executor state and rendering, the three executors, and where they part ways |

The central invariant of the table store is that every index equals a full
rebuild from the table's current rows (`Tables.Consistent`). Every operation
keeps it. Under it, an index lookup returns exactly what a linear scan returns,
and an index-driven join equals a nested-loop join.

The Go parser is one definition with two modes. `AsWritten` reaches these
panics of the code:

- too few tokens for a keyword statement;
- a statement that is only `;`;
- the backwards column slice of CREATE TABLE.

`Repaired` answers UNKNOWN or the empty payload instead. The executors read the
repaired parser's output. The Rust and Python parsers are related to the Go one
by agreement lemmas, such as `RustParser.RustAgreesWithRepairedGo`. Each parser
has its own INSERT and SELECT patterns (a `Commands.Matchers` value), and the
agreement is stated for statements on which the patterns capture alike.

## Model

| member | source | states |
|---|---|---|
| Strings.TrimIsTrimmed | mini_sqlite_golang/core/parser.go:26 | the trimmed statement is the run of the text between its leading and its trailing whitespace |
| Strings.FieldsOfJoin | mini_sqlite_golang/core/parser.go:32 | splitting a single-space join of words into fields gives the words back |
| Strings.FieldsOfTrim | mini_sqlite_golang/core/parser.go:107 | trimming a chunk before splitting it into fields changes nothing |
| Strings.SplitOfJoin | mini_sqlite_golang/core/parser.go:106 | splitting a join on its one-character separator gives the pieces back, empty ones included |
| Strings.IndexOfCharAt | mini_sqlite_golang/core/parser.go:88 | the opening parenthesis found is the first one in the text |
| Strings.LastIndexOfCharAt | mini_sqlite_golang/core/parser.go:99 | the closing parenthesis found is the last one in the text |
| Strings.TrimOneSuffix | mini_sqlite_golang/core/parser.go:31 | exactly one trailing `;` is removed when there is one, and nothing otherwise |
| Strings.TrimAllSuffix | mini_sqlite_rust/src/core/parser.rs:122 | the result is a prefix of the text, everything cut is `;`, and the result does not end in `;` |
| Strings.TrimAllSuffixOfRun | mini_sqlite_python/core/parser.py:39 | removing every trailing `;` does not see how many there were |
| Strings.StripAllOfWrapped | mini_sqlite_python/core/parser.py:163 | stripping the quote characters off a quoted text without quotes at its ends gives the text back |
| Decimal.NatToString | mini_sqlite_golang/core/storage/btree.go:368 | the rendering of a natural number is a non-empty string of decimal digits |
| Decimal.DigitsOfNatToString | mini_sqlite_golang/core/storage/btree.go:368 | reading the rendering back as decimal digits gives the number |
| Decimal.IntToStringInjective | mini_sqlite_golang/core/storage/btree.go:365-372 | two integers with the same `%d` rendering are equal, so integer keys never collide |
| Decimal.IntToStringSign | mini_sqlite_golang/core/storage/btree.go:368 | a rendering starts with `-` exactly when the integer is negative |
| Decimal.ParseInt64 | mini_sqlite_golang/core/parser.go:312 | a successful read has an optional sign followed only by decimal digits |
| Decimal.ParseInt64OfIntToString | mini_sqlite_rust/src/core/parser.rs:418-420 | every 64-bit integer is read back from its own decimal rendering |
| Values.Cell | mini_sqlite_golang/core/storage/btree.go:206 | a stored cell reads as itself and an absent one as null |
| Values.MakeKey | mini_sqlite_golang/core/storage/btree.go:365-384 | each variant's key starts with its own tag letter and a colon |
| Values.MakeKeyInjective | mini_sqlite_golang/core/storage/btree.go:365-384 | two values have the same key exactly when they are equal |
| Values.ValuesEqualIsEquality | mini_sqlite_golang/core/storage/btree.go:353-355 | Go's key comparison is exactly value equality |
| Values.IntegerNeverEqualsFloat | mini_sqlite_golang/core/storage/btree.go:368-374 | an integer never equals a float in Go, because their key tags differ |
| Values.RustValuesEqual | mini_sqlite_rust/src/core/storage/btree.rs:397-405 | values of different variants are unequal and two nulls are equal |
| Values.RustAndGoEqualityAgree | mini_sqlite_rust/src/core/storage/btree.rs:397-405 | with floats compared by payload, Rust's `values_equal` and Go's `valuesEqual` agree on every pair |
| KeyFunctions.GoMatchesIsValuesEqual | mini_sqlite_golang/core/storage/btree.go:205-209 | a Go row matches a condition exactly when `valuesEqual(row[column], value)` |
| KeyFunctions.RustMatchesIsPresentAndEqual | mini_sqlite_rust/src/core/storage/btree.rs:286-292 | a Rust row matches exactly when the cell is present and `values_equal` to the condition's value |
| KeyFunctions.PyMatchesIsPyEq | mini_sqlite_python/core/storage/btree.py:123-125 | a Python row matches exactly when `row.get(column) == value` |
| KeyFunctions.IntegerAndFloatDiverge | mini_sqlite_python/core/storage/btree.py:124 | the integer 1 matches the float 1.0 in Python but not in Go |
| KeyFunctions.AbsentCellMatchesNull | mini_sqlite_rust/src/core/storage/btree.rs:286-292 | a row lacking the column matches a null condition in Go and Python, never in Rust |
| KeyFunctions.AbsentJoinKeysDiverge | mini_sqlite_rust/src/core/storage/btree.rs:323-327 | Go and Python pair two rows that both lack the join column; Rust pairs nothing |
| Indexes.AddToBucket | mini_sqlite_golang/core/storage/btree.go:98-101 | the new position is appended to its key's bucket only; a row without a key leaves the index alone |
| Indexes.Scan | mini_sqlite_rust/src/core/storage/btree.rs:386-391 | the scan lists exactly the positions holding the key, in ascending order |
| Indexes.BucketIsScan | mini_sqlite_golang/core/storage/btree.go:263-271 | a rebuilt index's bucket for any key is exactly the linear scan for it |
| Indexes.BuildIndexAppend | mini_sqlite_rust/src/core/storage/btree.rs:112-121 | rebuilding after appending one row gives the index that the insert's bucket update gives |
| Indexes.BuildIndexInRange | mini_sqlite_rust/src/core/storage/btree.rs:276-280 | every position in a rebuilt index is a row position, so Rust's `rows.get` never skips one |
| Sorting.SortedList | mini_sqlite_golang/core/executor.go:203-210 | the listing is strictly ascending and holds each name of the set exactly once |
| Sorting.SortedListUnique | mini_sqlite_python/core/executor.py:117-118 | two strictly sorted listings of the same names are equal |
| Sorting.SortIgnoresEnumerationOrder | mini_sqlite_rust/src/core/executor.rs:264-268 | any strictly ascending list of exactly the names is that listing, so the result does not depend on the map's enumeration order |
| Tables.Matching | mini_sqlite_golang/core/storage/btree.go:204-210 | the reference scan returns no more rows than the table has, and every returned row matches the condition |
| Tables.NotMatching | mini_sqlite_golang/core/storage/btree.go:172-177 | the kept rows number at most the table's rows and none of them matches the condition |
| Tables.MatchingPartition | mini_sqlite_golang/core/storage/btree.go:172-178 | the matching and the non-matching rows together account for every row, so the deleted count plus the kept count is the table size |
| Tables.NoneMatching | mini_sqlite_python/core/storage/btree.py:103 | rows none of which match a condition yield an empty selection for it |
| Tables.Pick | mini_sqlite_rust/src/core/storage/btree.rs:277-280 | one row per listed position, in the listed order |
| Tables.ScanPositions | mini_sqlite_rust/src/core/storage/btree.rs:286-292 | exactly the positions of matching rows, in ascending order |
| Tables.PickScanIsMatching | mini_sqlite_golang/core/storage/btree.go:204-210 | the rows at the scanned positions are exactly the reference scan's rows |
| Tables.MatchingIsWithKey | mini_sqlite_golang/core/storage/btree.go:200-202 | when the condition's value has a key, matching the condition is the same as having that key in the column |
| Tables.PickScan | mini_sqlite_golang/core/storage/btree.go:263-271 | the rows at the positions a key scan finds are the rows holding that key, in table order |
| Tables.RowsFor | mini_sqlite_golang/core/storage/btree.go:191-211 | without a condition every position in order; with one, on a consistent table, exactly the positions the linear scan finds, whether or not the column is indexed |
| Tables.RowsForSelects | mini_sqlite_python/core/storage/btree.py:112-125 | on a consistent table the positions are in range and the rows at them are exactly the reference selection |
| Tables.LookupName | mini_sqlite_golang/core/storage/btree.go:126-128 | a name without a dot reads itself; otherwise a proper suffix of it, which under Go's rule has no dot left |
| Tables.LookupNameRulesAgree | mini_sqlite_python/core/storage/btree.py:76 | for a name with at most one dot, Python's first-dot rule and Go's and Rust's last-dot rule read the same column |
| Tables.LookupNameRulesDiverge | mini_sqlite_python/core/storage/btree.py:76 | `a.b.c` reads `c` in Go and Rust but `b.c` in Python |
| Tables.Project | mini_sqlite_golang/core/storage/btree.go:123-131 | the projected row has exactly the requested names, each holding the cell its looked-up name reads, null when absent |
| Tables.Shape | mini_sqlite_golang/core/storage/btree.go:114-132 | one output row per selected row: a copy for `*`, the projection otherwise |
| Tables.SelectRows | mini_sqlite_golang/core/storage/btree.go:108-133 | on a consistent table the result is the shaped reference selection, whichever of the index and the scan served it |
| Tables.BuildRow | mini_sqlite_golang/core/storage/btree.go:90-95 | the row holds exactly the columns that got a value, and each holds the value at the last position naming it |
| Tables.Fill | mini_sqlite_python/core/storage/btree.py:53 | writing the pairs in order leaves every name written, each with the value of its last occurrence |
| Tables.BuildRowFull | mini_sqlite_rust/src/core/storage/btree.rs:103-110 | with as many values as distinct columns, every column holds its own value |
| Tables.InsertRow | mini_sqlite_golang/core/storage/btree.go:88-106 | the built row is appended after the existing rows; columns and index names stay |
| Tables.InsertKeepsConsistent | mini_sqlite_golang/core/storage/btree.go:96-101 | the insert's bucket updates leave every index equal to a full rebuild from the new rows |
| Tables.AddColumn | mini_sqlite_golang/core/storage/btree.go:56-71 | a known column changes nothing; a new one is appended to the columns and set to null on every row; the index names stay |
| Tables.AddColumnConsistentIdempotent | mini_sqlite_python/core/storage/btree.py:29-37 | adding a column keeps every index a full rebuild, and adding it twice equals adding it once |
| Tables.CreateIndex | mini_sqlite_golang/core/storage/btree.go:73-79 | an existing index is kept as it is; otherwise the column gains an index; rows and columns stay; consistency is kept |
| Tables.DropIndex | mini_sqlite_golang/core/storage/btree.go:81-86 | exactly that index name goes; rows, columns and the other indexes stay |
| Tables.DropThenCreateIndex | mini_sqlite_rust/src/core/storage/btree.rs:81-95 | dropping an index keeps consistency, and creating it again restores the table |
| Tables.KeysUnchangedOutsideAssignments | mini_sqlite_golang/core/storage/btree.go:144-148 | an update leaves the keys of every unassigned column unchanged |
| Tables.UpdateRows | mini_sqlite_golang/core/storage/btree.go:135-154 | every selected row receives the assignments and every other row is unchanged; the count is the number of selected rows; the table stays consistent |
| Tables.ApplyAt | mini_sqlite_python/core/storage/btree.py:87-89 | the assignments are applied at exactly the listed positions |
| Tables.RefreshKeepsConsistent | mini_sqlite_python/core/storage/btree.py:90-92 | rebuilding only the assigned indexed columns is enough to keep every index a full rebuild |
| Tables.DeleteRows | mini_sqlite_golang/core/storage/btree.go:156-189 | without a condition every row goes; with one exactly the non-matching rows remain, in order; the count is the number of selected rows and the table stays consistent |
| Tables.Prefixed | mini_sqlite_golang/core/storage/btree.go:234-236 | each listed column's cell appears under its qualified name, and nothing else does |
| Tables.JoinOutput | mini_sqlite_golang/core/storage/btree.go:233-257 | for `*` the left then right qualified cells; otherwise exactly the requested names, a plain name reading the left row first, then the right, then null |
| Tables.WithKey | mini_sqlite_python/core/storage/btree.py:168-169 | every returned row holds the key in the column |
| Tables.PickBucketIsWithKey | mini_sqlite_golang/core/storage/btree.go:263-271 | a rebuilt bucket's positions are in range and pick exactly the rows with that key, in table order |
| Tables.BucketPairs | mini_sqlite_golang/core/storage/btree.go:231-258 | reading the right rows out of the index bucket gives the same output rows as scanning the right table |
| Tables.BucketJoin | mini_sqlite_python/core/storage/btree.py:143-162 | the index-driven join equals the reference nested-loop join |
| Tables.JoinRows | mini_sqlite_golang/core/storage/btree.go:213-261 | the right table gains an index on the join column when it has none, and the output is the nested-loop join of the selected left rows |
| Tables.JoinKeepsConsistent | mini_sqlite_python/core/storage/btree.py:138-141 | a join changes no rows and leaves every table consistent |
| Tables.Describe | mini_sqlite_golang/core/storage/btree.go:273-287 | one summary per table, holding its columns, its row count and its index names |
| Tables.DescribeFollowsOperations | mini_sqlite_python/core/storage/btree.py:172-180 | after an insert the row count is one more; a new column is appended to the summary's columns; CREATE INDEX and DROP INDEX add and remove exactly that index name |
| Tables.DescribeAfterDrop | mini_sqlite_rust/src/core/storage/btree.rs:407-429 | after DROP TABLE the summary is the old one without that table |
| Tables.DescribeKeepsOthers | mini_sqlite_golang/core/storage/btree.go:273-287 | replacing one table leaves every other table's summary as it was |
| RustExecutor.RustExecute | mini_sqlite_rust/src/core/executor.rs:39-206 | every run keeps every index consistent and answers at least one line; only a data command or COMMIT changes the log, and only a database command changes the active name |
| RustExecutor.RustCreateTable | mini_sqlite_rust/src/core/executor.rs:64-72 | CREATE TABLE keeps consistency, the log and the active name, and answers one line |
| RustExecutor.RustTableCommand | mini_sqlite_rust/src/core/executor.rs:74-193 | past the existence check, only a data command changes the log, and the active name stays |
| RustExecutor.RustInsert | mini_sqlite_rust/src/core/executor.rs:110-128 | an INSERT keeps consistency and the active name and answers one line |
| RustExecutor.RustUpdate | mini_sqlite_rust/src/core/executor.rs:130-152 | an UPDATE keeps consistency and the active name and answers one line |
| RustExecutor.RustDelete | mini_sqlite_rust/src/core/executor.rs:154-172 | a DELETE keeps consistency and the active name and answers one line |
| RustExecutor.RustSelect | mini_sqlite_rust/src/core/executor.rs:174-193 | a SELECT always answers at least one line |
| RustExecutor.RustRefusalsChangeNothing | mini_sqlite_rust/src/core/executor.rs:74-183 | every table command naming a missing table answers `not found` and changes nothing |
| RustExecutor.RustJoinRefused | mini_sqlite_rust/src/core/executor.rs:184-188 | a SELECT whose join table is missing names it and changes nothing |
| RustExecutor.RustBadInsertChangesNothing | mini_sqlite_rust/src/core/executor.rs:115-126 | an INSERT with the wrong number of values reports the error and changes nothing, log included |
| RustExecutor.RustInsertLogsTable | mini_sqlite_rust/src/core/executor.rs:115-124 | a good INSERT appends the built row and logs one entry naming the table, not the row |
| RustExecutor.RustDmlLogsOnce | mini_sqlite_rust/src/core/executor.rs:130-172 | an UPDATE or DELETE on an existing table appends exactly one log entry, tagged with the active database and its verb, after the untouched earlier ones |
| RustExecutor.RustDmlCommandLogsOnce | mini_sqlite_rust/src/core/executor.rs:130-172 | UPDATE and DELETE each append exactly their one entry |
| RustExecutor.RustCommit | mini_sqlite_rust/src/core/executor.rs:195-200 | COMMIT empties the log, reports how many entries were pending, and keeps the catalog |
| RustExecutor.RustConditionlessDeleteClearsAll | mini_sqlite_rust/src/core/executor.rs:154-172 | a DELETE without a condition removes every row and reports their number |
| RustExecutor.RustSelectRenders | mini_sqlite_rust/src/core/executor.rs:189-190 | a SELECT without a join renders the shaped selection of the table with sorted `*` headers and changes nothing |
| RustTables.PickPresent | mini_sqlite_rust/src/core/storage/btree.rs:277-281 | positions past the end are skipped, and when all are in range the rows at them are picked in order |
| RustTables.RustInsertRow | mini_sqlite_rust/src/core/storage/btree.rs:97-126 | a missing table and a value count different from the column count are errors; otherwise the built row is appended and returned |
| RustTables.RustInsertFillsEveryColumn | mini_sqlite_rust/src/core/storage/btree.rs:103-110 | with distinct column names a successful insert stores every value under its own column |
| RustTables.ShortInsertDiverges | mini_sqlite_rust/src/core/storage/btree.rs:103-105 | too few values are refused in Rust, where Go inserts a row with trailing columns absent |
| RustTables.RustAddColumn | mini_sqlite_rust/src/core/storage/btree.rs:59-79 | a missing table changes nothing; otherwise the shared ADD COLUMN |
| RustTables.RustCreateIndex | mini_sqlite_rust/src/core/storage/btree.rs:81-88 | a missing table changes nothing; otherwise the shared CREATE INDEX |
| RustTables.RustDropIndex | mini_sqlite_rust/src/core/storage/btree.rs:90-95 | a missing table changes nothing; otherwise the shared DROP INDEX |
| RustTables.ScanOrAll | mini_sqlite_rust/src/core/storage/btree.rs:162-218 | exactly the positions of rows that match, or every position without a condition |
| RustTables.RustUpdateTable | mini_sqlite_rust/src/core/storage/btree.rs:162-218 | the table stays consistent with its columns, index names and row count, each matching row receives the assignments and every other row is unchanged |
| RustTables.RustUpdateAgrees | mini_sqlite_rust/src/core/storage/btree.rs:162-218 | on a consistent table Rust's scan-and-rebuild update equals the shared indexed update |
| RustTables.RustUpdateRows | mini_sqlite_rust/src/core/storage/btree.rs:162-218 | an error exactly for a missing table; otherwise the table names stay and the count is the scan's |
| RustTables.RustDeleteRows | mini_sqlite_rust/src/core/storage/btree.rs:220-258 | an error exactly for a missing table; otherwise the shared DELETE, consistent, counting the selected rows |
| RustTables.RustConditionlessDeleteClears | mini_sqlite_rust/src/core/storage/btree.rs:220-258 | a DELETE without a condition empties the table and counts every row |
| RustTables.RustRowsFor | mini_sqlite_rust/src/core/storage/btree.rs:260-296 | nothing for a missing table; on a consistent one exactly the reference selection |
| RustTables.SelectsWhenConsistent | mini_sqlite_rust/src/core/storage/btree.rs:260-296 | on a consistent table the rows the positions pick are the reference selection |
| RustTables.RustSelectRows | mini_sqlite_rust/src/core/storage/btree.rs:128-160 | an error exactly for a missing table; on a consistent one the shared shaped selection |
| RustTables.RustJoinRows | mini_sqlite_rust/src/core/storage/btree.rs:298-380 | an error naming whichever table is missing; otherwise the nested-loop join of the selected left rows |
| RustTables.RustJoinMatchesGoShape | mini_sqlite_rust/src/core/storage/btree.rs:298-380 | on consistent tables the Rust join emits the Go join's rows, while Go also leaves an index on the right column |
| Literals.NumberOrText | mini_sqlite_golang/core/parser.go:312-318 | never null; an integer only when the text reads as a 64-bit integer; a float only when it does not but has float syntax, keeping its spelling; otherwise the text itself |
| Literals.ParseLiteralAsWritten | mini_sqlite_golang/core/parser.go:306-319 | faults exactly when the trimmed text is a lone quote character |
| Literals.ParseLiteral | mini_sqlite_rust/src/core/parser.rs:407-429 | never null; a trimmed text of two or more characters wrapped in matching quotes is the text between them, anything else is typed as a number or left as text |
| Literals.ParseLiteralAgrees | mini_sqlite_golang/core/parser.go:306-319 | wherever the code as written does not fault, it gives the repaired result |
| Literals.LoneQuotePanics | mini_sqlite_rust/src/core/parser.rs:411-415 | a lone quote faults as written and reads as the text `'` once repaired |
| Literals.ParseLiteralOfInteger | mini_sqlite_golang/core/parser.go:312-313 | every 64-bit integer's decimal spelling is typed back as that integer |
| Literals.ParseLiteralOfQuoted | mini_sqlite_golang/core/parser.go:308-310 | quoting any text with either quote character gives back exactly that text |
| Literals.LiteralRoundTrip | mini_sqlite_golang/core/parser.go:306-319 | every spellable value's literal reads back as that value and carries no surrounding blanks |
| Literals.RustStepIsGoStep | mini_sqlite_rust/src/core/parser.rs:359-396 | the Rust and Go value-list loops take the same step on every character |
| Literals.ScanInsideQuotes | mini_sqlite_golang/core/parser.go:259-278 | inside quotes every character but the quote, commas included, is kept verbatim |
| Literals.ScanBlank | mini_sqlite_golang/core/parser.go:276-277 | outside quotes blank text is kept in the pending value |
| Literals.ScanQuoted | mini_sqlite_golang/core/parser.go:261-268 | one quoted field scanned from a clean state is appended as text |
| Literals.ScanQuotedAfter | mini_sqlite_golang/core/parser.go:261-268 | a quoted field after pending unquoted text appends the two as one text value |
| Literals.ParseValueListOfQuoted | mini_sqlite_golang/core/parser.go:254-290 | texts without single quotes, each quoted and joined with commas, split back into exactly those texts, commas inside them included |
| Literals.QuotedFieldKeepsLeadingBlank | mini_sqlite_golang/core/parser.go:261-265 | a quoted field is emitted unparsed and keeps the blank text before its opening quote |
| GoParser.SplitWhere | mini_sqlite_golang/core/parser.go:150-157 | no tail exactly when the upper-cased text has no ` WHERE `; otherwise the cut is at its first occurrence and the prefix, the seven separator characters and the tail rebuild the text |
| GoParser.GoCondition | mini_sqlite_golang/core/parser.go:292-304 | the empty condition map exactly when the clause has no `=`; a parsed condition never compares with null |
| GoParser.GoWhere | mini_sqlite_golang/core/parser.go:152-157 | no condition exactly when there is no WHERE tail or it is empty |
| GoParser.Collect | mini_sqlite_golang/core/parser.go:172-180 | the assignment map holds exactly the columns some pair assigns, each with the value of its last assignment |
| GoParser.ColumnDefOf | mini_sqlite_golang/core/parser.go:107-116 | a blank chunk gives no definition; otherwise a non-empty blank-free name and a non-empty type |
| GoParser.ColumnDefs | mini_sqlite_golang/core/parser.go:105-118 | at most one definition per chunk, none exactly when every chunk is blank, each with a proper name |
| GoParser.ParseCreateTable | mini_sqlite_golang/core/parser.go:87-120 | no parenthesis gives the empty payload; a fault only as written and only when the last `)` precedes the first `(`; a payload needs `(` before `)` and three header tokens |
| GoParser.ParseAlterTable | mini_sqlite_golang/core/parser.go:122-136 | a payload exactly when the token count reaches the mode's minimum and tokens 4 and 5 are ADD COLUMN; it names the lowercased table and column, TEXT by default, else the upper-cased seventh token |
| GoParser.ParseUpdate | mini_sqlite_golang/core/parser.go:149-186 | the empty payload exactly when the prefix has fewer than two tokens or no ` SET `; otherwise the lowercased second token and the WHERE tail's condition |
| GoParser.ParseDelete | mini_sqlite_golang/core/parser.go:188-209 | the empty payload exactly when the prefix has fewer than three tokens; otherwise the lowercased third token and the WHERE tail's condition |
| GoParser.ParseInsert | mini_sqlite_golang/core/parser.go:138-147 | a payload exactly when the pattern matches, with the captured value list split by the value-list scanner |
| GoParser.SelectColumns | mini_sqlite_golang/core/parser.go:225-229 | one trimmed name per comma-separated piece, at least one |
| GoParser.ParseSelect | mini_sqlite_golang/core/parser.go:211-252 | a payload exactly when the pattern matches; a condition exactly when a WHERE column was captured, never the malformed one; the trimmed column list |
| GoParser.Compound | mini_sqlite_golang/core/parser.go:35-67 | an unlisted key is UNKNOWN; each listed key reads its lowercased names from tokens 3 and 4; too few tokens reach the missing-token case; faults only as written |
| GoParser.Dispatch | mini_sqlite_golang/core/parser.go:69-84 | COMMIT commits, USE with a name selects it lowercased, a lone other word is UNKNOWN, other first words go to the handler table under the first two words |
| GoParser.ParseWith | mini_sqlite_golang/core/parser.go:25-85 | a blank statement is EMPTY with empty raw text, otherwise the raw text is the trimmed statement and the command is never EMPTY; the repaired parser never faults; a statement with no tokens after its `;` faults exactly as written |
| GoParser.SameTextSameCommand | mini_sqlite_golang/core/parser.go:31-33 | two statements with the same dispatched text parse to the same command |
| GoParser.OneSemicolonRemoved | mini_sqlite_golang/core/parser.go:31 | a statement with one `;` appended parses to the same command as without it |
| GoParser.SecondSemicolonKept | mini_sqlite_golang/core/parser.go:31 | of `;;` only the last is removed |
| GoParser.UseLowercasesName | mini_sqlite_golang/core/parser.go:71-72 | `USE name` selects the lowercased name, whatever the keyword's case |
| GoParser.LoneWordIsUnknown | mini_sqlite_golang/core/parser.go:76-84 | a single word that is no verb and not COMMIT is UNKNOWN |
| GoParser.UnmatchedKeyIsUnknown | mini_sqlite_golang/core/parser.go:74-79 | a statement whose first two words name no handler and whose first word is no verb is UNKNOWN |
| GoParser.ShortKeywordStatement | mini_sqlite_golang/core/parser.go:36-56 | a keyword statement without the name tokens its handler reads faults as written and is UNKNOWN once repaired |
| GoParser.LoneSemicolon | mini_sqlite_golang/core/parser.go:31-33 | the statement `;` faults on `tokens[0]` as written and is UNKNOWN once repaired |
| GoParser.KeywordStatement | mini_sqlite_golang/core/parser.go:73-79 | a keyword statement of words is parsed by the handler table under its first two words, upper-cased |
| GoParser.OneNameStatementRoundTrip | mini_sqlite_golang/core/parser.go:36-50 | `CREATE DATABASE a`, `ALTER DATABASE a` and `DROP TABLE a`, keywords in any case, read back the lowercase name written |
| GoParser.IndexStatementRoundTrip | mini_sqlite_golang/core/parser.go:51-56 | `CREATE INDEX t c` and `DROP INDEX t c`, keywords in any case, read back table and column |
| GoParser.SixTokenAlterTable | mini_sqlite_golang/core/parser.go:123-129 | as written six tokens give the empty payload, so the TEXT default is unreachable; repaired they add a TEXT column |
| GoParser.CloseBeforeOpen | mini_sqlite_golang/core/parser.go:88-103 | a `)` before the first `(` makes the column slice run backwards: a fault as written, the empty payload repaired |
| GoParser.ColumnDefsRoundTrip | mini_sqlite_golang/core/parser.go:105-118 | a written column list reads back to exactly its definitions |
| GoParser.CreateTableRoundTrip | mini_sqlite_golang/core/parser.go:87-120 | a CREATE TABLE statement spelled from a lowercase name and definitions reads back that table and those definitions |
| GoParser.ConditionRoundTrip | mini_sqlite_golang/core/parser.go:292-304 | a spelled equation reads back its column and value |
| GoParser.AssignmentRoundTrip | mini_sqlite_golang/core/parser.go:172-179 | one SET chunk reads back its column and value |
| GoParser.CollectPresent | mini_sqlite_golang/core/parser.go:172-180 | present pairs assign exactly their columns, each its last value |
| GoParser.AssignmentsRoundTrip | mini_sqlite_golang/core/parser.go:165-180 | a spelled SET list assigns exactly the listed columns, each to its last listed value |
| RustParser.RustCondition | mini_sqlite_rust/src/core/parser.rs:398-405 | never the malformed condition; a condition exactly when there is a tail with an `=` |
| RustParser.RustConditionIsGoWhere | mini_sqlite_rust/src/core/parser.rs:398-405 | the Rust condition is the Go one with the empty condition map read as no condition |
| RustParser.RustCreateTable | mini_sqlite_rust/src/core/parser.rs:193-224 | the repaired mode never faults; a missing parenthesis is UNKNOWN; otherwise UNKNOWN or a CREATE TABLE with a payload |
| RustParser.RustCreateTableIsGo | mini_sqlite_rust/src/core/parser.rs:193-224 | Rust and Go CREATE TABLE fault on the same statements, Rust is UNKNOWN exactly where Go gives the empty payload, and they agree on every payload |
| RustParser.RustAlterTable | mini_sqlite_rust/src/core/parser.rs:226-245 | ALTER TABLE exactly with seven or more tokens and ADD COLUMN, in either mode; UNKNOWN exactly where Go as written gives the empty payload, Go's payload otherwise |
| RustParser.RustUpdate | mini_sqlite_rust/src/core/parser.rs:258-296 | UNKNOWN exactly where Go gives the empty payload; otherwise Go's payload with the condition demoted |
| RustParser.RustDelete | mini_sqlite_rust/src/core/parser.rs:298-317 | UNKNOWN exactly where Go gives the empty payload; otherwise Go's payload with the condition demoted |
| RustParser.RustInsert | mini_sqlite_rust/src/core/parser.rs:247-256 | UNKNOWN exactly when Rust's own pattern does not match; otherwise the payload Go builds from the same captures |
| RustParser.RustSelect | mini_sqlite_rust/src/core/parser.rs:319-357 | UNKNOWN exactly when Rust's own pattern does not match; otherwise the payload Go builds from the same captures |
| RustParser.RustDispatch | mini_sqlite_rust/src/core/parser.rs:132-182 | COMMIT commits, USE with a name selects it lowercased, a fault only as written and only for CREATE TABLE, never EMPTY |
| RustParser.RustParseWith | mini_sqlite_rust/src/core/parser.rs:113-191 | a blank statement is EMPTY; one with no tokens after its `;`s is UNKNOWN; the raw text is the trimmed statement; the repaired mode never faults |
| RustParser.Demote | mini_sqlite_rust/src/core/parser.rs:113-191 | demoting keeps a command EMPTY exactly when it was |
| RustParser.InsertAgrees | mini_sqlite_rust/src/core/parser.rs:247-256 | on INSERT statements each parser has a payload exactly when its own pattern matches, and Rust parses as repaired Go, demoted, when the two patterns capture alike |
| RustParser.UpdateAgrees | mini_sqlite_rust/src/core/parser.rs:258-296 | on UPDATE statements Rust parses as repaired Go, demoted |
| RustParser.DeleteAgrees | mini_sqlite_rust/src/core/parser.rs:298-317 | on DELETE statements Rust parses as repaired Go, demoted |
| RustParser.SelectAgrees | mini_sqlite_rust/src/core/parser.rs:319-357 | on SELECT statements each parser has a payload exactly when its own pattern matches, and Rust parses as repaired Go, demoted, when the two patterns capture alike |
| RustParser.KeywordAgrees | mini_sqlite_rust/src/core/parser.rs:136-176 | on statements opening with CREATE, ALTER or DROP Rust parses as repaired Go, demoted, except the six-token ALTER TABLE |
| RustParser.UnmatchedAgrees | mini_sqlite_rust/src/core/parser.rs:136-181 | a keyword pair naming no statement is UNKNOWN to both parsers |
| RustParser.OtherWordAgrees | mini_sqlite_rust/src/core/parser.rs:155-181 | a first word no arm recognises is UNKNOWN to both parsers |
| RustParser.RustAgreesWithRepairedGo | mini_sqlite_rust/src/core/parser.rs:113-191 | on every token list except the six-token ALTER TABLE, and when the INSERT or SELECT patterns capture alike, the Rust dispatch is the repaired Go dispatch with empty payloads made UNKNOWN and malformed conditions dropped |
| RustParser.RustSameTextSameCommand | mini_sqlite_rust/src/core/parser.rs:122-123 | two statements with the same dispatched text parse to the same command |
| RustParser.SemicolonsRemoved | mini_sqlite_rust/src/core/parser.rs:122 | any number of trailing `;` leave the command unchanged |
| RustParser.RustLoneSemicolons | mini_sqlite_rust/src/core/parser.rs:122-130 | a statement of `;`s alone is UNKNOWN, where Go faults as written |
| RustParser.CommitDoubleSemicolon | mini_sqlite_rust/src/core/parser.rs:122 | `COMMIT;;` commits in Rust and is UNKNOWN in Go, whatever their patterns |
| RustParser.RustCloseBeforeOpen | mini_sqlite_rust/src/core/parser.rs:193-224 | a `)` before the first `(` makes the column slice run backwards: a fault as written, UNKNOWN repaired |
| RustParser.RustModeOnlyForTables | mini_sqlite_rust/src/core/parser.rs:157-159 | the mode changes the dispatch only for CREATE TABLE |
| RustParser.RustShortKeywordStatement | mini_sqlite_rust/src/core/parser.rs:136-176 | a keyword statement one name short is UNKNOWN in either mode, where Go faults as written |
| RustParser.RustSixTokenAlter | mini_sqlite_rust/src/core/parser.rs:226-245 | `ALTER TABLE t ADD COLUMN c` is UNKNOWN to Rust in either mode, a TEXT column to repaired Go and the empty payload to Go as written |
| RustParser.UnanchoredSelect | mini_sqlite_rust/src/core/parser.rs:319-322 | `SELECT c FROM t WHERE b` with Go's pattern not matching and Rust's matching without the WHERE group: the empty payload in Go, a selection from `t` with no condition in Rust |
| RustParser.UnanchoredInsert | mini_sqlite_rust/src/core/parser.rs:247-249 | `INSERT INTO t VALUES (v) x` with Go's pattern not matching and Rust's stopping at the last `)`: the empty payload in Go, an insert of `v` into `t` in Rust |
| PyParser.PyLiteral | mini_sqlite_python/core/parser.py:159-163 | an evaluable text is its evaluated value; any other is text with no single quote left at either end |
| PyParser.FindWholeWord | mini_sqlite_python/core/parser.py:166 | the first position from the start at which the keyword stands as a whole word, none exactly when there is no such position |
| PyParser.SplitKeyword | mini_sqlite_python/core/parser.py:165-169 | one piece, the text itself, exactly when the keyword is not found as a whole word; otherwise the trimmed text before and after its first match |
| PyParser.SpacedWhereIsWholeWord | mini_sqlite_python/core/parser.py:107-108 | a ` WHERE ` found by the case-blind substring test is a whole-word match one place on, so the split always finds a keyword |
| PyParser.PySplitWhere | mini_sqlite_python/core/parser.py:105-110 | never raises; no clause exactly when the upper-cased text holds no ` WHERE `, in which case the prefix is the text; otherwise the two pieces of the keyword split |
| PyParser.PyCondition | mini_sqlite_python/core/parser.py:153-157 | raises the unpacking error exactly when the clause has no `=`; otherwise reads the column Go reads |
| PyParser.PyWhere | mini_sqlite_python/core/parser.py:117 | raises exactly where Go builds its empty condition map; otherwise no condition exactly where Go has none, on the same column |
| PyParser.PyAssignments | mini_sqlite_python/core/parser.py:113-116 | raises exactly when some chunk has no `=`; otherwise assigns the columns Go assigns, each to its last value |
| PyParser.SameColumnsAssigned | mini_sqlite_python/core/parser.py:114-116 | every column Python assigns Go assigns too, and when every chunk has `=` the converse holds |
| PyParser.PyCreateTable | mini_sqlite_python/core/parser.py:74-86 | raises the unpacking error without `(`, the index error exactly when the header has fewer than three tokens; otherwise reads the third header token lowercased |
| PyParser.PyAlterTable | mini_sqlite_python/core/parser.py:88-95 | raises exactly when there are fewer than three tokens; otherwise Go's as-written payload, present exactly with seven tokens and ADD COLUMN |
| PyParser.PyInsert | mini_sqlite_python/core/parser.py:97-102 | the empty payload when Python's own pattern does not match; raises exactly when it matches and the value list does not evaluate; otherwise the lowercased table and the evaluated values |
| PyParser.PyUpdate | mini_sqlite_python/core/parser.py:104-118 | raises the index error with fewer than two prefix tokens or no ` SET ` with its case; otherwise the lowercased second token and the condition the WHERE piece parses to |
| PyParser.PyDelete | mini_sqlite_python/core/parser.py:120-129 | raises the index error with fewer than three prefix tokens, otherwise exactly when the condition raises; otherwise the lowercased third token and that condition |
| PyParser.PySelect | mini_sqlite_python/core/parser.py:131-145 | from the captures of Python's own pattern: a payload exactly where Go's handling of those captures gives one, with its table, columns and join, and a condition on its column exactly when it has one, the value read by the Python literal rule |
| PyParser.PyCompound | mini_sqlite_python/core/parser.py:43-51 | an unlisted word pair is UNKNOWN; a raise only for a listed pair; a CREATE TABLE always carries a payload |
| PyParser.PyDispatch | mini_sqlite_python/core/parser.py:53-70 | COMMIT commits; USE selects the lowercased name or is UNKNOWN without one; a lone other word is UNKNOWN; other first words go to the handler table |
| PyParser.PyParseWith | mini_sqlite_python/core/parser.py:34-72 | the raw text is the trimmed statement and the command of a non-blank statement is never EMPTY |
| PyParser.PyParseWithEdges | mini_sqlite_python/core/parser.py:36-41 | a blank statement is EMPTY; one whose `;`s leave no token raises the index error |
| PyParser.PySameTextSameCommand | mini_sqlite_python/core/parser.py:39-40 | two statements with the same dispatched text parse to the same command |
| PyParser.PySemicolonsRemoved | mini_sqlite_python/core/parser.py:39 | any number of trailing `;` leave the command unchanged |
| PyParser.PyLoneSemicolons | mini_sqlite_python/core/parser.py:39-41 | a statement of `;`s alone raises, where Rust answers UNKNOWN |
| PyParser.PyCommitDoubleSemicolon | mini_sqlite_python/core/parser.py:39 | `COMMIT;;` commits, as in Rust and unlike Go |
| PyParser.UseWithoutName | mini_sqlite_python/core/parser.py:55-59 | `USE` alone is UNKNOWN in Python and in Go, whatever their patterns |
| PyParser.PyKeywordAgrees | mini_sqlite_python/core/parser.py:44-50 | on the database, index and DROP TABLE statements Python raises exactly where Go panics as written and otherwise builds Go's command |
| PyParser.PyUnicodeTableName | mini_sqlite_python/core/parser.py:27-31 | `SELECT c FROM t` with a table name Go's ASCII `\w` rejects and Python's Unicode `\w` accepts: the empty payload in Go, a selection from `t` in Python |
| PyParser.PyShortKeywordStatement | mini_sqlite_python/core/parser.py:44-50 | a keyword statement one name short raises on the missing token |
| PyParser.PyCreateTableExtendsGo | mini_sqlite_python/core/parser.py:74-86 | wherever Go finds a CREATE TABLE payload Python finds the same one |
| PyParser.PyCreateTableRoundTrip | mini_sqlite_python/core/parser.py:74-86 | a CREATE TABLE statement spelled from its parts reads back to them |
| PyParser.PyReversedParentheses | mini_sqlite_python/core/parser.py:75-77 | a `)` before the first `(`: Go faults as written, Python reads the columns to the end |
| PyParser.PyUnclosedColumns | mini_sqlite_python/core/parser.py:75-77 | no `)` at all: Go gives the empty payload, Python reads the columns to the end |
| PyParser.PySplitWhereAgrees | mini_sqlite_python/core/parser.py:107-108 | when the first whole word WHERE is the one inside the first spaced ` WHERE `, Python's prefix has Go's tokens and its clause is Go's trimmed |
| PyParser.PyCutsAtEarlierWord | mini_sqlite_python/core/parser.py:166-169 | a whole word WHERE before Go's ` WHERE ` is where Python cuts instead |
| PyParser.PyDeleteAgrees | mini_sqlite_python/core/parser.py:120-129 | with the WHERE split alike, Python raises where Go has no payload and otherwise deletes from Go's table |
| PyParser.PyDeleteWithoutWhere | mini_sqlite_python/core/parser.py:120-129 | without ` WHERE `, Python raises exactly where Go's payload is empty and is Go's payload otherwise |
| PyParser.PyLowercaseSet | mini_sqlite_python/core/parser.py:112 | a lowercase ` set ` is an UPDATE for Go and raises in Python |
| PyParser.ConditionWithoutEquals | mini_sqlite_python/core/parser.py:156 | a condition without `=`: Go builds its empty condition map, Rust reads no condition, Python raises |
| PyParser.PySixTokenAlter | mini_sqlite_python/core/parser.py:91-93 | six tokens give the empty payload, as in Go as written, not the repaired TEXT column |
| PyParser.PyQuotedFallback | mini_sqlite_python/core/parser.py:160-163 | a single-quoted text that does not evaluate loses its quotes, as in Go |
| CommitLog.Append | mini_sqlite_golang/core/storage/lsm_tree.go:13-15 | the entry lands at the end, one more is pending, and every earlier entry keeps its position |
| CommitLog.Snapshot | mini_sqlite_golang/core/storage/lsm_tree.go:21-25 | the copy has the pending count and lists the entries in log order |
| CommitLog.Compact | mini_sqlite_golang/core/storage/lsm_tree.go:35-39 | a log of at most ten entries is untouched; a longer one keeps exactly its last ten, in order |
| CommitLog.CompactPyIsCompact | mini_sqlite_python/core/storage/lsm_tree.py:33-35 | Python's unconditional `[-10:]` slice keeps the same entries as the guarded Go and Rust trim |
| CommitLog.Commit | mini_sqlite_golang/core/storage/lsm_tree.go:27-33 | commit returns the snapshot taken before it and leaves nothing pending |
| CommitLog.CompactInertAfterCommit | mini_sqlite_rust/src/core/storage/lsm_tree.rs:40-52 | the compaction run by commit acts on the cleared buffer and changes nothing: the log after commit is empty |
| CommitLog.CommitAfterAppend | mini_sqlite_python/core/storage/lsm_tree.py:14-31 | appending an entry and committing returns the previous entries followed by that entry, and empties the log |
| CommitLog.AppendAll | mini_sqlite_golang/core/storage/lsm_tree.go:13-18 | appending a sequence of entries to any log adds exactly those entries, in order, to the pending ones |
| Pager.Chunks | mini_sqlite_python/core/storage/pager.py:49-51 | the data is cut into pieces of exactly one page each, none for empty data, and just enough pages to hold every byte |
| Pager.WriteBlob | mini_sqlite_golang/core/storage/pager.go:51-70 | the length is the data's length; the page size is unchanged; every page is full-size; the page list is empty exactly for empty data; the pages hold the data with less than one page to spare |
| Pager.ReadBlob | mini_sqlite_rust/src/core/storage/pager.rs:73-83 | the result is a prefix of all pages laid end to end, no longer than the recorded length |
| Pager.ReadBlobGo | mini_sqlite_golang/core/storage/pager.go:72-81 | Go's read faults exactly when there are pages and the recorded length exceeds their bytes; otherwise it agrees with the Rust and Python read |
| Pager.BlobRoundTrip | mini_sqlite_python/core/storage/pager.py:42-59 | reading back a written blob gives exactly the written bytes, in both the Go and the Rust/Python read |
| Pager.WriteBlobValid | mini_sqlite_golang/core/storage/pager.go:51-70 | writing a blob whose length fits the u64 header field keeps the pager state valid |
| Pager.Grow | mini_sqlite_golang/core/storage/pager.go:35-37 | zero pages are appended until the index is in range; existing pages are kept |
| Pager.AllocatePage | mini_sqlite_golang/core/storage/pager.go:29-32 | one zero page is appended and its position, the old page count, is returned |
| Pager.WritePage | mini_sqlite_golang/core/storage/pager.go:34-42 | the page list grows to reach the index; that page becomes the data's first page-size bytes, zero-padded; every other page is kept or a new zero page |
| Pager.WritePageRust | mini_sqlite_rust/src/core/storage/pager.rs:40-47 | the same growth, but only the data's first bytes are overwritten and the rest of the old page stays |
| Pager.WritePagePreservesValid | mini_sqlite_python/core/storage/pager.py:29-36 | both page writes keep a valid pager valid |
| Pager.WritePageDivergence | mini_sqlite_rust/src/core/storage/pager.rs:44-45 | one concrete write where Go and Python zero the stale page tail and Rust keeps it |
| Pager.ReadPage | mini_sqlite_golang/core/storage/pager.go:44-49 | the page is returned exactly when the index is in range |
| Pager.ReadPagePy | mini_sqlite_python/core/storage/pager.py:38-40 | Python raises an index error exactly where Go and Rust return nothing, and otherwise returns the same page |
| Pager.ReadAfterWritePage | mini_sqlite_golang/core/storage/pager.go:34-49 | a written page reads back starting with the written bytes, clipped to the page size |
| Pager.PageSizeFieldWraps | mini_sqlite_golang/core/storage/pager.go:116 | a page size of 2^32 is stored as 0 by the u32 cast |
| Pager.Flush | mini_sqlite_golang/core/storage/pager.go:110-125 | no pages give an empty file; otherwise the file starts with `MDB1`, is 16 header bytes longer than the pages, and the pages follow the header |
| Pager.Load | mini_sqlite_golang/core/storage/pager.go:87-108 | a file shorter than the header or without the magic leaves a fresh pager with the configured size; the loaded page size is always positive |
| Pager.LoadFlushRoundTrip | mini_sqlite_rust/src/core/storage/pager.rs:93-128 | loading the image that flush writes restores the pager state exactly |
| Pager.LoadIgnoresConfiguredSize | mini_sqlite_python/core/storage/pager.py:65-80 | when the image has pages, the stored page size wins over the configured one |
| Pager.BlobSurvivesFile | mini_sqlite_golang/core/storage/pager.go:51-125 | write blob, flush, load and read give back the blob |
| Executors.WithStore | mini_sqlite_golang/core/executor.go:71 | replacing the active store keeps the active name, the log, the database names and every other database |
| Executors.EnsureDatabase | mini_sqlite_golang/core/executor.go:158-163 | the name joins the catalog; every existing database is kept as it was, and only a new name gets an empty store |
| Executors.Activate | mini_sqlite_golang/core/executor.go:48-59 | the database is ensured and becomes the active one; the log stays |
| Executors.ActivateIdempotent | mini_sqlite_golang/core/executor.go:48-53 | activating a database twice is activating it once |
| Executors.ColumnNames | mini_sqlite_golang/core/executor.go:234-242 | one name per column definition, in order |
| Executors.ConditionOf | mini_sqlite_python/core/storage/btree.py:103 | a condition reaches storage exactly when the statement has a well-formed one, and it is that condition |
| Executors.Logged | mini_sqlite_golang/core/executor.go:113 | the log gains exactly one entry, tagged with the active database and the verb; the catalog and the active name stay |
| Executors.CommittedSingular | mini_sqlite_golang/core/executor.go:148-152 | the report says `entry` exactly when one entry was committed |
| Executors.CommitStep | mini_sqlite_golang/core/executor.go:146-152 | the log is left with nothing pending, the catalog stays, and the report names the number of entries that were pending |
| Executors.Cells | mini_sqlite_golang/core/executor.go:182-185 | one rendered cell per header, each the row's value under that header, absent ones rendered as missing |
| Executors.FormatRows | mini_sqlite_golang/core/executor.go:165-189 | `(no rows)` exactly for no rows; otherwise a header line and one line per row, each the cells under the headers joined with ` \| ` |
| Executors.FormatRowsAgree | mini_sqlite_golang/core/executor.go:165-189 | two renderings that agree on the headers and on every cell they reach produce the same lines |
| Executors.SortedStarIsRust | mini_sqlite_rust/src/core/executor.rs:222-225 | any strictly sorted enumeration of exactly a row's keys is the sorted-keys header list |
| Executors.Databases | mini_sqlite_golang/core/executor.go:203-210 | every database name exactly once, in strictly ascending order |
| Executors.DatabasesCanonical | mini_sqlite_golang/core/executor.go:203-210 | any strictly sorted list of exactly the database names is the listing |
| GoExecutor.GoExecute | mini_sqlite_golang/core/executor.go:41-156 | a run that does not panic keeps every index consistent with its rows and answers with at least one line |
| GoExecutor.GoCreateTable | mini_sqlite_golang/core/executor.go:77-84 | panics exactly when the payload is missing and no table `""` exists; otherwise one line and consistent indexes |
| GoExecutor.GoCreateIndex | mini_sqlite_golang/core/executor.go:100-103 | panics exactly when the table is absent |
| GoExecutor.GoAlterTable | mini_sqlite_golang/core/executor.go:91-94 | panics exactly when the payload is missing or its table is absent |
| GoExecutor.GoInsert | mini_sqlite_golang/core/executor.go:110-114 | panics exactly when the payload is missing or its table is absent; otherwise answers `1 row inserted.` |
| GoExecutor.GoUpdate | mini_sqlite_golang/core/executor.go:116-121 | panics exactly when the payload is missing, its condition is the empty map, or its table is absent |
| GoExecutor.GoDelete | mini_sqlite_golang/core/executor.go:123-127 | panics exactly when the condition is the empty map or the table, `""` for a missing payload, is absent |
| GoExecutor.GoSelect | mini_sqlite_golang/core/executor.go:129-144 | panics exactly when the payload is missing or, the join table being present, the condition is the empty map or the table is absent |
| GoExecutor.GoFaultsExactly | mini_sqlite_golang/core/executor.go:41-156 | a run panics exactly in the listed cases: a missing payload, an empty condition map, or a table the storage call dereferences being absent |
| GoExecutor.GoStoreFaults | mini_sqlite_golang/core/executor.go:86-153 | past the existence check, the run panics exactly in the listed cases |
| GoExecutor.GoSchemaFaults | mini_sqlite_golang/core/executor.go:90-108 | for the schema commands past the existence check, panics exactly in the listed cases |
| GoExecutor.GoDmlFaults | mini_sqlite_golang/core/executor.go:110-127 | for INSERT, UPDATE and DELETE past the existence check, panics exactly in the listed cases |
| GoExecutor.GoActivatesDatabase | mini_sqlite_golang/core/executor.go:48-60 | CREATE and ALTER DATABASE add the name, keep every existing database and the log, give a new name an empty store, and make it active |
| GoExecutor.GoCreateDatabaseIdempotent | mini_sqlite_golang/core/executor.go:48-53 | running CREATE DATABASE again changes nothing further |
| GoExecutor.GoUseDatabase | mini_sqlite_golang/core/executor.go:62-69 | USE of an unknown name changes nothing and says so; of a known one switches to it and changes nothing else |
| GoExecutor.GoRefusalsChangeNothing | mini_sqlite_golang/core/executor.go:77-88 | CREATE TABLE of an existing table, a missing named table and a missing join table each answer one line and leave the state, log included, as it was |
| GoExecutor.GoCreatesTable | mini_sqlite_golang/core/executor.go:77-84 | CREATE TABLE of a new name adds an empty table with the payload's column names and changes nothing else |
| GoExecutor.GoDmlLogsOnce | mini_sqlite_golang/core/executor.go:110-127 | an INSERT, UPDATE or DELETE past the existence check appends exactly one log entry, tagged with the active database and its verb, after the untouched earlier ones |
| GoExecutor.GoDmlCommandLogsOnce | mini_sqlite_golang/core/executor.go:110-127 | each data verb appends exactly its one entry |
| GoExecutor.GoOthersKeepLog | mini_sqlite_golang/core/executor.go:44-153 | every command other than COMMIT and a data command past the existence check leaves the log alone |
| GoExecutor.GoCommit | mini_sqlite_golang/core/executor.go:146-152 | COMMIT empties the log, reports how many entries were pending, and keeps the catalog |
| GoExecutor.GoCommitCountsDml | mini_sqlite_golang/core/executor.go:110-152 | a COMMIT right after a data command reports one more entry than was pending before it |
| GoExecutor.GoInsertAppends | mini_sqlite_golang/core/executor.go:110-114 | a successful INSERT stores the built row at the end of its table |
| GoExecutor.GoSelectAll | mini_sqlite_golang/core/executor.go:129-144 | `SELECT *` without condition or join renders every row of the table, in order, and changes nothing |
| GoExecutor.GoInsertThenSelectAll | mini_sqlite_golang/core/executor.go:110-144 | after an INSERT, `SELECT *` renders the old rows followed by the built row |
| GoExecutor.GoDeleteKeeps | mini_sqlite_golang/core/executor.go:123-127 | a DELETE with a condition keeps exactly the non-matching rows, in order |
| GoExecutor.GoSelectWhere | mini_sqlite_golang/core/executor.go:129-144 | a SELECT with a condition and no join renders the matching rows shaped by the requested columns, and changes nothing |
| GoExecutor.GoDeleteThenSelectEmpty | mini_sqlite_golang/core/executor.go:123-144 | after DELETE with a condition, a SELECT with the same condition answers `(no rows)` |
| GoExecutor.GoMalformedConditionPanics | mini_sqlite_golang/core/storage/btree.go:156-165 | a DELETE whose condition is the empty map panics in storage |
| GoExecutor.GoEmptyAlterPanics | mini_sqlite_golang/core/executor.go:91-92 | the empty ALTER TABLE payload panics on the type assertion of the missing column |
| Executors.DescribeAll | mini_sqlite_golang/core/executor.go:191-197 | one description per database, each listing exactly that database's tables |
| Executors.DescribeAllOnlyActive | mini_sqlite_python/core/executor.py:110-111 | replacing the active store changes the active database's description alone, to the new store's summary |
| Executors.DescribeAllAfterActivate | mini_sqlite_rust/src/core/executor.rs:208-215 | activating a new name adds an empty description for it; an existing name leaves every description as it was |
| PyExecutor.PyExecute | mini_sqlite_python/core/executor.py:29-94 | a run that does not raise keeps every index consistent with its rows and answers with at least one line |
| PyExecutor.PyCreateTable | mini_sqlite_python/core/executor.py:52-56 | raises exactly when the payload is missing |
| PyExecutor.PyAlterTable | mini_sqlite_python/core/executor.py:61-63 | raises exactly when the payload is missing or its table is absent |
| PyExecutor.PyCreateIndex | mini_sqlite_python/core/executor.py:67-69 | raises exactly when the table is absent |
| PyExecutor.PyInsert | mini_sqlite_python/core/executor.py:73-76 | raises exactly when the payload is missing or its table is absent; otherwise answers `1 row inserted.` |
| PyExecutor.PyUpdate | mini_sqlite_python/core/executor.py:77-80 | raises exactly when the payload is missing or its table is absent |
| PyExecutor.PyDelete | mini_sqlite_python/core/executor.py:81-84 | raises exactly when the payload is missing or its table is absent |
| PyExecutor.PySelect | mini_sqlite_python/core/executor.py:85-90 | raises exactly when the payload is missing or, the join table being present, the table is absent |
| PyExecutor.PyFaultsExactly | mini_sqlite_python/core/executor.py:29-94 | a run raises exactly in the listed cases: a missing payload, or a table the storage call looks up being absent |
| PyExecutor.PyStoreFaults | mini_sqlite_python/core/executor.py:58-94 | past the existence check, the run raises exactly in the listed cases |
| PyExecutor.PySchemaFaults | mini_sqlite_python/core/executor.py:61-72 | for the schema commands past the existence check, raises exactly in the listed cases |
| PyExecutor.PyDmlFaults | mini_sqlite_python/core/executor.py:73-84 | for INSERT, UPDATE and DELETE past the existence check, raises exactly in the listed cases |
| PyExecutor.PyActivatesDatabase | mini_sqlite_python/core/executor.py:34-41 | CREATE and ALTER DATABASE add the name, keep every existing database and the log, and make it active |
| PyExecutor.PyUseUnknown | mini_sqlite_python/core/executor.py:42-45 | USE of an unknown name answers `not found` and changes nothing |
| PyExecutor.PyRefusalsChangeNothing | mini_sqlite_python/core/executor.py:52-59 | CREATE TABLE of an existing table, a missing named table and a missing join table each answer one line and leave the state as it was |
| PyExecutor.PyDmlLogsOnce | mini_sqlite_python/core/executor.py:73-84 | an INSERT, UPDATE or DELETE past the existence check appends exactly one log entry, tagged with the active database and its verb, after the untouched earlier ones |
| PyExecutor.PyDmlCommandLogsOnce | mini_sqlite_python/core/executor.py:73-84 | each data verb appends exactly its one entry |
| PyExecutor.PyCommit | mini_sqlite_python/core/executor.py:91-93 | COMMIT empties the log, reports how many entries were pending, and keeps the catalog |
| PyExecutor.PyEmptyConditionDeletesAll | mini_sqlite_python/core/storage/btree.py:97-103 | an empty condition map counts as no condition: the DELETE removes every row and reports their number, where Go panics; only Go's parser builds this payload, Python's raises instead |
| PyExecutor.PyEmptyAlterRaises | mini_sqlite_python/core/executor.py:61-62 | the empty ALTER TABLE payload raises on the missing `column` key |
| Divergences.NullAndAbsentRendering | mini_sqlite_golang/core/executor.go:183-184 | a null cell renders as `<nil>` in Go, `None` in Python and `NULL` in Rust; an absent one as `<nil>` in Go and as nothing elsewhere |
| Divergences.RenderingsAgree | mini_sqlite_python/core/executor.py:101-108 | on rows that hold every header with a value that is neither null nor a float, with `*` enumerated in sorted order, the Go, Python and Rust renderings are the same lines |
| Divergences.OneCell | mini_sqlite_rust/src/core/executor.rs:230-243 | one row under one named column renders as that name and the row's cell |
| Divergences.NullCellDiverges | mini_sqlite_golang/core/executor.go:183-184 | the same null cell renders as three different lines |
| Divergences.UnnamedDropDiverges | mini_sqlite_golang/core/executor.go:86-98 | DROP TABLE of an absent unnamed table is reported dropped by Go, which skips its check for `""`, and refused by Rust |
| Divergences.ConditionWithoutEqualsEndToEnd | mini_sqlite_rust/src/core/parser.rs:398-405 | `DELETE ... WHERE w` with no `=` in `w`: Go panics in storage, Python raises while parsing, Rust deletes every row |
| Divergences.UnanchoredSelectEndToEnd | mini_sqlite_golang/core/parser.go:21 | `SELECT c FROM t WHERE b`: Go's `$`-anchored pattern fails and the executor panics on the empty payload; Rust shows column `c` of every row of `t` |

## Left out

- Web servers, shells, `main` programs and the engine façades: HTTP, terminal I/O, flag parsing and locking, with no logic of the pipeline in them.
- JSON persistence of table stores (`persist`/`load` in `btree.*`): a snapshot is treated as abstract data. No reload round trip is claimed, because Go decodes numbers as `float64`, so reloaded integers would key differently.
- File I/O: reading and writing `.dat` files, directory scans in the executor constructors (`loadDatabases`, `load_databases`), data paths. `Pager.Flush` and `Pager.Load` produce and read the bytes of the file image instead.
- Constructors, `ActiveDatabase`, and the `LSMEntries`/`lsm_entries` accessors, which return `CommitLog.Snapshot` of the log.
- Regular expressions: the INSERT and SELECT patterns are `Commands.Matchers` values, one per parser, and the model starts from their captured groups. The three pattern sets differ. Go's end in `$`. Rust's are Go's without the `$` and are searched for anywhere in the text. Python's end in `$`, are matched from the start of the text, and read `\w` as any Unicode word character where Go's `\w` is ASCII. Which texts each pattern matches is not modelled. `RustParser.UnanchoredSelect`, `RustParser.UnanchoredInsert` and `PyParser.PyUnicodeTableName` show statements on which the captures differ.
- RustParser.RustInsert: the captures come from the Rust pattern parameter; that the pattern lacks Go's `$` is recorded only in `RustParser.UnanchoredInsert`.
- RustParser.RustSelect: likewise for the SELECT pattern and `RustParser.UnanchoredSelect`.
- RustParser.InsertAgrees: the agreement with Go is claimed only when the two INSERT patterns capture alike on the statement.
- RustParser.SelectAgrees: the agreement with Go is claimed only when the two SELECT patterns capture alike on the statement; `SELECT a FROM t WHERE b` is a statement where they do not.
- RustParser.RustAgreesWithRepairedGo: claimed only when the INSERT or SELECT patterns capture alike (`RustParser.SameCaptures`) and the statement is not the six-token ALTER TABLE (`RustParser.RustSixTokenAlter`).
- PyParser.PyInsert: the captures come from the Python pattern parameter; its Unicode `\w` and start anchoring are not modelled.
- PyParser.PySelect: likewise; `PyParser.PyUnicodeTableName` shows a table name where Go's and Python's captures differ.
- Python's `ast.literal_eval` is the `PyParser.Evaluator` parameter. The model starts from its result when that result is a `Values.Value` (an integer in the 64-bit range, a float, a string or `None`), or from its failure.
- PyParser.PyLiteral: a `literal_eval` result with no `Value` is not represented. Examples are `True`, an integer beyond 64 bits such as `100000000000000000000`, a list `[1]` and a tuple `(1, 2)`; a statement producing one is outside the model.
- Floating point: a float is its spelling (`Float(repr)`). Arithmetic, `%g` formatting and rounding are not modelled. Go, Rust and Python print the same float differently, so every rendering shows a float as its spelling, and `Divergences.RenderingsAgree` leaves float cells out.
- Literals.IsFloatSyntax: accepts a sign, digits with an optional point and an optional exponent. It does not accept `inf`, `Infinity` or `NaN`, which Go's `ParseFloat` and Rust's `f64` parsing read as floats. It does not accept Go's hexadecimal floats such as `0x1p4`, which `ParseFloat` reads as 16 and Rust reads as text. It does not model Go's range error either: `1e400` is text in Go and infinity in Rust, and a `Float` in the model.
- Literals.NumberOrText: inherits those gaps of `Literals.IsFloatSyntax`: `0x1p4`, `inf` and `NaN` are text in the model, and `1e400` is a `Float`.
- Values.RustValuesEqual: floats are compared by their spelling, not by Rust's epsilon comparison of the parsed numbers.
- Values.MakeKey: a float's key is `f:` followed by its spelling, not Go's `%g` rendering of the number, so `1.0` and `1.00` get different keys here.
- Strings.Upper: maps ASCII letters only. Go, Rust and Python case-map all of Unicode, so a first token `ſelect` (long s) is SELECT in the sources and UNKNOWN in the model.
- Strings.Lower: maps ASCII letters only, so a name `Ä` keeps its case in the model where the sources lowercase it.
- PyParser.WordChar: ASCII letters, digits and `_`. Python's `\b` in `_split_keyword` uses the Unicode `\w`, so in `UPDATE t SET nameéwhere = 1` Python finds no whole word WHERE and updates every row, while the model splits at `where`.
- PyParser.FindWholeWord: inherits the ASCII word boundary of `PyParser.WordChar`.
- PyParser.SplitKeyword: inherits the ASCII word boundary of `PyParser.WordChar`.
- PyParser.PySplitWhere: inherits the ASCII word boundary of `PyParser.WordChar`, as the `nameéwhere` example shows.
- Strings.IsSpace: the Unicode White_Space set, which Go's `Fields` and Rust's `split_whitespace` use. Python's `str.split` also splits on U+001C to U+001F, which the model does not.
- GoParser.ParseWith: the lone-quote panic of `parseLiteral` (mini_sqlite_golang/core/parser.go:306-310, mini_sqlite_rust/src/core/parser.rs:411-414) is stated on its own by `Literals.LoneQuotePanics`. `AsWritten` reads every literal with the repaired `Literals.ParseLiteral`, so `UPDATE t SET a = '` or `DELETE FROM t WHERE a = "` does not fault there.
- RustParser.RustParseWith: likewise, the lone-quote panic inside a condition, an assignment or a SELECT literal is not reached through the Rust parser.
- GoExecutor.GoInsert: the log entry holds a copy of the inserted row. Go logs the map stored in the table, so a later UPDATE or ALTER TABLE before COMMIT shows through `LSMEntries`. The model's entry keeps the row as inserted.
- PyExecutor.PyInsert: the same copy where Python logs the stored dictionary.
- GoExecutor.GoSelect: the `*` header order of Go is a parameter (`star`), because Go enumerates a map in no fixed order.
- PyExecutor.PySelect: the `*` header order is the `star` parameter too. Python's `rows[0].keys()` is in insertion order, which the row model (a map) does not record.
- Tables.Describe: index names are a set. Python sorts them and Go and Rust list them in map order. Both are views of the set.
- RustExecutor.RustExecute: requires a command the Rust parser can build. Rust's command type has no empty payloads and no malformed conditions, so those commands do not exist there.
- Pager.Flush: a page size of 2^32 or more is truncated to 32 bits, as Go's and Rust's casts do. Python's `to_bytes` raises on it instead. Valid pagers never have such a size.
- Each store writing itself out after every change (`persist`, `_persist`) is file I/O and is left out with it.
- Concurrency: the web servers' mutex and global engine.

## Findings

| source | as written | input that shows it | evidently intended | confidence | as-written member | corrected member |
|---|---|---|---|---|---|---|
| mini_sqlite_golang/core/parser.go:306-310 | a trimmed text that starts and ends with the same quote is sliced `[1:len-1]`; Rust does the same at mini_sqlite_rust/src/core/parser.rs:411-415 | the literal `'` (one quote character): the slice is `[1:0]` and panics | a lone quote is not a quoted string and reads as text | not executed | Literals.LoneQuotePanics | Literals.ParseLiteral |
| mini_sqlite_golang/core/parser.go:33-56 | `tokens[0]` and the handlers' `tok[2]`, `tok[3]` are read without a length check | `;` alone, or `DROP TABLE` with no name: index out of range | such statements are UNKNOWN, as the Rust parser answers | not executed | GoParser.ShortKeywordStatement | GoParser.ParseWith |
| mini_sqlite_golang/core/parser.go:123-129 | ALTER TABLE needs `len(tokens) >= 7`, yet the seventh token is optional in the code below it | `ALTER TABLE t ADD COLUMN c` gives the empty payload, and the executor then panics on it | six tokens add a TEXT column | not executed | GoParser.SixTokenAlterTable | GoParser.ParseAlterTable |
| mini_sqlite_golang/core/parser.go:88-103 | the columns are `text[idx+1 : endIdx]` with no check that the last `)` follows the first `(`; Rust does the same at mini_sqlite_rust/src/core/parser.rs:193-224 | `CREATE TABLE t ) (a`: the slice runs backwards and panics | the empty payload, as for a missing parenthesis | not executed | GoParser.CloseBeforeOpen | GoParser.ParseCreateTable |
