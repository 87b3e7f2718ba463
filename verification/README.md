# Table splitter and merger — a Dafny model of its core

`serve.py` is an interactive tool for CSV and Excel tables. It does two jobs:

- It splits each table into numbered CSV partitions of at most `rows_count` data rows. A partition can optionally start with the header line. Rows can be filtered through per-column queries such as `price > 5 and < 10`.
- It unites several tables into one. Columns are realigned by header name where the files carry headers.

This project models the logic behind those two jobs:

- **`Tokenizer`** is the query tokenizer `parse_query`. Its words are separated by spaces, and a double quote starts a literal that runs to the next quote.
- **`Structurer`** is `process_query`, reproduced literally. It uses Python's slice and `insert` semantics. The column token is copied after every `and`/`or`, at insertion positions computed once before the loop. Without headers, every clause head is converted with `int()`.
- **`Operators`** is the operator registry `OPERATORS`: `>`, `<`, `=`, a case-insensitive `contains` and its negation `~contains`.
- **`Evaluator`** is the row test `validate_by_filters`. The source builds a Python expression and `eval`s it. Here that expression is an explicit element sequence. It is parsed the way Python parses it, an `or` of `and`-runs, and evaluated left to right with short-circuiting. Python's exceptions are kept as `Fault` values.
- **`FilterEntry`** is one pass of the filter-entry menu. It is the cascade of checks, where the first failing check is reported. A line that passes is stored in the file's insertion-ordered filter dictionary.
- **`ChunkWriter`**, **`SplitLoop`** and **`Partitions`** are the chunking loop of `split_files`. `SplitLoop` is the row loop for any row test, `ChunkWriter` plugs in the file's filters, and `Partitions` holds the arithmetic of `count % rows_count` and the writer's state between rows. Together they decide when a new partition is opened, which rows pass the filters, and that a row equal to the header line is never written.
- **`Merger`** is the alignment and truncation of `unite_files`.
- **`Names`** covers `get_extension` and the partition file names `<stem>_<n>.csv`.

The methods follow the source's loops. Each is proved against a function that states the same computation in one step: `ParseQuery` against `Tokens`, `StructurePass` against `Structure`, `ValidateByFilters` against `Validate`, `WriteParts` against `Filtered` and the partition layout, and `UniteFiles` against `United`. The lemmas then state what those functions promise.

The model follows the code as written. Some consequences of it are proved as lemmas:

- **Filters of different columns are joined by `and` without parentheses.** An `or` inside one column's filter therefore also takes in the filters that follow it (`Evaluator.OrLeaksAcrossColumns`).
- **Token positions are checked only for operators and for some connective.** The filter prompt asks for `COLUMN OPERATOR VALUE (and/or OPERATOR VALUE)` (serve.py:261-262). A line such as `c > 1 and <` does not have that form, yet it is accepted and stored, and every later row test then raises (`FilterEntry.AcceptedButUnusable`).
- **With two or more connectives, positions 3, 6, … are used without accounting for earlier insertions.** The second clause then starts at the connective (`Structurer.TwoConnectivesMisalign`).
- **Without headers, the column token is an integer before structuring.** With two adjacent connectives, as in `1 > 7 8 < and and = 5`, the copy of that integer is emitted as a lone piece between tuples. The line is stored, and every row test then raises `TypeError` when it unpacks that piece (`FilterEntry.AdjacentConnectivesUnusable`).
- **An empty header source raises** `StopIteration` at `next(data_reader)` (serve.py:65; `Merger.HeaderLine`).

## Model

| member | source | states |
|---|---|---|
| Tokenizer.ParseQuery | serve.py:90-115 | the character loop returns exactly the token list of the query, and no token is empty |
| Tokenizer.TokensNonEmpty | serve.py:104-114 | no token is empty; an empty query has no tokens |
| Tokenizer.QuoteFreeIsSplit | serve.py:107-114 | without quotes, the tokens are the non-empty pieces of splitting the query on spaces |
| Tokenizer.SpaceSeparates | serve.py:107-110 | a space before any quote separates the tokens of the two sides |
| Tokenizer.QuotedLiteral | serve.py:96-106 | a quoted run becomes one token, spaces included, glued to the word pending before the quote; scanning resumes after the closing quote |
| Tokenizer.UnterminatedQuote | serve.py:96-114 | a quote with no closing quote takes the rest of the query into one token; a quote at the very end only flushes the pending word |
| Structurer.ProcessQuery | serve.py:71-87 | the result is the literal structuring of the tokens, with every tuple head converted to an integer when `indexes` is set (the first conversion fault raised) |
| Structurer.StructurePass | serve.py:72-82 | the insert-and-slice loop over the connective positions yields the structuring of the original token list |
| Structurer.CopyColumn | serve.py:75-78 | inserting after the connective and appending at the end are both the insertion of the first token right after the connective |
| Structurer.IndexesPass | serve.py:83-86 | the conversion loop converts every tuple head with `int()`, leaves connectives alone, and stops at the first fault |
| Structurer.PositionsFrom | serve.py:72 | every listed position holds `and` or `or` |
| Structurer.PositionsExact | serve.py:72 | every position holding `and` or `or` is listed, and the list is strictly increasing |
| Structurer.Insertions | serve.py:74-80 | the loop over the connective positions emits, connective by connective, the pieces of the list with all earlier copies inserted; with no connective it emits nothing and leaves the list as it is |
| Structurer.ToIndex | serve.py:86 | a tuple converts exactly when it is non-empty and its head is a number or an integer string; an empty tuple raises `IndexError`, a non-integer head `ValueError`; otherwise only the head changes, to the integer it denotes, and a connective passes unchanged |
| Structurer.ToIndexesOk | serve.py:84-86 | the conversion pass succeeds when every tuple head converts |
| Structurer.ToIndexesShape | serve.py:84-86 | the conversion pass keeps the number of pieces, every lone token and every tuple's length |
| Structurer.AdjacentConnectives | serve.py:72-80 | with connectives at 5 and 6 only, the pieces are `(t2, t3, t4)`, `t5`, `(t0, t6, t7)`, `(t3, t4, t5)`, the column token `t0` alone, and `(t0, t6, t7)` |
| Structurer.InsertAt | serve.py:76 | `list.insert` shifts the elements at and after the position one place right |
| Structurer.NoConnective | serve.py:81-82 | without a connective, the whole token list is the single tuple |
| Structurer.OneConnective | serve.py:74-80 | with one connective at index 3 or later: the three tokens before it, the connective, then the column token followed by up to two tokens after it |
| Structurer.OneConnectiveClauses | serve.py:74-80 | `col op1 v1 and op2 v2` becomes `(col, op1, v1)`, `and`, `(col, op2, v2)` |
| Structurer.EarlyConnective | serve.py:79 | a connective among the first three tokens gets an empty left tuple |
| Structurer.TwoConnectivesMisalign | serve.py:74-80 | with connectives at 3 and 6, the later pieces are the tuple `(and, col, op2)`, the bare value token, then `(col, and/or, op3)` |
| Operators.Apply | serve.py:17-21 | an unknown symbol is a key error of the registry; only key and type errors are raised; `=` is plain equality |
| Operators.OccursIff | serve.py:14 | the substring walk is `y in x`: `y` starts at some position of `x` |
| Operators.LexTrichotomy | serve.py:17-18 | the order on strings is a strict total order |
| Operators.ContainsIsSubstring | serve.py:9-20 | `contains` on two texts is substring membership after lower-casing both; an empty literal is always contained |
| Operators.NotContainsNegates | serve.py:9-21 | `~contains` raises exactly when `contains` does, which is unless both are text, and otherwise negates it |
| Operators.TextOrder | serve.py:17-19 | on two texts exactly one of `<`, `=`, `>` holds |
| Operators.CaseSensitivity | serve.py:9-19 | comparisons are case-sensitive while `contains` folds case |
| Operators.MixedKinds | serve.py:9-19 | a number against a text: `=` is false, and the ordering and substring operators raise a type error |
| Evaluator.ValidateByFilters | serve.py:152-168 | the loop that assembles the expression filter by filter, joined by `and`, and evaluates it gives the row test's verdict or exception; a tuple that is not a triple raises on unpacking, and so does a lone piece that is not a string |
| Evaluator.Literal | serve.py:160-163 | a literal is a number exactly when it is a column number or `float()` accepts it, and then it is that number; otherwise it is the token's own text |
| Evaluator.PiecesAssemble | serve.py:155-165 | a filter made of triples and connective words assembles without an exception |
| Evaluator.ColumnNumberRaises | serve.py:155-158 | a lone column number after well-formed pieces makes the row test raise `TypeError`, whatever the row |
| Evaluator.FiltersFaultStays | serve.py:159-168 | once a filter fails to assemble (a clause that does not unpack), the whole test raises that fault |
| Evaluator.Precedence | serve.py:168 | a parsed expression whose calls do not raise is true exactly when some `or`-separated run has all of its calls true (`and` binds tighter) |
| Evaluator.NoOr | serve.py:166-168 | without `or`, the test is true exactly when every call in it is true |
| Evaluator.WellFormedJoin | serve.py:166-167 | joining two expressions with `and` parses exactly when both parse |
| Evaluator.OneClauseQuery | serve.py:156-165 | a single clause becomes a single call, with a literal that `float()` accepts taken as a number |
| Evaluator.SingleClause | serve.py:159-168 | a one-clause filter raises a key error for a column missing from the row, and otherwise applies its operator to the cell and the literal |
| Evaluator.TwoFiltersQuery | serve.py:154-167 | two filters give the first expression, `and`, then the second |
| Evaluator.AndAcrossColumns | serve.py:154-168 | for filters without `or`, two columns' filters both pass exactly when the joint test passes |
| Evaluator.ShortCircuit | serve.py:168 | a run stops at its first false call, and an `or` stops at its first true run, so later calls that would raise are never made |
| Evaluator.OrLeaksAcrossColumns | serve.py:154-168 | `1 = 1 or = 2` on one column and a failing filter on another still pass the row |
| Evaluator.TextCellAgainstNumber | serve.py:160-164 | a numeric literal against a text cell raises for the ordering and substring operators and is unequal under `=` |
| FilterEntry.FilterSet.Enter | serve.py:272-296 | the outcome is that of the checks and the structuring; a stored filter replaces that column's entry in place, or is appended, and keys stay distinct; refusals change nothing |
| FilterEntry.FilterSet.constructor | serve.py:230 | a file starts with no filters |
| FilterEntry.Store | serve.py:288-296 | a line that passed the checks: the exact-case column lookup (whose failure is the menu's value error), or the 1-based column number made 0-based with every clause head converted |
| FilterEntry.CheckPasses | serve.py:275-287 | a line passes exactly when it has at least 3 tokens, names a header up to case (or, without headers, is a column number), holds a connective when longer than 3, and every operator position holds a registered operator |
| FilterEntry.FirstCheckWins | serve.py:275-287 | the first failing check, in the menu's order, is the reason reported |
| FilterEntry.CaseOnlyMatch | serve.py:277-298 | for every line whose column matches a header only up to case and which is otherwise well formed: it passes the checks, then fails the exact lookup with the value error |
| FilterEntry.PriceAgainstHeader | serve.py:277-298 | the example `price > 5` against the header `Price` is refused for its values |
| FilterEntry.SimpleClauseStored | serve.py:289-291 | `col op val` naming a header is stored under that header as one clause |
| FilterEntry.NumberedClauseStored | serve.py:292-295 | without headers, `N op val` is stored under index N-1, with the clause head converted to that index |
| FilterEntry.ConnectedClausesStored | serve.py:289-291 | `col op1 v1 and/or op2 v2` is stored as two clauses on the same column around the connective |
| FilterEntry.AcceptedButUnusable | serve.py:283-291 | `c > 1 and <` passes the checks and is stored, and every later row test then fails to unpack |
| FilterEntry.AdjacentConnectivesUnusable | serve.py:292-295 | without headers, a nine-token line with connectives at 5 and 6 (such as `1 > 7 8 < and and = 5`) that passes the checks is stored, and every later row test raises `TypeError` |
| FilterEntry.LowerAll | serve.py:277 | the lower-cased header list has each header lower-cased at its own position |
| FilterEntry.PutLookup | serve.py:290-295 | after assignment the key holds the new filter and every other key keeps its own |
| FilterEntry.PutInPlace | serve.py:290-295 | assigning to a present key replaces it at its position and changes nothing else |
| FilterEntry.PutNew | serve.py:290-295 | assigning to a new key appends it last |
| FilterEntry.PutUnique | serve.py:290-295 | assignment keeps keys distinct |
| ChunkWriter.SplitFile | serve.py:180-205 | a file is split into partitions that each start with the header line when headers are added; every partition but the last holds exactly `rows_count` rows, the last at most that many; the bodies concatenated are exactly the accepted rows in order; an exception of the row test is reported as such, and the partitions then hold exactly the rows accepted before the raising row (`AcceptedUpTo`), and the last holds only the lead exactly when those rows fill whole partitions; there is no partition for an empty file, and an empty last partition means the count of accepted rows is a multiple of `rows_count` |
| SplitLoop.WriteParts | serve.py:180-205 | the same partition layout and contents, for any row test and any lead rows, the same rule for an empty last partition, and on an exception the rows accepted before the raising row, with a lead-only last partition exactly when they fill whole partitions |
| SplitLoop.ReadRow | serve.py:181-205 | one row: a new partition, holding the lead, is opened exactly when the count is a multiple of `rows_count` and `skip` is clear, and otherwise the partitions are kept; the row is appended to the last partition exactly when it passes and differs from the header line, which then adds one to the count and clears `skip`, and otherwise `skip` is set |
| SplitLoop.OpenIfDue | serve.py:181-192 | a partition holding only the lead is appended exactly when the count is a multiple of `rows_count` and `skip` is clear |
| SplitLoop.Place | serve.py:200-205 | a row that is written extends the last partition and the count and clears `skip`; otherwise only `skip` is set |
| SplitLoop.Step | serve.py:180-205 | reading one row keeps the loop invariant, or ends with the fault of the row test, the partitions then holding the rows written before it |
| SplitLoop.FilteredStep | serve.py:193-205 | one more row read adds that row to the written rows exactly when it passes and is not the header line, or ends with its test's exception |
| SplitLoop.Finished | serve.py:180-205 | after the last row, the layout holds, the bodies are the written rows, and the last partition is empty exactly when the count is a multiple of `rows_count` and the last row was not written |
| SplitLoop.Shape | serve.py:180-192 | partitions built between rows each start with the lead, all but the last are full, and the last holds at most `rows_count` rows |
| SplitLoop.RaisingOpen | serve.py:181-198 | when a row's test raises, the partition for that row is already open, and it holds only the lead exactly when the rows written so far fill whole partitions |
| SplitLoop.Raised | serve.py:180-205 | when the test of a row raises, the partitions keep their layout, hold the rows accepted before that row, the exception stays the file's outcome, and the last partition holds only the lead exactly when those rows fill whole partitions |
| SplitLoop.Outcome | serve.py:180-205 | the whole contract of `WriteParts`, from the writer the loop ends with, on both exits |
| ChunkWriter.Indices | serve.py:196 | the positional keys are 0 to n-1 |
| ChunkWriter.RowDataByPosition | serve.py:194-196 | without headers, each cell is found under its 0-based position |
| ChunkWriter.RowDataByName | serve.py:194-196 | with distinct headers, each cell is found under its header's name |
| SplitLoop.FilteredFaultStays | serve.py:198 | an exception of the row test ends the split |
| SplitLoop.FilteredRows | serve.py:193-205 | with filters every row is tested; every written row differs from the header line and passes; every passing non-header row is written |
| ChunkWriter.AcceptedRows | serve.py:193-205 | a row is written exactly when it is a row of the file, differs from the header line, and passes the filters (when there are any) |
| SplitLoop.FilteredWithin | serve.py:180-205 | only rows already read are written |
| ChunkWriter.NoFiltersKeepsRows | serve.py:193-205 | without filters nothing raises and every row but copies of the header line is written; with no such copies it is the file itself |
| SplitLoop.UnfilteredKeeps | serve.py:193-205 | without filters, the rows written from the first k are those that are not copies of the header line, in order |
| ChunkWriter.AcceptedPrefix | serve.py:180 | the rows written, or the exception raised, once the first `k` rows are read are those of the file cut after its first `k` rows |
| ChunkWriter.RaisedAt | serve.py:193-199 | when the test of a row raises, the rows written so far are those accepted from the rows before it, and its own test raises the exception |
| SplitLoop.PrefixAgrees | serve.py:180 | the rows written so far depend only on the rows read so far |
| Partitions.OpensWhenFull | serve.py:181 | the row count is a multiple of `rows_count` exactly when the last partition is empty or full |
| Partitions.OpenRule | serve.py:181 | a partition is opened exactly when there is none yet, or the last one is full, and `skip` is clear |
| Partitions.Opened | serve.py:181-192 | opening a partition keeps the layout and leaves room for a row |
| Partitions.Kept | serve.py:181 | when no partition is opened, the last one has room for a row |
| Partitions.Wrote | serve.py:200-203 | writing a row extends the last partition and the written rows by that row and clears `skip` |
| Partitions.Skipped | serve.py:197-205 | a skipped row keeps the layout and sets `skip` |
| Partitions.EmptyLast | serve.py:181 | between rows, the last partition holds no data row exactly when the count is a multiple of `rows_count` and `skip` is set |
| Partitions.AssembleBodies | serve.py:191-192 | every partition starts with the lead rows, and the bodies are what follows them |
| Merger.UniteFiles | serve.py:303-324 | the output is the header line, when there is one, followed by each file's lines in order; the header-source errors are raised |
| Merger.HeaderLine | serve.py:304-308 | no header line in header-less mode; otherwise the first row of `headers_filename`, or of the first file when none is named; `IndexError` when there is no file to read it from, `StopIteration` when that file is empty |
| Merger.ReadHeaderLine | serve.py:304-308 | the header step of `unite_files` gives that header line or error |
| Merger.WriteFiles | serve.py:313-324 | the loop over the files writes each file's lines after those of the files before it |
| Merger.UniteFile | serve.py:313-324 | one file's lines: with realignment its header row is dropped and each row aligned; otherwise each row is truncated |
| Merger.Fit | serve.py:323 | a row is cut to the header count and never padded; shorter rows, and every row without headers, pass unchanged |
| Merger.Align | serve.py:321-322 | an aligned row has exactly one value per header |
| Merger.AlignByName | serve.py:321-322 | with distinct file headers, a header's value is taken from the cell under the same name in the file |
| Merger.AlignMissing | serve.py:322 | a header absent from the file gets an empty value |
| Merger.AlignIdentity | serve.py:321-322 | a file with the same distinct headers and full rows is unchanged by alignment |
| Merger.PlainLines | serve.py:316-324 | without realignment, line j is row j cut to the header count |
| Merger.RealignedLines | serve.py:316-322 | with realignment, the header row is not written and line j is row j+1 aligned by that header row |
| Merger.NoHeadersPassThrough | serve.py:304-324 | in header-less mode, no header line is written and every row of every file passes unchanged |
| Merger.SameHeaders | serve.py:303-324 | files that share the same distinct headers with full rows unite into one header line followed by all their data rows |
| Merger.ColumnsByName | serve.py:321-322 | a file with columns `b, a` is realigned to `a, b, c` with `c` empty |
| Names.NatString | serve.py:183 | the partition number is written with decimal digits only |
| Names.NatStringValue | serve.py:183 | those digits read back as the number |
| Names.StemDotExtension | serve.py:122-123 | a name with a dot is its stem, a dot and its extension |
| Names.Extension | serve.py:122-123 | the extension is the longest suffix without a dot: it has no dot, and it is the whole name or follows a dot |
| Names.LastPiece | serve.py:123 | the last piece of a split is a separator-free suffix, preceded by the separator unless it is the whole string |
| Names.ExtensionShape | serve.py:122-123 | the extension holds no dot; a name without a dot is its own extension and has an empty stem |
| Names.DotSplits | serve.py:123 | a name splits into two or more pieces exactly when it has a dot |
| Names.PartitionName | serve.py:183-188 | a partition's name has extension `csv` and stem `<stem>_<n>` |
| Names.DistinctPartitionNames | serve.py:188 | different partition numbers give different file names |
| Common.JoinSplit | serve.py:183 | joining the pieces of a split with the separator gives back the string |
| Common.ZipMapKeys | serve.py:194-196 | the keys of `dict(zip(keys, vals))` are exactly the keys paired with a value |
| Common.ZipMapDistinct | serve.py:194-196 | with distinct keys, each key holds the value at its own position |
| Common.LaterKeyWins | serve.py:194-196 | a key that does not occur again later among the paired keys holds the value paired with it, so a repeated key keeps the value of its last occurrence |

## Left out

- File I/O, the CSV and Excel readers and writers, `openpyxl`, directory listing, `is_empty`, `get_headers` and `get_reader` are not modelled. A file is its sequence of rows. The merger takes the file system as a parameter `read` from file name to rows. Delimiters, CSV quoting, the merger's output file name and file closing are not modelled.
- The interactive menus (`manage_split_files`, `manage_unite_files`, the file-name prompt, `/help`, `show_help`) and all printed messages are left out. `FilterSet.Enter` is one pass of the filter loop for a line that is neither empty nor `/help`, and its `Outcome` names the message printed.
- `float()` is the parameter `parse`. The model does not decide which strings Python's `float` accepts, so `nan`, `inf` and exponents are whatever `parse` says.
- Evaluator.Literal: a token that `float()` accepts is written bare into the text given to `eval`, so Python reads it as source code. There `05` raises `SyntaxError`, and `nan` or `inf` raise `NameError`. The model takes the number `parse` gives instead, so these exceptions are not modelled.
- Evaluator.Literal: a quoted literal is read back by `eval`, which processes backslash escapes in it (serve.py:163). The model keeps the token's text unchanged.
- Common.ParseInt: accepts an optional sign followed by ASCII digits. Python's `int()` also accepts surrounding whitespace and underscores between digits (`1_0`); the model rejects these as a `ValueError`.
- Floating-point arithmetic and comparison are modelled with `real`.
- `str.lower` and `str.isdigit` are modelled on ASCII only. Unicode case folding and non-ASCII digits are not modelled.
- `Evaluator.ValidateByFilters`: a header-name column is looked up in the row dictionary by name. The source writes it bare (`data[price]`) into the evaluated text, where Python would raise `NameError`. Code injection through `eval` is not modelled either: a value containing a quote, or a header name that is Python code, would change the expression.
- `ChunkWriter.SplitFile`: the row test is passed to the chunking loop as a function. Its verdict is that of `Evaluator.Validate`, the function `Evaluator.ValidateByFilters` is proved equal to, rather than a call of the method.
- `ChunkWriter.SplitFile`: requires `rows_count > 0`. The source would raise on `% 0` and never reject a negative count.
- Partition files already on disk and the interleaving of file opening with the "written" messages are not modelled. The model returns the partitions' contents in order.
