# A verified model of oatpp-sqlite

oatpp-sqlite maps oatpp objects to SQLite statements and rows. This project models the parts of it
that hold state or move cursors, and proves what they promise:

- **The query-template compiler.** SQL with named parameters (`:name`) is compiled to SQL with
  positional ones (`?`). Pass 1 erases the markers `<!!` and `!!>` and records the *clean sections*
  between them as offsets into its own output; pass 2 reads that output again, skips the sections and
  collects the parameters. The passes read different texts and recognise different things, so what
  keeps them in step is the central result (`Agreement`, `SectionSkips`, `Parameters`). Around it
  stand the round trips of pass 1 (`Erasure`, `Weaving`), formatting (`Templates`) and the preservation
  of meaning up to a bound statement (`Meaning`, `QueryExecutor`).
- **The cells.** Values of the integer types, booleans, strings, blobs and enums as SQLite cells, and
  back, for every cell and every type it may be read as (`Cells`).
- **The result cursor.** Fetching rows in chunks, with fetches that throw (`ResultCursor`), and reading
  a row into an object in two passes, with the condition under which the order of its columns never
  matters (`RowObject`, `RowOrder`).
- **Schema migration.** Version tables, scripts and transactions over a store whose statements may fail
  (`Migration`), and whole runs of migrations (`MigrationRuns`).

Imperative parts of the original are methods over classes here: the text cursor `Caret`, the value
provider, `Statement`, `SqliteStatement`, `ResultData`, `Database`. Each method is proved equal to a
function, and the laws are proved about these functions. Most functions over text come in two forms:
one by index, which the methods follow, and one by remaining text, which the proofs use; `Lexing`
shows that they agree. What these functions mean is proved apart from them: `Literals` for quoted and
dollar-quoted text, `Names` for the alphabet of names. `Witnesses` holds inputs on which a law one might expect does not hold; for each
there is an if-and-only-if elsewhere that says when it does.

Quoted literals with doubled quotes follow section 5.3 of ISO/IEC 9075-2; dollar-quoted literals follow
section 4.1.2.4 of the PostgreSQL manual, as far as the original does.

## Reading the main results

- `Agreement.SwallowedErrorIsRaised`: pass 1 drops the error of its cursor, but pass 2 meets an
  unterminated literal exactly when pass 1 did, although erased markers may have joined literals and
  sections may have been missed.
- `SectionSkips.SectionsSkippedExactly`: which sections pass 2 skips, as a property of the processed text
  alone. A section is missed when a parameter name runs across its start (`:na<!!me!!>`) or erasing its
  marker joined two quoted literals (`'a'<!!'b'!!>`), and then so are all later ones.
- `Parameters.ParametersFoundExactly`: one parameter for every colon written outside literals and outside
  the skipped sections, well formed and in order, and no other.
- `Weaving.WeavingRoundTrip` and `Erasure.ErasureRoundTrip`: the first is an equivalence, the second holds
  for every text, terminated or not.
- `Meaning.CompilationPreservesMeaning` and `QueryExecutor.Execute`: the prepared statement with its
  bindings means what the template means with its values, if and only if the template has no question
  mark of its own outside literals.
- `ResultCursor.ChunksAreOneFetch`: any sequence of counts fetches what one fetch of all of them would.
- `RowOrder.OrderIrrelevantExactly`: the order of distinct columns never matters if and only if no
  selector's choice depends on another polymorphic field.
- `MigrationRuns.HistoryOfTrace`, `Converges`, `ChainsDoNotInterfere`, `CorruptedIsRefused`: what any run
  leaves, with any statements failing, calls cut short by crashes and calls on other chains in between;
  when a list of scripts goes through; and which calls a corrupted version table lets pass.

Versions are a 64-bit integer type, so that `currVersion + 1` does not overflow is checked where it is
computed. Every loop and recursion terminates; `QueryParser.ParseTemplate` decreases the text left, then
the sections left, because an empty section moves its cursor by nothing.

## Model

| member | source | states |
|---|---|---|
| Lexing.LiteralEndIsLiteralSpan | src/oatpp-sqlite/ql_template/Parser.cpp:130-174 | the literal that starts at an index is the one the remaining text starts with: same end, same verdict on termination |
| Lexing.QuoteSpanConcat | src/oatpp-sqlite/ql_template/Parser.cpp:130-145 | a closed quoted literal put before other text runs on exactly into the quoted text that follows, which is how an erased marker joins two literals |
| Lexing.LiteralSpanConcat | src/oatpp-sqlite/ql_template/Parser.cpp:147-174 | a closed dollar literal ends in the same place whatever follows it |
| Literals.QuotedIsLiteral | src/oatpp-sqlite/ql_template/Parser.cpp:130-145 | any text between quotes, with its own quotes doubled, is one literal ending with the closing quote, unless another quote follows |
| Literals.UnquotedIsOpen | src/oatpp-sqlite/ql_template/Parser.cpp:141-143 | without the closing quote it is not terminated |
| Literals.TaggedIsLiteral | src/oatpp-sqlite/ql_template/Parser.cpp:147-174 | any text between two equal dollar tags that does not run into the closing one earlier is one literal ending with the second |
| Tokens.TokenizeGood | src/oatpp-sqlite/ql_template/Parser.cpp:41-101 | the tokens of any text spell the text, markers alternate, and only the last token can be an unterminated literal |
| QueryParser.SkipStringInQuotes | src/oatpp-sqlite/ql_template/Parser.cpp:130-145 | the cursor ends behind the whole run of quoted strings, or at the end of the text in error when one is not closed |
| QueryParser.SkipStringInDollars | src/oatpp-sqlite/ql_template/Parser.cpp:147-174 | the cursor ends behind the first repetition of the opening tag, or in error at the end of the text |
| QueryParser.ParseIdentifier | src/oatpp-sqlite/ql_template/Parser.cpp:107-128 | at a colon, the longest run of name characters with its span; elsewhere an error and no name |
| QueryParser.PassOneReadsTokens | src/oatpp-sqlite/ql_template/Parser.cpp:41-101 | the loop of pass 1, from any caret position and section start, ends with the text, sections, dangling start and error of the tokens that are left |
| QueryParser.Preprocess | src/oatpp-sqlite/ql_template/Parser.cpp:32-105 | the processed text and clean sections are those of the token stream; so are the error flag that is dropped and the section start left dangling |
| QueryParser.ParseTemplate | src/oatpp-sqlite/ql_template/Parser.cpp:176-223 | the template holds the processed text and the parameters pass 2 finds in it, or the call throws at the end of the text when pass 2 ends in error |
| QueryParser.SectionsInBounds | src/oatpp-sqlite/ql_template/Parser.cpp:77-83 | recorded sections lie inside the processed text |
| Agreement.StepAligned | src/oatpp-sqlite/ql_template/Parser.cpp:195-213 | wherever pass 2 stands on a token boundary of pass 1, its next step ends on one too, or meets the unterminated literal |
| Agreement.ErrorsAgree | src/oatpp-sqlite/ql_template/Parser.cpp:187-219 | from any aligned state pass 2 ends without error if and only if no token left is unterminated |
| Agreement.SectionsOrdered | src/oatpp-sqlite/ql_template/Parser.cpp:63-90 | sections follow one another without overlap |
| Agreement.SectionsFit | src/oatpp-sqlite/ql_template/Parser.cpp:63-90 | every section starts and ends on token boundaries of pass 1 |
| Agreement.SwallowedErrorIsRaised | src/oatpp-sqlite/ql_template/Parser.cpp:41-103 | for every text: compilation succeeds if and only if pass 1 met no unterminated literal |
| SectionSkips.JumpedIsGlued | src/oatpp-sqlite/ql_template/Parser.cpp:187-213 | a step of pass 2 jumps over a section start only where a name runs across it or two quoted strings were joined |
| SectionSkips.HitOrMiss | src/oatpp-sqlite/ql_template/Parser.cpp:187-193 | pass 2 comes to the next section unless that is glued to the text since the cursor; a missed section is the last it looks at |
| SectionSkips.SectionsSkippedExactly | src/oatpp-sqlite/ql_template/Parser.cpp:185-205 | the i-th section is skipped if and only if no section up to it is glued to the text before it or starts at the end of the text |
| SectionSkips.SeparatedSectionsAreSkipped | src/oatpp-sqlite/ql_template/Parser.cpp:189-193 | with no quote, colon or name character before any section start, exactly the sections starting before the end of the text are skipped |
| Parameters.ParametersWellFormed | src/oatpp-sqlite/ql_template/Parser.cpp:199-208 | whatever the sections, parameters are in order and disjoint, start at a colon and are maximal runs of name characters |
| Parameters.ParametersAvoidSections | src/oatpp-sqlite/ql_template/Parser.cpp:189-205 | no parameter shares a character with a section that is skipped |
| Parameters.ParametersFoundExactly | src/oatpp-sqlite/ql_template/Parser.cpp:176-223 | a parameter starts at n if and only if pass 1 wrote a colon outside literals there and no skipped section contains n |
| Names.FirstName | src/oatpp-sqlite/ql_template/Parser.cpp:107-128 | behind a colon, every name over the letters and digits of ASCII, underscore and dot is the name of the first parameter, if and only if what pass 1 makes of the rest does not go on with such a character |
| Names.NameCompiled | src/oatpp-sqlite/ql_template/Parser.cpp:114 | so it is in every compiled template where the rest is empty, or starts with another character and no opening marker |
| Erasure.ErasureRoundTrip | src/oatpp-sqlite/ql_template/Parser.cpp:32-105 | putting the markers back, with the dangling one, rebuilds every input; sections are laid out in order and the length differs by three per marker |
| Weaving.TokenizeLaws | src/oatpp-sqlite/ql_template/Parser.cpp:41-101 | reading a well-lexed piece before the marker that ends it is reading it alone, and the other way round |
| Weaving.WeavingRoundTrip | src/oatpp-sqlite/ql_template/Parser.cpp:32-105 | weaving markers into a text and preprocessing gives back text and sections, with nothing left open, if and only if every piece between markers is well lexed and free of the marker that would end it |
| Weaving.PreprocessedIsClean | src/oatpp-sqlite/ql_template/Parser.cpp:32-105 | every input read without error or dangling marker is the weave of a cleanly laid out text |
| Templates.TemplateValueProvider.GetValue | src/oatpp-sqlite/ql_template/TemplateValueProvider.cpp:29-33 | the value is a lone question mark on every call, whatever the buffer held |
| Templates.FormatTemplate | src/oatpp-sqlite/Executor.cpp:102-103 | the prepared text is the template text with each parameter span replaced by a placeholder |
| Templates.IdentityFormat | src/oatpp-sqlite/ql_template/Parser.cpp:107-128 | replacing each parameter by a colon and its own name restores the text |
| Meaning.CompilationPreservesMeaning | src/oatpp-sqlite/Executor.cpp:95-105 | bound in order, the prepared text reads as the same characters and arguments as the template, if and only if the template has no bare question mark |
| Meaning.PlaceholdersCounted | src/oatpp-sqlite/Executor.cpp:95-105 | as many placeholders as parameters, plus one for each bare question mark |
| Meaning.NamesRestoreText | src/oatpp-sqlite/ql_template/Parser.cpp:199-208 | formatting every compiled template with its own names restores the processed text |
| Meaning.PlaceholdersNotNumbered | src/oatpp-sqlite/ql_template/TemplateValueProvider.cpp:29-33 | no placeholder put in for a parameter is followed by a digit from 0 to 9, nor by another name character |
| QueryExecutor.ParseQueryParameter | src/oatpp-sqlite/Executor.cpp:122-146 | the root and the property path are the text before the first dot and the pieces between the later dots |
| QueryExecutor.NameRoundTrip | src/oatpp-sqlite/Executor.cpp:122-146 | root and path hold no dots and join to the name, with one property per dot, unless the only dot is the last character, which is dropped |
| QueryExecutor.FindParameter | src/oatpp-sqlite/Executor.cpp:166-190 | one parameter is looked up as its name tells: by its root, along its path, into a cell; what that means is `BindingMeans` |
| QueryExecutor.BindableIsFirstFailure | src/oatpp-sqlite/Executor.cpp:165-191 | binding stops at the first parameter that stands for nothing |
| QueryExecutor.BindFirstAt | src/oatpp-sqlite/Executor.cpp:182-183 | after n bindings exactly the indices 1 to n are bound anew, each to the cell of its own name |
| QueryExecutor.BindParams | src/oatpp-sqlite/Executor.cpp:148-193 | binds exactly the parameters before the first that fails, and throws that one's error |
| QueryExecutor.BindingMeans | src/oatpp-sqlite/Executor.cpp:163-191 | each index bound holds the serialized value that the property path of its parameter leads to below its root; binding ends at the first parameter whose root is not given, whose path leads nowhere or whose value throws, with that error |
| QueryExecutor.BoundExactly | src/oatpp-sqlite/Executor.cpp:163-191 | binding succeeds if and only if for every parameter the root is given, the path leads to a property and its value can be stored |
| QueryExecutor.AllBindable | src/oatpp-sqlite/Executor.cpp:163-191 | all parameters are bound if and only if every name stands for a cell |
| QueryExecutor.ParseQueryTemplate | src/oatpp-sqlite/Executor.cpp:87-107 | yields the compiled template with its prepared text exactly when the template compiles |
| QueryExecutor.Prepare | src/oatpp-sqlite/Executor.cpp:215-224 | binds each parameter to the cell of its value and ends at the first that has none, with its error; a statement bound in full means the template with its values if and only if that has no bare question mark |
| QueryExecutor.Execute | src/oatpp-sqlite/Executor.cpp:195-228 | succeeds if and only if every parameter has a root, a property and a value that can be stored; then the bound statement has run and its cursor is valid, on row 0 or at the end |
| Cells.CastRepresents | src/oatpp-sqlite/mapping/Deserializer.hpp:77-87 | narrowing a cell gives the one value in range congruent to it modulo 2 to the width |
| Cells.BooleanIsNonzero | src/oatpp-sqlite/mapping/Deserializer.hpp:77-87 | an integer cell read as a Boolean is true if and only if it is not zero |
| Cells.Widths | src/oatpp-sqlite/mapping/Serializer.cpp:119-197 | the range of each type is that of its number of bits, in two's complement where it is signed |
| Cells.IntRoundTrip | src/oatpp-sqlite/mapping/Serializer.cpp:119-197 | every value of the eight integer types and Boolean, and null, is read back as it was stored |
| Cells.StoredInt | src/oatpp-sqlite/mapping/Serializer.cpp:189-197 | the cell is the value itself, except that the upper half of UInt64 is stored as negative |
| Cells.CellRestored | src/oatpp-sqlite/mapping/Deserializer.hpp:77-87 | reading and storing again restores a cell if and only if it is in the range of the type, or the type is UInt64 |
| Cells.ValueRoundTrip | src/oatpp-sqlite/mapping/Serializer.cpp:84-117 | every well-typed value of a plain type, that is neither Any nor an enum, comes back unchanged, with the sole exception of a null blob |
| Cells.StoredExactly | src/oatpp-sqlite/mapping/Serializer.cpp:84-94 | a value is stored if and only if it is, or interprets to, an integer, a number, a string or a blob; every other throws, and a null is stored for a null of these only |
| Cells.ReadExactly | src/oatpp-sqlite/mapping/Deserializer.cpp:88-112 | for every cell and type, when reading succeeds: integers only as integers, floats from integers too, text and Any from all, an enum when it accepts what its interpretation reads |
| Cells.ReadAcross | src/oatpp-sqlite/mapping/Deserializer.cpp:114-179 | a cell read as another type: an integer as the same float, text and bytes as the same characters, numbers as SQLite renders them |
| Cells.NullReadsAsNull | src/oatpp-sqlite/mapping/Deserializer.cpp:114-187 | for every type that is no enum, a null is read exactly from a null cell |
| Cells.AnyWidens | src/oatpp-sqlite/mapping/Deserializer.cpp:181-212 | an integer read without its type comes back as the same Int64 if and only if it fits |
| Cells.AnyRestores | src/oatpp-sqlite/mapping/Deserializer.cpp:181-212 | a stored Int64, Float64, string or blob tells its own type: read as Any it is the same value |
| Cells.EnumRoundTrip | src/oatpp-sqlite/mapping/Deserializer.cpp:214-237 | an enum value is stored as its interpretation and comes back if and only if the enum accepts that; a failed interpretation throws |
| ResultCursor.SqliteStatement.Step | src/oatpp-sqlite/mapping/ResultMapper.cpp:51-72 | the abstract statement: rows, then an end; a step after the end starts over and is counted |
| ResultCursor.ResultData.constructor | src/oatpp-sqlite/mapping/ResultMapper.cpp:30-36 | a new cursor stands on row 0, or at the end, and is valid |
| ResultCursor.ResultData.Next | src/oatpp-sqlite/mapping/ResultMapper.cpp:49-74 | more rows exactly when the statement stands on one; success unless it ended in an error; never a late step from before the end |
| ResultCursor.ReadRowsAsCollection | src/oatpp-sqlite/mapping/ResultMapper.cpp:200-226 | keeps the cursor valid, so no step follows the end even after a throw, and moves it and returns exactly as the specified fetch |
| ResultCursor.FetchReads | src/oatpp-sqlite/mapping/ResultMapper.cpp:200-226 | a positive count takes the smaller of itself and what is left, zero none, a negative one all; it succeeds if and only if all those rows can be read, item by item in order, and otherwise stops on the first that cannot |
| ResultCursor.ThrownRowIsReadAgain | src/oatpp-sqlite/mapping/ResultMapper.cpp:210-213 | the fetch after a throw reads the same row again |
| ResultCursor.FetchInTurn | src/oatpp-sqlite/QueryResult.cpp:70-72 | over any sequence of fetches, with throws, the cursor stays valid and the results are those of the run |
| ResultCursor.ChunksTile | src/oatpp-sqlite/mapping/ResultMapper.cpp:210-220 | each fetch of a run starts where the one before it stopped |
| ResultCursor.ChunksAreOneFetch | src/oatpp-sqlite/mapping/ResultMapper.cpp:200-226 | the chunks of any sequence of counts put together are one fetch of all the counts, or both throw, and the cursor ends in the same place |
| RowObject.ReadOneRowAsObject | src/oatpp-sqlite/mapping/ResultMapper.cpp:155-198 | from a new object's own values, two loops, plain fields first and polymorphic ones after, throwing at the first unknown or unreadable column |
| RowObject.RowReads | src/oatpp-sqlite/mapping/ResultMapper.cpp:163-194 | reading succeeds if and only if every column can be read on its own, given the object of the plain fields |
| RowObject.RowFields | src/oatpp-sqlite/mapping/ResultMapper.cpp:163-194 | each field holds the value of its own column, read as its declared or its selected type, or what it held in the new object |
| RowObject.RowHolds | src/oatpp-sqlite/mapping/ResultMapper.cpp:165-194 | every column has a field; without a selector or with a type other than Any the field holds what its cell is read as in its type, otherwise an Any of what it is read as in the type the selector chooses |
| RowObject.ColumnOrderIrrelevant | src/oatpp-sqlite/mapping/ResultMapper.cpp:155-198 | for distinct names and selectors whose choice depends on no other polymorphic field, every order of the columns gives the same object, or throws |
| RowOrder.FirstOrLast | src/oatpp-sqlite/mapping/ResultMapper.cpp:187-194 | a polymorphic column put first is read as the type chosen for the plain fields alone, put last as the type chosen for the whole object, and the results differ when the types do |
| RowOrder.OrderIrrelevantExactly | src/oatpp-sqlite/mapping/ResultMapper.cpp:155-198 | no order of any distinct columns matters, however cells are read, if and only if no selector's choice depends on another polymorphic field, over the objects it may see |
| RowOrder.LoneSelector | src/oatpp-sqlite/mapping/ResultMapper.cpp:187-194 | with one polymorphic field the condition holds, whatever its selector reads |
| Migration.Database.Exec | src/oatpp-sqlite/Executor.cpp:230-245 | one statement against the store, with its rows under a fresh valid cursor |
| Migration.GetSchemaVersion | src/oatpp-sqlite/Executor.cpp:288-342 | creates the table, reads it to its end, inserts version 0 when it is empty and throws on every failure it sees, a version that is null or no integer, or several rows; what becomes durable meanwhile leaves the version as it was |
| Migration.MigrateSchema | src/oatpp-sqlite/Executor.cpp:344-398 | result and store are those specified, and every store that is durable after a statement is one the call may leave: the old one, the old one with its table made ready, or that of the committed call |
| Migration.InTransaction | src/oatpp-sqlite/Executor.cpp:374-394 | script, version update and commit: either all three are durable, or the transaction is still open to be rolled back |
| MigrationRuns.OneCall | src/oatpp-sqlite/Executor.cpp:358-398 | a call moves its chain by exactly one version and appends its script, or changes neither; where it succeeds its version has been reached |
| MigrationRuns.CrashSafe | src/oatpp-sqlite/Executor.cpp:371-396 | what a call cut short after any statement leaves never has a moved version without its script, nor the reverse |
| MigrationRuns.CorruptedIsRefused | src/oatpp-sqlite/Executor.cpp:327-340 | a table whose row is no version, or with several rows, makes a call throw and change nothing, if and only if the call is not one that misreads it: reading fails right after the first of several rows, that is a version, and the rest goes well |
| MigrationRuns.MisreadMoves | src/oatpp-sqlite/Executor.cpp:307-337 | a call that misreads several rows runs its script and sets every row to its version |
| MigrationRuns.OtherChain | src/oatpp-sqlite/Executor.cpp:276-286 | a call changes neither the version table nor the history of another chain |
| MigrationRuns.HistoryOfTrace | src/oatpp-sqlite/Executor.cpp:344-398 | over any run with any failures, and any call cut short at any store it leaves durable, the version rises by the moving calls, which ask for consecutive versions, and the history grows by exactly their scripts in that order |
| MigrationRuns.HistoryOfRun | src/oatpp-sqlite/Executor.cpp:344-398 | the same over runs in which every call goes on to its end |
| MigrationRuns.FaultlessCall | src/oatpp-sqlite/Executor.cpp:358-365 | without faults a call succeeds if and only if it is at most one version ahead |
| MigrationRuns.Converges | src/oatpp-sqlite/Executor.cpp:344-398 | all calls of a list succeed if and only if the chain has reached the version it starts from; they end at the larger of its version and the last, with exactly the missing scripts run, or with none, and one row in the table |
| MigrationRuns.RepeatingChangesNothing | src/oatpp-sqlite/Executor.cpp:358-361 | running the list again leaves the store unchanged |
| MigrationRuns.ChainsDiffer | src/oatpp-sqlite/Executor.cpp:267-274 | two suffixes share a version table if and only if they have the same letters up to the case of A to Z, none and empty being equal |
| MigrationRuns.ChainsDoNotInterfere | src/oatpp-sqlite/Executor.cpp:276-342 | in any interleaving each chain's table, history and results are those of its own calls alone |
| Witnesses.MissedSection | src/oatpp-sqlite/ql_template/Parser.cpp:189-193 | `:n<!!m!!>` compiles with its section missed and a parameter reaching into it |
| Witnesses.JoinedQuotes | src/oatpp-sqlite/ql_template/Parser.cpp:189-193 | `'a'<!!'b'!!>` has its section missed, inside the literal the erased marker leaves |
| Witnesses.BareQuestionMark | src/oatpp-sqlite/Executor.cpp:103 | for the template `?` the prepared text does not mean what the template means, whatever is bound |
| Witnesses.TrailingDot | src/oatpp-sqlite/Executor.cpp:126 | the names `a.` and `a` are looked up alike |
| Witnesses.LossyCells | src/oatpp-sqlite/mapping/Deserializer.cpp:130-137 | a null blob is read as a null string, and a UInt8 read from 256 is stored as 0 |
| Witnesses.SelectorOnPolymorphicField | src/oatpp-sqlite/mapping/ResultMapper.cpp:187-194 | two columns whose order decides whether one is read as a string or as a blob |
| Witnesses.MisreadTable | src/oatpp-sqlite/Executor.cpp:307-337 | two rows, 5 and 6, read up to an error after the first: the migration to 6 succeeds, runs its script and sets both rows to 6 |

## Left out

- The oatpp library is not part of this repository. `Caret`, the formatting of a string template, type
  resolvers and `orm::Transaction` are modelled from what their use here relies on: a transaction begins on
  construction and rolls back on destruction unless its commit succeeded, and beginning one and rolling
  back do not fail. No transaction is open when a migration starts.
- Migration scripts are taken to touch neither version tables nor transactions; a suffix is taken to be text
  that may stand in a table name. The SQL text built around it is not modelled, only what it does.
- Several connections at work at once, the connection pool, proxies and invalidators.
- SQLite itself: its reading of comments, of quoted identifiers and of `$name` or `?NNN` parameters other
  than those the compiler puts in, column affinity and error messages. A cell is taken to hold what was
  bound to it.
- An error of `sqlite3_prepare_v2`, which the original ignores.
- Cells.Deserialize: real numbers are exact, so rounding of doubles and Float32 is not modelled; nor are
  Blob's Base64 interpretation, other type interpretations, and pointers of empty blobs.
- Enum bodies and the text SQLite renders a number as are parameters.
- Type dispatch by class id in growing tables is a match on the type; a class id is taken to lie within
  the table.
- RowObject.ReadOneRowAsObject: the values a new object starts with are a parameter. Reading a row as a list
  or as a map is left out: each is one loop over the columns.
- ResultCursor.ReadRowsAsCollection: collections keep every item in order, as Vector and List do; an
  UnorderedSet, which drops duplicates, and the error for other collections are left out.
- The flag that a template is to be prepared is kept but never read, as in the original; logging and the
  wording of errors are left out.
- Counters that the original keeps in 32 or 64 bits (parameter indices, rows) are unbounded here; versions
  are not.
