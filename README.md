# Coralie query builder and schema migrations, modelled in Dafny

Coralie is a small PHP database layer. This project models its core:

- **Query** (`Query.php`): a fluent builder. A `Query` object collects a
  statement kind, a column list, a tree of WHERE constraints, a limit and
  the bound parameters. Each builder method changes those fields in place
  and returns the same object.
- **Dialect** (`Dialect.php`, `dialects/MySqlDialect.php`): renders a
  Query's data as SQL text. Identifiers are quoted, and each comparison
  becomes a `?` placeholder.
- **Schema registry** (`schema/Table.php`, `schema/Column.php`,
  `schema/ColumnTypes.php`): tables hold an ordered PHP array of columns
  and a list of dropped columns. A process-wide map holds the live tables
  and the dropped tables.
- **Migrations** (`schema/Migration.php`): a migration's `up` or `down`
  edits tables through callables. When the `$modify` flag is set, each
  `table()` call then flushes the table: a new table is created, and an
  existing one is altered with its new columns, its old columns and its
  dropped list.
- **Naming helpers** (`utils/Str.php`): `toSnakeCase` and `toCamelCase`,
  which map migration file names to class names.

The modules are:

- `Wrappers` and `Decimal`: PHP `null`, exceptions as results, and int ↔
  decimal-string conversion.
- `ColumnTypes` and `Columns`, with the class `Column`.
- `Constraints`: the data a Query holds.
- `Dialects`: pure rendering functions.
- `Slots`: which parameter each `?` of a built statement stands for. A
  statement split at its `?` marks (PHP `explode`) has one piece in front
  of each mark. The piece in front of a WHERE mark ends with the compared
  column and operator, and the piece in front of an UPDATE mark ends with
  the assigned column and `=`.
- `Queries`, with the class `Query`. A ghost field records, for each bound
  parameter, the column or comparison it was bound with (its owner). The
  alignment lemmas prove that parameter k's owner is the owner of the
  statement's k-th `?`.
- `Tables`, with the classes `Table` and `Registry`.
- `Migrations`, with the class `Migrator`.
- `Str`.
- `Feed` and `FeedMigrations`: the statements and the migrations of the
  repository's feed example application, worked out to their exact SQL
  text and schema operations.

Objects the PHP code mutates in place are Dafny classes with `modifies`
clauses. Each such method is proved against a pure specification function
of the old state, such as `WhereSpec`, `DropSpec`, `ApplySpec` or
`FlushSpec`. The lemmas prove what the code promises about those
functions.

Where behaviour is surprising, the model follows the code as written:

- `addPrimary` adds `AUTO INCREMENT` only when `autoIncrement` is false.
- The add methods store columns under integer keys (`$columns[] =`), and
  `getColumn` and `dropColumn` look the name up as an array key. A
  canonical decimal string `k` (such as `"0"` or `"-3"`, but not `"01"`)
  denotes the integer key `k`, so it finds the column stored at index `k`
  whatever that column's name is. Any other string finds nothing.
- `dropColumn` of a missing key replaces the entire dropped list with one
  stub column. A later drop of a present column then raises a PHP `Error`,
  because the code indexes a `Column` object as if it were an array.
- `update` replaces the parameters. Constraints added before it keep their
  placeholders but lose their values.
- The base Dialect renders comparisons without spaces and with the table
  prefix, for example `"t"."age">?`. The comment in `Query.php`:38-53 shows
  `"age" > ?` instead; the model follows the code.

## Model

| member | source | states |
|---|---|---|
| ColumnTypes.CodesAreDistinctIndexes | schema/ColumnTypes.php:7-18 | The twelve type codes are 0 through 11 in declaration order, so no two types share a code. |
| Columns.TypeName | schema/Column.php:48-62 | An int code passed to the `?string $type` parameter arrives as its canonical decimal string, which reads back as the code. |
| Columns.TypeNameInjective | schema/Column.php:48-62 | Two codes give the same type string exactly when they are equal. |
| Columns.TypeNamesOfSchema | schema/Table.php:68-110 | INTEGER becomes type "0" and VARCHAR becomes "6". |
| Columns.Column.constructor | schema/Column.php:48-62 | Every argument is stored unchanged. The defaults are length -1, no properties, not primary, and new. |
| Columns.Column.Length | schema/Column.php:71-75 | Only the length changes, and the same object is returned. |
| Columns.LedgerColumns | Coralie.php:68-79 | The migrations ledger has exactly two new columns, in order: `id` (integer code "0", no length, AUTO_INCREMENT, primary) and `name` (varchar code "6", no length, no properties, not primary). |
| Decimal.IntToStringRoundTrip | Dialect.php:170-173 | The printed form of an int, as in "LIMIT $limit", is canonical and parses back to the same int. |
| Decimal.ParseIntRoundTrip | schema/Table.php:117-120 | A canonical numeric key string is exactly the printed form of its value. |
| Constraints.LeavesAppend | Query.php:250-267 | Appending to a constraint list appends its comparisons, depth first. |
| Dialects.QuoteIdentifierShape | Dialect.php:62-73 | A value other than `*` is wrapped in the open and close quotes. The close quote is the second quote character if there is one, otherwise the first. `*` is never quoted. The table prefix comes first when asked for. |
| Dialects.TablePrefixShape | Dialect.php:39-49 | The prefix is the quoted table name followed by a dot. A falsy table name ("" or "0") gives just ".". |
| Dialects.MySqlQuoting | dialects/MySqlDialect.php:14-17 | MySQL quotes with one backtick on each side. A prefixed column reads `` `t`.`c` ``. |
| Dialects.StandardQuoting | Dialect.php:18 | The base dialect quotes with one double quote on each side. A prefixed column reads `"t"."c"`. |
| Dialects.MySqlOnlyChangesQuotes | dialects/MySqlDialect.php:14-17 | The MySQL dialect is the base dialect with only the quote string changed. |
| Dialects.QuoteAll | Dialect.php:86-96 | Each column of the list is quoted, in order. |
| Dialects.Present | Dialect.php:182-190 | compose's filter never yields more fragments than it was given. |
| Dialects.PresentKeepsOrder | Dialect.php:182-190 | compose keeps every non-null fragment, empty ones included, at its position among the non-null ones. |
| Dialects.PresentDropsNull | Dialect.php:182-190 | With no null argument every fragment is kept. Everything is dropped exactly when every argument is null. |
| Dialects.ComposeOfFour | Dialect.php:182-190 | Four fragments, the last two possibly null, render as the present ones joined by single spaces and ended by `;`. |
| Dialects.PrepareWhereKeyword | Dialect.php:136-163 | An empty constraint list renders to null in both modes. Otherwise the keyword form is "WHERE " followed by the bare form. |
| Dialects.BoolOnlyAfterFirst | Dialect.php:146-161 | An entry's AND/OR is written exactly when the entry is not first. A comparison renders as quoted column + operator + `?`; a group renders as ` (` + children + `)`. |
| Dialects.ConditionsAt | Dialect.php:146-161 | Entry k of a list renders with its own position as the index. |
| Dialects.WhereOfOneLeaf | Dialect.php:136-163 | One comparison renders as `WHERE col op?`. |
| Dialects.WhereOfTwoLeaves | Dialect.php:136-163 | Two comparisons render joined by one space, with the second one's boolean in front of it. |
| Dialects.Marks | Dialect.php:219-235 | `array_fill(0, n, '?')` gives n question marks. |
| Dialects.Assignments | Dialect.php:244-256 | Each column of an update becomes quoted column + `=?`, in order. |
| Dialects.WherePlaceholders | Dialect.php:136-163 | The rendered WHERE holds one `?` per comparison of the whole tree, provided no identifier or operator contains a `?` of its own. |
| Dialects.SelectPlaceholders | Dialect.php:199-210 | A SELECT has one placeholder per comparison. |
| Dialects.InsertPlaceholders | Dialect.php:219-235 | An INSERT has one placeholder per column. |
| Dialects.UpdatePlaceholders | Dialect.php:244-256 | An UPDATE has one placeholder per column, plus one per comparison. |
| Dialects.BuildPlaceholders | Query.php:340-344 | Every statement build produces has Placeholders(q) marks. Build fails exactly for DELETE (there is no composeDelete), and for INSERT or UPDATE whose columns were never set. |
| Slots.SlotOwners | Dialect.php:199-256 | The owners of a statement's placeholders, in order, number Placeholders(q): the comparisons depth first for SELECT and DELETE, the columns for INSERT, and the columns followed by the comparisons for UPDATE. |
| Slots.WhereShaped | Dialect.php:136-163 | Split at its `?` marks, the rendered WHERE has one piece per comparison of the tree, depth first. The piece in front of the k-th mark ends with the k-th comparison's quoted column and operator. |
| Slots.SelectShaped | Dialect.php:199-210 | A SELECT's marks are exactly its WHERE comparisons, in that order and with those column and operator texts in front. |
| Slots.AssignmentsShaped | Dialect.php:244-256 | In the SET list, the k-th mark follows the k-th column, quoted, and `=`. |
| Slots.UpdateShaped | Dialect.php:244-256 | An UPDATE's marks are first the assignments in column order, each after its quoted column and `=`, then the WHERE comparisons. |
| Slots.InsertShaped | Dialect.php:219-235 | An INSERT's marks sit in the VALUES list after the column list: the first after `VALUES (`, each later one after `,`. |
| Slots.BuildShaped | Query.php:340-344 | Every statement Build produces has one mark per slot owner. The piece in front of mark k ends with the tag of owner k. |
| Queries.Keys | Query.php:97-104 | `array_keys` gives the keys in order. |
| Queries.Values | Query.php:97-104 | `array_values` gives the values in order. |
| Queries.Query.constructor | Query.php:68-74 | A new Query is a SELECT with its columns unset, no constraints, no limit, no parameters and so no owners. |
| Queries.Query.New | Query.php:317-322 | The new Query is fresh, has the same dialect, and is in the initial state. |
| Queries.Query.Select | Query.php:84-90 | The same object is returned with the SELECT kind and the given columns. Everything else is unchanged, the owners included. |
| Queries.Query.Insert | Query.php:97-104 | The same object becomes an INSERT. The columns are the data's keys and the parameters its values, each owned by its key. The constraints and limit are unchanged. |
| Queries.Query.Update | Query.php:111-118 | The same object becomes an UPDATE, with the keys and values of the changes; each value is owned by its key. The constraints stay. |
| Queries.Query.Delete | Query.php:129-144 | The kind becomes DELETE. If a column is given, one AND comparison is added as `where` would add it, and it owns the new parameter. |
| Queries.Query.AddWhere | Query.php:250-267 | One comparison and one parameter are appended at the end, and the comparison is recorded as the parameter's owner. |
| Queries.Query.Where | Query.php:197-238 | The scalar overload, exactly as WhereSpec: an unrecognised operator becomes the value and "=" the operator. A null operator becomes "=". The new comparison owns the new parameter. |
| Queries.Query.And | Query.php:155-165 | `where` with AND. |
| Queries.Query.Or | Query.php:176-186 | `where` with OR. |
| Queries.Query.WhereAll | Query.php:203-220 | The array overload applies the tuples in order. A tuple with fewer than two elements returns MalformedConstraintException, and the tuples before it stay applied. The new comparisons own the new parameters, in order. |
| Queries.Query.WhereGroup | Query.php:277-296 | The child's whole tree is added as one node, and the child's parameters and their owners follow ours. |
| Queries.Query.Limit | Query.php:305-310 | Only the limit changes; the owners stay. |
| Queries.Query.Build | Query.php:340-344 | The result is the dialect's composer for the kind. For clean identifiers its `?` count is Placeholders of the data, and when the recorded owners are aligned, the text in front of the k-th `?` ends with the k-th owner's tag. |
| Queries.WhereAddsOneLeaf | Query.php:228-237 | A scalar `where` adds exactly one comparison and one parameter at the end. The operator is kept when it is recognised and not null; otherwise it is "=" and the argument becomes the value. The column, boolean and earlier state are kept. |
| Queries.AndOrDiffer | Query.php:155-186 | `and` and `or` give the same state except for the new comparison's boolean. |
| Queries.NestedAddsOneNode | Query.php:277-296 | A group adds one node holding the child's tree, and the parameters are ours followed by the child's. The leaves are ours followed by the child's. |
| Queries.AssignPairs | Query.php:97-118 | insert and update pair column k with parameter k. |
| Queries.PairIsEquality | Query.php:214-217 | The tuple `[c, v]` behaves as `[c, '=', v]`. |
| Queries.LongTupleIgnoresTail | Query.php:214-217 | Elements after the third of a tuple are ignored. |
| Queries.WhereAllUsesAnd | Query.php:214-217 | Every comparison the array overload adds is joined with AND. |
| Queries.WhereAllCounts | Query.php:203-220 | The array overload fails exactly when some tuple has fewer than two elements. Otherwise it adds one comparison and one parameter per tuple. |
| Queries.DeleteConstraint | Query.php:129-144 | `delete()` without a column adds no constraint. With a column it adds one AND comparison. |
| Queries.InitialAligned | Query.php:68-74 | A fresh Query, with no parameters and no owners, is aligned. |
| Queries.InsertAligned | Query.php:97-104 | insert binds each value with its column, and column k owns the k-th placeholder, so insert is always aligned. |
| Queries.UpdateAligned | Query.php:111-118 | update, with each value owned by its column, is aligned exactly when no comparison was added before it, because it replaces the parameters. |
| Queries.SelectAligned | Query.php:84-90 | select on a SELECT or DELETE changes alignment in neither direction. |
| Queries.WherePreservesAlignment | Query.php:250-267 | From an aligned state, a comparison whose parameter is owned by the new comparison keeps the state aligned exactly when the kind is not INSERT. The INSERT statement renders no WHERE. |
| Queries.NestedPreservesAlignment | Query.php:277-296 | A group whose child is aligned as a SELECT keeps an aligned SELECT, UPDATE or DELETE aligned, with the child's owners after ours. |
| Queries.WhereAllExtends | Query.php:203-220 | The array overload only appends to the WHERE list. |
| Queries.WhereAllPreservesAlignment | Query.php:203-220 | The array overload keeps an aligned SELECT, UPDATE or DELETE aligned, with the new parameters owned by the new comparisons in order. |
| Queries.LimitPreservesAlignment | Query.php:305-310 | limit changes alignment in neither direction. |
| Queries.AlignedBuild | Query.php:329-335 | An aligned query builds to a statement with one `?` for each parameter `execute` binds. The text in front of the k-th `?` ends with the k-th parameter's owner: its comparison's quoted column and operator, its UPDATE column quoted and followed by `=`, or, for INSERT value k, `VALUES (` or `,`. |
| Feed.StandardSelect | Dialect.php:199-210 | `select(['id','name'])->where('age','>',21)->and('name','x')->limit(10)` with double quotes and table `t` gives exactly `SELECT "t"."id","t"."name" FROM "t" WHERE "t"."age">? AND "t"."name"=? LIMIT 10;` and parameters [21, 'x']. |
| Feed.ArticlesIndex | examples/feed/index.php:12-13 | The article listing renders `` SELECT `articles`.`id`,`articles`.`title`,`articles`.`content` FROM `articles`; `` with no parameters. |
| Feed.ArticlesSelectAll | Dialect.php:121-127 | `select()` renders the star prefixed but unquoted. |
| Feed.ArticleUpdate | examples/feed/submit.php:10-13 | The article update renders the SET of title and content and `WHERE id=?`. The request id becomes the compared value unless it is itself an operator; then the bound value is null. |
| Feed.ArticleInsert | examples/feed/submit.php:18-21 | The article insert renders unprefixed columns and `VALUES (?,?)`, with parameters title and content. |
| Feed.SelectOfTwo | Dialect.php:199-210 | The general shape of a two-column, two-comparison SELECT with a limit. |
| Feed.UpdateOfTwo | Dialect.php:244-256 | The general shape of a two-column UPDATE with one comparison. |
| Feed.InsertOfTwo | Dialect.php:219-235 | The general shape of a two-column INSERT. |
| Str.LowerAll | utils/Str.php:16 | `strtolower` lowers each ASCII letter in place and keeps the length. |
| Str.UnderscoredIsWordBreaks | utils/Str.php:16-19 | The left-to-right regex replacement puts an underscore before exactly those uppercase letters whose predecessor is not uppercase. |
| Str.SnakeCaseLength | utils/Str.php:14-20 | toSnakeCase adds one character per (non-uppercase, uppercase) pair. |
| Str.SnakeCaseLeadingCapital | utils/Str.php:14-20 | A leading capital gains no underscore. |
| Str.SnakeCaseHasNoUpper | utils/Str.php:14-20 | The result has no uppercase ASCII letter. |
| Str.ExplodeImplode | utils/Str.php:35-37 | Gluing the pieces of `explode` back together gives the input. |
| Str.ExplodePiecesLackSeparator | utils/Str.php:35-37 | No piece of `explode` holds the delimiter. |
| Str.UcfirstEach | utils/Str.php:33-34 | Each piece is capitalised, in order. |
| Str.CamelCaseIsCamelRef | utils/Str.php:29-40 | toCamelCase agrees with the character-level reading: underscores vanish, and the character at the start or after an underscore is uppercased. |
| Str.CamelCaseHasNoUnderscore | utils/Str.php:29-40 | The result holds no underscore. |
| Str.CamelCaseLowerFirst | utils/Str.php:39 | With capitalizeFirst false the result is the capitalised one with only its first character lowered. |
| Str.SnakeCamelSnake | utils/Str.php:14-40 | A snake_case name maps back to itself after toCamelCase then toSnakeCase. The name must have lowercase pieces, none empty, and every piece but the last at least two characters long. |
| Str.OneLetterPieceIsLost | utils/Str.php:14-40 | Without the two-character condition the round trip fails: "a_b" becomes "AB", then "ab". |
| Str.CamelSnakeCamel | utils/Str.php:14-40 | A CamelCase name maps back to itself after toSnakeCase then toCamelCase. The name has no underscore, starts uppercase, and has no two adjacent capitals. |
| Str.CamelCaseOfTwoPieces | utils/Str.php:29-40 | Two underscore-free pieces become their capitalised concatenation. |
| Str.CamelCaseOfThreePieces | utils/Str.php:29-40 | Three underscore-free pieces become their capitalised concatenation. |
| Str.CreateArticlesClassName | Coralie.php:97 | "create_articles" names the class CreateArticles. |
| Str.AddArticlesAuthorClassName | Coralie.php:97 | "add_articles_author" names the class AddArticlesAuthor. |
| Tables.KeyOfIndex | schema/Table.php:117-120 | The printed form of an index looks up that integer key. |
| Tables.KeyOfInjective | schema/Table.php:117-120 | Different strings denote different array keys. |
| Tables.Find | schema/Table.php:127-129 | `array_key_exists` finds the first entry of the key, or reports that no entry has it. |
| Tables.RemoveTakesOut | schema/Table.php:132 | `unset` takes out exactly the entry of its key and keeps the order of the rest. A missing key changes nothing. |
| Tables.LookupAfterRemove | schema/Table.php:132 | After `unset` the key is gone. |
| Tables.LookupOtherAfterRemove | schema/Table.php:132 | After `unset` every other key finds what it found before. |
| Tables.LookupAfterPut | schema/Table.php:131 | After `$a[$k] = $v` the key finds `$v`, and every other key finds what it found before. |
| Tables.PutKeepsDistinct | schema/Table.php:131 | Assignment keeps the keys distinct. |
| Tables.AddIsFoundAtIndex | schema/Table.php:68-110 | An added column is found under the next free index. No other key changes, and the invariant holds. |
| Tables.NamedLookupMisses | schema/Table.php:117-120 | A column added by an add method is never found by a name that is not a number. |
| Tables.DropMovesColumn | schema/Table.php:127-133 | Dropping a present key moves its column to the dropped list under the same key. The other columns stay, in order. |
| Tables.DropOfMissingStubs | schema/Table.php:134-139 | Dropping a missing key replaces the whole dropped list with a stub column whose type is null. |
| Tables.DropAfterStubThrows | schema/Table.php:131 | Once the dropped list is a stub, dropping a present column raises an Error and changes nothing. |
| Tables.DropKeepsWf | schema/Table.php:125-140 | Every drop keeps the keys distinct integers below the next free index. |
| Tables.DropByIndexFindsAdded | schema/Table.php:125-140 | Dropping by the printed index of the column just added removes exactly that column. |
| Tables.EditKeepsWf | schema/Table.php:68-140 | Each add or drop keeps the table's invariant. |
| Tables.ApplyKeepsWf | schema/Table.php:148-153 | Any callable made of adds and drops keeps the invariant. |
| Tables.AddsOnlyAppend | schema/Table.php:68-110 | A callable made only of adds never raises. It appends one column per add, in order, and keeps the rest of the table. |
| Tables.Table.constructor | schema/Table.php:49-55 | A new table has the given name and flag, with no columns and an empty dropped list. |
| Tables.Table.AddPrimary | schema/Table.php:68-78 | A fresh column is appended under the next index: integer, length -1, primary, new, and `AUTO INCREMENT` only when autoIncrement is false. |
| Tables.Table.AddInteger | schema/Table.php:87-92 | A fresh integer column is appended under the next index. |
| Tables.Table.AddString | schema/Table.php:102-110 | A fresh varchar column with the given length is appended under the next index. |
| Tables.Table.GetColumn | schema/Table.php:117-120 | Returns the column under the key the string denotes, or null. |
| Tables.Table.DropColumn | schema/Table.php:125-140 | The new table state and outcome are DropSpec of the old state: moved, overwritten with a stub, or threw. |
| Tables.Table.Apply | schema/Table.php:148-153 | The callable's edits are applied in order, and an Error stops them. Every column afterwards is one the table held before or a fresh one. |
| Tables.Registry.Get | schema/Table.php:155-165 | Returns the live table of that name, or registers and returns a new table marked new. |
| Tables.Registry.Drop | schema/Table.php:172-183 | A live table moves to the dropped map. An unknown name records a new table that is not marked new. |
| Tables.Registry.With | schema/Table.php:148-153 | The table is the one `get` returns, and its state is ApplySpec of its prior state and the edits. |
| Migrations.PartitionFilters | schema/Migration.php:67-81 | The add list is the new columns, cleared. The alter list is the others. Each keeps the table's order. |
| Migrations.FilterSizes | schema/Migration.php:67-81 | Every column goes to exactly one of the two lists. |
| Migrations.NoNewColumns | schema/Migration.php:67-81 | With no new column, nothing is added and every column is altered. |
| Migrations.FlushShape | schema/Migration.php:54-93 | A new table records createTable with its columns. An existing table records alterTable with the add list, the alter list and the dropped list. Afterwards the table and all its columns are not new. |
| Migrations.FlushClearsFlags | schema/Migration.php:54-93 | After a flush nothing is new. The keys, the next index and the dropped list are unchanged, and the invariant holds. |
| Migrations.FlushTwice | schema/Migration.php:54-93 | A second flush alters every column, adds none, and changes nothing. |
| Migrations.SplitColumns | schema/Migration.php:67-81 | The loop yields Partition of the columns, and every new column is cleared. |
| Migrations.ClearColumns | schema/Migration.php:91-92 | The closing loop clears every column's flag and leaves the dropped list untouched. |
| Migrations.Migrator.Flush | schema/Migration.php:54-93 | The table's new state and the recorded call are FlushSpec of its old state. |
| Migrations.Migrator.Table | schema/Migration.php:46-94 | `table()` applies the edits to the table `get` returns. When modifying and nothing threw, it flushes the table and records its create or alter call; otherwise the log is unchanged. |
| Migrations.Migrator.DropTable | schema/Migration.php:101-107 | `Table::drop` is applied: a live table moves to the dropped map, and an unknown name records a fresh stub table that is not new. `dropTable` is recorded exactly when modifying. |
| Migrations.Migrator.RunStep | schema/Migration.php:46-107 | A step records one call on its own table when modifying and completed, and none otherwise. |
| Migrations.Migrator.RunSteps | schema/Migration.php:32-39 | A body records, in order, one call per completed step on that step's table. It records nothing when not modifying, and every step when nothing threw. |
| Migrations.Migrator.RunMigration | schema/Migration.php:32-39 | Sets the flag, then runs `up` or `down`. Without modifying, no call is recorded. |
| FeedMigrations.CreateRuns | examples/feed/migrations/aaa_create_articles.php:10-14 | The callable leaves `id`, `title` and `content` under keys 0 to 2. |
| FeedMigrations.AuthorFlushes | examples/feed/migrations/aab_add_articles_author.php:10-12 | The flush adds `author` and alters the other three columns. |
| FeedMigrations.AuthorDropStubs | examples/feed/migrations/aab_add_articles_author.php:17-19 | `dropColumn('author')` finds no column named "author" and stubs the dropped list. |
| FeedMigrations.AuthorDropKeeps | examples/feed/migrations/aab_add_articles_author.php:17-19 | The flush after the down keeps all four columns. |
| FeedMigrations.RunCreate | examples/feed/migrations/aaa_create_articles.php:8-15 | On an empty schema, up records one createTable with the three columns. |
| FeedMigrations.RunAuthor | examples/feed/migrations/aab_add_articles_author.php:8-13 | Once `articles` exists, up records one alterTable that adds `author`. |
| FeedMigrations.RunAuthorDown | examples/feed/migrations/aab_add_articles_author.php:15-20 | down records an alterTable that adds nothing, alters all four columns, and drops only a stub. |
| FeedMigrations.FeedUpDown | schema/Migration.php:32-39 | The two ups and then the second down record create, alter, alter. |
| FeedMigrations.AuthorSurvives | examples/feed/migrations/aab_add_articles_author.php:17-19 | The final alter adds nothing and still lists `author`. |

## Left out

- Database I/O is not modelled: `Query::execute`, `__toString`, the
  connection classes and the `createTable`/`alterTable`/`dropTable`
  statements. Each schema call is recorded as an `Op` instead.
- `Coralie.php` is not part of this model beyond the ledger columns and
  class-name mapping cited above. That covers the bootstrap, the
  migration-file loop, `glob`/`include`, the ledger lookup and the ledger
  insert. The same holds for `Model.php` and the `Singleton` trait.
- Callables are not values in Dafny. A `Table::with` callable is a list of
  `Edit`s; a nested-where callable is the child Query it returns.
- Query.Select: the variadic form `select('a', 'b')` (`func_get_args`) is
  modelled as the equivalent list.
- Query.Where: nested arrays and expressions as the column, and `$column`
  values other than strings, are not modelled.
- Query.Where: loose `in_array` is modelled for string and null operators
  only, and as plain membership. This is exact only when no listed
  operator is a numeric string: PHP 8 compares two numeric strings by
  value (`"1" == "01"`). The model assumes this of the operator list but
  does not require it, because the list is an unconstrained parameter.
- Query.Where: `$bool` is a free string in `Query.php`:201, and it is
  written into the SQL as given. The model's `BoolOp` admits only `AND`
  and `OR`, the two values the builder itself passes.
- Query.Where: `is_callable` is true for a string that names a PHP
  function as well as for a closure, so such a column would be treated as
  a nested group (`Query.php`:222). The model treats every string column
  as a column.
- The dialect's comparison operator list lives outside the core, so it is
  a parameter (`StandardOperators` gives a typical set).
- Slots.InsertShaped: an INSERT's marks carry no column text of their own.
  That mark k belongs to column k is stated by position: mark k of the
  VALUES list and name k of the column list before it.
- Queries.Aligned: a nested-where child must be aligned when read as a
  SELECT. This is what `new()` produces, but the callable may call
  anything on its Query.
- Dialects.Build: `composeDelete` does not exist, so a DELETE build is
  `Err(NoComposer)` rather than a PHP fatal error. An INSERT or UPDATE
  whose columns are null is `Err(ColumnsNotSet)` rather than a TypeError.
- Dialect's `$connection` is not modelled. `$table` is a string: "" and "0"
  are falsy, and PHP `null` is not distinguished from "".
- Columns.Column.Length: column lengths are integers, not PHP floats.
- Decimal.IntToStringRoundTrip: PHP's 64-bit int range and overflow to
  float are not modelled; ints are unbounded.
- Tables.KeyOf: every canonical decimal string becomes an integer key,
  with no 64-bit bound. In PHP a decimal string beyond the 64-bit range
  stays a string key.
- Tables.Registry: the string-keyed static arrays `$tables` and `$dropped`
  are Dafny maps, so their insertion order is not kept.
- Migrations.Migrator.RunSteps: the state of each table is stated exactly
  only for a body of one `table()` call. Longer bodies are stated through
  the recorded calls and their order.
- Migrations.Migrator.SplitAndAlter reads the dropped list as it was before
  the loop. The loop changes only column flags, so this is the same list.
- Migrations: a migration class's `up` and `down` are lists of `Step`s
  (their `table()` and `dropTable()` calls); arbitrary PHP in a body is not
  modelled.
- A failed PHP `Error` stops the whole migration. The model returns
  `threw`, and neither the flush nor any later step happens.
