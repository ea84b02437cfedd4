# Main Serve: verified model

Main Serve is a configuration-driven server: a tree of YAML files describes
databases, tables, endpoints, roles and storage, and the server migrates the
databases, answers requests and can reload all of it while it runs. This project
models the parts of it that are algorithms or protocols, and proves what they
promise.

- **Digraph** holds the graph facts that several modules share: reachability, and
  that a graph is acyclic exactly when its nodes can be ordered successors first.
- **RoleHierarchy** is hierarchy validation (a three-colour depth-first search),
  the inheritance map and the access decision, and what follows when the three
  are put together.
- **TopologicalSort**, **TableValidation**, **Migration** and
  **MigrationProperties** are Kahn's algorithm over foreign keys, table
  validation, the loops that issue DDL against a schema, and convergence of a
  whole run.
- **IncludeExpansion**, **IncludeLoader** and **IncludeProperties** are `$include`
  expansion over a possibly cyclic file graph: what a tree stands for, a plain recursive
  expansion that computes it, and a loader with a visited set against that expansion.
- **FilterKeys** and **SelectQuery** are the SELECT builder: how the key of a filter
  is taken apart, and the clauses and parameters that are put together.
  **SelectText** is the text they are written as, and **SelectSlots** the placeholders
  that are read from it. **SelectSemantics**, **SelectReading** and **SelectMeaning**
  are which parameter each placeholder stands for, when the database reads that text
  as what it was written for, and which rows the query accepts. **NamedFilters**,
  **SelectWording** and **SelectPaging** state the same by what a client writes: which
  lists are built and which rows they select for each documented operator name, the SQL
  each name becomes, and the window of rows that a page becomes.
- **Strings**, **SqlText**, **SlotText**, **JsonText**, **PathText** and
  **LikePattern** are what that rests on: splitting and joining, SQL literals and
  placeholders as a database reads them, JSON strings, path texts of the three
  databases, and LIKE.
- **Pagination** and **ByteRanges** are the two slicing computations, and
  **Numerals** the decimal numbers they read and print.
- **RateLimiter** is the fixed-window limiter with pruning.
- **MemoryStorage**, **TrashProtocol** and **TrashFlags** are the in-memory backend,
  the media trash on top of it, step by step, with crashes and retries, and when the
  row of an item says where its bytes are.
- **StoreChanges**, **Reload**, **ReloadProperties**, **ReloadProgress** and
  **ReloadHandler** are store reconciliation, the interleaved reload protocol with
  its invariant, what it guarantees, that it ends, and one reload run by itself.

A component that changes state is a class whose methods are proved against
functions of its old state; the statements about all inputs, runs or schedules
are lemmas about those functions. Iteration over a hash map or set is an
arbitrary choice, so nothing proved depends on an order.

## Where the code differs from its description

Each of these is a lemma with a witness or an exact condition.

- The limiter calls itself a sliding window (`src/middleware/rate_limit.rs:3`). Its
  windows are anchored at a first request, so up to `2 * max - 1` requests can be
  admitted within one window length (`RunSlidingBound`, `SlidingBoundIsSharp`).
- A file included twice without any cycle is reported as circular, because a path
  is never removed from the visited set (`SharedFileRejected`).
- Validation accepts two tables of one name in different databases; the sort, which
  indexes tables by name, then reports a circular dependency
  (`ValidTablesMayNotSort`, `SortTablesTopologically`).
- The configured clause numbers its PostgreSQL placeholders from 1 whatever was
  pushed before it (`src/db/query/helpers/interpolation.rs:135`). A single-record
  query puts the key first, so its clause is evaluated with shifted values
  (`OwnSlotsExactly`, `OneIsWellNumbered`, `OneMisbindsItsClause`).
- A containment filter on PostgreSQL writes its value into the text as JSON between
  single quotes, and JSON does not escape those (`src/db/query/select.rs:448`,
  `src/db/query/select.rs:458`). The value is read back exactly when it holds none
  (`FilterReadsExactly`); a search for O'Brien yields a text that cannot be read, and
  finds nothing (`OddQuotesAcceptNothing`, `OBrienIsNotFound`).
- The segments of a filter key are written between quotes as they are
  (`src/db/query/traits.rs:65-68`), so a quote, a comma, a brace or a word such as null
  changes the path or the text (`FilterReadsExactly`, `ListReadsExactly`). On MySQL and
  SQLite a filter on a document column itself, without a path, is written with the
  malformed path `$.` (`PathReadsExactly`).
- The column of a filter is checked by the name before an arrow, dot or bracket, and
  written whole (`src/db/query/helpers/filters.rs:104-138`): a key with an arrow is
  admitted although its text is no column name (`ArrowIsAdmitted`). What is written is
  what was checked exactly when it is a plain name (`AdmittedColumn`).
- `contains`, `startswith` and `endswith` leave `%`, `_` and the backslash in the value
  as they are, so "50%" also finds "500" (`FiftyPercentFindsFiveHundred`), and the word
  null as a prefix or suffix is bound as NULL. They do what they say exactly without
  those (`TextFilterExactly`). A list of values to leave out that holds the word null
  leaves out every row (`NullPieceEmptiesNotIn`).
- The page size reported to the client is at least 1 while the one sent to the
  database may be 0 (`ReportAgreesWithQuery`, `ZeroPageSize`).
- The streaming range handler takes a garbage end position for the end of the file,
  the in-memory handler answers 400; the in-memory one underflows on an empty file
  with an open end, and on an end before the start, which panics or wraps around
  depending on the build (`HandlersAgree`).
- Restoring with another subject than the one who trashed marks the row live and
  leaves the bytes in the trash (`TrashThenRestore`).
- A row says where the bytes are after every operation that ran undisturbed
  (`UndisturbedOperationAgrees`, `FinishedHandlerAgrees`). When a trash and a restore of
  one item interleave and both finish, it does so exactly when the one that got past the
  files last also wrote the row last (`OverlapAgreesExactly`, `OverlapFromTrash`). It does
  not after a whole trash between a restore's move and its row update, which leaves the
  row live and the bytes in the trash (`TrashInsideRestore`), nor after the mirror case, a
  whole restore between a trash's check and its row update, which leaves the row trashed
  and the bytes live (`RestoreInsideTrash`). From a row that says live it always does
  (`OverlapFromLiveRow`).
- Emptying the trash skips every row whose id the database hands out as a number, as it
  does for a serial key (`src/handlers/media/trash.rs:187`), and counts deletes that
  failed (`src/handlers/media/trash.rs:189-193`). It empties the trash, and counts what is
  gone, exactly without those (`EmptiesExactly`, `CountsExactly`, `NumberedRowsStay`).
- Two tables whose names and databases differ are duplicates to validation when the
  texts joined with a dot are equal (`DifferentPairsShareAKey`).
- One limiter serves endpoints with different windows, and a cleanup under one window
  may forget entries that a longer one still counts; that stays unnoticed exactly up to
  twice the window (`PruningAcrossWindows`).
- The store comparison is documented to check account and project
  (`src/server/state.rs:594-597`) and does not (`ComparisonVersusDocumentation`).
- A reload assigns the rebuilt store map to its own copy of the state
  (`src/server/reload.rs:218`), so storage backends are not re-initialised for anyone
  else, and the next reload starts from the startup stores
  (`ReloadFromStartupStores`, `AddedStoreIsLost`, `StoresStayFromStartup`).
- Role inheritance is computed at startup (`src/server/state.rs:286`) and by no reload,
  so access follows the hierarchy the server started with (`RolesStayFromStartup`).
- The comment above the swap says no request can see mismatched state
  (`src/server/reload.rs:206-207`). That holds for a reader that keeps a lock
  (`ReadersSeeOneGeneration`), not for the usual lookup of a pool and then of a table
  configuration under separate locks (`ContextLookup`, `SplitLookupAndFailedRebuild`).
- A reload that cannot create a store returns before the swap and leaves the new pools it
  has opened unclosed (`src/server/reload.rs:187-199`, `PoolsClosedExactly`).
- A failing registry rebuild returns an error after the swap, and the pools that were
  replaced are never closed (`PoolsClosedExactly`, `SplitLookupAndFailedRebuild`).
- An indexed column that may not be added to an existing table makes the run fail at
  its index, and so does an indexed column that SQLite will not drop
  (`TableOutcome`, `RunOutcome`).

## Model

| member | source | states |
|---|---|---|
| RoleHierarchy.CycleSearch.DetectCycle | src/config/validation/auth.rs:175-205 | A search from an unvisited role strictly shrinks the set of unvisited roles (parents that are no keys included), leaves every other colour alone, and without a report finishes the role; a report is a walk along parent edges that closes on a marked role |
| RoleHierarchy.ValidateRoleHierarchy | src/config/validation/auth.rs:138-169 | Validation appends no error exactly when there is no hierarchy or its parent graph is acyclic, although roles stay marked after a report, and what it appends names real edges |
| RoleHierarchy.InheritedRoles | src/server/state.rs:486-499 | The worklist ends on every hierarchy, cyclic ones included, with exactly the roles reachable by one or more parent edges |
| RoleHierarchy.ComputeRoleInheritance | src/server/state.rs:474-505 | The closure maps each defined role, and no other, to exactly the roles it reaches by one or more parent edges; empty without a hierarchy |
| RoleHierarchy.CheckRolesIsReachability | src/middleware/auth/validate.rs:186-218 | A user is accepted exactly when nothing is required or a required role is reachable from the user's role in zero or more parent steps |
| RoleHierarchy.AccessMonotone | src/middleware/auth/validate.rs:206-214 | Whatever an inherited role may access, the inheriting role may access |
| RoleHierarchy.InheritanceOrder | src/server/state.rs:474-505 | The inheritance map is a strict partial order exactly when the hierarchy is acyclic |
| RoleHierarchy.ValidateThenAuthorize | src/config/validation/auth.rs:138-169 | End to end: validation succeeds exactly on acyclic hierarchies, inheritance is then a strict partial order, and the decision is reachability |
| RateLimiter.Limiter.CheckRateLimit | src/middleware/rate_limit.rs:65-110 | One request prunes, resets and counts as specified, and its decision is read off its own entry; disabled limiting changes nothing |
| RateLimiter.SharedMapShowsOwnHistory | src/middleware/rate_limit.rs:79-97 | After any time-ordered run the shared, pruned map shows of a key exactly what that key's own requests alone would have left, as far as it is still live |
| RateLimiter.DecisionIsPrivate | src/middleware/rate_limit.rs:65-110 | A decision depends only on the key's own earlier requests |
| RateLimiter.PruningIsInvisible | src/middleware/rate_limit.rs:81-84 | The cleanup threshold never changes a decision |
| RateLimiter.PruningAcrossWindows | src/middleware/rate_limit.rs:79-84 | A cleanup under one endpoint's window is never seen by an endpoint with another exactly when that is at most twice as long |
| RateLimiter.AnchoredWindowBound | src/middleware/rate_limit.rs:86-106 | Each window anchored at a first request admits at most the configured maximum |
| RateLimiter.SlidingBound | src/middleware/rate_limit.rs:86-106 | Any half-open interval one window long admits at most 2 * max - 1 of a key's requests (none when max is 0) |
| RateLimiter.RunSlidingBound | src/middleware/rate_limit.rs:65-110 | The same bound over a run of interleaved keys through the shared map, for the configured number of seconds |
| RateLimiter.SlidingBoundIsSharp | src/middleware/rate_limit.rs:93-97 | For every configuration with a window some run attains that bound |
| RateLimiter.LockoutEnds | src/middleware/rate_limit.rs:93-106 | However many were rejected, the first request as many seconds after the window's start as configured, or later, is admitted and starts a window |
| RateLimiter.RetryAfterIsRemaining | src/middleware/rate_limit.rs:101-105 | The reported wait is the remaining time rounded down to seconds |
| RateLimiter.RetryAfterIsHonest | src/middleware/rate_limit.rs:101-105 | A retry before the reported wait is rejected, one a second after it is admitted, whatever was tried in between |
| TopologicalSort.BuildInDegrees | src/db/migration.rs:633-652 | In-degrees count dependencies and the reverse map lists each dependent once per edge, in any iteration order |
| TopologicalSort.ReleaseBounds | src/db/migration.rs:666-682 | The in-degree is never decremented more often than it has edges left, so it does not underflow |
| TopologicalSort.KahnOrder | src/db/migration.rs:633-683 | The output takes the least available index at every step and stops only when nothing is available |
| TopologicalSort.GreedyIsLeast | src/db/migration.rs:672-682 | Taking the least available index yields the lexicographically least topological order |
| TopologicalSort.ExhaustedCompleteIffAcyclic | src/db/migration.rs:684-698 | The output is complete exactly when the dependency graph is acyclic |
| TopologicalSort.LeastOrderIsUnique | src/db/migration.rs:653-660 | The result is unique, hence independent of hash-map order |
| TopologicalSort.BuildDependencies | src/db/migration.rs:616-632 | The dependency lists record exactly the foreign keys whose target name is indexed, self-references included |
| TopologicalSort.SortTablesTopologically | src/db/migration.rs:606-701 | Ok exactly when names are distinct and the foreign-key graph is acyclic; then the least topological order of all tables; otherwise (names distinct) every named table references a named one |
| TopologicalSort.UnplacedAreStuck | src/db/migration.rs:685-697 | The tables named in the error all lie on or behind a cycle: each references another named table |
| TableValidation.ValidateTables | src/config/validation/tables.rs:2-114 | No error is appended exactly when the joined texts of name and database are distinct, and databases, columns, keys and foreign-key targets are valid |
| TableValidation.DifferentPairsShareAKey | src/config/validation/tables.rs:6-8 | Tables with different names and databases are duplicates when their joined texts agree |
| TableValidation.ValidTablesMayNotSort | src/config/validation/tables.rs:6-14 | A valid configuration with an acyclic foreign-key graph that is not sortable, because two databases share a table name |
| Migration.Migrator.AlterExistingTable | src/db/migration.rs:283-369 | The two loops execute exactly the planned ADD and DROP statements in order, up to the first that fails; the log, and the schema left behind, are those of what was executed, on success and on failure |
| Migration.Migrator.CreateIndexes | src/db/migration.rs:148-178 | The same for CREATE INDEX of each indexed non-key column not already indexed (the check is made on MySQL only) |
| Migration.Migrator.RunMigrations | src/db/migration.rs:97-182 | The run is the sort followed by one migration per listed table, stopping at the first error; result, schemas and executed statements are those of the plan, after a failure too; an unsortable configuration touches nothing. After success and failure alike: every executed DROP COLUMN is of a column that its table does not list, in a database whose settings turn on both migration and destructive changes; no table and no other column is gone; a database that turns migration off keeps its schema; if no database allows destructive changes, no DROP COLUMN was executed and every column is still there |
| Migration.RunIsAllowed | src/db/migration.rs:108-146 | The same for the run over sorted tables, stated on the settings and on what was executed: nothing is dropped or lost that the settings do not allow |
| Migration.ExecutesPrefix | src/db/migration.rs:283-369 | Executing statements one by one executes the whole list exactly when all of it applies, and otherwise the longest prefix that does, with its schema |
| MigrationProperties.AlterOutcome | src/db/migration.rs:283-369 | An altered table has its old columns plus the addable missing ones, minus the unlisted ones only when destructive changes are allowed |
| MigrationProperties.TargetMembers | src/db/migration.rs:300-369 | Column by column, what is there afterwards |
| MigrationProperties.TargetIsSettled | src/db/migration.rs:283-369 | The outcome leaves nothing to add and nothing to drop |
| MigrationProperties.TableOutcome | src/db/migration.rs:125-178 | Migrating one table succeeds exactly when its targets exist, each column to index is present or addable, and SQLite is not to drop an indexed column; and what it leaves |
| MigrationProperties.RunOutcome | src/db/migration.rs:97-182 | A whole run succeeds exactly when every index and every drop that the settings call for is possible, and leaves everything else untouched; after success each listed table of a database that does not turn migration off, settings or none, has column by column what its configuration says: an existing column is gone exactly if it is unlisted and the settings allow it, a missing one is there exactly if old rows can take it |
| MigrationProperties.MigrationConverges | src/db/migration.rs:97-182 | After a successful run a second one changes nothing and issues no ADD COLUMN and no DROP COLUMN |
| MigrationProperties.ValidatedOrderPutsTargetsFirst | src/db/migration.rs:594-606 | On a validated configuration the sort puts every foreign-key target before the table that references it |
| MigrationProperties.ValidatedMigration | src/config/validation/tables.rs:34-45 | A validated, sortable configuration migrates exactly when every index and every drop is possible, and a second run is quiet |
| MigrationProperties.MigrateTwice | src/db/migration.rs:97-182 | Two runs one after the other: if the first succeeds so does the second, the tables follow configuration and settings column by column, and what the second executes holds no ADD COLUMN and no DROP COLUMN |
| IncludeLoader.Loader.LoadFile | src/config/loader.rs:65-91 | Loading refines the plain expansion: it opens the longest prefix of the plain trail without a repeat, agrees with it when that is all of it, and rejects the first repeated path otherwise; it ends on cyclic graphs because unvisited files run out; a value that it returns is what the file stands for |
| IncludeLoader.Loader.ResolveMapping | src/config/loader.rs:115-185 | The same for a mapping, whose value is what it stands for: without the directive its own keys in their order, each with what its value stands for; with it, which must be alone and a string, the single file, or the mappings of several files merged, where each key stands at its first appearance, has the value of the last file that holds it, and no other key is present |
| IncludeLoader.Loader.ResolveSequence | src/config/loader.rs:196-253 | The same for a sequence, whose `$include` items are replaced by the values of all matching files in order, and every other item by what it stands for |
| IncludeExpansion.TreeMeaning | src/config/loader.rs:93-253 | For every tree whose mappings have distinct keys, the plain expansion ends with a value exactly if the tree stands for it |
| IncludeExpansion.MergedMeaning | src/config/loader.rs:157-179 | Merging several files ends with these entries exactly if each file stands for a mapping and the entries are those mappings merged |
| IncludeExpansion.MergeFinds | src/config/loader.rs:164-168 | Looking up a key after a mapping was merged in finds the value of that mapping if it holds the key, and otherwise what was found before |
| IncludeExpansion.MergeKeys | src/config/loader.rs:164-168 | Merging keeps the keys that are there in their order, and appends the new ones in theirs |
| IncludeExpansion.DirectiveErrors | src/config/loader.rs:121-151 | A directive that is no string, is not alone, or matches nothing fails before any file is opened, in a mapping and in a sequence alike |
| IncludeProperties.LoadConfigValue | src/config/loader.rs:45-253 | A load opens no file twice; it returns a value exactly when the plain expansion returns it without opening a file twice; that value is what the file stands for, merged files included, and has no `$include` key left; a circularity error means the plain expansion reaches that file twice |
| IncludeProperties.ExpandsToItself | src/config/loader.rs:93-104 | A tree without any directive expands to itself and opens no file |
| IncludeProperties.SharedFileRejected | src/config/loader.rs:66-72 | Two includes of one file, without any cycle, are rejected although the plain expansion succeeds |
| Strings.SplitJoins | src/db/query/select.rs:233-235 | Splitting a filter value on commas loses nothing and leaves no comma in a piece |
| Strings.TrimExactly | src/db/query/select.rs:236 | What an item of a list is compared as: trimming removes the white space around it, and nothing else |
| FilterKeys.ParseSortField | src/db/query/helpers/common.rs:51-107 | The scanning loop yields the parts of a field between dots and brackets |
| FilterKeys.PlainColumnIsChecked | src/db/query/helpers/filters.rs:46-138 | When a key is written with a plain column name, that name is what it is checked by, or a name that holds a dot |
| FilterKeys.ArrowColumn | src/db/query/helpers/filters.rs:117-124 | A key that continues a plain column with an arrow operator is checked by that column, whatever follows |
| FilterKeys.DollarColumn | src/db/query/helpers/filters.rs:106-116 | A key written as a JSON path is checked by its first step |
| SelectQuery.SegmentsSurvive | src/db/query/select.rs:216 | Joining the segments of a parsed key and splitting them again gives them back |
| SelectReading.AdmittedColumn | src/db/query/select.rs:158-185 | An admitted filter is written with the very column it was checked against, allowed by name and coerced to its type, exactly when it is written with a plain name |
| SelectReading.ArrowIsAdmitted | src/db/query/helpers/filters.rs:117-124 | For every plain column name, the key that appends an arrow to it is admitted and written whole |
| SqlText.ReadsBackExactly | src/db/query/select.rs:728-742 | Text put together from raw and quoted pieces is read as those pieces exactly when no raw piece holds a quote and every quoted one stands for itself between quotes |
| SqlText.OddQuotesUnreadable | src/db/query/select.rs:448 | Where only quotes are special, text with an odd number of them cannot be read |
| JsonText.JsonRoundTrip | src/db/query/select.rs:427-429 | Every string is read back from its JSON text |
| JsonText.JsonKeepsQuotes | src/db/query/select.rs:427-448 | JSON escaping leaves every single quote as it is |
| PathText.ArrayReadsExactly | src/db/query/traits.rs:65-68 | The array literal of a path is read as the path exactly when no segment is empty, null, padded, or holds a comma, brace, double quote or backslash |
| PathText.PathReadsExactly | src/db/query/traits.rs:133-137 | The dollar path is read as the path exactly when there is a segment and each needs no quotes |
| SelectText.CondReadsExactly | src/db/query/select.rs:276-581 | The text of a condition is read as its columns, literals and slots exactly when what was pasted into it is clean and names what it should |
| SelectReading.FilterReadsExactly | src/db/query/select.rs:210-581 | For every operator, path, value and database: the condition of a filter is read as it was meant exactly when column and table are plain names, the path is plain, and no quote stands in a value written into the text |
| SelectReading.PlainQueryReads | src/db/query/select.rs:728-742 | Any sequence of plain clauses, filters and keys is read as it was built |
| SelectReading.FiltersReadExactly | src/db/query/select.rs:151-188 | Behind a clause that can be read on its own, the WHERE text is read as it was built exactly when every filter is plain |
| LikePattern.ContainsExactly | src/db/query/select.rs:239-241 | The pattern of `contains` finds exactly the texts the value occurs in if and only if the value holds no wildcard and no escape |
| LikePattern.StartsWithExactly | src/db/query/traits.rs:120-122 | The pattern of `startswith` finds exactly the texts with that prefix if and only if the value holds no wildcard and no escape and is not the word null |
| LikePattern.EndsWithExactly | src/db/query/traits.rs:124-126 | The same for `endswith`, where MySQL tolerates one last backslash |
| SelectQuery.SelectBuilder.InterpolateWhereClause | src/db/query/helpers/interpolation.rs:94-145 | Succeeds exactly when every key resolves (by itself or by its default), and otherwise reports the first that does not; pushes one parameter per key, and numbers the placeholders from 1 |
| SelectQuery.ResolvesExactly | src/db/query/helpers/interpolation.rs:116-127 | A key that is present wins over any default; otherwise it is cut at its first ":-", the part before wins if it is present, and else the rest is the value |
| SelectQuery.SelectBuilder.ApplyWhereClause | src/db/query/select.rs:123-143 | Keeps the counter one above the number of parameters; adds the clause as one condition |
| SelectQuery.SelectBuilder.ApplyFilterExpression | src/db/query/select.rs:210-271 | Adds the operator's condition, numbered from the counter, and pushes one coerced parameter per value; keeps the counter one above the number of parameters |
| SelectQuery.SelectBuilder.ApplyFilters | src/db/query/select.rs:151-188 | Succeeds exactly when every key parses, its first segment is allowed and the key as a whole names a column; applies the filters in iteration order; otherwise reports the first that is not admissible, and why. Which operator a name stands for is `NamedListSelects` |
| SelectQuery.SelectBuilder.ApplyPkCondition | src/db/query/select.rs:584-599 | Adds the key condition and its parameter, or a condition that is never true for the sentinel |
| SelectQuery.SelectBuilder.ApplyPagination | src/db/query/select.rs:697-717 | Adds the next two placeholders as LIMIT and OFFSET and pushes both values; conditions stay as they are. Which of them each placeholder stands for is `ListReadsItsWindow` |
| SelectQuery.SelectBuilder.ApplyJoins | src/db/query/select.rs:80-108 | Joins are appended and fields qualified only when there is a join; conditions and parameters stay as they are |
| SelectQuery.MainFields | src/db/query/select.rs:65-77 | A list begins with the fields of the table, each under the name of the table exactly when there is a join and it holds no dot |
| SelectQuery.BuildSelectList | src/db/query/builders/select_builder.rs:17-37 | A list is built exactly when the clause resolves, the filters are admissible and the sorting is valid, and the error is the first of these; its clauses are those of clause, filters and page, its fields those of table, joins and computed fields, and its joins the configured ones |
| SelectQuery.BuildSelectListCount | src/db/query/count.rs:21-34 | The count has the same clause and filters, no page, and counts |
| SelectQuery.BuildSelectOne | src/db/query/builders/select_builder.rs:45-63 | Compiles the key before the clause, with a single-row limit |
| SelectSemantics.SlotsOfCompiled | src/db/query/select.rs:728-762 | The slots of a built query are those of its terms, in the order of the calls |
| SelectReading.SlotsInText | src/db/query/select.rs:728-762 | For plain terms, the placeholders that the database reads from the text of the conditions and the limit are the slots of the query in order, but for the values written into the text |
| SlotText.DigitsScanned | src/db/query/helpers/common.rs:24-29 | A printed placeholder number is read back from its digits |
| SelectSemantics.OwnSlotsExactly | src/db/query/helpers/interpolation.rs:131-138 | Every placeholder stands for a value its own clause, filter, key or page pushed, exactly when on PostgreSQL no clause with keys follows something that pushed a parameter |
| SelectSemantics.EverySlotGetsItsValue | src/db/query/select.rs:123-271 | Under that condition every placeholder of any sequence of calls stands for the value meant for it |
| SelectSemantics.QuestionMarksBindInOrder | src/db/query/helpers/common.rs:24-29 | On MySQL and SQLite, for any sequence of calls, every slot is a question mark, the k-th binds the k-th parameter, and the counts match |
| SelectSemantics.NumbersIncrease | src/db/query/select.rs:414-479 | On PostgreSQL the numbers strictly increase through the text and cover all parameters except exactly those pushed by JSON containment, whose operand is inlined |
| SelectMeaning.AnyEqualIsAmong | src/db/query/select.rs:309-320 | An IN list over the split and trimmed value is true when some piece equals the column, otherwise unknown when some comparison is, otherwise false |
| SelectMeaning.NullPieceEmptiesNotIn | src/db/query/helpers/interpolation.rs:317-324 | A NOT IN list with the word null among its pieces is true of no row |
| SelectMeaning.TextFilterExactly | src/db/query/select.rs:233-345 | On columns whose values are bound as text, contains, startswith and endswith find what they say on every text if and only if the value holds no wildcard and no escape and, but for contains, is not the word null |
| SelectMeaning.FiftyPercentFindsFiveHundred | src/db/query/select.rs:239-241 | A filter `contains` with "50%" on a text column is true of a row that holds "500", and what it asks is false of it |
| SelectMeaning.AcceptsWhatIsRequired | src/db/query/select.rs:728-762 | A query of plain terms accepts a row exactly when the condition of every term is true of it, each over its own values |
| SelectMeaning.AcceptsWhatWasAsked | src/db/query/select.rs:728-762 | Compilation preserves meaning: a query of plain terms whose searched values stand for themselves accepts a row exactly when its clause, key and every filter are true of it, where contains, startswith and endswith mean occurrence, prefix and suffix |
| SelectMeaning.OddQuotesAcceptNothing | src/db/query/select.rs:446-460 | On PostgreSQL a containment filter whose value holds an odd number of quotes accepts no row |
| SelectMeaning.OBrienIsNotFound | src/db/query/select.rs:446-460 | O'Brien is such a value |
| SelectMeaning.ListReadsExactly | src/db/query/builders/select_builder.rs:18-37 | With a clause that can be read on its own, the text of a list is read as it was built exactly when every filter of the request is plain |
| SelectMeaning.CountIsListWithoutPage | src/db/query/count.rs:21-34 | For every request, list and count have equal conditions, and the count's parameters are a prefix of the list's |
| SelectMeaning.ListSelectsWhatWasAsked | src/db/query/builders/select_builder.rs:18-37 | A list selects exactly the rows of which the clause and every parsed filter are true, when filters are plain and searched values stand for themselves; by what the client wrote, see `NamedListSelects` |
| NamedFilters.BuildNamedList | src/db/query/helpers/filters.rs:46-98 | For filters `column.path[name]=value` with plain columns: a list is built exactly when every name is one of the fourteen documented ones (no name is eq), and otherwise the first other lower-case name is refused as unsupported |
| NamedFilters.NamedListSelects | src/db/query/select.rs:210-345 | Such a list selects exactly the rows of which the clause is true and of which every name says so: eq, ne, gt, gte, lt and lte compare the column so, in has a piece of the value equal to it and not_in has all of them differ, contains, startswith and endswith find the value in its text, like and ilike match it as a pattern, exists asks for a value |
| NamedFilters.AmongPieces | src/db/query/select.rs:233-237 | An IN list holds when some piece, without the white space around it, equals the column; NOT IN when every one differs |
| SelectWording.NamedFilterIsWorded | src/db/query/select.rs:275-581 | For each documented name, column, path and database, the SQL text of the condition |
| SelectWording.ListIsWorded | src/db/query/select.rs:728-746 | What stands after WHERE for a list of such filters: the clause with its parameters in parentheses and the SQL of each filter, numbered in turn and joined by AND; and how many parameters that takes |
| SelectWording.PageIsWorded | src/db/query/select.rs:753-760 | LIMIT and OFFSET are written with the two parameters after those |
| SelectWording.OneIsWorded | src/db/query/select.rs:584-599 | A single-record query is written as the key condition, or one that never holds for a value that is no integer, AND the clause, and one row |
| SelectPaging.ListReadsItsWindow | src/db/query/select.rs:708-716 | In every built list with a page, on all three databases, the placeholder after LIMIT stands for the limit and the one after OFFSET for the offset |
| SelectPaging.ListReturnsItsPage | src/db/query/select.rs:697-717 | So the window that is read from the query is the page that was asked for |
| SelectPaging.BuildListPage | src/db/query/builders/select_builder.rs:17-37 | Building a list for a page and page size whose offset does not overflow: any rows, read through the window of the built query, give that page |
| SelectMeaning.CountSelectsTheSameRows | src/db/query/count.rs:21-34 | With plain filters and a clause that can be read on its own, a list and its count accept the same rows: those of which every condition is true |
| SelectMeaning.FilterOrderIsIrrelevant | src/db/query/select.rs:157 | Iterating plain filters in another order selects the same rows |
| SelectMeaning.OneIsWellNumbered | src/db/query/builders/select_builder.rs:45-63 | A single-record query is well numbered exactly on MySQL or SQLite, with the sentinel key, or with a clause without keys |
| SelectMeaning.OneSelectsItsKey | src/db/query/select.rs:584-599 | A well-numbered single-record query selects the row whose key equals the value, if the clause is true of it, and none for the smallest 64-bit number, which stands for a segment that is no integer |
| SelectMeaning.OneMisbindsItsClause | src/db/query/builders/select_builder.rs:58-60 | Otherwise, for a clause that can be read on its own, it is evaluated with the key for its first value and each value shifted by one place |
| Pagination.ReturnedIsPage | src/db/query/select.rs:697-717 | The clamp of limit and offset to 63 bits never shows, and page 0 returns page 1 |
| Pagination.SizeIsCapped | src/db/query/select.rs:701-706 | The page size is the one asked for, or the default, but at most the maximum, and no more rows are returned; without a page number they are the first rows |
| Pagination.ReportAgreesWithQuery | src/handlers/crud.rs:124-131 | The reported page size is the one sent to the database exactly when both the requested (or default) and the maximum size are at least 1 |
| Pagination.ZeroPageSize | src/handlers/crud.rs:124-160 | With a page size of 0 no row is returned and one page per row is reported |
| Pagination.PagesTile | src/handlers/crud.rs:124-165 | Pages 1 to the reported count put together are all rows in order, each of the reported size but the last, which is not empty; later pages are empty and no offset up to the count overflows |
| Pagination.RowOnPage | src/db/query/select.rs:705-706 | On which page a row is, and where on it |
| Numerals.PrintedNumberParses | src/handlers/static_files/serving.rs:217-219 | A printed position parses back, exactly within 64 bits, with or without a plus sign |
| ByteRanges.SplitOnceExactly | src/handlers/static_files/serving.rs:212-214 | Splitting at the first dash, both ways |
| ByteRanges.HandlersAgree | src/handlers/static_files/serving.rs:198-241 | For every header, size and build, the two handlers decide alike exactly when the end is not garbage, no satisfiable start exceeds its end and, where underflow is checked, the file is not empty under an open end |
| ByteRanges.BothFollowTheStandard | src/handlers/static_files/serving.rs:350-395 | For a valid range of a non-empty file both answer 416 exactly from the size on and otherwise serve up to the last byte there is, as section 14.1.2 of RFC 9110 has it |
| ByteRanges.HandleRangeStreaming | src/handlers/static_files/serving.rs:198-274 | 400, 404, 416 or 206 as decided. What a client reads from a 206: positions, a size and a length such that the body is exactly those positions of the file, the length is theirs and the size is the file's; from a 416: the size. A valid range of a non-empty file is answered with the positions it asks for, up to the last byte there is |
| ByteRanges.HandleRangeSmallFile | src/handlers/static_files/serving.rs:350-408 | The same for the handler in memory, also for the response without a byte that wrapped arithmetic leads to |
| ByteRanges.PositionsRead | src/handlers/static_files/serving.rs:259 | Reading the Content-Range of a response gives the first and last position and the size it was written for, within 64 bits |
| ByteRanges.SizeRead | src/handlers/static_files/serving.rs:239 | Reading the Content-Range of a 416 gives the size alone |
| ByteRanges.RangesTile | src/handlers/static_files/serving.rs:243-252 | Contiguous ranges put together are the file, whichever handler answers each |
| ByteRanges.GarbageEndIsServedWhole | src/handlers/static_files/serving.rs:222-231 | `bytes=0-x` of ten bytes is served whole by one handler and refused by the other |
| MemoryStorage.Memory.Rename | src/storage/backend/memory.rs:313-334 | A rename moves a file's bytes, or else a bare directory entry, or else fails and changes nothing |
| MemoryStorage.Memory.Delete | src/storage/backend/memory.rs:103-127 | A delete removes a file, or else a directory with all below it, or else fails and changes nothing |
| MemoryStorage.Memory.SeekRead | src/storage/backend/memory.rs:73-84 | The bytes from the offset on, none at or past the end |
| MemoryStorage.RenameThereAndBack | src/storage/backend/memory.rs:313-334 | Renaming a file to a free path and back is the identity on the whole storage |
| MemoryStorage.DeletedExactly | src/storage/backend/memory.rs:103-127 | A delete touches nothing outside the deleted path |
| TrashProtocol.NextKeepsInv | src/handlers/media/trash.rs:110-346 | Every atomic step of any interleaved handlers keeps each item's bytes at exactly one of its two paths |
| TrashProtocol.NoBytesLost | src/handlers/media/trash.rs:110-346 | In every state of every run, each item not permanently deleted has its original bytes at exactly one of its live and trash paths |
| TrashProtocol.MediaTrash.HandleDelete | src/handlers/media/trash.rs:281-346 | Trashing alone does what its outcome function says, in storage and in the row, its failures included |
| TrashProtocol.MediaTrash.HandleRestore | src/handlers/media/trash.rs:110-167 | The same for restoring |
| TrashProtocol.MediaTrash.HandlePermanentDelete | src/handlers/media/trash.rs:216-272 | The same for permanent deletion |
| TrashProtocol.MediaTrash.HandleEmpty | src/handlers/media/trash.rs:177-207 | Emptying tries to delete every trashed row whose id is handed out as text, counts each attempt, keeps the rows whose delete is refused, and leaves storage alone |
| TrashProtocol.EmptiesExactly | src/handlers/media/trash.rs:177-207 | No trashed row is left exactly when every one has a text id and no delete is refused |
| TrashProtocol.CountsExactly | src/handlers/media/trash.rs:186-194 | The count is the number of rows gone exactly when no delete is refused |
| TrashProtocol.NumberedRowsStay | src/handlers/media/trash.rs:187 | With numbers for ids nothing is deleted and nothing is counted |
| TrashProtocol.SoloReaches | src/handlers/media/trash.rs:110-346 | Where a handler that runs alone stands after each of its steps |
| TrashProtocol.RetryRecovers | src/handlers/media/trash.rs:110-346 | From any intermediate world a repeated operation ends where the uninterrupted one would have |
| TrashProtocol.CrashThenRetry | src/handlers/media/trash.rs:110-346 | A crash after any number of steps, then the same operation again: the state of an uninterrupted run, which is also what a completed run reaches |
| TrashProtocol.TrashThenRestore | src/handlers/media/trash.rs:110-167 | Trash then restore is the identity on the row, and on the files exactly when both are done by the same subject |
| TrashFlags.UndisturbedOperationAgrees | src/handlers/media/trash.rs:110-346 | After an operation by the item's subject that ran undisturbed, the row is marked trashed exactly where the bytes are if and only if the operation succeeded or the row was right before; a failed one changes nothing |
| TrashFlags.FinishedHandlerAgrees | src/handlers/media/trash.rs:110-346 | The same over the steps of a lone handler that has halted |
| TrashFlags.OverlapAgreesExactly | src/handlers/media/trash.rs:110-346 | For one trash and one restore of an item, interleaved step by step with each other and with any handlers of other items: once both have finished, flag and bytes agree if and only if the one that got past its files last is the one that wrote its row last |
| TrashFlags.OverlapFromTrash | src/handlers/media/trash.rs:134-160 | From bytes in the trash: if and only if the trash looked for the live file after the restore's move exactly when it wrote its row after the restore did |
| TrashFlags.OverlapFromLiveRow | src/handlers/media/trash.rs:110-346 | From a row that says live, every such run ends in agreement |
| TrashFlags.TrashInsideRestore | src/handlers/media/trash.rs:146-160 | From every intact item with bytes in the trash and a row that says so, some run of the two ends with both done, the row live and the bytes in the trash |
| TrashFlags.RestoreInsideTrash | src/handlers/media/trash.rs:317-333 | From the same start, another run ends with both done, the row trashed and the bytes live |
| StoreChanges.ComparisonIsIdentity | src/server/state.rs:598-634 | Two store configurations compare equal exactly when backend, root and bucket or container agree |
| StoreChanges.ComparisonIsEquivalence | src/server/state.rs:598-634 | The comparison is reflexive, symmetric and transitive |
| StoreChanges.ComparisonVersusDocumentation | src/server/state.rs:592-634 | It agrees with its documentation exactly when backend, root or place differ anyway, or the account names or project ids are equal |
| StoreChanges.AccountChangeGoesUnnoticed | src/server/state.rs:618-625 | Two configurations that it should tell apart and does not |
| StoreChanges.AscendingListingIsUnique | src/server/state.rs:585-589 | The sorted, deduplicated list is the only one of its set, so it does not depend on hash order |
| StoreChanges.ComputeStoreChanges | src/server/state.rs:557-590 | The two lists partition the union of old and new names into the kept ones and the rest, without repetition |
| StoreChanges.RebuildStores | src/server/reload.rs:168-204 | Succeeds exactly when every store to create can be created; then unchanged stores keep their instance and every other one is new and distinct |
| StoreChanges.BuildStoresFromConfig | src/server/state.rs:518-550 | At startup one store per configured name, or a single default store |
| StoreChanges.RebuiltNames | src/server/reload.rs:180-204 | The rebuilt map has the new names exactly when every kept store is live and no live store is unknown to both configurations |
| StoreChanges.RebuildMatchesConfig | src/server/reload.rs:168-204 | Live stores that match the old configuration become ones that match the new one, and exactly the kept names hold their old instance |
| StoreChanges.RebuiltSettings | src/server/reload.rs:183-200 | All settings are current exactly when every kept store was already opened with the new ones |
| StoreChanges.DefaultStoreLingers | src/server/state.rs:523-535 | The default store of a server started without stores stays in every map rebuilt from it unless it is configured by name |
| StoreChanges.ChainedRebuildsFollowConfig | src/server/reload.rs:168-204 | Over any run of rebuilds that each start from the last map, the map follows the configuration |
| StoreChanges.InstanceSurvives | src/server/reload.rs:180-204 | A store is the same instance at two points of such a run exactly when every reload between kept it |
| StoreChanges.ReloadFromStartupStores | src/server/reload.rs:168-218 | What a later reload builds from the startup stores matches the new configuration exactly when the startup names are known to it and each kept store was configured alike at startup |
| StoreChanges.AddedStoreIsLost | src/server/reload.rs:217-218 | A store added by one reload is missing from the map the next one builds |
| Reload.RunKeepsInv | src/server/reload.rs:92-246 | Every state of every interleaving keeps lock exclusion, the swap log, the hand-over of pools, the swapped values, the registry and the count of closings consistent |
| Reload.NextKeepsInv | src/server/reload.rs:206-242 | Each step of any reload or reader keeps that invariant |
| ReloadProperties.ReadersSeeOneGeneration | src/server/reload.rs:206-220 | Whoever holds a read lock on configuration, pools or store configurations finds all three of one generation, the newest |
| ReloadProperties.TripleIsNewestSwap | src/server/reload.rs:206-220 | Outside a swap the three values are those of the newest reload that swapped |
| ReloadProperties.FailureBeforeSwapLeavesNoTrace | src/server/reload.rs:92-204 | A reload is recorded exactly when it got past the swap; one that failed before it appears in none of the shared values |
| ReloadProperties.PoolsHandedOverOnce | src/server/reload.rs:212 | Each replaced generation of pools is held by exactly one reload, the one that followed it |
| ReloadProperties.PoolsClosedAtMostOnce | src/server/reload.rs:141-164 | No pools are closed twice, and the current ones never |
| ReloadProperties.PoolsClosedExactly | src/server/reload.rs:141-246 | New pools are closed by their own reload exactly when a migration step failed, and replaced ones exactly when the reload that replaced them rebuilt the registry and finished |
| ReloadProperties.RegistryFollowsConfig | src/server/reload.rs:222-240 | When every reload is over, the registry belongs to the current configuration unless the newest reload failed to rebuild it |
| ReloadProperties.ContextLookup | src/server/state.rs:394-431 | A pool and a table configuration looked up one after the other are of one generation exactly when no swap fell between, and the table configuration is never the older one |
| ReloadProperties.StoresStayFromStartup | src/server/reload.rs:217-218 | The store map a handler works with belongs to the current store configurations only before the first swap, unless it is the reload itself past its own assignment |
| ReloadProperties.OnlyOwnStoresChange | src/server/reload.rs:217-218 | A reload assigns the rebuilt stores to its own copy of the state; every other handler works with the startup stores |
| ReloadProperties.RolesStayFromStartup | src/server/state.rs:286 | Role inheritance is that of the startup configuration in every reachable state, the current one only before the first swap |
| ReloadProgress.NoDeadlock | src/server/reload.rs:208-226 | As long as some handler has not finished, some handler needs no lock for its next step, or there is a lock that is waited for and every one of its waiters can take its step, reader or writer; so no queueing order blocks them all |
| ReloadProgress.RunsAreBounded | src/server/reload.rs:92-261 | No run is longer than the steps its handlers had to take at the start |
| ReloadProgress.SplitLookupAndFailedRebuild | src/server/reload.rs:227-239 | A reachable state with a split lookup and a failed rebuild that has swapped, kept the old registry and closed nothing |
| ReloadHandler.AppState.HandleReload | src/server/reload.rs:68-261 | One reload alone: nothing shared changes up to the swap, everything is of the new configuration past it, which pools are closed, and the store map it builds and drops |

## Left out

- HTTP, routing, middleware wiring, TLS, CORS, logging and the proxy: library wrappers.
- Native, S3, Azure and GCS storage and the database pool: network and operating-system calls; a database is a map of schemas or rows, storage is the in-memory backend.
- Authentication validators, OAuth2, password hashing and the revocation stores: foreign code.
- Image resizing, YAML and JSON parsing, globbing and environment-variable interpolation: parsed trees, and the sorted list of files that each pattern matches, are given.
- Tagged YAML values and complex mapping keys.
- DDL text, SQL type names, index-name collisions, a database that refuses to drop a key or a referenced column: a statement is a value, and succeeds as its column, table and index preconditions say.
- TableValidation.ValidateTables: does not model the JSON-schema checks of a column.
- Media-column enforcement (`src/db/migration.rs:708`).
- MigrationProperties.TableOutcome: compares column and table names with case, as PostgreSQL does for quoted names; MySQL and SQLite fold it, so a configured `name` beside an existing `Name` is rejected there although the model accepts it.
- MigrationProperties.RunOutcome: compares names with case, like the outcome of one table.
- MigrationProperties.ValidatedMigration: compares names with case, like the outcome of one table.
- IncludeExpansion.TreeMeaning: needs parsed mappings to have distinct keys, as the YAML parser sees to.
- NamedFilters.NamedListSelects: is about columns that are plain names, path segments without dots, brackets, `>` and line feeds, and filters that the database reads as written; the exact conditions for other keys are those of `FilterReadsExactly` and `AdmittedColumn`.
- SelectPaging.BuildListPage: needs an offset below 2^64; the product overflows otherwise.
- ByteRanges.PositionsRead: needs positions and sizes below 2^64, the range of the numbers that the code prints.
- RateLimiter.Limiter.CheckRateLimit: counters are unbounded where the code has 64 bits, the key is given where the code extracts it from headers, and instants do not decrease in lock order.
- RateLimiter.AnchoredWindowBound: needs a window of at least one second, since a window of zero length anchors at every request.
- SelectQuery.SelectBuilder.InterpolateWhereClause: the clause comes cut at its keys.
- SelectQuery.SelectBuilder.ApplySorting: the ORDER BY text is given; it adds no condition and no parameter.
- SqlText.ReadsBackExactly: the reader knows single-quoted literals; quoted identifiers, comments, dollar quoting and NUL characters are not part of it, and backslashes escape on MySQL only, as in the default modes.
- PathText.PathReadsExactly: in a MySQL path every character from 128 up counts as a letter; a path with steps of other kinds counts as not read.
- SelectReading.FilterReadsExactly: a plain name is one that needs no quotes by its characters; reserved words and case folding are not part of it.
- SelectMeaning.AcceptsWhatWasAsked: how a database decides a comparison, a containment or a clause is a parameter, as are the text a column shows to LIKE and what a number, a truth value or a SQLite document makes of a string.
- SelectMeaning.TextFilterExactly: characters are compared one by one under any folding that tells `_` from `a` and `%` from the backslash; that PostgreSQL refuses LIKE on columns that are no text is not part of it.
- SelectMeaning.CountSelectsTheSameRows: is about the conditions; a count has no joins, so an inner join can still make a list shorter than its count.
- Pagination.PagesTile: needs a page size of at least 1, and rows that number at most 2^63 - 1; `ZeroPageSize` says what happens otherwise.
- ByteRanges.HandleRangeStreaming: the file does not change between reading its size and its bytes.
- ByteRanges.HandlersAgree: suffix ranges are malformed for both handlers.
- TrashProtocol.NoBytesLost: needs relative paths that are not nested in each other or with the trash prefix, one acting subject per item, and no other writer on those paths; the time of trashing is a yes or no.
- TrashFlags.OverlapAgreesExactly: is about runs in which nobody else acts on the item and nobody empties the trash.
- TrashProtocol.CrashThenRetry: is about one item whose handler runs alone until the crash.
- The media trash listing, and the file-store trash, whose delete and restore use different prefixes (`src/handlers/file_store/delete.rs:44`, `src/handlers/file_store/trash.rs:123`).
- Reload.RunKeepsInv: a generation stands for a configuration, its pools and its store configurations; their contents are in the other modules. Endpoint routes and the revocation store are not touched by a reload and not in the state.
- The remaining configuration validators: flat per-field checks.
