# Verified models of the cn-infra kernels

This project models, in Dafny, the parts of the infrastructure library that keep state or compute
something easy to get wrong, and proves what they promise. `dafny verify dfyconfig.toml` checks all of
it. Code that works in place is modelled by classes, arrays and loops and proved against specification
functions; the properties of those functions are lemmas.

| module | models |
|---|---|
| `UintParser`, `MacAddress` | the overflow-checked integer parser of the logger, and the MAC address printer it inverts |
| `AddrDiff` | sorting and merging two address lists into an exact difference |
| `NamedMapping`, `CacheHelper` | the indexed in-memory mapping, its watchers, and the feeder that makes it mirror a key-value store |
| `SqlExpression`, `CqlVisitor`, `CqlAlignment`, `StructFields`, `CqlStatements` | SQL expression trees, the visitor that renders them, the field filters, and the alignment of placeholders with bindings in whole statements |
| `CqlCondition`, `CqlGrammar`, `CqlMeaning`, `CqlMixture`, `CqlWhere` | the meaning of conditions after a round trip through text, under the precedence of SQL and in CQL, and exactly when there is one |
| `CqlReader`, `CqlPut`, `CqlSelect`, `CqlExample` | what is read of whole UPDATE and SELECT statements, and one of them letter by letter |
| `KafkaMux` | the subscription table whose entries are deleted from a slice while it is ranged over |
| `RedisIterator` | the paged SCAN iterators over keys and over key-value pairs |
| `Transactions` | a transaction as a map with last write wins, and as a replayed list |
| `Revisions`, `SharedHistory`, `DoneAggregation` | previous values and revisions of change events; the acknowledgement protocol over a bounded channel, in every interleaving |
| `StatusCheck` | the aggregation of plugin states into an agent state, over every run |
| `Flavors`, `FlavorPaths` | flattening nested flavors, and the result once more by the paths through their fields |
| `AgentLifecycle` | the call trace of Init, AfterInit and Close, and what comes back |

`Wrappers` holds `Option`. Lemmas carry `{:induction false}`: no proof rests on the induction that the
verifier tries by itself.

## Where the code and its documentation differ

The models follow the code. Each point is a lemma or part of a contract; where a property holds only
under a condition, the condition is exact.

- `CacheHelper.DoChange` shadows the error of `ParseName` and always returns nil
  (idxmap/mem/cache_helper.go:45-54). The cache mirrors the store over all runs of changes exactly if
  `ParseName` is injective (`CacheHelper.MirrorsIffInjective`). `DoResync` deletes no stale name; over runs
  with resyncs, and an injective `ParseName`, the mirror holds throughout exactly if no snapshot lacks a
  parsable key that the store had (`CacheHelper.MirrorsThroughoutIff`).
- A failed Init closes every listed plugin, not only the initialised ones (core/agent_core.go:271-306,
  `AgentLifecycle.FailedInitClosesOthersToo`), and an error of Close then replaces the one of Init
  (`AgentLifecycle.CauseIsReportedIff`). No error of Init or AfterInit is returned as it is: both are
  formatted into new ones (`AgentLifecycle.OnlyCloseErrorsAreAsIs`). On the ordinary stop, a plugin whose
  value safeclose cannot handle is not closed (`AgentLifecycle.AllClosedIff`).
- The aggregated `Inject` stops at the first flavor that returns true (core/list_flavor_plugin.go:201-207,
  `Flavors.AllInjectedIffOnlyLastFirst`).
- Deleting from the subscription table while ranging over it is wrong on some tables, and panics on others
  (`KafkaMux.SweepIsRightIffSparse`); the methods that add entries never let such a table come about.
  `ConsumePartition` can be called after the start, which its comment rules out. Consuming a topic again
  replaces the callback but not the owner, and `Start` leaves its flag set when it fails.
- The acknowledgement channel holds five: with more events an acknowledgement can be lost, and then `done`
  is never reported (`DoneAggregation.LossPossibleIffMoreThanCapacity`,
  `DoneAggregation.LostAckIsNeverReported`).
- A later Init report of one plugin hides the ERROR of another (`StatusCheck.InitReportHidesError`;
  `StatusCheck.ErrorShowsUnlessInitReported` says exactly when).
- `PropagateChanges` advances the revision of a key once per matching prefix, and tells only the first match
  of a deleted key what was deleted (`Revisions.EveryMatchBumps`, `Revisions.FirstMatchDeletes`). The events
  of a key are right exactly if at most one registered prefix matches it, or it is a delete of something not
  stored (`Revisions.EventsRightIff`).
- Watchers of one adapter share a history: with overlapping prefixes the second is told its own value as the
  previous one (`SharedHistory.PreviousValuesRightIff`).
- `PutExpToString` returns a nil error always. Its statement is an UPDATE exactly if some column is set,
  every field of the condition has a column and every operator has its usual spelling
  (`CqlPut.PutIsUpdateIff`); an entity with nothing but a key has no UPDATE (`CqlPut.KeyOnlyIsNoUpdate`).
  `SelectExpToString` loses the same error (`CqlSelect.SelectIsReadIff`), and writes ALLOW FILTERING for
  names like BRAND (`CqlSelect.FilteringIsRightIff`). `Delete` returns the error and executes nothing.
  Bindings given to `SELECT` can never be placed (`CqlAlignment.SelectFillsIffNoBinding`).
- A field that is a pointer or an interface is never found (`CqlVisitor.FindField`). Among the set fields, a
  nil interface is a panic, and so is a field whose name starts with an underscore
  (`StructFields.PanicsIff`). A structure cannot be scanned into again once a slice or map of it has a value
  (`StructFields.ReusableIff`).
- GTE and LTE are spelled `=>` and `=<`: a condition with one of them cannot be read
  (`CqlMeaning.UsualReadsIff`). CQL reads no OR and no parentheses, so of the conditions that can be built
  only single relations (`CqlWhere.CqlReadsIff`), and of lists those with nothing but AND
  (`CqlWhere.CqlListReadsIff`). `OR` of two operands is parenthesised although its comment
  says otherwise, and the second example there, which has no keyword before it, is not read at all
  (`CqlMixture.MissingKeyword`).
- `stopConsumingPartition` means to close a partition consumer (messaging/kafka/mux/multiplexer.go:361) but
  hands safeclose a pointer to an interface, which closes nothing.
- `MacIntToString` panics from 2^48 up to 2^64 - 2^44 and prints a minus sign beyond
  (`MacAddress.AddressExactlyBelow48Bits`, `MacAddress.PrintedWidth`).
- The previous value of a pair from the Redis iterator is not one that the key had, but the value of the key
  listed before it on the page (`RedisIterator.PrevValueIsOfNeighbour`).

## Model

| member | source | states |
|---|---|---|
| `UintParser.ParseUintBytes` | logging/logrus/logger.go:576-660 | for every byte string, base and size: the value comes back exactly when all bytes after the prefix are digits and the unbounded number they spell fits; otherwise ErrSyntax, ErrRange or the invalid-base error, each with the value and the input the code attaches |
| `UintParser.ScanDigits` | logging/logrus/logger.go:617-656 | the wrapped 64-bit loop: a value is the true positional value within the bound; the error is the one that is met first |
| `UintParser.AnswerIsExact` | logging/logrus/logger.go:576-660 | each of the four outcomes is given on exactly the inputs that call for it, and there is only one right answer |
| `UintParser.OneOutcome` | logging/logrus/logger.go:617-656 | fitting, overflowing and malformed inputs exclude each other and cover everything |
| `UintParser.CutoffIsExact` | logging/logrus/logger.go:662-668 | the cutoff is the least n for which n*base leaves 64 bits, for every base |
| `UintParser.GuardsAreExact` | logging/logrus/logger.go:641-654 | one turn: the two guards on wrapped numbers fire exactly when the exact number exceeds the bound, and else nothing wraps |
| `UintParser.MaxValIsBound` | logging/logrus/logger.go:615 | the wrapped (1<<bitSize)-1 is that bound |
| `UintParser.ValueGrows` | logging/logrus/logger.go:641-654 | more digits never lower the value, so an early exit on overflow is final |
| `UintParser.DigitsInOrder` | logging/logrus/logger.go:620-627 | the k-th of 0-9a-z has digit k, letters in either case |
| `UintParser.ValueFromFront` | logging/logrus/logger.go:641-654 | read from the front, every digit counts with the power of its place |
| `UintParser.Prefixes` | logging/logrus/logger.go:584-611 | base 0 takes 0x and 0X for sixteen, any other leading 0 for eight and else ten; other bases take all bytes as digits |
| `UintParser.BoundOfSizes` | logging/logrus/logger.go:615 | the largest values of 8, 16, 32 and 64 bits, and of the sizes that count as 64 |
| `MacAddress.MacIntToString` | utils/addrs/mac.go:9-22 | the printed text for every 64-bit number, and the numbers on which the slice bound panics |
| `MacAddress.WriteWithColons` | utils/addrs/mac.go:13-20 | the loop inserts a colon after every second character but the last |
| `MacAddress.AddressExactlyBelow48Bits` | utils/addrs/mac.go:9-22 | the result is an address xx:xx:xx:xx:xx:xx if and only if the number is below 2^48 |
| `MacAddress.PrintedWidth` | utils/addrs/mac.go:10-12 | the hexadecimal text outgrows twelve characters exactly between 2^48 and 2^64-2^44 |
| `MacAddress.FormatHexLength` | utils/addrs/mac.go:10 | a number has at most k hex digits exactly when it is below 16^k |
| `MacAddress.ParseUndoesPrint` | utils/addrs/mac.go:9-22 | reading the digits back in base 16 with the integer parser gives the number, for all 48-bit numbers |
| `MacAddress.PrinterIsInjective` | utils/addrs/mac.go:9-22 | two 48-bit numbers never print alike |
| `AddrDiff.DiffAddr` | utils/addrs/ip.go:47-82 | as multisets of (IP, mask): added is exactly new without old, deleted exactly old without new; so swapping the arguments swaps the results; both lists of the caller end up sorted |
| `AddrDiff.Merge` | utils/addrs/ip.go:55-82 | the index loops compute the change the reference recursion Rest gives |
| `AddrDiff.MergeIsDifference` | utils/addrs/ip.go:55-82 | on sorted lists that change is the exact multiset difference in both directions |
| `AddrDiff.RestSettles` | utils/addrs/ip.go:55-82 | the change balances both sides and names no address on both |
| `AddrDiff.DifferenceIsMinimalChange` | utils/addrs/ip.go:45-82 | old - deleted + added = new, nothing is both, every other change that leads from old to new contains this one, and no other disjoint change does |
| `AddrDiff.LessAddrIsStrictTotalOrder` | utils/addrs/ip.go:33-43 | irreflexive, transitive, total, with ties exactly the equal addresses |
| `AddrDiff.CompareIsTotal` | utils/addrs/ip.go:37-43 | byte comparison orders any two strings, and its ties are equalities |
| `AddrDiff.CompareIsTransitive` | utils/addrs/ip.go:37-43 | byte comparison is transitive |
| `AddrDiff.Sort` | utils/addrs/ip.go:48-53 | the list becomes ordered, as a permutation of what it was, through Len, Less and Swap |
| `AddrDiff.Swap` | utils/addrs/ip.go:22-24 | exchanges two positions and nothing else |
| `NamedMapping.MemNamedMapping.constructor` | idxmap/mem/inmemory_name_mapping.go:56-66 | an empty mapping, in agreement with its indexes |
| `NamedMapping.MemNamedMapping.Put` | idxmap/mem/inmemory_name_mapping.go:70-75 | primary map updated, indexes still agree with a filter over it, every watcher told once, and replaying what a watcher received gives the current map |
| `NamedMapping.MemNamedMapping.Delete` | idxmap/mem/inmemory_name_mapping.go:78-85 | the same for a delete; a delete of an absent name changes and publishes nothing |
| `NamedMapping.MemNamedMapping.GetValue` | idxmap/mem/inmemory_name_mapping.go:93-102 | lookup in the primary map |
| `NamedMapping.MemNamedMapping.ListAllNames` | idxmap/mem/inmemory_name_mapping.go:105-116 | every name once |
| `NamedMapping.MemNamedMapping.ListNames` | idxmap/mem/inmemory_name_mapping.go:120-135 | a secondary lookup gives exactly the names a filter over the primary map selects, each once |
| `NamedMapping.MemNamedMapping.Watch` | idxmap/mem/inmemory_name_mapping.go:139-147 | a taken name is refused and changes nothing |
| `NamedMapping.MemNamedMapping.UpdateIndexes` | idxmap/mem/inmemory_name_mapping.go:149-172 | posts the name of a new item under every value its index function lists, also values listed twice |
| `NamedMapping.MemNamedMapping.AddUnder` | idxmap/mem/inmemory_name_mapping.go:157-169 | one field of that: name sets are made on demand and stay separate objects |
| `NamedMapping.MemNamedMapping.RemoveIndexes` | idxmap/mem/inmemory_name_mapping.go:174-187 | takes the name out of exactly the sets its item was posted in |
| `NamedMapping.MemNamedMapping.PutNameToIdx` | idxmap/mem/inmemory_name_mapping.go:205-214 | an overwritten item leaves the indexes before the new one enters |
| `NamedMapping.MemNamedMapping.RemoveNameIdx` | idxmap/mem/inmemory_name_mapping.go:189-197 | removes item and postings |
| `NamedMapping.MemNamedMapping.Publish` | idxmap/mem/inmemory_name_mapping.go:223-263 | every subscriber gets the event once, in any order |
| `NamedMapping.MemNamedMapping.QueryAfterChange` | idxmap/mem/inmemory_name_mapping.go:120-135 | what one change of the primary map does to a filter over it |
| `NamedMapping.MemNamedMapping.StillInformed` | idxmap/mem/inmemory_name_mapping.go:223-263 | appending the event of a change keeps the replay property for all watchers |
| `NamedMapping.NameSet.Add` | idxmap/mem/inmemory_name_mapping.go:274-276 | set insertion |
| `NamedMapping.NameSet.Remove` | idxmap/mem/inmemory_name_mapping.go:278-280 | set removal |
| `NamedMapping.NameSet.Content` | idxmap/mem/inmemory_name_mapping.go:287-293 | the members, each once, in some order |
| `CacheHelper.CacheHelper.DoChange` | idxmap/mem/cache_helper.go:37-57 | a put sets the parsed name to the value, a delete removes it, all other names keep what they had; and the error is always nil |
| `CacheHelper.LastChangeDecides` | idxmap/mem/cache_helper.go:37-57 | the store a run of changes leaves has a key exactly if the last put or delete of it is a put, with the value of that put |
| `CacheHelper.CacheHelper.DoResync` | idxmap/mem/cache_helper.go:59-94 | the parsed snapshot is laid over the old contents; the error is nil exactly if every key parses, else that of the last key that does not |
| `CacheHelper.CacheHelper.Fill` | idxmap/mem/cache_helper.go:74-82 | one snapshot item |
| `CacheHelper.Run` | idxmap/mem/cache_helper.go:40-57 | the mapping object after any run of changes from empty |
| `CacheHelper.InjectiveRunMirrors` | idxmap/mem/cache_helper.go:37-57 | after every run the cache is the store restricted to parsable keys and renamed |
| `CacheHelper.CollisionBreaksMirror` | idxmap/mem/cache_helper.go:40-57 | two keys of one name break this |
| `CacheHelper.MirrorsIffInjective` | idxmap/mem/cache_helper.go:37-57 | the mirror property holds for all runs if and only if ParseName is injective on what it accepts |
| `CacheHelper.LookupAnswersForStore` | idxmap/mem/cache_helper.go:37-57 | a secondary lookup in a mirroring cache answers as the same query on the store |
| `CacheHelper.RunEvents` | idxmap/mem/cache_helper.go:37-94 | the mapping object after any run of changes and resyncs from empty |
| `CacheHelper.ResyncMirrorsIff` | idxmap/mem/cache_helper.go:59-94 | a resync leaves a mirror of the store its snapshot is of if and only if the snapshot still has every key that parses |
| `CacheHelper.MirrorsThroughoutIff` | idxmap/mem/cache_helper.go:37-94 | over every run of changes and resyncs the cache mirrors the store after every event if and only if no resync snapshot lacks a parsable key that the store had |
| `CacheHelper.SnapshotMirrors` | idxmap/mem/cache_helper.go:74-82 | the parsed snapshot mirrors the store it is of |
| `SqlExpression.IntelligentOperator` | db/sql/sql_expression.go:179-197 | the loop gives the bare operator, the infix fragment or the parenthesised operands with the operator between neighbours |
| `CqlVisitor.ToStringVisitor.Accept` | db/sql/cassandra/query.go:89-146 | the visitor appends exactly the rendering of the expression to text, bindings and error |
| `CqlVisitor.ToStringVisitor.VisitPrefixedExp` | db/sql/cassandra/query.go:101-122 | prefix or table name, operands, suffix, then own bindings, FROM without any |
| `CqlVisitor.ToStringVisitor.VisitFieldExpression` | db/sql/cassandra/query.go:125-146 | column and what follows it, or one of three errors and no text |
| `CqlVisitor.FindField` | utils/structs/structs_reflection.go:23-52 | the field a pointer points to; fields that are pointers or interfaces are never found |
| `CqlVisitor.ErrorFreeIff` | db/sql/cassandra/query.go:125-146 | rendering reports an error if and only if some field of the expression has no column |
| `CqlVisitor.FieldRendered` | db/sql/cassandra/query.go:125-170 | a field expression gives the cql tag, or the name without a tag, of the field its pointer is the address of, and what follows; or one of three errors, each for exactly its cause, and nothing else |
| `CqlAlignment.PlaceholdersLineUp` | db/sql/cassandra/query.go:101-146 | for every expression that is in place, also with unresolved fields: replacing the placeholders of the text by the bindings left to right gives the template in which each has the value it was written for |
| `CqlAlignment.FillIsPositional` | db/sql/cassandra/query.go:83-98 | the k-th placeholder receives the k-th binding and the rest of the text stays |
| `CqlAlignment.FillsIffCountsAgree` | db/sql/cassandra/query.go:83-98 | a text can be filled if and only if it has as many placeholders as bindings |
| `CqlAlignment.FillOfSum` | db/sql/cassandra/query.go:101-122 | text and bindings of two parts stay aligned side by side |
| `CqlAlignment.RawInPlaceIff` | db/sql/sql_expression.go:144-146 | a raw Exp is in place if and only if it brings one binding per placeholder |
| `CqlAlignment.ComparisonInPlace` | db/sql/sql_expression.go:232-254 | comparisons are in place |
| `CqlAlignment.InInPlace` | db/sql/sql_expression.go:263-266 | IN is in place |
| `CqlAlignment.JunctInPlace` | db/sql/sql_expression.go:159-197 | AND and OR keep their operands in place |
| `CqlAlignment.ParenthesisInPlaceIff` | db/sql/sql_expression.go:257-259 | parentheses are in place if and only if what is inside is |
| `CqlAlignment.FieldInPlaceIff` | db/sql/sql_expression.go:204-219 | a field expression is in place if and only if its operand is |
| `CqlAlignment.FromInPlaceIff` | db/sql/sql_expression.go:126-128 | FROM is in place if and only if what follows is |
| `CqlAlignment.WhereInPlaceIff` | db/sql/sql_expression.go:131-133 | WHERE is in place if and only if its conditions are |
| `CqlAlignment.DeleteInPlaceIff` | db/sql/sql_expression.go:136-138 | DELETE is in place if and only if what follows is |
| `CqlAlignment.SelectFillsIffNoBinding` | db/sql/sql_expression.go:119-121 | a SELECT over something in place can be filled if and only if it is given no bindings of its own |
| `StructFields.FieldExported` | utils/structs/structs_reflection.go:74-88 | exported name and all predicates |
| `StructFields.ListExportedFields` | utils/structs/structs_reflection.go:55-68 | the fields that pass, in order |
| `StructFields.ListExportedFieldsPtrs` | utils/structs/structs_reflection.go:91-136 | the fields that pass, in the order of the structure, each with a value that leads to it: its address, by which it is found again, or what it holds, a new value if it was a nil pointer; no other field is touched; or the panic |
| `StructFields.TargetOf` | utils/structs/structs_reflection.go:104-129 | one field: the address, or the content, or the new content of that very field |
| `StructFields.PanicsIff` | utils/structs/structs_reflection.go:104-128 | the listing panics if and only if a field passes that is a nil interface or that Go does not export |
| `StructFields.UnderscorePanics` | utils/structs/structs_reflection.go:74-75 | a field whose name starts with an underscore passes for exported and makes the listing panic |
| `StructFields.ListingAgain` | utils/structs/structs_reflection.go:91-136 | listing a second time binds the same values and changes nothing, for filters on tags |
| `StructFields.ListingAgainInStatements` | db/sql/cassandra/query.go:28-47 | so for both filter chains of the statements |
| `StructFields.ReusableIff` | db/sql/cassandra/cassa_broker_impl.go:102-112 | a structure that takes one row takes the next one if and only if none of its slices and maps got a value |
| `StructFields.PassesBoth` | db/sql/cassandra/query.go:149-194 | the tag filters together with the exported name say exactly which fields have a column and are no key |
| `StructFields.SliceOfFieldNames` | db/sql/cassandra/query.go:219-230 | the columns of the fields that pass the primary-key filter |
| `StructFields.ColumnsOf` | db/sql/cassandra/query.go:221-227 | the columns of the fields that have one, in order |
| `StructFields.KeptExactly` | utils/structs/structs_reflection.go:55-68 | a field is kept exactly if it passes, as often as it is there |
| `StructFields.KeptInOrder` | utils/structs/structs_reflection.go:55-68 | the fields kept are those that pass, in the order in which they are declared |
| `StructFields.TargetsLeadToFields` | utils/structs/structs_reflection.go:91-136 | position by position, what is listed leads to the field that passes |
| `StructFields.ChainsAgree` | db/sql/cassandra/query.go:28-47 | two different filter chains, one for names and one for values, select the same columns in the same order |
| `StructFields.ColumnAt` | db/sql/cassandra/query.go:219-230 | the k-th column is that of the k-th field |
| `StructFields.ScanTargetsMatchColumns` | db/sql/cassandra/cassa_broker_impl.go:102-112 | the k-th target of a scan leads to a field of the structure whose column was selected k-th |
| `CqlStatements.PutExpToString` | db/sql/cassandra/query.go:28-47 | text, bindings and nil error of an UPDATE, and exactly when it panics. The first bindings lead, one by one, to exactly the fields with a column outside the key, in the order of the columns in SET; no other field is touched; and for every condition in place the whole statement fills to those assignments and the condition |
| `CqlStatements.PutBindsSetFields` | db/sql/cassandra/query.go:28-47 | columns from one filter chain and values from another belong, position by position, to the same fields of the entity |
| `CqlStatements.UpdateLinesUp` | db/sql/cassandra/query.go:28-47 | the proof of that across both filter chains, the visitor and the trimming |
| `CqlStatements.UpdateStatement` | db/sql/cassandra/query.go:260-285 | the SET list |
| `CqlStatements.AssignmentsLineUp` | db/sql/cassandra/query.go:260-285 | the k-th placeholder of the SET list is bound to the value of the k-th column's field |
| `CqlStatements.FillTrimmed` | db/sql/cassandra/query.go:46 | trimming does not shift a placeholder against its binding |
| `CqlStatements.FindEntityVisitor.Accept` | db/sql/cassandra/query.go:287-309 | the structure of the last outermost FROM |
| `CqlStatements.ExpToString` | db/sql/cassandra/query.go:73-81 | text, bindings and error of a statement with the entity of its own FROM, aligned |
| `CqlStatements.SelectExpToString` | db/sql/cassandra/query.go:50-70 | columns, clauses and ALLOW FILTERING; fillable |
| `CqlStatements.SelectFields` | db/sql/cassandra/query.go:197-215 | comma separated columns |
| `CqlStatements.SelectLinesUp` | db/sql/cassandra/query.go:50-70 | what a SELECT fills to |
| `CqlStatements.Delete` | db/sql/cassandra/cassa_broker_impl.go:70-76 | executed if and only if every field of the expression has a column, and then aligned |
| `CqlStatements.LastFromIsFound` | db/sql/cassandra/query.go:287-308 | of several FROMs in a list the last one decides, FROMs inside it do not count |
| `CqlReader.ReadsUpdate` | db/sql/cassandra/query.go:260-285 | an UPDATE text is read as its table, its columns and the clause after WHERE |
| `CqlReader.UnreadUpdate` | db/sql/cassandra/query.go:260-285 | without an assignment, or without a clause, it is not read |
| `CqlReader.ReadsSelect` | db/sql/cassandra/query.go:50-70 | a SELECT text is read as its columns, table, clause and ALLOW FILTERING |
| `CqlPut.PutIsUpdateIff` | db/sql/cassandra/query.go:28-47 | the statement, always returned with a nil error, is read as an UPDATE if and only if some column is set, every field of the condition has a column and every operator is one of the dialect; it is then of the right table, columns and condition |
| `CqlPut.CqlReadsPutIff` | db/sql/cassandra/query.go:28-47 | CQL reads it if and only if some column is set and the condition is a single relation |
| `CqlPut.PutReads` | db/sql/cassandra/query.go:28-47 | what is read of the statement for every condition |
| `CqlPut.PutBindingsMean` | db/sql/cassandra/query.go:28-47 | its bindings lead to the fields whose columns are set, in order; the others are those with which the condition means what it should |
| `CqlPut.KeyOnlyIsNoUpdate` | db/sql/cassandra/query.go:28-47 | an entity with nothing but a key: no UPDATE comes of it, and no error |
| `CqlPut.PutStatementText` | db/sql/cassandra/query.go:28-47 | the text of the statement for every condition, unresolved parts missing |
| `CqlPut.UnresolvedConditionIsLost` | db/sql/cassandra/query.go:28-47 | a condition on an unknown field leaves a bare WHERE, with a nil error |
| `CqlSelect.SelectIsReadIff` | db/sql/cassandra/query.go:50-70 | the statement, returned without an error, is read as a SELECT if and only if a column is selected, every field of the condition has a column and every operator is one of the dialect; it is then of the right columns, table and condition |
| `CqlSelect.CqlReadsSelectIff` | db/sql/cassandra/query.go:50-70 | CQL reads it if and only if a column is selected and the condition is a single relation |
| `CqlSelect.CqlReadsSelectListIff` | db/sql/cassandra/query.go:50-70 | a list of conditions with bare keywords if and only if they are relations with AND between them |
| `CqlSelect.FilteringIsRightIff` | db/sql/cassandra/query.go:66-68 | ALLOW FILTERING tells conjunctions from the rest if and only if there is one or no table or column name has the letters AND in it |
| `CqlSelect.ClausesHaveAndIff` | db/sql/cassandra/query.go:66-68 | when the letters AND are in the rendered clauses |
| `CqlSelect.BrandIsFiltered` | db/sql/cassandra/query.go:66-68 | a column named BRAND brings ALLOW FILTERING without a conjunction |
| `CqlSelect.ReturnedText` | db/sql/cassandra/query.go:50-70 | the text these are about is the one returned |
| `CqlExample.UserPut` | db/sql/cassandra/cassa_put_test.go:26-46 | for the structure User the statement is, letter by letter, the UPDATE the tests expect, bound to the addresses of first_name, last_name and id |
| `CqlExample.UserSets` | db/sql/cassandra/cassa_data_test.go:46-52 | of its five fields the key, the one without a column and the unexported one are not set |
| `CqlGrammar.ReadsOperator` | db/sql/sql_expression.go:232-254 | each operator is read back as itself if and only if the dialect spells it as the renderer does |
| `CqlGrammar.ReadsMarks` | db/sql/sql_expression.go:263-266 | the placeholders of IN are read back with their number |
| `CqlGrammar.ReadsChain` | db/sql/sql_expression.go:179-197 | operands joined by one keyword are one junction under SQL precedence |
| `CqlGrammar.NothingReads` | db/sql/sql_expression.go:179-197 | without an operand nothing is read at any level of precedence |
| `CqlCondition.RenderedCondition` | db/sql/cassandra/query.go:101-146 | text and values of every rendered condition, also with unresolved fields |
| `CqlCondition.ComparisonPiece` | db/sql/sql_expression.go:232-254 | what a comparison is rendered to |
| `CqlCondition.InPiece` | db/sql/sql_expression.go:263-266 | what IN is rendered to |
| `CqlCondition.BuiltInPlace` | db/sql/sql_expression.go:159-266 | every such condition is in place, also with unresolved fields |
| `CqlMeaning.ConditionMeansItself` | db/sql/sql_expression.go:159-197 | for every nested AND/OR condition with two or more operands: the rendered text parses under SQL precedence if and only if every field has a column and every operator is one of the dialect; it is then the tree that was built, and evaluated with the rendered bindings in order it is true of a row exactly when the condition is meant to be |
| `CqlMeaning.UsualReadsIff` | db/sql/sql_expression.go:232-254 | with the usual spellings of SQL the text is read as the condition that was built if and only if it uses no GTE and no LTE |
| `CqlMeaning.TextReadsIff` | db/sql/cassandra/query.go:101-146 | a rendered condition is read as itself or not at all, and exactly when |
| `CqlMeaning.ReadsPrimary` | db/sql/sql_expression.go:159-197 | whatever follows it, a readable condition is read back as itself |
| `CqlMeaning.ReadsOperands` | db/sql/sql_expression.go:179-197 | joined operands are read back as exactly those operands |
| `CqlMeaning.UnreadPrimary` | db/sql/sql_expression.go:159-197 | one unreadable part makes the whole condition unreadable |
| `CqlMeaning.EvaluatesToMeaning` | db/sql/cassandra/query.go:101-122 | placeholders that take the next binding give every leaf its own value |
| `CqlMeaning.SpareParentheses` | db/sql/sql_expression.go:153-155 | operands separated by one bare keyword are read if and only if each can be, and then like the nested form |
| `CqlMeaning.FieldEQMeansEquality` | db/sql/sql_expression.go:211-219 | FieldEQ is read in either dialect as the equality of the column its pointer belongs to, and selects a row exactly if that column equals what the pointer leads to |
| `CqlWhere.CqlReadsIff` | db/sql/sql_expression.go:159-266 | of the conditions that can be built CQL reads exactly the single relations with columns that exist, without GTE and LTE |
| `CqlWhere.CqlListReadsIff` | db/sql/sql_expression.go:150-175 | of the lists with bare keywords CQL reads exactly those of such relations with AND between them, and they select the rows for which all hold |
| `CqlMixture.MixedKeywords` | db/sql/sql_expression.go:150-175 | any conditions with any bare keywords between them are read if and only if each can be; then as an OR of the longest AND runs, and they mean that with the rendered bindings |
| `CqlMixture.ListedPiece` | db/sql/cassandra/query.go:108-112 | text and bindings of such a list |
| `CqlMixture.ReadsGroups` | db/sql/sql_expression.go:150-175 | its operands under OR are its AND runs |
| `CqlMixture.UnreadGroups` | db/sql/sql_expression.go:150-175 | one part that cannot be read makes the list unreadable |
| `CqlMixture.OneOperandIsInfix` | db/sql/sql_expression.go:179-197 | anywhere in any list, AND or OR of one operand is rendered like the bare keyword followed by the operand |
| `CqlMixture.InfixReadsAlike` | db/sql/sql_expression.go:150-197 | a list a, AND(b) is read if and only if a and b can be, and then as a AND b |
| `CqlMixture.MissingKeyword` | db/sql/sql_expression.go:172-197 | against the second example for OR, a condition with a junction right behind it is not read at all |
| `KafkaMux.RangeAndDelete` | messaging/kafka/mux/multiplexer.go:333-343 | the loop that shifts a slice in place while ranging over it leaves, or panics, exactly as Sweep says |
| `KafkaMux.Visit` | messaging/kafka/mux/multiplexer.go:335-338 | one turn of that loop |
| `KafkaMux.DeleteAt` | messaging/kafka/mux/multiplexer.go:337 | append(s[:i], s[i+1:]...) on the shared backing array |
| `KafkaMux.SweepShortensIffMatch` | messaging/kafka/mux/multiplexer.go:333-343 | the table gets shorter exactly when something matches |
| `KafkaMux.SweepIsRightIffSparse` | messaging/kafka/mux/multiplexer.go:333-343 | on an arbitrary table the loop removes exactly the matching entries if and only if no two neighbours match and a matching last entry is the only one |
| `KafkaMux.UniqueIsSparse` | messaging/kafka/mux/multiplexer.go:328-369 | tables without duplicate slots are of that kind |
| `KafkaMux.UniqueLosesOne` | messaging/kafka/mux/multiplexer.go:328-369 | then one entry goes and the others keep their order |
| `KafkaMux.Multiplexer.StopConsuming` | messaging/kafka/mux/multiplexer.go:328-344 | removes exactly the entry of topic and owner, error if and only if there was none, never a panic |
| `KafkaMux.Multiplexer.StopConsumingPartition` | messaging/kafka/mux/multiplexer.go:348-369 | the same for a partition and offset |
| `KafkaMux.Multiplexer.Remove` | messaging/kafka/mux/multiplexer.go:328-369 | both loops on the table of a multiplexer |
| `KafkaMux.Multiplexer.ConsumeTopic` | messaging/kafka/mux/bytes_connection.go:99-140 | refused once started; else one entry per topic, no duplicate slot, and the connection can stop exactly the topics no other one held before |
| `KafkaMux.Multiplexer.SubscribeAll` | messaging/kafka/mux/bytes_connection.go:107-137 | the loop over the topics |
| `KafkaMux.Multiplexer.ConsumePartition` | messaging/kafka/mux/bytes_connection.go:145-214 | one entry per topic, partition and offset, also when the late consumer fails, and whether a consumer runs for it |
| `KafkaMux.StoppableIff` | messaging/kafka/mux/bytes_connection.go:107-137 | of a slot a connection subscribed to it can stop what no other one held |
| `KafkaMux.Multiplexer.Subscribe` | messaging/kafka/mux/proto_connection.go:109-155 | finds or adds the entry and sets its callback, keeping the table unique |
| `KafkaMux.Multiplexer.Find` | messaging/kafka/mux/bytes_connection.go:109-122 | the entry of a slot, if there is one |
| `KafkaMux.Multiplexer.Append` | messaging/kafka/mux/bytes_connection.go:124-134 | append in place or in a larger array |
| `KafkaMux.Multiplexer.Start` | messaging/kafka/mux/multiplexer.go:163-231 | the topics subscribed are those of the table, each as often as it has entries, those of hash entries first, each group in table order; no error if and only if every manual entry gets its partition consumer, else the error of the first that fails, and which ones run; the flag stays set on every failure |
| `KafkaMux.Multiplexer.TopicsToConsume` | messaging/kafka/mux/multiplexer.go:175-187 | the loop that sorts the topics into those of hash and of manual entries |
| `KafkaMux.TopicsAreThoseOfTable` | messaging/kafka/mux/multiplexer.go:175-187 | every entry finds its topic at the place that the number of hash entries before it gives it, and nothing else is there |
| `KafkaMux.Multiplexer.StartManual` | messaging/kafka/mux/multiplexer.go:204-225 | partition consumers are started up to the first that fails |
| `KafkaMux.Multiplexer.PropagateMessage` | messaging/kafka/mux/multiplexer.go:264-290 | calls exactly the entries of the topic that are hash entries, or manual ones of the partition with an offset not beyond that of the message, in table order |
| `KafkaMux.ReceiversInOrder` | messaging/kafka/mux/multiplexer.go:264-290 | the receivers are the matching entries, in table order |
| `KafkaMux.ReceiverReceives` | messaging/kafka/mux/multiplexer.go:264-290 | every receiver matches the message |
| `KafkaMux.EveryReceiverIsThere` | messaging/kafka/mux/multiplexer.go:264-290 | every matching entry is a receiver |
| `KafkaMux.ReceiversAreDistinct` | messaging/kafka/mux/multiplexer.go:264-290 | at most one hash entry and each manual entry once |
| `KafkaMux.KeptIsUnique` | messaging/kafka/mux/multiplexer.go:328-369 | removal keeps the table unique |
| `RedisIterator.ScanKeys` | db/keyval/redis/bytes_broker_impl.go:347-365 | the first page that is not empty, or the last |
| `RedisIterator.PassingOverKeepsAll` | db/keyval/redis/bytes_broker_impl.go:347-365 | passing over empty pages loses no key |
| `RedisIterator.BytesKeyIterator.GetNext` | db/keyval/redis/bytes_broker_impl.go:208-236 | the next remaining key, or the end for good, with the error if the listing failed |
| `RedisIterator.BytesKeyIterator.Drain` | db/keyval/redis/bytes_broker_impl.go:179-185 | draining yields exactly the keys of all pages in order, prefix trimmed, and ends |
| `RedisIterator.ListKeys` | db/keyval/redis/bytes_broker_impl.go:309-329 | the iterator has all keys of the chain before it |
| `RedisIterator.BytesKeyValIterator.GetNext` | db/keyval/redis/bytes_broker_impl.go:245-287 | the next remaining pair |
| `RedisIterator.BytesKeyValIterator.Drain` | db/keyval/redis/bytes_broker_impl.go:245-287 | draining yields all pairs in order |
| `RedisIterator.ListValues` | db/keyval/redis/bytes_broker_impl.go:331-345 | the iterator has all pairs of the chain before it, or none if the first page fails |
| `RedisIterator.GetValues` | db/keyval/redis/bytes_broker_impl.go:367-391 | values in the order of their keys |
| `RedisIterator.ItemsPairKeysWithValues` | db/keyval/redis/bytes_broker_impl.go:245-287 | over an unchanging store every key of every page comes with its own value |
| `RedisIterator.PrevValueIsOfNeighbour` | db/keyval/redis/bytes_broker_impl.go:277-283 | the previous value of a pair is the value of the key listed before it; it is absent exactly for the first pair of a page and after a key without a value |
| `RedisIterator.PrevValueOfSecond` | db/keyval/redis/bytes_broker_impl.go:277-283 | two keys on one page: the second has the value of the first for its previous one |
| `RedisIterator.TrimUndoesAdd` | db/keyval/redis/bytes_broker_impl.go:439-445 | trimming undoes prefixing, and leaves a key without the prefix alone |
| `RedisIterator.KeyOfPage` | db/keyval/redis/bytes_broker_impl.go:208-236 | the keys of a listing are those of its pages: key i of page p comes after all keys of the pages before and i keys of its own |
| `Transactions.MapEqualsReplay` | datasync/kvdbsync/local/local_bytes_txn.go:39-73 | for every operation sequence, store and key order: applying the committed map equals replaying the operations |
| `Transactions.OrderDoesNotMatter` | datasync/kvdbsync/local/local_bytes_txn.go:59-73 | the result of the map does not depend on the order of its keys |
| `Transactions.LastWriteWins` | db/keyval/redis/bytes_txn_impl.go:66-95 | a replay leaves what the last operation on each key says |
| `Transactions.CommitLocally` | datasync/kvdbsync/local/local_bytes_txn.go:39-73 | the map a local transaction commits |
| `Transactions.LocalTxn.Put` | datasync/kvdbsync/local/local_bytes_txn.go:39-46 | overwrites the entry of the key |
| `Transactions.LocalTxn.Delete` | datasync/kvdbsync/local/local_bytes_txn.go:49-56 | overwrites it with a delete |
| `Transactions.LocalTxn.Commit` | datasync/kvdbsync/local/local_bytes_txn.go:59-73 | hands over every item once |
| `Transactions.CommitToRedis` | db/keyval/redis/bytes_txn_impl.go:45-95 | the store after a Redis transaction |
| `Transactions.RedisTxn.Put` | db/keyval/redis/bytes_txn_impl.go:45-51 | appends the operation under the prefixed key |
| `Transactions.RedisTxn.Delete` | db/keyval/redis/bytes_txn_impl.go:55-61 | appends the delete |
| `Transactions.RedisTxn.Commit` | db/keyval/redis/bytes_txn_impl.go:66-95 | replays in order, or nothing at all and an error |
| `Transactions.PipedWithoutPrefix` | db/keyval/redis/bytes_txn_impl.go:66-95 | without a prefix the pipeline is the replay |
| `Transactions.PrefixConfines` | db/keyval/redis/bytes_txn_impl.go:45-95 | with a prefix it is the replay on the keys under the prefix and touches no other key |
| `Revisions.PrevRevisions.Get` | datasync/syncbase/prev_revisions.go:104-113 | stored value and revision |
| `Revisions.PrevRevisions.Put` | datasync/syncbase/prev_revisions.go:57-75 | previous entry, revision one further or zero |
| `Revisions.PrevRevisions.PutWithRevision` | datasync/syncbase/prev_revisions.go:78-91 | a given revision is taken unless it is zero |
| `Revisions.PrevRevisions.Del` | datasync/syncbase/prev_revisions.go:94-102 | previous entry, key forgotten |
| `Revisions.WatchBrokerKeys.WatchChanges` | datasync/kvdbsync/watch_impl.go:62-78 | history and emitted change of one event |
| `Revisions.WatchAll` | datasync/kvdbsync/watch_impl.go:62-78 | one watcher: over every stream each change carries the value of the preceding event on its key, absent after none or a delete |
| `Revisions.StoredIsPreceding` | datasync/kvdbsync/watch_impl.go:62-78 | the history stores exactly that value |
| `Revisions.EveryRevisionIsSettled` | datasync/syncbase/prev_revisions.go:57-102 | for every stream and stored key there is such a settling event, so the revision is determined |
| `Revisions.RevisionCountsPuts` | datasync/syncbase/prev_revisions.go:57-102 | the stored revision is the one last settled plus one per later put without a revision |
| `Revisions.AdvanceAdds` | datasync/syncbase/prev_revisions.go:57-75 | n increments add n while they fit in an int64 |
| `Revisions.Registry.PropagateChanges` | datasync/syncbase/watcher.go:152-180 | the events are those of all matches of prefixes with keys, each exactly once, in some order; those of a key all carry the stored value and the revision after it if and only if at most one registered prefix is a prefix of it, or it is a delete of something not stored |
| `Revisions.Registry.PropagateSubscription` | datasync/syncbase/watcher.go:154-180 | one subscription |
| `Revisions.Registry.PropagatePrefix` | datasync/syncbase/watcher.go:156-180 | one prefix |
| `Revisions.Registry.Propagate` | datasync/syncbase/watcher.go:159-177 | one match |
| `Revisions.EventsRightIff` | datasync/syncbase/watcher.go:154-177 | that condition, for any order of the matches |
| `Revisions.OneEventIffWatchedOnce` | datasync/syncbase/watcher.go:155-158 | a key has at most one event if and only if at most one registered prefix of all subscriptions is a prefix of it |
| `Revisions.EveryMatchBumps` | datasync/syncbase/watcher.go:155-168 | after n matches of a put key its revision is n-1 further than after one |
| `Revisions.FirstMatchDeletes` | datasync/syncbase/watcher.go:155-168 | a deleted key is known to its first match alone |
| `Revisions.EventOfMatch` | datasync/syncbase/watcher.go:155-177 | revision and previous value of the n-th event of a key |
| `SharedHistory.PreviousValuesRightIff` | datasync/kvdbsync/watch_impl.go:62-78 | several watchers of an adapter: for all changes and all interleavings every watcher is told the right previous values, if and only if no prefix is a prefix of another |
| `SharedHistory.DisjointIsRight` | datasync/kvdbsync/watch_impl.go:62-78 | that with disjoint prefixes no interleaving can go wrong |
| `SharedHistory.OverlapIsWrong` | datasync/kvdbsync/watch_impl.go:62-78 | a put under two prefixes: the second watcher is told its own value as the previous one |
| `SharedHistory.Deliver` | datasync/kvdbsync/watch_impl.go:62-78 | what the watchers send when they share one history |
| `SharedHistory.HandOver` | datasync/kvdbsync/watch_impl.go:62-78 | one change handed to one of them |
| `DoneAggregation.CollectDoneEvents` | datasync/syncbase/done.go:71-89 | the counting loop reports nil exactly if all of the expected number of acknowledgements are nil, else the error of one after which all are nil |
| `DoneAggregation.StepKeepsInv` | datasync/syncbase/done.go:33-89 | every step of every interleaving keeps the invariant |
| `DoneAggregation.RunKeepsInv` | datasync/syncbase/done.go:33-89 | so every run does |
| `DoneAggregation.ReportIsRight` | datasync/syncbase/done.go:62-89 | at most one message, only after all were collected, nil exactly if all were nil |
| `DoneAggregation.LastSentErrorIsReported` | datasync/syncbase/done.go:62-89 | in every interleaving that reaches a report, it is the error of the acknowledgement that was sent last among those with an error |
| `DoneAggregation.LastErrorNilIffAllNil` | datasync/syncbase/done.go:71-89 | the report is nil if and only if every acknowledgement was |
| `DoneAggregation.LostAckIsNeverReported` | datasync/syncbase/done.go:33-44 | once one is lost, done never gets a message |
| `DoneAggregation.CollectorProceeds` | datasync/syncbase/done.go:71-89 | without a loss the collector can always go on to its report |
| `DoneAggregation.SmallTransactionsLoseNothing` | datasync/syncbase/done.go:33-44 | up to five events none is lost, in every interleaving |
| `DoneAggregation.LossPossibleIffMoreThanCapacity` | datasync/syncbase/done.go:33-69 | a loss is possible if and only if there are more than five events |
| `StatusCheck.Plugin.Register` | health/statuscheck/plugin_impl_statuscheck.go:121-139 | new state and publications |
| `StatusCheck.Plugin.ReportStateChange` | health/statuscheck/plugin_impl_statuscheck.go:143-196 | new state and publications |
| `StatusCheck.Plugin.AfterInit` | health/statuscheck/plugin_impl_statuscheck.go:90-110 | new state and publications |
| `StatusCheck.Plugin.HasChanged` | health/statuscheck/plugin_impl_statuscheck.go:154-162 | whether a report tells something new |
| `StatusCheck.Plugin.CheckAllOk` | health/statuscheck/plugin_impl_statuscheck.go:184-189 | true exactly if all plugins are OK |
| `StatusCheck.Plugin.UpdateGlobalState` | health/statuscheck/plugin_impl_statuscheck.go:180-195 | the agent follows bad news at once and good news when all are OK |
| `StatusCheck.AllOkMakesAgentOk` | health/statuscheck/plugin_impl_statuscheck.go:121-196 | over every run: plugins that are all OK make the agent OK |
| `StatusCheck.AgentOkMeansPluginsOk` | health/statuscheck/plugin_impl_statuscheck.go:121-196 | over every run: if the agent is OK each plugin is OK or has told nothing since it was registered |
| `StatusCheck.ErrorShowsUnlessInitReported` | health/statuscheck/plugin_impl_statuscheck.go:143-196 | while a plugin is in ERROR the agent shows the last bad news: ERROR if and only if that was an error |
| `StatusCheck.ErrorShows` | health/statuscheck/plugin_impl_statuscheck.go:143-196 | if nobody reports Init an ERROR of any plugin is the state of the agent |
| `StatusCheck.InitReportHidesError` | health/statuscheck/plugin_impl_statuscheck.go:180-195 | a run in which a later Init report hides an error |
| `StatusCheck.RepeatedReportIsSilent` | health/statuscheck/plugin_impl_statuscheck.go:154-169 | repeating a report changes and publishes nothing |
| `StatusCheck.StoreShowsStatus` | health/statuscheck/plugin_impl_statuscheck.go:90-196 | after every run, what was published last under a plugin is its status, and what was published last of the agent is its state; nothing was published of an agent only if it is in INIT |
| `StatusCheck.StatusIsLastTold` | health/statuscheck/plugin_impl_statuscheck.go:121-196 | after every run, the status of a plugin is what its registration or its last report after it said; reports before it are lost |
| `StatusCheck.PublishedIffChanged` | health/statuscheck/plugin_impl_statuscheck.go:143-196 | a report is published exactly if it changes the status of its plugin |
| `StatusCheck.AgentWithoutPlugins` | health/statuscheck/plugin_impl_statuscheck.go:90-110 | without plugins the agent is OK exactly from the first AfterInit on |
| `Flavors.ListPluginsInFlavor` | core/list_flavor_plugin.go:71-143 | the recursive walk with the shared uniqueness map gives the first occurrences of the flat preorder traversal, and passes the map on |
| `Flavors.ListField` | core/list_flavor_plugin.go:99-139 | one field of it |
| `Flavors.ListPlugins` | core/list_flavor_plugin.go:52-59 | each plugin of the flavor once, where it is named first |
| `Flavors.FirstOfSum` | core/list_flavor_plugin.go:71-143 | first occurrences of a concatenation, with the seen ones passed on |
| `Flavors.FirstKeepsKeys` | core/list_flavor_plugin.go:71-143 | no plugin is lost |
| `Flavors.FirstKeepsOnce` | core/list_flavor_plugin.go:71-143 | none is listed twice |
| `Flavors.FirstKeepsFirst` | core/list_flavor_plugin.go:71-143 | the first occurrence is the one listed |
| `Flavors.AppendDiff` | core/list_flavor_plugin.go:219-234 | appends those whose name is not there yet |
| `Flavors.IsAmong` | core/list_flavor_plugin.go:222-228 | membership by name |
| `Flavors.AggregatedPlugins` | core/list_flavor_plugin.go:192-198 | first occurrences by name of the concatenated flavors |
| `Flavors.AggregatedInject` | core/list_flavor_plugin.go:201-207 | which flavors get injected, and the result |
| `Flavors.AllInjectedIffOnlyLastFirst` | core/list_flavor_plugin.go:201-207 | all are injected if and only if none before the last runs for the first time |
| `FlavorPaths.ListPluginsAlongPaths` | core/list_flavor_plugin.go:52-59 | every plugin that some path of exported fields leads to is listed, once, with its least path and the name of the field there, and the list is in the order of those paths |
| `FlavorPaths.ListingIsAlongPaths` | core/list_flavor_plugin.go:71-143 | the walk gives such a list for every flavor |
| `FlavorPaths.ListingIsDetermined` | core/list_flavor_plugin.go:71-143 | there is only one such list: plugins, names and order |
| `FlavorPaths.FlatIsAtPaths` | core/list_flavor_plugin.go:71-143 | every entry of the traversal is at its path |
| `FlavorPaths.PathsAscend` | core/list_flavor_plugin.go:71-143 | the traversal goes in the lexicographic order of paths |
| `FlavorPaths.EveryPathIsThere` | core/list_flavor_plugin.go:71-143 | no path to a plugin is passed over, at any depth |
| `FlavorPaths.AggregatedPluginsInOrder` | core/list_flavor_plugin.go:192-234 | of several flavors every plugin name is listed, once, for the first flavor and the first position that has it, in that order |
| `FlavorPaths.AggregateIsInOrder` | core/list_flavor_plugin.go:192-234 | the loops give such a list for every list of flavors |
| `AgentLifecycle.Agent.InitPlugins` | core/agent_core.go:263-310 | calls up to the first failure, then Close of all in reverse; the Init error is returned if and only if no Close fails, else that of the first plugin in the list whose Close fails |
| `AgentLifecycle.Agent.CloseListed` | core/agent_core.go:300-306 | Close in reverse list order; the error kept is that of the lowest plugin whose Close fails |
| `AgentLifecycle.CauseIsReportedIff` | core/agent_core.go:181-231 | of a start that fails, the failure that cancelled it is the one reported if and only if it is not of an Init or no Close fails |
| `AgentLifecycle.OnlyCloseErrorsAreAsIs` | core/agent_core.go:181-231 | the failing error is never returned as it is, against the documentation; what is returned as it is is the error of a Close, exactly if an Init and a Close fail |
| `AgentLifecycle.Agent.InitAll` | core/agent_core.go:271-295 | Init in list order up to the first failure, whose error is formatted into a new one |
| `AgentLifecycle.Agent.HandleAfterInit` | core/agent_core.go:314-356 | AfterInit in order up to the first failure, then Stop |
| `AgentLifecycle.Agent.Stop` | core/agent_core.go:238-260 | closes the reachable values strictly down the list, going on after an error; the joined error names exactly those whose Close failed, in that order |
| `AgentLifecycle.Agent.Start` | core/agent_core.go:193-231 | nil if and only if no Init or AfterInit failed, else exactly which error, with the calls made |
| `AgentLifecycle.Agent.EventLoopWithInterrupt` | core/event_loop.go:25-45 | the whole call trace of every run without a startup timeout: Inits go up the list, then AfterInits, then Closes down the list; and the error, which after a good start names exactly the plugins whose Close fails, in the order of closing |
| `AgentLifecycle.CallsOfRun` | core/event_loop.go:25-45 | how often each plugin sees Init, AfterInit and Close in a run |
| `AgentLifecycle.AllClosedIff` | core/agent_core.go:238-310 | every plugin is closed exactly once if and only if an Init failed or all values can be closed |
| `AgentLifecycle.FailedInitClosesOthersToo` | core/agent_core.go:263-310 | a failed Init closes exactly the later plugins without their Init; only the initialised ones if and only if the last one failed |
| `AgentLifecycle.TraceInOrder` | core/agent_core.go:193-356 | in every run, failed or not, Inits precede AfterInits precede Closes; Inits and AfterInits ascend, Closes descend |
| `AgentLifecycle.Agent.CloseReachable` | core/agent_core.go:241-253 | the loop of Stop |
| `AgentLifecycle.Agent.AfterInitAll` | core/agent_core.go:316-347 | AfterInit of those that have it, in list order up to the first failure |

## Left out

- Network clients and servers (etcd, Redis, Kafka, Cassandra sessions, HTTP, gRPC), TLS, configuration
  files, generated protobuf code and the examples: input and output, or library code that is not here.
- Logging apart from the integer parser: formatting has no property worth a proof.
- Timeouts (startup, acknowledgement, notification delivery): runs in which they do not fire are modelled.
- Concurrent writers to the mapping: the update and the notification are not one step
  (idxmap/mem/inmemory_name_mapping.go:70-75), so the replay property is for one writer.
- The goroutines that `Start` of the multiplexer launches.
- `getHashSlot` and `checkCrossSlot`: they only warn.
- `PropagateResync`, `Close` and `Unregister` of the registry, periodic probing and time stamps of the
  status check: nothing harder than what is modelled.
- `StrAddrsToStruct`, `ParseIPWithPrefix`, `IsIPv6`, `wildcard` and `ListValuesRange`.
- `ExpsToString` and the `String` methods of expressions: the default text is not what is executed.
- CqlVisitor.FindField: compares given addresses and kinds; the walk through reflection is not modelled.
- CqlVisitor.ToStringVisitor.Accept: requires an entity if the expression has a FROM, because
  `EntityTableName` panics on nil.
- CqlVisitor.ToStringVisitor.VisitPrefixedExp: the first non-empty binding slice is shared with the
  expression in the source and copied here, so an append into its spare capacity is not modelled.
- Names of fields are ASCII: the byte comparison of `FieldExported` on other letters is not modelled.
- StructFields.ListExportedFieldsPtrs: the structure is given by a pointer, so that its fields can be set.
- CqlStatements.ExpToString: requires that the entity of a FROM is found, for the same reason.
- CqlStatements.SelectExpToString: requires that an entity is found; listing the fields of nil panics.
- `IN` without values is not modelled; the source panics.
- CqlMeaning.ConditionMeansItself: operands are two or more, because one operand gives an infix fragment;
  column names, where there are columns, are letters, digits and underscores. The grammar reads the blanks
  the renderer writes, and no reserved words are told from names.
- AddrDiff.Sort: an insertion sort through Len, Less and Swap stands for `sort.Sort`.
- RedisIterator.ScanKeys: SCAN is a function from a cursor to a page or an error, and chains are finite.
- Transactions.RedisTxn.Commit: MULTI/EXEC takes effect as a whole or fails.
- Flavors.ListPluginsInFlavor: the walk through reflection is over a finite tree of field contents.
- DoneAggregation.StepKeepsInv: each event is acknowledged at most once.
- KafkaMux.Multiplexer.ConsumePartition: the outcome of starting a partition consumer is a parameter.
- UintParser.ParseUintBytes: on a 64-bit platform, where size 0 means 64.
