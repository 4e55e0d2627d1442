# Verified models of the wiki service core

This project models four components of the service and proves what each is for.

**Single-flight task table** (`src/service/cache.h`). `TaskTable` holds the table operations and a class whose
methods perform them. `SingleFlight` interleaves any number of callers, each with its own key, between all accesses to
the table that are made without the mutex: the two of `getPendingTask`, the two of `completeTask`, the setting of the
promise, the wait for the mutex, the locked test, the insert, the erase, the leader's computation, and the wait for the
future. `SingleFlightHistory` says, without mentioning the protocol, which histories of calls, starts, publications,
erasures, returns and torn reads a single-flight table may have, and every run is shown to write such a history.
`SingleFlightSafety` draws the whole-run consequences, about histories and then about the log of every run, and
`SingleFlightProgress` the ones about termination. Two things keep callers from being answered, and both are proved
exactly. A leader may leave without calling `completeTask`, as `src/service/storage/deployment.cc:285-287` and an
exception between `src/service/project/cached/cached.h:74` and `:86` allow. And an erase may come between the two
accesses of `getPendingTask`, `contains` and `operator[]`: the second then inserts an empty `std::any`, whose cast
throws, and the key stays poisoned. `SingleFlightExamples` holds a run of each.

**URI parser and printer** (`src/include/uri.h`). `Uri` is the class with its fields, index cursors and loops, proved
against the pure parser and printer of `UriGrammar`, error for error. `UriRoundTrip` says exactly which URIs survive
printing and parsing, `UriRfc3986` exactly when the parser agrees with the decomposition of RFC 3986 Appendix B, and
`UriAcceptance` exactly
which texts are accepted, `UriPrinting` exactly which of them are printed as they were written, and `UriQuery` and
`UriQueryPairs` what the query dictionary is, from the text and from the pairs it was written from. The cursor accesses are in range for every text, because the methods verify.

**Text algorithms** (`src/service/util.cc`, `src/service/util.h`). `ReplaceAll`, `ResourceLocation` (with the regular
expression's language as its own definition) and `EnumNames`, with `EnumTables` for one enumeration.

**Rows, SQL and JSON** (`src/models/Project.*`, `src/models/AccessKey.*`). One schema-driven model stands for the
generated code: `Records` is the row object, whose loops over the columns are the unrolled statements of each table;
`InsertStatement` and `InsertText` say what an insert statement means, by reading its text back and executing it with
the bound values; `JsonRows` and `RowCheck` cover JSON in both directions and the check before creation; `RowHistory`
follows a row through any sequence of setter calls; `TableTexts` and `TableObjects` spell out statements and objects
of real tables; `Timestamp` is the reading of fractional seconds; `Tables` are three
tables. The specification functions of all modules are in `Text`, `UriGrammar`, `InsertStatement`, `JsonRows` and
at the head of the module that uses them.

Where a property the code seems to promise is false, the code is kept, the exact condition is proved for all inputs,
and a lemma exhibits a failing input:

- printing and parsing a URI restores it: `RoundTripIff`, `NormalFormIff`; not `http://u:@h` (`UserinfoIsDropped`);
- the path is that of RFC 3986: `AppendixBIff`; not for `http://h:1/a@b` (`PathIsLost`);
- a text with an RFC 3986 decomposition is accepted: `AcceptedIff`; not `http://h/a@b` (`PathIsRefused`);
- a replaced pattern is gone: `PatternGoneIff`, `EmptyReplacementIff`; not `ab` in `aabb` (`EmptyReplacementCanLeaveIt`);
- parsing accepts the expression's language: `ParseDiffersIff`; not on `a` with a NUL (`NulIsParsed`);
- a printed location is parsed back: `PrintParseIff`; not `a:b` with path `c` (`ColonIsLost`);
- a fraction is read as its microseconds: `ReadingExactIff`; not `.0000001` and `.5Z` (`ReadWrongly`);
- every caller is answered: `AnsweredIff`; not in the runs `LeaderLeaves` and `ReadIsTorn`;
- a row's insert is executed: `InsertMeaning`; not for an untouched membership (`UserProjectInsert`);
- no column that may not be null is given null: `NoNullIff`; not with an unreadable `created_at` (`UnreadableTimeIsNull`).

A `char` stands for one byte throughout.

## Model

| member | source | states |
|---|---|---|
| TaskTable.CacheableService.GetPendingTask | src/service/cache.h:69-75 | answers the pending flight of the key, or throws on an empty entry, and changes nothing |
| TaskTable.CacheableService.StartTask | src/service/cache.h:53-66 | joins the pending flight, throws on an empty entry, or inserts a fresh unset promise and answers nothing |
| TaskTable.CacheableService.GetOrStartTask | src/service/cache.h:82-90 | without interference, read-then-locked-test equals one atomic test and insert |
| TaskTable.CacheableService.CompleteTask | src/service/cache.h:93-105 | throws on a missing key, an empty entry or a promise already set, leaving the table alone; otherwise sets that promise and erases that key |
| SingleFlight.StepInv | src/service/cache.h:53-105 | every interleaved step, torn reads included, keeps the invariant that ties each leader to its entry, its promise and the mutex |
| SingleFlight.RunInv | src/service/cache.h:53-105 | the invariant holds after every run |
| SingleFlightHistory.RunsAreLawful | src/service/cache.h:53-105 | every run, whatever the schedule, refines the abstract single-flight history |
| SingleFlightSafety.StartsMinusErases | src/service/cache.h:53-105 | for every key, starts minus erases is one while a flight is open and zero otherwise |
| SingleFlightSafety.RunsAgree | src/service/cache.h:68-105 | in every run, each returned value was published by the leader of its flight, which asked for the same key, and all callers of a flight return the same |
| SingleFlightSafety.RunsAreFresh | src/service/cache.h:68-105 | in no run does a caller return the value of a flight erased before its call began |
| SingleFlightSafety.RunsNeverOverlap | src/service/cache.h:53-105 | in every run, between two starts of one key the first leader published and erased its own flight |
| SingleFlightSafety.RunsAreTornByErase | src/service/cache.h:70-71 | a read is torn only by an erase of its key during the same call |
| SingleFlightSafety.OneLeader | src/service/cache.h:53-90 | a key is pending exactly while a caller stands between its insert and its erase, and never two do |
| SingleFlightSafety.NoOverlap | src/service/cache.h:53-105 | before a second flight of a key starts, the first has been published and erased |
| SingleFlightSafety.Agreement | src/service/cache.h:68-105 | in a lawful history every caller of a flight returns the value that its starter published, for the key it asked for |
| SingleFlightSafety.PublishedOnce | src/service/cache.h:98-99 | no promise is set twice |
| SingleFlightSafety.Freshness | src/service/cache.h:68-105 | no caller returns the value of a flight erased before its call began |
| SingleFlightSafety.CompletionIsOwn | src/service/cache.h:92-105 | completing reaches neither throw, sets only the leader's own promise, and erases only its own flight |
| SingleFlightProgress.RunsEnd | src/service/cache.h:53-105 | every run has at most twelve steps a caller |
| SingleFlightProgress.CanStep | src/service/cache.h:53-105 | deadlock freedom: while a caller is unfinished, has not thrown and is not stranded by a leader that left, some step towards completion is enabled |
| SingleFlightProgress.AnsweredIff | src/service/cache.h:53-105 | when a run has ended, every caller of a key is answered if and only if no leader of that key left without completing and no unlocked read of it was torn by an erase |
| SingleFlightProgress.AbandonedForever | src/service/storage/deployment.cc:268-287 | once a leader has left, its key stays pending and no later caller of it ever returns |
| SingleFlightProgress.PoisonedForever | src/service/cache.h:70-71 | once a torn read has left an empty entry that nobody is about to overwrite, no caller that has not joined a flight ever returns |
| SingleFlightExamples.LeaderLeaves | src/service/storage/deployment.cc:285-287 | a run of two callers whose leader leaves and whose second caller waits for ever |
| SingleFlightExamples.ReadIsTorn | src/service/cache.h:69-75 | a run of two callers in which the leader completes, the second caller throws, and the key is poisoned |
| SingleFlightProgress.SoloGetOrStart | src/service/cache.h:82-90 | a caller nobody interrupts does what the method does |
| SingleFlightProgress.SoloComplete | src/service/cache.h:93-105 | the same for completion |
| Uri.Uri.Setup | src/include/uri.h:360-387 | for every text, succeeds or fails exactly as the grammar says and leaves every field at the parsed value |
| Uri.Uri.SetupQueryAndFragment | src/include/uri.h:374-384 | the optional query and fragment behind the content |
| Uri.Uri.ParseScheme | src/include/uri.h:389-418 | the loop finds the scheme of the grammar or the same error |
| Uri.Uri.ParseContent | src/include/uri.h:420-481 | the content and the components of either category, or the same error |
| Uri.Uri.ParseAuthority | src/include/uri.h:436-469 | userinfo, host, port and path behind two slashes |
| Uri.Uri.ParseUserinfo | src/include/uri.h:439-448 | username and password when an `@` stands anywhere in the content |
| Uri.Uri.ParseUsername | src/include/uri.h:483-501 | the loop without an end test stays in range because an `@` is ahead, and cuts at the first `:` |
| Uri.Uri.ParsePassword | src/include/uri.h:503-515 | the same for the password, up to the first `@` |
| Uri.Uri.ParseHost | src/include/uri.h:517-562 | a host with or without a bracketed literal, or an unterminated one |
| Uri.Uri.ParsePort | src/include/uri.h:564-582 | a port within `unsigned long`, or the three errors |
| Uri.Uri.ParseQuery | src/include/uri.h:584-596 | the query up to `#` |
| Uri.Uri.ParseFragment | src/include/uri.h:598-603 | everything behind `#` |
| Uri.Uri.CopyFrom | src/include/uri.h:205-224 | every field is copied, also from the object itself |
| Uri.Uri.ToString | src/include/uri.h:307-356 | the appended text is the printed form the round trips are proved about |
| UriRoundTrip.RoundTripIff | src/include/uri.h:307-603 | a URI is restored in every component by parsing what it prints if and only if it is canonical |
| UriRoundTrip.CanonicalRoundTrip | src/include/uri.h:307-603 | the direction callers use, both categories |
| UriRoundTrip.NormalFormIff | src/include/uri.h:307-582 | for every accepted text, the printed form parses back to the same components if and only if they survive printing; it prints as itself |
| UriRoundTrip.NormalFormStable | src/include/uri.h:307-582 | without `@` or with both halves of the userinfo, and nothing but end, port or path behind the host, the printed form is canonical and stable |
| UriRoundTrip.NonHierarchicalRoundTrip | src/include/uri.h:307-603 | every accepted non-hierarchical text round-trips |
| UriRfc3986.OuterSplit | src/include/uri.h:360-387 | scheme, content, query and fragment are those of RFC 3986 Appendix B for every accepted text of either category |
| UriRfc3986.AppendixBIff | src/include/uri.h:420-481 | the path is Appendix B's if and only if no `@` stands only behind the authority and no IP literal leaves it |
| UriRfc3986.AuthorityPieces | src/include/uri.h:436-582 | under the same condition the authority is exactly userinfo, host and port text |
| UriRfc3986.AppendixBUnique | src/include/uri.h:360-387 | the Appendix B decomposition of a text is unique |
| UriRfc3986.AppendixBExists | src/include/uri.h:360-387 | every accepted text has one |
| UriGrammar.SchemeAlphabet | src/include/uri.h:389-418 | the characters a scheme may have, spelled out |
| UriPrinting.PrintedAsWrittenIff | src/include/uri.h:307-356 | an accepted hierarchical text is printed as it was written if and only if it has an authority, both halves of the userinfo or none, a port without leading zero or none, nothing but a path behind it, and no mark of an empty query or fragment |
| UriPrinting.PlainPrintedIff | src/include/uri.h:307-356 | an accepted non-hierarchical text is, if and only if it has no such mark |
| UriPrinting.PortPrinted | src/include/uri.h:326-330 | a port is printed as written unless it begins with a zero, and then shorter |
| UriAcceptance.AuthorityAcceptedIff | src/include/uri.h:436-582 | an authority and what follows it are accepted if and only if they can be cut into userinfo, host, port and rest of the right shapes |
| UriAcceptance.PartsAcceptedIff | src/include/uri.h:360-603 | a text with given Appendix B parts is accepted if and only if its scheme, its authority and its query keys are |
| UriAcceptance.AcceptedIff | src/include/uri.h:360-603 | the accepted texts, described without the parser |
| UriExamples.UserinfoIsDropped | src/include/uri.h:316-322 | an accepted text whose printed form parses to something else |
| UriExamples.PathIsLost | src/include/uri.h:440-447 | an accepted text whose path differs from RFC 3986 |
| UriExamples.PathIsRefused | src/include/uri.h:440-447 | a text with an RFC 3986 decomposition that is refused |
| UriQuery.InitQueryDictionary | src/include/uri.h:605-639 | the loop ends with the dictionary of the query, or refuses it |
| UriQueryPairs.AmpersandPairs | src/include/uri.h:605-639 | pairs written `key=value`, or `key` alone, and joined by `&` have under the ampersand exactly their dictionary if their keys differ, and none otherwise |
| UriQueryPairs.SemicolonPairs | src/include/uri.h:605-639 | the same for `;` under the semicolon |
| UriQueryPairs.OrdinaryQueries | src/include/uri.h:612-624 | two queries with their dictionaries under either separator, and one that is refused |
| UriQuery.KeyAndValue | src/include/uri.h:617-624 | a stanza is cut at its first `=` |
| UriQuery.DictionaryOfQuery | src/include/uri.h:605-639 | refused exactly when two stanzas share a key; otherwise maps exactly the stanzas' keys to their values, has one entry more than there are separators, and the stanzas joined are the query |
| UriQuery.StanzaPieces | src/include/uri.h:617-624 | key and value put together again are the stanza |
| ReplaceAll.Replace | src/service/util.cc:83-103 | terminates, and joins the leftmost split by the replacement |
| ReplaceAll.LeftmostIff | src/service/util.cc:92-99 | the pieces are the leftmost non-overlapping split and there is no other |
| ReplaceAll.ReplacedLength | src/service/util.cc:83-103 | the length changes by occurrences times difference of sizes |
| ReplaceAll.PatternGoneIff | src/service/util.cc:83-103 | a replacement leaves the pattern in no text if and only if the pattern does not occur in it, its end does not begin the pattern, and it completes no beginning of the pattern |
| ReplaceAll.EmptyReplacementIff | src/service/util.cc:83-103 | the empty replacement leaves it in no text if and only if all characters of the pattern are equal |
| ReplaceAll.PatternIsGone | src/service/util.cc:83-103 | a non-empty replacement sharing no character with the pattern leaves none of it |
| ReplaceAll.EmptyReplacementCanLeaveIt | src/service/util.cc:83-103 | a text on which the empty replacement leaves the pattern |
| ReplaceAll.ReplaceBack | src/service/util.cc:83-103 | replacing back restores a text that shares no character with the replacement |
| ResourceLocation.GroupingIff | src/service/util.cc:54 | the expression's groups meet after the first colon and nowhere else |
| ResourceLocation.LanguageIff | src/service/util.cc:53-56 | the expression's language in terms of characters |
| ResourceLocation.TheAlphabet | src/service/util.cc:54 | the characters of the two classes of the expression, spelled out |
| ResourceLocation.OrdinaryLocations | src/service/util.cc:53-74 | `minecraft:iron_ingot` is taken apart; `a/b:c` and `Minecraft:stone` are refused |
| ResourceLocation.ParseIsTheExpression | src/service/util.cc:58-74 | without NUL, parsing succeeds exactly on the language, and its parts are the expression's groups |
| ResourceLocation.ParsesIff | src/service/util.cc:53-74 | which texts are parsed, in characters: a well-formed front before the first NUL, and a first colon that is not the last character |
| ResourceLocation.ParseDiffersIff | src/service/util.cc:53-74 | exactly which texts with a NUL are parsed although the expression refuses them, in characters |
| ResourceLocation.NulIsParsed | src/service/util.cc:53-70 | one such text |
| ResourceLocation.ColonIsLost | src/service/util.h:164 | a location that does not survive print-then-parse |
| ResourceLocation.PrintParseIff | src/service/util.h:164 | exactly which locations survive print-then-parse, by their words before the first NUL |
| ResourceLocation.ValidLocationsSurvive | src/service/util.h:154-165 | without NUL, these are the locations with a valid namespace and path |
| ResourceLocation.ParsePrint | src/service/util.cc:68-73 | parse-then-print is the identity with a colon and adds `minecraft:` without |
| ResourceLocation.ParsePrintParse | src/service/util.cc:58-74 | parsing again gives the same location |
| EnumNames.ReverseMap | src/service/util.h:93-99 | whatever the order, the result is a reverse of the map |
| EnumNames.ReverseIsInverseIff | src/service/util.h:93-99 | it is an inverse exactly when no two keys share a value |
| EnumNames.EnumRoundTripIff | src/service/util.h:107-117 | exactly which enumerations survive print-then-parse in all values |
| EnumTables.ProjectErrorsSurvive | src/service/storage/issues/issues.cc:24-44 | every project error survives print-then-parse, in whatever order the table is reversed |
| EnumNames.NameRoundTripIff | src/service/util.h:107-117 | exactly which texts survive parse-then-print |
| Timestamp.ReadTimestamp | src/models/AccessKey.cc:61-80 | the padding loop gives the microseconds of the text after the seconds |
| Timestamp.AtolReads | src/models/AccessKey.cc:76 | what is read of blanks, a sign, digits and other text |
| Timestamp.FractionRoundTrip | src/models/AccessKey.cc:67-79 | six digits without trailing zeros are read back exactly |
| Timestamp.ReadThenPrint | src/models/AccessKey.cc:67-79 | and every such text is the one printed for what it reads as |
| Timestamp.ReadingExactIff | src/models/AccessKey.cc:69-78 | for every text after the seconds, the reading is what its digits stand for if and only if there are six of them, or fewer and nothing behind them, or only zeros are read |
| Timestamp.ReadWrongly | src/models/AccessKey.cc:69-78 | two texts for which it is not |
| Timestamp.OrderIsLexicographic | src/models/AccessKey.cc:67-79 | results are ordered as pairs of second and microsecond |
| InsertStatement.Alignment | src/models/Project.h:314-519 | under each bound column stands the placeholder numbered by the position of that column's value among the bound values; under any other listed column stands `default` |
| InsertStatement.PlaceholderNumbers | src/models/Project.h:407-504 | the placeholders are 1..k from left to right with no gap, one for each bound value |
| InsertStatement.InsertMeaning | src/models/AccessKey.h:209-298 | the statement is executed if and only if it lists a column, and then stores exactly the dirty settable cells and defaults elsewhere; plain columns are listed only when dirty |
| InsertText.ReadPrinted | src/models/Project.h:314-519 | a reader of insert statements, with the database's own words, undoes the printer |
| InsertText.InsertedRow | src/models/Project.h:314-519 | the same from the statement's text, read back and executed with the bound values |
| Records.Record.constructor | src/models/Project.h:301 | a new row is blank and clean |
| Records.Record.Set | src/models/Project.cc:836-866 | a setter stores one cell, marks one column, and changes nothing else |
| Records.Record.SetToNull | src/models/Project.cc:1083-1087 | the null setter of a nullable column |
| Records.Record.SqlForInserting | src/models/Project.h:314-519 | the buffer, counters, overwritten comma and shortened end give exactly the printed insert and its need for a selection |
| Records.Record.OutputArgs | src/models/Project.cc:1181-1348 | binds the dirty cells in column order, null where unset, an automatic key never |
| Records.Record.UpdateColumns | src/models/Project.cc:1350-1414 | names the dirty settable columns in order |
| Records.Record.UpdateArgs | src/models/Project.cc:1416-1583 | binds their cells in the same order |
| Records.Record.FromJson | src/models/Project.cc:395-535 | builds the row of a JSON object or throws, exactly where a conversion throws |
| Records.Record.FromMasqueradedJson | src/models/Project.cc:248-393 | the same under aliases; a vector of the wrong length leaves the row blank |
| Records.Record.ToJson | src/models/Project.cc:1584-1708 | the object under the column names |
| Records.Record.ToMasqueradedJson | src/models/Project.cc:1710-2005 | the object under the aliases, or under the column names when the length is wrong |
| JsonRows.RowFromIff | src/models/Project.cc:395-535 | the row built is the one whose every column is read from its entry |
| JsonRows.Conversions | src/models/Project.cc:395-535 | what each column type makes of each kind of JSON value |
| JsonRows.TimestampInRow | src/models/Project.cc:469-494 | a timestamp in a row is the seconds and the microseconds of its text |
| JsonRows.MasqueradedRoundTrip | src/models/Project.cc:1710-1882 | reading back never throws, marks exactly the columns with an alias, and restores every cell except timestamps whose text is read differently |
| JsonRows.RestoresAllIff | src/models/Project.cc:248-393 | every row whose timestamps survive their text is restored if and only if the aliases are non-empty and all different |
| RowCheck.ValidateJsonForCreation | src/models/Project.cc:2007-2120 | accepts exactly the objects no column complains about; otherwise reports the first complaint |
| RowCheck.AcceptedIff | src/models/Project.cc:2007-2690 | an object is accepted if and only if every required column is there, nulls stand only where they may, no automatic key is given, and everything else is what is written for some cell within its limit |
| RowCheck.WrittenIsAccepted | src/models/Project.cc:1584-1708 | what a complete row of a table without automatic key is written as is accepted |
| RowCheck.FieldIsSound | src/models/Project.cc:2476-2690 | a value that passes its column's check is converted without a throw to a value of the column's type and length |
| RowCheck.AcceptedNeverThrows | src/models/Project.cc:2007-2120 | an accepted object never makes the constructor throw |
| RowCheck.AcceptedRow | src/models/Project.cc:2007-2120 | its insert is executed unless the table has only plain columns and the object gives none; it then lists every required column, and gives null to a column that may not be null only under an unreadable timestamp |
| RowCheck.NoNullIff | src/models/AccessKey.cc:1015-1058 | some such null is bound if and only if some such timestamp is unreadable |
| RowHistory.InsertStoresEdits | src/models/Project.cc:836-1153 | after any setter calls, the insert stores the last value set in every settable column and defaults elsewhere, and is executed unless no column is listed |
| RowHistory.UpdateAlignment | src/models/AccessKey.cc:751-834 | update columns and update values align, and match the placeholders of the insert |
| RowHistory.UpdateWritesEdits | src/models/AccessKey.cc:751-834 | an update of a row that was read writes exactly the columns that were set since, with their last values |
| RowHistory.CopyThroughJson | src/models/Project.cc:1710-1882 | a copy made through masqueraded JSON inserts every cell of the original except an automatic key |
| RowHistory.WholeIsMasqueraded | src/models/Project.cc:1584-1708 | the plain object is the masqueraded object under the column names |
| TableObjects.ProjectAcceptedIff | src/models/Project.cc:2007-2690 | which objects are accepted as a project, key by key |
| TableObjects.AccessKeyAcceptedIff | src/models/AccessKey.cc:1015-1315 | which objects are accepted as an access key, key by key |
| TableObjects.UserProjectAcceptedIff | src/models/UserProject.cc:471-691 | which objects are accepted as a membership |
| TableObjects.ProjectExamples | src/models/Project.cc:2611-2673 | truth values are accepted and numbers in their place are not; a visibility may have 255 characters before a NUL and not 256 |
| TableObjects.Complaints | src/models/Project.cc:2476-2690 | one complaint of each kind, word for word |
| TableObjects.FifteenKeys | src/models/Project.cc:1584-1708 | a project is written with fifteen keys |
| TableObjects.FirstKeys | src/models/Project.cc:1587-1610 | texts are written as texts |
| TableObjects.SourceKeys | src/models/Project.cc:1611-1642 | texts as texts and a truth value as a truth value |
| TableObjects.MiddleKeys | src/models/Project.cc:1643-1674 | nothing as null, a timestamp as its text, a truth value as a truth value |
| TableObjects.LastKeys | src/models/Project.cc:1675-1706 | the same for the last four |
| TableTexts.UserProjectText | src/models/UserProject.h:177-237 | the statement of a membership of which only the user is set, letter by letter |
| TableTexts.MembershipText | src/models/UserProject.h:177-237 | the statement of a whole membership |
| TableTexts.UntouchedProjectText | src/models/Project.h:314-519 | the statement of a project of which nothing is set: five defaults |
| TableTexts.AccessKeyText | src/models/AccessKey.h:209-298 | the statement of an access key with a name and a value, letter by letter |
| Tables.ProjectInsert | src/models/Project.h:314-519 | all of this for every mask of the project table; the stored row is read back unless all five defaulted columns are given |
| Tables.AccessKeyInsert | src/models/AccessKey.h:209-298 | for every mask of the access key table; the key comes first, always `default`, and the row is always read back |
| Tables.UserProjectInsert | src/models/UserProject.h:177-237 | the insert of a table with only plain columns is refused exactly when no column was set |
| Tables.UnreadableTimeIsNull | src/models/AccessKey.cc:336-362 | an accepted access key whose creation time is given null |
| Tables.AcceptedProject | src/models/Project.cc:2007-2120 | an accepted project gives all seven required columns and binds a forbidden null exactly when its creation time cannot be read |

## Left out

- Threads and coroutines of `drogon` and `trantor`: a wait is a step enabled once the promise is set; no claim is made about the ten pool threads, which blocking waiters share with `supplyAsync`.
- Data races on the unlocked accesses to `pendingTasks_`: each single `contains`, `operator[]` or `set_value` is one atomic step of the interleaving. Inside the mutex the test and the read of `startTask` are one step, since only erases could change what they see and erases need the mutex; an insert or an erase takes effect together with the release of the mutex.
- The types in `std::any`: one value type per key is assumed, so only the cast of an empty entry fails.
- `hasPendingTask`: the same membership test as `getPendingTask`.
- `src/service/cache.cc`: thin commands to Redis.
- The constructors of `uri` from components and from replacements: they do not build the query dictionary.
- Messages of URI errors: an error is its kind.
- ReplaceAll.Replace: does not accept the empty pattern, on which the loop of the source does not end.
- Widths of integers, except `int64_t` in JSON and `unsigned long` ports: positions and counters are unbounded, the sum of microseconds does not wrap, and `atol` is applied to numbers that fit.
- Calendar functions (`strptime`, `mktime`, `toDbStringLocal`): a parameter that reads and writes texts; what a round trip needs of it is stated where it is used.
- JSON values other than objects at the top, and real numbers: `isMember` on them is library behaviour. Arrays and objects inside are one value on which every conversion throws.
- Generated code is unrolled for each table; the model has one loop over the columns of any schema, and the other tables repeat the same shape.
- The execution of an insert by the database: a statement and its values denote an assignment of cells and defaults; types, constraints and triggers of the database are outside.
- `updateByJson`, `updateByMasqueradedJson`, the masqueraded validation and validation for update: the same branches again, except that a null in an update marks the column and keeps the old value.
- Construction from a database row: reads every cell and marks nothing; it appears only as a clean row.
- OAuth, HTTP clients, platform lookups, filters, configuration, logging, JSON schemas, controllers: I/O or library plumbing.
- `removeLeadingSlash`, `ltrim`, `rtrim`, `toCamelCase`, `TaskResult`: they would only add easy members.
