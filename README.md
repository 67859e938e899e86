# WonderK routing core in Dafny

WonderK routes parcels to departments. A rule checker reads a rule book of lines such as
`Mail: weight < 0.5`, evaluates every parcel on the parcel stream against the rules, and
wraps the parcel in a package whose route lists the matching departments. The package goes
to the stream of the first department. Each department consumer then pops itself off the
route, writes the package to the audit log and forwards it to the next department on the
route. Around this sit a Redis stream client, a paged audit log and the upload job table of
the web panel.

The model covers:

- **Rules** (`rule_grammar.dfy`, `rule.dfy`). The rule-book grammar is a hand-written
  recognizer of the regular expression, including its backtracking order. Rule construction
  checks the property, parses the number and then checks the operator. Evaluation is
  modelled too, and so is all-or-nothing parsing of a rule book.
- **RuleExtensions** (`rule_extensions.dfy`). Grouping rules by name and keeping the
  departments whose rules all hold, as a loop proved against a specification function.
- **Packages** (`package.dfy`). The `Package` class with its two checking constructors. The
  JSON serializer is a `Codec` parameter, assumed sound: decoding an encoding gives back the
  four properties.
- **Consumers** (`consumer.dfy`). The `Consumer` class with its `Process`, `Forward` and
  `Listen` handler. The Mail, Regular and Heavy overrides are methods of their own,
  selected by a `Department` value. The model also covers the whole journey of a package along its route.
- **Router** (`queue_worker.dfy`). The rule checker's `QueueWorker`: the active rule list,
  its reload, the parcel handler and `Send`.
- **RedisQueue** (`redis_queue.dfy`). The decisions of `RedisQueueProcessor`: the field
  layout of `Produce`, group creation, which entries a round works on, which it
  acknowledges and which it hands to the handler. It also covers the key filtering of
  `Status`.
- **ProcessLog** (`process_logger.dfy`). `RedisProcessLogger`: the shape of an audit line,
  and the paging of `GetAsync` with its 32-bit window arithmetic and its case-insensitive
  filter.
- **Jobs** (`job_store.dfy`). The upload job table with shared progress counters, and the
  percentage of the `Progress` endpoint.

`Results`, `Data`, `Text` and `Recorders` hold the shared vocabulary:

- `Result` and `Option`;
- the parcel records;
- the .NET string operations the code relies on (`Trim`, `ToUpper`, `Contains` ignoring
  case, the character classes of the regular expression);
- the two service interfaces, as objects that record every call.

The code is followed where the design text differs from it:

- Properties are spelled `receipient.name` and `receipient.address.city`, as in `Rule.cs`.
- A malformed line makes the whole rule book fail rather than being skipped.

## Model

| member | source | states |
|---|---|---|
| Rules.BuildNumericOp | app/WonderK/WonderK.RuleChecker/Rule.cs:53-61 | an operator is accepted exactly when it is the text of one of the five numeric comparisons; anything else is the "Unknown operator" error naming it |
| Rules.BuildNumericOpOfSymbol | app/WonderK/WonderK.RuleChecker/Rule.cs:53-61 | each numeric comparison is built back from its own operator text |
| Rules.BuildStringOp | app/WonderK/WonderK.RuleChecker/Rule.cs:63-68 | only `=` and `contains` are accepted for text properties; anything else is the "not supported for strings" error naming it |
| Rules.BuildStringOpOfSymbol | app/WonderK/WonderK.RuleChecker/Rule.cs:63-68 | each text comparison is built back from its own operator text |
| Rules.ParseDoubleOfNatText | app/WonderK/WonderK.RuleChecker/Rule.cs:28 | the decimal digits of a whole number parse to that number |
| Rules.ParseDoubleOfNegatedNatText | app/WonderK/WonderK.RuleChecker/Rule.cs:28 | a minus sign before the digits parses to the negated number |
| Rules.ParseDoubleNegated | app/WonderK/WonderK.RuleChecker/Rule.cs:28 | a minus sign before digit-terminated text reads as the negation of the text's value |
| Rules.ParseDoubleOfDecimal | app/WonderK/WonderK.RuleChecker/Rule.cs:28 | whole digits, a point and fraction digits parse to whole + fraction / 10^(number of fraction digits) |
| Rules.FieldOf | app/WonderK/WonderK.RuleChecker/Rule.cs:21-43 | a property is recognised exactly when its lower-cased text is `value`, `weight`, `receipient.name` or `receipient.address.city` |
| Rules.FieldOfIgnoresCase | app/WonderK/WonderK.RuleChecker/Rule.cs:21 | upper-casing a property name does not change the field it selects |
| Rules.NewRule | app/WonderK/WonderK.RuleChecker/Rule.cs:14-44 | a built rule keeps the four texts it was given; construction never raises the rule-book format error |
| Rules.NewRuleOutcome | app/WonderK/WonderK.RuleChecker/Rule.cs:14-44 | a rule is built iff the property is known, a numeric rule's value parses and the operator is one of its kind's symbols; a numeric rule has the parsed threshold and the operator written; a text rule has the literal value; an unknown property fails first, then an unparsable number, then an unknown numeric operator or an unsupported string operator |
| Rules.NewRuleBuildsNumeric | app/WonderK/WonderK.RuleChecker/Rule.cs:14-44 | a known numeric property, a parsable value and a numeric symbol always build the rule with that field, comparison and threshold |
| Rules.NumericVerdict | app/WonderK/WonderK.RuleChecker/Rule.cs:53-72 | a numeric rule compares the parcel's field (left) with the threshold (right); `=` holds iff they differ by less than 1e-6 |
| Rules.StringVerdict | app/WonderK/WonderK.RuleChecker/Rule.cs:63-72 | text `=` is equality ignoring case; `contains` holds iff the upper-cased value occurs in the upper-cased field |
| Rules.NearIsSymmetric | app/WonderK/WonderK.RuleChecker/Rule.cs:59 | the tolerance comparison does not depend on the order of its operands |
| Rules.EqualImpliesContains | app/WonderK/WonderK.RuleChecker/Rule.cs:65-66 | text that is equal ignoring case also contains the other ignoring case |
| Rules.StringRulesIgnoreCase | app/WonderK/WonderK.RuleChecker/Rule.cs:63-72 | upper-casing the recipient's name and city never changes a text rule's verdict |
| Rules.SplitLines | app/WonderK/WonderK.RuleChecker/Rule.cs:77 | every line of a split is non-empty and holds no `\n` or `\r` |
| Rules.SplitLinesSkipsSeparator | app/WonderK/WonderK.RuleChecker/Rule.cs:77 | any run of `\n` and `\r` (CRLF, LF, blank lines) before the text yields no lines |
| Rules.SplitLinesOfLine | app/WonderK/WonderK.RuleChecker/Rule.cs:77 | a line followed by a separator splits off as one piece |
| Rules.SplitJoin | app/WonderK/WonderK.RuleChecker/Rule.cs:77 | lines joined with any separators of `\n` and `\r` split back into exactly those lines |
| Rules.SeparatorsOnly | app/WonderK/WonderK.RuleChecker/Rule.cs:74-101 | an empty rule book, or one of separators alone, parses to no rules |
| Rules.CapturesWellFormed | app/WonderK/WonderK.RuleChecker/Rule.cs:79 | the name, property and operator groups are non-empty runs of their character classes |
| Rules.ParseLine | app/WonderK/WonderK.RuleChecker/Rule.cs:84-96 | the format error names the line and comes only when the trimmed line does not match; a parsed rule has well-formed groups |
| Rules.ParseLineMatches | app/WonderK/WonderK.RuleChecker/Rule.cs:79-92 | a line is refused as malformed iff no cut of the trimmed line matches the grammar; otherwise the rule is built from the match the regular expression reports |
| Rules.BlankLineRefused | app/WonderK/WonderK.RuleChecker/Rule.cs:84 | a line of white space alone is the format error |
| Rules.ParseAll | app/WonderK/WonderK.RuleChecker/Rule.cs:82-98 | a parsed rule book has one rule per line |
| Rules.ParseAllSpec | app/WonderK/WonderK.RuleChecker/Rule.cs:74-101 | a rule book parses iff every line does, to the lines' rules in order; otherwise it fails with the error of the first failing line |
| Rules.ParseLines | app/WonderK/WonderK.RuleChecker/Rule.cs:82-98 | the loop appends rule after rule and stops at the first error, which is exactly collecting the lines' results |
| Rules.ParseRules | app/WonderK/WonderK.RuleChecker/Rule.cs:74-101 | ParseRules returns the all-or-nothing parse of the text's lines |
| RuleGrammar.ValueTokenStartsWithNonSpace | app/WonderK/WonderK.RuleChecker/Rule.cs:79 | a value token is never empty and does not start with white space |
| RuleGrammar.ForcedCuts | app/WonderK/WonderK.RuleChecker/Rule.cs:79 | in any match, the character classes fix every cut except the ends of the property and the operator |
| RuleGrammar.SearchOperator | app/WonderK/WonderK.RuleChecker/Rule.cs:79 | backtracking over the operator's end finds the rightmost end followed by a value, and no end right of it is followed by one |
| RuleGrammar.SearchProperty | app/WonderK/WonderK.RuleChecker/Rule.cs:79 | backtracking over the property's end yields only valid matches |
| RuleGrammar.SearchPropertyFirst | app/WonderK/WonderK.RuleChecker/Rule.cs:79 | when some match exists, the search finds one that no other match is tried before |
| RuleGrammar.MatchRule | app/WonderK/WonderK.RuleChecker/Rule.cs:79 | a reported match is a valid cut of the line |
| RuleGrammar.MatchRuleFirst | app/WonderK/WonderK.RuleChecker/Rule.cs:79 | the reported match is the first the backtracking engine tries; no match is reported iff the line has none |
| RuleGrammar.TrimQuotesOfValue | app/WonderK/WonderK.RuleChecker/Rule.cs:91 | a number is kept as it is; a quoted value loses exactly its two quotes |
| Text.TrimSpec | app/WonderK/WonderK.RuleChecker/Rule.cs:84 | Trim removes white space from both ends and nothing else |
| Text.ContainsIffOccurs | app/WonderK/WonderK.RuleChecker/Rule.cs:66 | Contains holds iff the text occurs at some position |
| RuleExtensions.GroupKeys | app/WonderK/WonderK.RuleChecker/RuleExtensions.cs:13 | the group keys are distinct |
| RuleExtensions.GroupKeysSpec | app/WonderK/WonderK.RuleChecker/RuleExtensions.cs:13 | a key is a group key iff some rule has exactly that name (case-sensitive) |
| RuleExtensions.MembersSpec | app/WonderK/WonderK.RuleChecker/RuleExtensions.cs:13 | a group holds exactly the rules with its name |
| RuleExtensions.AllMatchOfMembers | app/WonderK/WonderK.RuleChecker/RuleExtensions.cs:17 | a group matches iff every rule with its name holds for the parcel |
| RuleExtensions.MatchingSpec | app/WonderK/WonderK.RuleChecker/RuleExtensions.cs:15-22 | a key is reported iff it is a group key and its group matches |
| RuleExtensions.MatchingDistinct | app/WonderK/WonderK.RuleChecker/RuleExtensions.cs:20 | the reported keys hold no repeats, as a set |
| RuleExtensions.DepartmentsSpec | app/WonderK/WonderK.RuleChecker/RuleExtensions.cs:8-25 | a department is reported iff some rule names it and every rule naming it holds; so an empty rule list reports nothing |
| RuleExtensions.DepartmentsDistinct | app/WonderK/WonderK.RuleChecker/RuleExtensions.cs:10 | each department is reported once |
| RuleExtensions.DuplicateRuleChangesNothing | app/WonderK/WonderK.RuleChecker/RuleExtensions.cs:17 | adding a copy of a rule never changes the departments reported |
| RuleExtensions.GetDepartments | app/WonderK/WonderK.RuleChecker/RuleExtensions.cs:8-25 | the loop over the groups reports exactly the matching departments |
| RuleExtensions.ExampleReported | app/Wonderk.Tests/RuleChecker/RuleEvaluateTests.cs:41-78 | with the example rule book, a reported department's own condition holds |
| RuleExtensions.ExampleReports | app/Wonderk.Tests/RuleChecker/RuleEvaluateTests.cs:41-78 | with the example rule book, every department whose condition holds is reported |
| RuleExtensions.ExampleRouting | app/Wonderk.Tests/RuleChecker/RuleEvaluateTests.cs:41-78 | the six parcels of the test route exactly as it expects: (1500, 0.4) to {Insurance, Mail}, (500, 0.4) to {Mail}, (500, 5) to {Regular}, (1500, 1) to {Insurance, Regular}, (500, 15) to {Heavy}, (2000, 15) to {Insurance, Heavy} |
| RuleExtensions.ExampleRulesBuilt | app/Wonderk.Tests/RuleChecker/RuleEvaluateTests.cs:41-48 | each of the test's five rules is exactly what the Rule constructor builds from its name, property, operator and value text |
| Recorders.QueueRecorder.Produce | app/WonderK/WonderK.Common/Libraries/IQueueProcessor.cs:5 | a produce appends one message with its stream key and payload |
| Recorders.LogRecorder.LogAsync | app/WonderK/WonderK.Common/Libraries/IProcessLogger.cs:7 | an audit call appends one entry with its source and message |
| Packages.AssembleSpec | app/WonderK/WonderK.Common/Data/Package.cs:31-45 | a package is built iff the parcel is present and the set is non-empty with no blank name; it then routes through the set's names in enumeration order, each once, with empty metadata; a null parcel fails first, then an empty set, then a blank name |
| Packages.Package.New | app/WonderK/WonderK.Common/Data/Package.cs:31-45 | the checking loop gives a fresh package exactly as the specification of the constructor, or its exception |
| Packages.DecodeSpec | app/WonderK/WonderK.Common/Data/Package.cs:15-29 | text is read iff it is not blank and the deserializer gives a value, whose four properties are copied; blank text is the "JSON cannot be null or empty" error |
| Packages.Package.FromJson | app/WonderK/WonderK.Common/Data/Package.cs:15-29 | the JSON constructor gives a fresh package holding the decoded properties, or the decoder's exception |
| Packages.DecodeEncode | app/WonderK/WonderK.Common/Data/Package.cs:15-50 | reading back the text of ToString gives the same four properties |
| Packages.Package.constructor | app/WonderK/WonderK.Common/Data/Package.cs:5-13 | a default package has the given id, an empty route, empty metadata and the default parcel |
| Consumers.Consumer.ProcessBase | app/WonderK/WonderK.Common/Libraries/Consumer.cs:27-35 | a non-empty route loses exactly its head; an empty route stays empty; id, metadata and parcel are untouched |
| Consumers.Consumer.Process | app/WonderK/WonderK.Common/Libraries/Consumer.cs:27-35 | the virtual Process runs the department's own override: the pop for the base class, the pop plus one audit entry for Mail, Regular and Heavy |
| Consumers.Consumer.MailProcess | app/WonderK/WonderK.Department.Mail/MailConsumer.cs:10-19 | the Mail override pops the head, then writes one audit entry, with source "Mail", holding the package after the pop; id, metadata and parcel are unchanged |
| Consumers.Consumer.RegularProcess | app/WonderK/WonderK.Department.Regular/RegularConsumer.cs:10-19 | the Regular override pops the head, then writes one audit entry, with source "Regular", holding the package after the pop; id, metadata and parcel are unchanged |
| Consumers.Consumer.HeavyProcess | app/WonderK/WonderK.Department.Heavy/HeavyConsumer.cs:10-19 | the Heavy override pops the head, then writes one audit entry, with source "Heavy", holding the package after the pop; id, metadata and parcel are unchanged |
| Consumers.Consumer.Forward | app/WonderK/WonderK.Common/Libraries/Consumer.cs:37-53 | with a route, exactly one message goes to the head's stream, carrying the package's text, and the "Forwarding package to" note is written; without a route nothing is produced and the "No more consumers" note is written; the package is not modified |
| Consumers.Consumer.Handle | app/WonderK/WonderK.Common/Libraries/Consumer.cs:17-24 | the handler decodes, then processes, then forwards; refused text produces and logs nothing |
| Consumers.Hop | app/WonderK/WonderK.Common/Libraries/Consumer.cs:17-24 | one run of the handler produces at most one message |
| Consumers.HopShortens | app/WonderK/WonderK.Common/Libraries/Consumer.cs:27-53 | a hop forwards iff the route has more than one department; it then goes to the second department's stream and carries the route without its head |
| Consumers.ChainSpec | app/WonderK/WonderK.Common/Libraries/Consumer.cs:13-53 | a package with route r is forwarded exactly \|r\| - 1 more times, the k-th time to the stream of r[k + 1] with route r[k + 1..], and then stops |
| Router.LoadRulesWellFormed | app/WonderK/WonderK.RuleChecker/QueueWorker.cs:59-67 | loaded rules all come out of the grammar |
| Router.MissingRuleBookFails | app/WonderK/WonderK.RuleChecker/QueueWorker.cs:62-66 | without a rule book the stand-in text "File not found." is refused as a malformed line |
| Router.RoutedSpec | app/WonderK/WonderK.RuleChecker/QueueWorker.cs:96-111 | the matched departments are distinct and never blank, so building the package fails only on an empty match, with the empty-set exception |
| Router.QueueWorker.GetRules | app/WonderK/WonderK.RuleChecker/QueueWorker.cs:59-67 | the rules of the rule book's text, or of the stand-in text when the file is missing |
| Router.QueueWorker.Create | app/WonderK/WonderK.RuleChecker/QueueWorker.cs:22-36 | the worker starts with the loaded rules, or construction fails with the parse error |
| Router.QueueWorker.ReloadRules | app/WonderK/WonderK.RuleChecker/QueueWorker.cs:52-57 | a failed parse leaves the active rules and the log unchanged; a successful one replaces the whole list and logs the reload |
| Router.QueueWorker.Send | app/WonderK/WonderK.RuleChecker/QueueWorker.cs:109-122 | one message to the first department's stream, which is the head of the new package's route, then one "RuleChecker" audit entry with the same text; nothing when the package cannot be built |
| Router.QueueWorker.Handle | app/WonderK/WonderK.RuleChecker/QueueWorker.cs:73-106 | cancellation, a null parcel, unreadable XML or no matching department produce nothing, each with its log line; otherwise the routed package is sent; the rules are not changed |
| RedisQueue.DataOfSpec | app/WonderK/WonderK.Common/Libraries/RedisQueueProcessor.cs:63 | an entry's data is the value of its first field named "data", and null iff it has none |
| RedisQueue.DataOfProduced | app/WonderK/WonderK.Common/Libraries/RedisQueueProcessor.cs:22-26 | what Produce writes is read back as the payload |
| RedisQueue.CreateGroup | app/WonderK/WonderK.Common/Libraries/RedisQueueProcessor.cs:37-45 | group creation goes on iff the group was created or the server error mentions BUSYGROUP; any other error propagates with its message |
| RedisQueue.AcksOfSpec | app/WonderK/WonderK.Common/Libraries/RedisQueueProcessor.cs:61-84 | an entry of the round is acknowledged iff it has no data or the handler returned normally on its data |
| RedisQueue.HandedSpec | app/WonderK/WonderK.Common/Libraries/RedisQueueProcessor.cs:61-84 | the handler gets exactly the data of the entries that have data |
| RedisQueue.RedisQueueProcessor.Produce | app/WonderK/WonderK.Common/Libraries/RedisQueueProcessor.cs:22-26 | one entry with the single field "data" holding the payload is appended to the stream |
| RedisQueue.RedisQueueProcessor.ConsumeRound | app/WonderK/WonderK.Common/Libraries/RedisQueueProcessor.cs:49-86 | a round works on the (at most 10) entries read, or on the (at most 1) claimed entry only when the read is empty; it sends the acknowledgements of AcksOf, hands the handler at most 10 values, and leaves the streams alone |
| RedisQueue.Pairs | app/WonderK/WonderK.Common/Libraries/RedisQueueProcessor.cs:104 | a group's reply of n items gives at most n / 2 pairs |
| RedisQueue.PairsSpec | app/WonderK/WonderK.Common/Libraries/RedisQueueProcessor.cs:97-112 | a pair is reported iff an even-position key of the reply is one of the four valid keys; the key is upper-cased and the value is the next item |
| RedisQueue.PairsIgnoresTrailing | app/WonderK/WonderK.Common/Libraries/RedisQueueProcessor.cs:104 | a trailing key without a value is ignored |
| RedisQueue.RedisQueueProcessor.AppendPairs | app/WonderK/WonderK.Common/Libraries/RedisQueueProcessor.cs:104-111 | the inner loop appends a group's valid pairs in reply order |
| RedisQueue.RedisQueueProcessor.Status | app/WonderK/WonderK.Common/Libraries/RedisQueueProcessor.cs:93-115 | the result is the valid pairs of every group, group after group |
| ProcessLog.Wrap32 | app/WonderK/WonderK.Common/Libraries/RedisProcessLogger.cs:28 | an int product lands in the int range, congruent to the true value modulo 2^32, and equal to it when it fits |
| ProcessLog.LineFoundByFilter | app/WonderK/WonderK.Common/Libraries/RedisProcessLogger.cs:20 | a logged line is found again by filtering on its source or on its message |
| ProcessLog.Matching | app/WonderK/WonderK.Common/Libraries/RedisProcessLogger.cs:46 | every kept line contains the filter text ignoring case |
| ProcessLog.MatchingMembers | app/WonderK/WonderK.Common/Libraries/RedisProcessLogger.cs:46 | Where keeps a line iff it is in the input and contains the filter text ignoring case |
| ProcessLog.Take | app/WonderK/WonderK.Common/Libraries/RedisProcessLogger.cs:47 | Take keeps the prefix of min(count, length) elements, none for a count below one |
| ProcessLog.PageStartExact | app/WonderK/WonderK.Common/Libraries/RedisProcessLogger.cs:28 | without overflow, the page's first rank is (page - 1) * pageSize and not negative |
| ProcessLog.MatchingSubsequence | app/WonderK/WonderK.Common/Libraries/RedisProcessLogger.cs:45-48 | the filtered lines are a subsequence of the fetched window |
| ProcessLog.UnfilteredPage | app/WonderK/WonderK.Common/Libraries/RedisProcessLogger.cs:28-36 | without a filter, the page is the pageSize entries from rank (page - 1) * pageSize, as far as the log reaches |
| ProcessLog.FilteredPage | app/WonderK/WonderK.Common/Libraries/RedisProcessLogger.cs:40-48 | with a filter, the page is the first min(pageSize, number of matches) lines, in order, of the 10 * pageSize entries at the page's first rank that contain the filter ignoring case |
| ProcessLog.ProcessLogger.LogAsync | app/WonderK/WonderK.Common/Libraries/RedisProcessLogger.cs:17-24 | the line "[id timestamp] source - message" gets its millisecond score; the result is true iff the line is new |
| Jobs.JobProgress.constructor | app/WonderK/WonderK.WebPanel/Controllers/JobStore.cs:5-9 | new counters start at zero |
| Jobs.JobStore.Create | app/WonderK/WonderK.WebPanel/Controllers/JobStore.cs:15-20 | the returned id maps to fresh zeroed counters; every other entry is unchanged |
| Jobs.JobStore.TryGet | app/WonderK/WonderK.WebPanel/Controllers/JobStore.cs:25-35 | true iff the id is in the table (ContainsKey), with the stored counters themselves; otherwise false with fresh zeroed counters |
| Jobs.JobStore.Remove | app/WonderK/WonderK.WebPanel/Controllers/JobStore.cs:37-38 | the id's entry is gone and every other entry is unchanged; removing an absent id changes nothing |
| Jobs.TruncDiv | app/WonderK/WonderK.WebPanel/Controllers/HomeController.cs:157 | long division truncates toward zero |
| Jobs.ProgressAsWrittenStuck | app/WonderK/WonderK.WebPanel/Controllers/HomeController.cs:156-158 | as written, an unfinished upload always reports 0 percent |
| Jobs.ProgressAsWrittenHalfway | app/WonderK/WonderK.WebPanel/Controllers/HomeController.cs:156-158 | as written, 50 of 100 bytes reports 0 percent |
| Jobs.ProgressCorrectedSpec | app/WonderK/WonderK.WebPanel/Controllers/HomeController.cs:156-158 | the corrected percentage is the whole part of 100 * processed / total, lies in 0..100, is 100 iff the upload is complete, and never decreases as bytes are processed |
| Jobs.Progress | app/WonderK/WonderK.WebPanel/Controllers/HomeController.cs:150-164 | an unknown job is NotFound; a known job reports the corrected percentage of its counters (the formula as written is `Jobs.ProgressAsWritten`, see Findings) |

## Left out

- I/O and infrastructure are parameters or absent:
  - the Redis connection and its environment variables;
  - the rule-book file, which is `None` when missing;
  - the `FileSystemWatcher` that triggers a reload;
  - `Console` output;
  - the 250 ms polling delay.
- The two endless loops of `Consume` are not modelled as loops. The model covers one group creation (`RedisQueue.CreateGroup`) and one read round (`RedisQueue.RedisQueueProcessor.ConsumeRound`).
- What XREADGROUP and XAUTOCLAIM return is a parameter. This includes the 10-second idle threshold and the "0-0" start id; only the counts of 10 and 1 are kept.
- The XML and JSON serializers are parameters:
  - the XML deserializer is `readXml`;
  - the JSON serializer is a `Codec`, assumed sound: encode gives non-blank text that decodes to the same properties.
- GUIDs, clocks, message ids and the cancellation token are parameters.
- Concurrency is not modelled:
  - `Interlocked.Exchange` and `Volatile.Read` are a plain assignment and a plain read;
  - `ConcurrentDictionary` is a map;
  - no interleavings are considered.
- The handlers are async lambdas passed as `Action<string>`, so their failures never reach the catch in `Consume`. The handler's outcome is therefore an abstract `string -> bool`. Nothing is claimed about how malformed packages are acknowledged.
- Doubles are exact reals, and double rounding is not modelled.
- Rules.ParseDouble: reads only an optional sign, digits and one decimal point. Exponents, thousands separators, NaN and infinities are not read. The quoted value token `"[^"]*"` of the rule grammar can carry them (`Insurance: value > "1e3"`, `"1,000"`, `"NaN"`), and `double.Parse` with the invariant culture accepts them. For such a line the model reports the number error and so refuses a rule book the program accepts.
- Character classes (`\w`, `\s`, case folding) are ASCII approximations of the .NET Unicode classes.
- HashSet enumeration order is modelled as insertion order. This is why the first department of the set is the head of the package's route.
- Debug log lines that interpolate values are not modelled. The log lines the routing depends on are kept: the reload note, cancellation, the null parcel, the processing error and the two forwarding notes.
- Router.QueueWorker.ReloadRules: the source lets the parse exception escape from the watcher event. The model returns it as an error and leaves the rules unchanged, as the source does.
- ProcessLog.UnfilteredPage: proved only for page >= 1 and pageSize >= 1, and when (page - 1) * pageSize and pageSize * 10 fit in an int. `ProcessLog.GetLogs` itself models the 32-bit wrap-around and page 0 or below, whose negative first rank reads ranks counted from the end, but no lemma states what those pages hold.
- ProcessLog.FilteredPage: proved only for page >= 1 and pageSize >= 1, and when (page - 1) * pageSize and pageSize * 10 fit in an int, as for UnfilteredPage; pages 0 or below are modelled by `ProcessLog.GetLogs` but no lemma covers them.
- ProcessLog.ProcessLogger.LogAsync: the order of the sorted set is a parameter (`ranked`) of `GetLogs`. The model does not derive it from the scores `LogAsync` stores.
- RedisQueue.RedisQueueProcessor.Status: the XINFO GROUPS reply is a parameter, each group a sequence of strings. The conversion of `RedisResult` to text is not modelled.
- Jobs.Progress: reports the corrected percentage `ProcessedBytes * 100 / TotalBytes`, not the endpoint's `ProcessedBytes / TotalBytes * 100` as written, which reports 0 until an upload completes (see Findings; `Jobs.ProgressAsWritten` is the formula as written). The 64-bit overflow of `ProcessedBytes * 100` and the double-to-int cast are not modelled.
- Code that does not compile against the current classes is not part of this model:
  - the `WonderK.Departement.*` directories and `WonderK.Department.Insurance`;
  - the lenient parser in `WonderK.RuleChecker/Program.cs`;
  - the skip-invalid-line assertions of `ParseRulesTests.cs`;
  - the rule list of `GetDepartments_CorrectDepartmentsReturned` in `RuleEvaluateTests.cs`, which passes numbers where the Rule constructor takes a string value. The example lemmas use that test's rules with the values written as the rule book writes them (`"1000"`, `"0.5"`, `"10"`) and its six parcels.
- Left out because they only wire or display things:
  - the department `Program.cs` files;
  - the other web panel actions (chunked upload, XML streaming, throttling);
  - the rule checker's `HomeController`;
  - the test data generator.

## Findings

| source | as written | input that shows it | evidently intended | confidence | as-written member | corrected member |
|---|---|---|---|---|---|---|
| app/WonderK/WonderK.WebPanel/Controllers/HomeController.cs:156-158 | `prog.ProcessedBytes / prog.TotalBytes * 100` divides the two longs first, so any unfinished upload reports 0 and only a complete one reports 100 | TotalBytes = 100, ProcessedBytes = 50 reports 0 | scale before dividing, `ProcessedBytes * 100 / TotalBytes`, which reports 50 | not executed | Jobs.ProgressAsWrittenHalfway | Jobs.ProgressCorrectedSpec |
