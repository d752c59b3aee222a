# Specmatic core: scenario ranking, result reporting and XML nodes, in Dafny

This project models three parts of the Specmatic contract-testing engine and
proves properties of them.

- **`Feature`** (`feature.dfy`, `feature_helpers.dfy`). A contract is a list of scenarios.
  - An incoming request is matched against every scenario, and the per-scenario results are reduced to one outcome:
    - `lookupResponse` and `stubResponse` answer with the first scenario that matches, or else with a 400 error response;
    - `lookupScenario` returns every matching scenario, or else throws one of three errors;
    - `matchingStub` returns the first stub built, or else a failure report;
    - `matchesMockKafkaMessage` checks a Kafka message.
  - The feature's one mutable field is `serverState`. `setServerState` merges into it, and every lookup clears it on every exit path, including exits by exception.
  - The pure helpers of the same file are modelled too:
    - `converge` merges two object schemas, where a trailing `?` marks an optional key;
    - the nullability predicates;
    - the `setters`, `parseEnum` and `plusHeaderPattern` step parsers.
- **`Results`** (`results.dfy`): aggregates match results.
  - It drops "fluffy" failures (failures that say only that a scenario did not apply).
  - It counts successes and failures.
  - It picks a success or combines the failures.
  - It renders a report, and builds the 400 error response whose headers mark an empty report.
- **`XMLNode`** (`xml_node.dfy`, `xml_node_builder.dfy`).
  - XML nodes with prefixed names (`prefix:local`, as in section 4 of Namespaces in XML 1.0) and `xmlns:` declarations (section 3 of the same). A node binds the namespaces it was created with, overridden by its own `xmlns:` attributes.
  - Scoping is the builder's, not the XML document's: a node's body is built before the node exists, from the namespaces in scope outside it, so a prefix a node declares in its own attributes does not bind in the children of its body (`XmlBuilder.OwnDeclarationNotSeenByChild`, `XmlBuilder.UnscopedNodeUnresolved`). A body that needs a binding declares it with `parentNamespaces`.
  - Prefix resolution and qualified names; child lookup by name and by dotted path; attribute lookups.
  - Rendering a node as text.
  - The `XMLNodeBuilder` class, whose `xmlNode`, `text` and `parentNamespaces` calls add children and namespaces to a mutable builder.

The remaining modules are support code:

- `kotlin_std.dfy` (`KotlinStd`) gives the Kotlin standard-library behaviour the code depends on:
  - `split` on a character, and the regex `\s+` split with a limit;
  - `trim` and `isBlank`;
  - `toInt` with its 32-bit range check;
  - `find`, `filter` and `joinToString`;
  - exceptions, modelled as values of `Outcome`.
- `http.dfy` holds the request and response records.
- `patterns.dfy` holds the pattern shapes the helpers inspect.

The behaviour of a scenario is not modelled. Its matching and response generation are parameters of the model: a `ScenarioBehaviour` record of functions.

## Model

| member | source | states |
|---|---|---|
| Results.PathNotRecognizedMessage | core/src/main/kotlin/in/specmatic/core/Results.kt:3-9 | the message is the SOAP form exactly when the request has a SOAPAction header, otherwise the method-and-path form |
| Results.PathNotRecognizedMessageNamesRequest | core/src/main/kotlin/in/specmatic/core/Results.kt:3-9 | the message names the request path, and the SOAPAction for SOAP requests or the method otherwise |
| Results.HasFailures | core/src/main/kotlin/in/specmatic/core/Results.kt:16 | true exactly when some result is a failure |
| Results.Succeeded | core/src/main/kotlin/in/specmatic/core/Results.kt:17 | true exactly when every result is a success |
| Results.EmptyIsSuccess | core/src/main/kotlin/in/specmatic/core/Results.kt:14-17 | a list without results counts as a success |
| Results.HasResults | core/src/main/kotlin/in/specmatic/core/Results.kt:14 | true exactly when there is a result; with none, the list is a success (EmptyIsSuccess) and toResultIfAny of a nonempty all-success list is a success (ToResultIfAnyOfSuccess) |
| Results.WithoutFluff | core/src/main/kotlin/in/specmatic/core/Results.kt:19 | keeps exactly the results that are not fluffy failures |
| Results.WithoutFluffConcat | core/src/main/kotlin/in/specmatic/core/Results.kt:19 | filtering a concatenation filters each part, so order is kept |
| Results.WithoutFluffIdempotent | core/src/main/kotlin/in/specmatic/core/Results.kt:19 | filtering twice equals filtering once |
| Results.WithoutFluffWithFluffy | core/src/main/kotlin/in/specmatic/core/Results.kt:19 | a fluffy failure anywhere in the list is dropped |
| Results.CountsAddUp | core/src/main/kotlin/in/specmatic/core/Results.kt:25-29 | failure count plus success count is the number of results |
| Results.FailureCount | core/src/main/kotlin/in/specmatic/core/Results.kt:25-26 | the number of failures; with the success count it adds up to the number of results (CountsAddUp), and it is zero exactly when the list is a success (SuccessIffNoFailureCounted) |
| Results.SuccessCount | core/src/main/kotlin/in/specmatic/core/Results.kt:28-29 | the number of successes; with the failure count it adds up to the number of results (CountsAddUp) |
| Results.SuccessIffNoFailureCounted | core/src/main/kotlin/in/specmatic/core/Results.kt:17-26 | success holds exactly when the failure count is zero |
| Results.ToResultIfAny | core/src/main/kotlin/in/specmatic/core/Results.kt:21-23 | a success when any result succeeded, else one failure joining every report with blank lines |
| Results.ToResultIfAnyOfSuccess | core/src/main/kotlin/in/specmatic/core/Results.kt:21-23 | a nonempty all-success list gives success |
| Results.FailureReportsConcat | core/src/main/kotlin/in/specmatic/core/Results.kt:57-60 | the failure reports of a concatenation are those of each part in order |
| Results.ListToReportSkipsSuccess | core/src/main/kotlin/in/specmatic/core/Results.kt:57-60 | a success contributes nothing to the report |
| Results.ListToReportNamesFailure | core/src/main/kotlin/in/specmatic/core/Results.kt:57-60 | every failure's report text appears in the combined report |
| Results.ListToReport | core/src/main/kotlin/in/specmatic/core/Results.kt:57-60 | the failure reports joined by blank lines: successes add nothing (ListToReportSkipsSuccess), every failure's text appears (ListToReportNamesFailure), in list order (FailureReportsConcat) |
| Results.ReportIgnoresDefault | core/src/main/kotlin/in/specmatic/core/Results.kt:43-54 | with a non-fluffy result present, the default message is not used and only non-fluffy results are reported |
| Results.ReportFallsBackToDefault | core/src/main/kotlin/in/specmatic/core/Results.kt:47-54 | when every result is fluffy, the report is the default message followed by all results, trimmed |
| Results.ReportSuppressesFluff | core/src/main/kotlin/in/specmatic/core/Results.kt:47-54 | adding a fluffy failure beside a real result does not change the report |
| Results.ReportOfNothing | core/src/main/kotlin/in/specmatic/core/Results.kt:47-54 | the report of no results is the trimmed default message |
| Results.Report | core/src/main/kotlin/in/specmatic/core/Results.kt:47-54 | the non-fluffy failures' report when there is a non-fluffy result (ReportIgnoresDefault), else the trimmed default message followed by every result (ReportFallsBackToDefault); fluffy failures never change it (ReportSuppressesFluff) |
| Results.GenerateErrorHttpResponse | core/src/main/kotlin/in/specmatic/core/Results.kt:31-41 | status 400; the body is the report with the path-not-recognised error as default message; Content-Type text/plain and result header "failure"; the empty marker exactly when the report with an empty default message is blank, and no other header |
| Results.ErrorResponseOfNothingIsMarkedEmpty | core/src/main/kotlin/in/specmatic/core/Results.kt:31-54 | with no results the response is marked empty and its body is the path-not-recognised error |
| Results.ErrorResponseOfRealFailureNotMarkedEmpty | core/src/main/kotlin/in/specmatic/core/Results.kt:31-54 | a non-fluffy failure with a non-blank report is never marked empty |
| Features.ResultsOf | core/src/main/kotlin/in/specmatic/core/Feature.kt:119-126 | one result per scenario, in scenario order |
| Features.MatchingScenario | core/src/main/kotlin/in/specmatic/core/Feature.kt:113-117 | none when nothing succeeded, otherwise the scenario of the first success |
| Features.MatchingScenarios | core/src/main/kotlin/in/specmatic/core/Feature.kt:107-111 | at most one match per scenario; the matches are the scenarios at the successful indices in scenario order (MatchingScenariosInOrder), computed part by part (MatchingScenariosConcat) |
| Features.MatchingScenariosConcat | core/src/main/kotlin/in/specmatic/core/Feature.kt:107-111 | the matches of a concatenation are the matches of each part, in order |
| Features.MatchingScenariosOfOne | core/src/main/kotlin/in/specmatic/core/Feature.kt:107-111 | one scenario matches exactly when its result is a success |
| Features.SuccessIndices | core/src/main/kotlin/in/specmatic/core/Feature.kt:107-111 | the successful indices from a start index, strictly increasing, and every success among them |
| Features.MatchingScenariosInOrder | core/src/main/kotlin/in/specmatic/core/Feature.kt:107-111 | one match per successful index, the k-th match being the scenario at the k-th successful index |
| Features.MatchingScenariosCount | core/src/main/kotlin/in/specmatic/core/Feature.kt:107-111 | one matching scenario per successful result |
| Features.MatchingScenariosComplete | core/src/main/kotlin/in/specmatic/core/Feature.kt:107-111 | every scenario whose result succeeded is returned |
| Features.MatchingScenariosSound | core/src/main/kotlin/in/specmatic/core/Feature.kt:107-111 | every returned scenario has a successful result |
| Features.NoMatchingScenarios | core/src/main/kotlin/in/specmatic/core/Feature.kt:107-111 | an empty list of matches means no result succeeded |
| Features.NoSuccessNoneMatching | core/src/main/kotlin/in/specmatic/core/Feature.kt:107-111 | no success means an empty list of matches |
| Features.MatchingScenarioIsFirstOfAll | core/src/main/kotlin/in/specmatic/core/Feature.kt:107-117 | the single match is the head of the list of all matches |
| Features.MatchingScenarioSkip | core/src/main/kotlin/in/specmatic/core/Feature.kt:113-117 | a leading non-success is skipped |
| Features.FirstSuccessUnique | core/src/main/kotlin/in/specmatic/core/Feature.kt:113-117 | the first success is unique |
| Features.Respond | core/src/main/kotlin/in/specmatic/core/Feature.kt:64-68 | the first matching scenario's response (RespondFirstMatch), else the 400 error response over the non-fluffy results (RespondReportsRealFailure, RespondAllFluffy) |
| Features.RespondFirstMatch | core/src/main/kotlin/in/specmatic/core/Feature.kt:64-68 | the response is the one generated by the first matching scenario |
| Features.RespondReportsRealFailure | core/src/main/kotlin/in/specmatic/core/Feature.kt:64-68 | without a match, the 400 response reports every non-fluffy failure |
| Features.RespondAllFluffy | core/src/main/kotlin/in/specmatic/core/Feature.kt:64-68 | when every failure is fluffy, the 400 response is the path-not-recognised error, marked empty |
| Features.LookupScenarioOutcome | core/src/main/kotlin/in/specmatic/core/Feature.kt:89-102 | succeeds exactly when some scenario matched, with all matches in order, else a contract exception |
| Features.LookupScenarioAgreesWithRespond | core/src/main/kotlin/in/specmatic/core/Feature.kt:64-102 | lookupScenario succeeds exactly when lookupResponse finds a match, and lists that match first |
| Features.LookupScenarioFirstRealFailure | core/src/main/kotlin/in/specmatic/core/Feature.kt:89-102 | with no match, the error is the report of the first non-fluffy result |
| Features.LookupScenarioAllFluffy | core/src/main/kotlin/in/specmatic/core/Feature.kt:89-102 | with only fluffy results, the error is the path-not-recognised message |
| Features.LookupScenarioOfEmptyContract | core/src/main/kotlin/in/specmatic/core/Feature.kt:89-102 | with no scenarios, the error is "The contract is empty." |
| Features.StubAttempt | core/src/main/kotlin/in/specmatic/core/Feature.kt:153-183 | a stub exactly when the mock matched, inheriting the scenario's headers without a delay; contract exceptions become failures |
| Features.StubAttempts | core/src/main/kotlin/in/specmatic/core/Feature.kt:153-183 | every scenario is tried; any other exception escapes |
| Features.SecondOf | core/src/main/kotlin/in/specmatic/core/Feature.kt:193-194 | the results of the attempts, in order |
| Features.MatchingStubOutcome | core/src/main/kotlin/in/specmatic/core/Feature.kt:153-191 | a returned stub was built by some scenario |
| Features.MatchingStubFirstWins | core/src/main/kotlin/in/specmatic/core/Feature.kt:153-191 | the stub of the first scenario that builds one is returned |
| Features.MatchingStubNoMatch | core/src/main/kotlin/in/specmatic/core/Feature.kt:153-194 | when no scenario builds a stub (its mock rejected or its stub building failing with a contract error), NoMatchingScenario carries the report of the non-fluffy failures |
| Features.MatchingStubReportsFailure | core/src/main/kotlin/in/specmatic/core/Feature.kt:153-194 | every non-fluffy failure of a stub attempt appears in that report |
| Features.MatchingStubReportsMockFailure | core/src/main/kotlin/in/specmatic/core/Feature.kt:153-194 | a real mock failure appears, set in its scenario, in that report |
| Features.MatchingStubReportsStubError | core/src/main/kotlin/in/specmatic/core/Feature.kt:156-194 | when the mock matched but building the stub threw a contract error, that error's message appears in the report |
| Features.MatchesMockKafka | core/src/main/kotlin/in/specmatic/core/Feature.kt:224-231 | success exactly when some scenario accepts the message, else the first result, else the fixed failure |
| Features.MatchesExchange | core/src/main/kotlin/in/specmatic/core/Feature.kt:148-151 | true exactly when the first scenario matching the request also accepts the response |
| Features.Feature.constructor | core/src/main/kotlin/in/specmatic/core/Feature.kt:57-63 | a feature starts with the server state it is given (the empty map by default) |
| Features.Feature.SetServerState | core/src/main/kotlin/in/specmatic/core/Feature.kt:144-146 | the new state is the old one overridden by the argument |
| Features.Feature.ClearServerState | core/src/main/kotlin/in/specmatic/core/Feature.kt:236-238 | the state is empty |
| Features.Feature.LookupResponse | core/src/main/kotlin/in/specmatic/core/Feature.kt:64-72 | the response of the ranking under the state before the call; the state is empty afterwards, exception or not |
| Features.Feature.StubResponse | core/src/main/kotlin/in/specmatic/core/Feature.kt:74-87 | the same over stub matching; the state is empty afterwards |
| Features.Feature.LookupScenario | core/src/main/kotlin/in/specmatic/core/Feature.kt:89-105 | all matching scenarios or the ranked error; the state is empty afterwards |
| Features.Feature.Matches | core/src/main/kotlin/in/specmatic/core/Feature.kt:148-151 | whether the request/response pair is accepted, without changing the state |
| Features.Feature.MatchingStub | core/src/main/kotlin/in/specmatic/core/Feature.kt:153-191 | the first stub or NoMatchingScenario; the state is empty afterwards |
| Features.Feature.MatchingStubFor | core/src/main/kotlin/in/specmatic/core/Feature.kt:233-234 | the stub for the stub's request and response, carrying the stub's delay |
| Features.Feature.MatchesMockKafkaMessage | core/src/main/kotlin/in/specmatic/core/Feature.kt:224-231 | the Kafka match result |
| Features.Feature.AssertMatchesMockKafkaMessage | core/src/main/kotlin/in/specmatic/core/Feature.kt:218-222 | throws NoMatchingScenario with the report exactly when the Kafka match fails |
| FeatureHelpers.WithoutOptionality | core/src/main/kotlin/in/specmatic/core/Feature.kt:467-471 | strips exactly one trailing `?` |
| FeatureHelpers.Optional | core/src/main/kotlin/in/specmatic/core/Feature.kt:472-473 | the optional key is marked and cleans back to the name |
| FeatureHelpers.RenameKeys | core/src/main/kotlin/in/specmatic/core/Feature.kt:473-492 | every key is renamed and every new key comes from some old key |
| FeatureHelpers.Converge | core/src/main/kotlin/in/specmatic/core/Feature.kt:466-495 | the names of either schema, required only when required in both, a shared name keeping the first schema's pattern (ConvergeNames, ConvergeRequired, ConvergeShared, ConvergeOnlyInFirst, ConvergeOnlyInSecond, ConvergeWellFormed) |
| FeatureHelpers.ConvergeNames | core/src/main/kotlin/in/specmatic/core/Feature.kt:466-495 | a name is in the merge exactly when it is in either schema |
| FeatureHelpers.ConvergeRequired | core/src/main/kotlin/in/specmatic/core/Feature.kt:466-495 | a name is required in the merge exactly when it is required in both schemas |
| FeatureHelpers.ConvergeShared | core/src/main/kotlin/in/specmatic/core/Feature.kt:466-495 | a shared name keeps the first schema's pattern |
| FeatureHelpers.ConvergeOnlyInFirst | core/src/main/kotlin/in/specmatic/core/Feature.kt:466-495 | a name only in the first schema becomes optional with its pattern |
| FeatureHelpers.ConvergeOnlyInSecond | core/src/main/kotlin/in/specmatic/core/Feature.kt:466-495 | a name only in the second schema becomes optional with its pattern |
| FeatureHelpers.ConvergeWellFormed | core/src/main/kotlin/in/specmatic/core/Feature.kt:466-495 | the merge never holds both a name and its optional form |
| FeatureHelpers.IsNullable | core/src/main/kotlin/in/specmatic/core/Feature.kt:598-599 | an AnyPattern with an "(empty)" alternative; a nullable array is decided by its first other alternative (NullableArrayDecidedByFirstReal) |
| FeatureHelpers.IsArrayOfNullables | core/src/main/kotlin/in/specmatic/core/Feature.kt:595-596 | a list pattern whose element pattern is nullable |
| FeatureHelpers.IsNullableArray | core/src/main/kotlin/in/specmatic/core/Feature.kt:592-599 | true exactly for a nullable pattern whose first real alternative is a list; throws when every alternative is the empty sentinel |
| FeatureHelpers.NullableArrayDecidedByFirstReal | core/src/main/kotlin/in/specmatic/core/Feature.kt:592-593 | for a nullable pattern, being a nullable array is decided by the first alternative that is not the sentinel: the sentinels before it and the alternatives after it play no part |
| FeatureHelpers.Setters | core/src/main/kotlin/in/specmatic/core/Feature.kt:852-866 | fails unless the step is three words with `=` in the middle; otherwise scenario setters override background ones, and the new setter wins |
| FeatureHelpers.SettersOfSyntax | core/src/main/kotlin/in/specmatic/core/Feature.kt:852-866 | `v = selector` adds exactly `v -> selector` to the merged setters |
| FeatureHelpers.SettersRejectOneWord | core/src/main/kotlin/in/specmatic/core/Feature.kt:852-866 | a single word is a syntax error naming the step |
| FeatureHelpers.EnumBaseType | core/src/main/kotlin/in/specmatic/core/Feature.kt:813-838 | a nullable base type is refused with its message |
| FeatureHelpers.EnumValue | core/src/main/kotlin/in/specmatic/core/Feature.kt:813-838 | a string value is taken as is, a number must be a 32-bit integer, other base types are refused |
| FeatureHelpers.EnumValues | core/src/main/kotlin/in/specmatic/core/Feature.kt:813-838 | one exact value per choice, in order, or the first choice that fails |
| FeatureHelpers.ParseEnum | core/src/main/kotlin/in/specmatic/core/Feature.kt:813-838 | fewer than five tokens is a syntax error naming the line; a success means the third token is a non-nullable base type and the result is the declaration of the second token over the comma-separated fifth token |
| FeatureHelpers.EnumDeclaration | core/src/main/kotlin/in/specmatic/core/Feature.kt:819-837 | succeeds exactly when every value converts; then `(Name)` maps to a non-nullable choice with one exact value per declared value |
| FeatureHelpers.ParseStringEnum | core/src/main/kotlin/in/specmatic/core/Feature.kt:813-838 | a well-formed string enum step yields exactly its choices as string values |
| FeatureHelpers.ParseNumberEnum | core/src/main/kotlin/in/specmatic/core/Feature.kt:813-838 | a well-formed number enum step yields exactly its choices as number values |
| FeatureHelpers.ParseEnumRefusesNullable | core/src/main/kotlin/in/specmatic/core/Feature.kt:813-838 | a nullable enum type is refused, naming the enum and the type |
| FeatureHelpers.PlusHeaderPattern | core/src/main/kotlin/in/specmatic/core/Feature.kt:971-979 | a header name and a type add that header's pattern; a name alone is an error naming the header |
| FeatureHelpers.PlusHeaderPatternOf | core/src/main/kotlin/in/specmatic/core/Feature.kt:971-983 | `name type` adds `name -> parsed type` and nothing else |
| FeatureHelpers.PlusHeaderPatternAsWritten | core/src/main/kotlin/in/specmatic/core/Feature.kt:971-979 | the error for a name alone, with the message as the template renders it |
| FeatureHelpers.PlusHeaderPatternAsWrittenNoValue | core/src/main/kotlin/in/specmatic/core/Feature.kt:976 | the rendered message wraps the name in brackets and appends `[0]` |
| FeatureHelpers.PlusHeaderPatternAsWrittenDiffers | core/src/main/kotlin/in/specmatic/core/Feature.kt:976 | the rendered message differs from the intended one for every one-word input |
| KotlinStd.SplitSpaces | core/src/main/kotlin/in/specmatic/core/Feature.kt:983 | at least one and at most `limit` parts, none but the last holding whitespace, and the last free of it too unless the limit was reached |
| KotlinStd.SplitSpacesRejoins | core/src/main/kotlin/in/specmatic/core/Feature.kt:983 | for every limit, 1 included, the parts rejoin to the input with one maximal non-empty run of whitespace between neighbours |
| XmlNodes.WithoutNamespacePrefix | core/src/main/kotlin/in/specmatic/core/value/XMLNode.kt:50 | the local name after the first colon: a prefixed name splits into its prefix and this local name (PrefixedNameSplits, QualifiedNameRoundTrip), and a colon-free name is its own local name (UnprefixedName) |
| XmlNodes.NamespacePrefix | core/src/main/kotlin/in/specmatic/core/value/XMLNode.kt:52-58 | "" without a colon, otherwise the text before the first colon |
| XmlNodes.PrefixedNameSplits | core/src/main/kotlin/in/specmatic/core/value/XMLNode.kt:50-58 | prefix, colon and local name rebuild a prefixed name |
| XmlNodes.QualifiedNameRoundTrip | core/src/main/kotlin/in/specmatic/core/value/XMLNode.kt:50-58 | a prefix and a local name are recovered from `prefix:local` |
| XmlNodes.UnprefixedName | core/src/main/kotlin/in/specmatic/core/value/XMLNode.kt:50-58 | a name without a colon has no prefix and is its own local name |
| XmlNodes.GetNamespaces | core/src/main/kotlin/in/specmatic/core/value/XMLNode.kt:60-61 | binds exactly the prefixes declared by `xmlns:` attributes, to their values |
| XmlNodes.NewXmlNode | core/src/main/kotlin/in/specmatic/core/value/XMLNode.kt:63-64 | name and prefix come from the real name; attributes and children are kept |
| XmlNodes.NewXmlNodeNamespaces | core/src/main/kotlin/in/specmatic/core/value/XMLNode.kt:64 | own declarations override the parent's; other parent bindings are inherited |
| XmlNodes.OtherAttributesBindNothing | core/src/main/kotlin/in/specmatic/core/value/XMLNode.kt:60-61 | attributes without the `xmlns:` prefix bind nothing |
| XmlNodes.CreateNewNode | core/src/main/kotlin/in/specmatic/core/value/XMLNode.kt:66-73 | throws exactly for a non-blank unbound prefix; otherwise a childless node keeping every parent namespace |
| XmlNodes.QName | core/src/main/kotlin/in/specmatic/core/value/XMLNode.kt:75-87 | `{uri}name` for a bound prefix, an error for an unbound one, `{xmlns}name` with a default namespace, else the name |
| XmlNodes.CreatedNodeResolves | core/src/main/kotlin/in/specmatic/core/value/XMLNode.kt:66-87 | a node created in scope always has a qualified name |
| XmlNodes.SelfDeclaredPrefixResolves | core/src/main/kotlin/in/specmatic/core/value/XMLNode.kt:64-87 | a node declaring its own prefix resolves to the declared URI |
| XmlNodes.ResolveNamespace | core/src/main/kotlin/in/specmatic/core/value/XMLNode.kt:217-224 | "" for an unprefixed name, the bound URI for a bound prefix, an error naming the prefix otherwise |
| XmlNodes.ResolveNamespaceAgreesWithQName | core/src/main/kotlin/in/specmatic/core/value/XMLNode.kt:75-87 | resolving a node's own name gives the URI in its qualified name |
| XmlNodes.AttributesString | core/src/main/kotlin/in/specmatic/core/value/XMLNode.kt:133-140 | empty exactly when there are no attributes |
| XmlNodes.Lines | core/src/main/kotlin/in/specmatic/core/value/XMLNode.kt:160 | at least one line |
| XmlNodes.LinesWithoutReturns | core/src/main/kotlin/in/specmatic/core/value/XMLNode.kt:160 | without carriage returns, the lines are the parts between line feeds |
| XmlNodes.PrependEmptyIndent | core/src/main/kotlin/in/specmatic/core/value/XMLNode.kt:160 | an empty indent leaves such text unchanged |
| XmlNodes.NodeToString | core/src/main/kotlin/in/specmatic/core/value/XMLNode.kt:132-167 | a childless node renders as a self-closing tag (ChildlessRendering), a node whose first child is text as that text between its tags (TextFirstRendering), any other node as its children between its tags (NestedRendering, PrettyOfNestedNode) |
| XmlNodes.ToStringValue | core/src/main/kotlin/in/specmatic/core/value/XMLNode.kt:126 | the compact rendering, with no indent and no line breaks (ChildlessRendering, TextFirstRendering, NestedRendering) |
| XmlNodes.ToPrettyStringValue | core/src/main/kotlin/in/specmatic/core/value/XMLNode.kt:128-130 | the indented rendering, the same as the compact one for a childless or text-first node (PrettyOfFlatNode), tags on their own lines otherwise (PrettyOfNestedNode) |
| XmlNodes.ChildStrings | core/src/main/kotlin/in/specmatic/core/value/XMLNode.kt:149-154 | one rendered line per child |
| XmlNodes.ChildlessRendering | core/src/main/kotlin/in/specmatic/core/value/XMLNode.kt:142-144 | a childless node renders as `<realName attrs/>` |
| XmlNodes.TextFirstRendering | core/src/main/kotlin/in/specmatic/core/value/XMLNode.kt:156-158 | a node whose first child is text renders as that text between its tags |
| XmlNodes.NestedRendering | core/src/main/kotlin/in/specmatic/core/value/XMLNode.kt:159-161 | compactly, nested children render one after another between the tags |
| XmlNodes.AttributeRendered | core/src/main/kotlin/in/specmatic/core/value/XMLNode.kt:132-169 | every attribute appears as `key="value"` |
| XmlNodes.PrettyOfFlatNode | core/src/main/kotlin/in/specmatic/core/value/XMLNode.kt:126-130 | pretty and compact forms agree unless the first child is a node |
| XmlNodes.PrettyOfNestedNode | core/src/main/kotlin/in/specmatic/core/value/XMLNode.kt:128-161 | the pretty form puts the opening and closing tags on their own lines |
| XmlNodes.FindFirstChildByName | core/src/main/kotlin/in/specmatic/core/value/XMLNode.kt:200-201 | the first element child with that local name (no element child before it has the name), or none exactly when no element child has it |
| XmlNodes.FindFirstChildByNameOrError | core/src/main/kotlin/in/specmatic/core/value/XMLNode.kt:198-199 | the same child, or the caller's error message |
| XmlNodes.FindChildrenByName | core/src/main/kotlin/in/specmatic/core/value/XMLNode.kt:215 | exactly the element children with that local name; order and multiplicity come from FindChildrenByNameConcat and FindChildrenByNameOfOne |
| XmlNodes.FindChildrenByNameConcat | core/src/main/kotlin/in/specmatic/core/value/XMLNode.kt:215 | the children found among concatenated children are those of each part, in order |
| XmlNodes.FindChildrenByNameOfOne | core/src/main/kotlin/in/specmatic/core/value/XMLNode.kt:215 | a single child is found exactly when it is an element with the name, and then once |
| XmlNodes.ElementChildrenConcat | core/src/main/kotlin/in/specmatic/core/value/XMLNode.kt:215 | `filterIsInstance<XMLNode>()` keeps the children's order: it distributes over concatenation |
| XmlNodes.ElementChildrenOfOne | core/src/main/kotlin/in/specmatic/core/value/XMLNode.kt:215 | a single child contributes itself when it is an element and nothing when it is text |
| XmlNodes.FindElementChild | core/src/main/kotlin/in/specmatic/core/value/XMLNode.kt:244-262 | `filterIsInstance<XMLNode>().find` gives the first element child satisfying the predicate, or none exactly when no element child does |
| XmlNodes.FirstChildIsFirstOfChildren | core/src/main/kotlin/in/specmatic/core/value/XMLNode.kt:201-215 | the first child by name is the head of all children by name |
| XmlNodes.FindByPath | core/src/main/kotlin/in/specmatic/core/value/XMLNode.kt:206-213 | the empty path is the node itself; a path is followed leg by leg (FindByPathConcat) |
| XmlNodes.FindFirstChildByPath | core/src/main/kotlin/in/specmatic/core/value/XMLNode.kt:203-204 | the path split on '.': a dot-free path is a child lookup (SingleSegmentPath), a dotted one descends one level per segment (DottedPath) |
| XmlNodes.FindByPathConcat | core/src/main/kotlin/in/specmatic/core/value/XMLNode.kt:204-213 | following a path in two legs equals following it at once |
| XmlNodes.SingleSegmentPath | core/src/main/kotlin/in/specmatic/core/value/XMLNode.kt:204-213 | a path without dots is a child lookup by name |
| XmlNodes.DottedPath | core/src/main/kotlin/in/specmatic/core/value/XMLNode.kt:204-213 | each dotted segment descends into the first child of that name |
| XmlNodes.GetXmlNodeByPath | core/src/main/kotlin/in/specmatic/core/value/XMLNode.kt:235-236 | the node at the path, or an error naming the path |
| XmlNodes.GetXmlNodeOrNull | core/src/main/kotlin/in/specmatic/core/value/XMLNode.kt:238-239 | a node exactly when getXMLNodeByPath returns one, and the same node |
| XmlNodes.GetXmlNodeByName | core/src/main/kotlin/in/specmatic/core/value/XMLNode.kt:241-242 | the first child by name, or an error naming it |
| XmlNodes.GetAttributeValue | core/src/main/kotlin/in/specmatic/core/value/XMLNode.kt:231-233 | a value exactly when the attribute exists, and that attribute's value; else the given error |
| XmlNodes.GetAttributeValueDefault | core/src/main/kotlin/in/specmatic/core/value/XMLNode.kt:231-233 | with the default message, a missing attribute is an error exactly when no attribute has the name, and the message names the attribute and the node's real name |
| XmlNodes.GetAttributeValueAtPath | core/src/main/kotlin/in/specmatic/core/value/XMLNode.kt:226-229 | the path error when the node is missing, else the attribute of that node with a path-naming error |
| XmlNodes.GetXmlNodeByAttributeValue | core/src/main/kotlin/in/specmatic/core/value/XMLNode.kt:244-248 | the first element child whose attribute has the value, an error naming the attribute and value exactly when there is none |
| XmlNodes.FindByNodeNameAndAttribute | core/src/main/kotlin/in/specmatic/core/value/XMLNode.kt:250-254 | the first element child with the name and the attribute value, an error naming the attribute and value exactly when there is none |
| XmlNodes.FirstNode | core/src/main/kotlin/in/specmatic/core/value/XMLNode.kt:256-257 | the first element child, skipping text; none exactly when every child is text |
| XmlNodes.FindNodeByNameAttribute | core/src/main/kotlin/in/specmatic/core/value/XMLNode.kt:259-263 | the first element child whose `name` attribute has the value; "Couldn't find name attribute" exactly when there is none |
| XmlNodes.NameAttributeIsAttributeValue | core/src/main/kotlin/in/specmatic/core/value/XMLNode.kt:244-263 | finding by the `name` attribute finds the same node as finding by attribute value |
| XmlBuilder.Build | core/src/main/kotlin/in/specmatic/core/value/XMLNode.kt:277-298 | a body's children and namespaces: it only appends (BuildAppends), one child per entry call (BuildCountsEntries), namespaces overridden by its declarations (BuildNamespaces) |
| XmlBuilder.Apply | core/src/main/kotlin/in/specmatic/core/value/XMLNode.kt:283-298 | one call: a nested node with the scope outside it (NestedNodeNamespaces), a text child, or added namespaces |
| XmlBuilder.BuildAppends | core/src/main/kotlin/in/specmatic/core/value/XMLNode.kt:283-294 | running a body only appends; earlier children are unchanged |
| XmlBuilder.BuildCountsEntries | core/src/main/kotlin/in/specmatic/core/value/XMLNode.kt:283-294 | each `xmlNode` and `text` call adds exactly one child; `parentNamespaces` adds none |
| XmlBuilder.BuildNamespaces | core/src/main/kotlin/in/specmatic/core/value/XMLNode.kt:296-298 | the namespaces after a body are those before, overridden by the ones it declares |
| XmlBuilder.NestedNodeNamespaces | core/src/main/kotlin/in/specmatic/core/value/XMLNode.kt:283-290 | a nested node sees the outer namespaces, then its body's, then its own; the outer namespaces are unchanged |
| XmlBuilder.TopLevelNamespaces | core/src/main/kotlin/in/specmatic/core/value/XMLNode.kt:266-273 | the top-level node binds exactly what its body and attributes declare, with one child per entry call |
| XmlBuilder.TopLevelNode | core/src/main/kotlin/in/specmatic/core/value/XMLNode.kt:266-273 | the node the top-level `xmlNode` builds: its namespaces and child count are TopLevelNamespaces |
| XmlBuilder.BodyIgnoresOwnAttributes | core/src/main/kotlin/in/specmatic/core/value/XMLNode.kt:283-289 | the children of a nested node do not depend on the node's own attributes |
| XmlBuilder.OwnDeclarationNotSeenByChild | core/src/main/kotlin/in/specmatic/core/value/XMLNode.kt:266-289 | the child of a top-level node is the node its own step makes with no namespaces in scope, whatever the parent declares |
| XmlBuilder.UnscopedNodeUnresolved | core/src/main/kotlin/in/specmatic/core/value/XMLNode.kt:283-289 | a node made with no namespaces in scope binds only its own declarations, and a prefix it does not declare stays unresolved |
| XmlBuilder.XmlNodeBuilder.constructor | core/src/main/kotlin/in/specmatic/core/value/XMLNode.kt:276-281 | a builder starts with no children and a copy of the namespaces |
| XmlBuilder.XmlNodeBuilder.Node | core/src/main/kotlin/in/specmatic/core/value/XMLNode.kt:283-290 | appends exactly the node built from the body in a nested builder; the namespaces are unchanged |
| XmlBuilder.XmlNodeBuilder.Text | core/src/main/kotlin/in/specmatic/core/value/XMLNode.kt:292-294 | appends exactly one text child |
| XmlBuilder.XmlNodeBuilder.ParentNamespaces | core/src/main/kotlin/in/specmatic/core/value/XMLNode.kt:296-298 | merges the bindings into the namespaces; children unchanged |
| XmlBuilder.XmlNodeBuilder.Run | core/src/main/kotlin/in/specmatic/core/value/XMLNode.kt:283-298 | the builder ends in the state the body specifies |
| XmlBuilder.BuildXmlNode | core/src/main/kotlin/in/specmatic/core/value/XMLNode.kt:266-273 | the node the body specifies, with one child per entry call and the declared namespaces |

## Left out

- Gherkin parsing and the keyword dispatch that builds scenarios are not part of this model. They rest on the Cucumber parser and on pattern parsing, whose source is not part of this model. The step parsers take the pattern parser as a parameter (`PatternParser`).
- Scenario and pattern internals are parameters of the model (`ScenarioBehaviour`): request, stub, response and Kafka matching, response generation, stub resolution, and `Scenario`-specific failure wrapping.
- A `Result.Failure` is modelled by its rendered report text and its fluffy flag, because the failure-rendering code is not part of this model. `ContractException.failure()` becomes a non-fluffy failure carrying the exception's message. The source's `isFluffyError` and `resultReport` are not part of this model: a failure's fluffy flag stands for the first and its report text for the second.
- File I/O and contract-file loading, OpenAPI export, `values`/`References`, the contract cache and logging are not modelled.
- `executeTests` is not modelled: it runs a `TestExecutor` whose code is outside the model. Neither is the Kafka lookup through `KafkaMessagePattern.encompasses`, whose code is outside the model.
- DOM conversion (`toXMLNode` from a document, `build`, `parseXML`) is not modelled.
- The platform line separator is modelled as "\n".
- The builder's body is a closure in the source. Here it is a script of `BuildStep`s, covering the three calls a body can make on its builder; any other code inside a body is not modelled.
- Attributes are an ordered list of pairs: the source's insertion-ordered map fixes the printing order. Keys are assumed distinct; when a key repeats, lookups use its last entry.
- `toInt` accepts ASCII digits only; other Unicode digits are not modelled.
- Map iteration order is not modelled. `converge` maps every key through the rename, and when a schema holds both `k` and `k?` the model picks one entry without saying which. Its lemmas assume schemas without such pairs (`WellFormedKeys`).
- XmlNodes.ResolveNamespace: the error message is stated up to its prefix "Namespace p not found in node <node>". The "Available namespaces" listing that follows prints a map in iteration order and is not modelled.
- XmlNodes.NestedRendering: stated only for children whose rendering holds no '\r'. Kotlin's `prependIndent("")` splits into lines and rejoins them with "\n", so a "\r\n" or lone "\r" inside nested children comes out as "\n", even in the compact rendering; PrependIndent models that split, and the lemma does not cover it.
- FeatureHelpers.PlusHeaderPattern: the branch for more than two parts ("Unrecognised header params") cannot be reached, since a split limited to two parts never yields more. The model has no such branch.
- FeatureHelpers.RenameKeys: when two keys collide after renaming, the value kept is left unspecified (Kotlin keeps the one iterated last).
- Features.MatchingScenarios: the function's own contract bounds only the length. Order and multiplicity (MatchingScenariosInOrder, MatchingScenariosConcat), count, completeness and soundness are separate lemmas.
- Features.MatchingStubOutcome: its own contract says only that a returned stub was built by some scenario. Which scenario wins, and the error when none does, are the lemmas MatchingStubFirstWins and MatchingStubNoMatch; MatchingStubReportsFailure, MatchingStubReportsMockFailure and MatchingStubReportsStubError say which failures the NoMatchingScenario report names. An error other than a contract error, thrown while building a stub, propagates unchanged.

## Findings

| source | as written | input that shows it | evidently intended | confidence | as-written member | corrected member |
|---|---|---|---|---|---|---|
| core/src/main/kotlin/in/specmatic/core/Feature.kt:976 | the template `"Header $parts[0] should have a value"` interpolates the whole list and then the literal text `[0]`, giving "Header [Accept][0] should have a value" | a header step whose rest is the single word `Accept` | "Header Accept should have a value" | not executed | FeatureHelpers.PlusHeaderPatternAsWritten, FeatureHelpers.PlusHeaderPatternAsWrittenDiffers | FeatureHelpers.PlusHeaderPattern |
