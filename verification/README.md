# sonarlint-omnisharp, modelled in Dafny

SonarLint for C# runs the SonarAnalyzer rules inside an OmniSharp server.
The system has two halves, and this project models the core of both.

- **The .NET half** is an OmniSharp plugin in two generations, "Services" and
  "Plugin". It takes the rules pushed to it (`/sonarlint/config`) and forces
  each known rule's severity: active rules become warnings, every other known
  rule is suppressed. It replaces the analyzers' `SonarLint.xml` additional
  file and runs Roslyn analysis through a copy of OmniSharp's diagnostic
  worker. For `/sonarlint/codecheck` it turns diagnostics into locations:
  - each location lists the projects that report it, with duplicates merged;
  - each keeps its secondary locations and messages;
  - in the Services generation, each carries the quick fixes that the
    registered code-fix providers produce.
- **The Java half** is the SonarLint plugin that drives OmniSharp:
  - a command builder launches the server;
  - a controller holds the server's lifecycle;
  - endpoints number requests and wait for the responses that a response
    processor reads from the server's output;
  - a file listener forwards module changes;
  - the sensor configures the rules, sends each C# file and saves the issues
    of active rules.

Host capabilities are parameters of the model. These include Roslyn
analysis, the code-fix providers, solution diffing, the string hash, process
launch and what the server prints. All of it is written as functions over
immutable datatypes. Modules follow the source files:

- `rules.dfy`, `rule_severities.dfy`, `sonarlint_xml.dfy` and
  `additional_files.dfy` hold the rule repository, the severity map, the
  `SonarLint.xml` conversion and the additional-file replacement;
- the two `*_config_provider.dfy` and `*_diagnostic_worker.dfy` files hold
  the two generations' analysis configuration and workers;
- `quick_fix.dfy`, `code_actions.dfy` and `quick_fixes_provider.dfy` hold the
  quick fixes;
- `code_location.dfy` holds the `CodeLocation` value type;
- `diagnostic_locations.dfy` and the two `*_diagnostic_extensions.dfy` files
  hold diagnostic locations and grouping by project;
- `code_check.dfy` holds the code-check services;
- `copied_worker.dfy` holds OmniSharp's analyzer-less worker
  `CopiedCSharpDiagnosticWorker` as copied into this repository (a sibling,
  not the base, of the class the SonarLint workers derive from);
- `sensor_rules.dfy`, `omnisharp_sensor.dfy`, `response_processor.dfy`,
  `endpoints.dfy`, `omnisharp_protocol.dfy`, `command_builder.dfy`,
  `file_listener.dfy` and `server_controller.dfy` hold the Java plugin;
- `wrappers.dfy`, `strings.dfy`, `seqs.dfy` and `roslyn.dfy` hold shared
  helpers and the abstract Roslyn objects.

Where the repository's tests and its code disagree, the model follows the
code:

- unknown active rules are ignored, not rejected;
- rules without parameters are kept in `SonarLint.xml`;
- the sensor pushes `{"rules":[…]}`;
- the command line carries `-v`;
- the quick-fix provider copies coordinates unchanged and keeps every
  apply-changes operation.

## Model

| member | source | states |
|---|---|---|
| RuleSeverities.Convert | omnisharp-dotnet/src/Services/Rules/RulesToReportDiagnosticsConverter.cs:40-62 | fails with the `No analyzer rules` argument error exactly when no rule is known; otherwise the map's keys are exactly the known rules, each `Warn` when active and `Suppress` otherwise |
| RuleSeverities.ConvertEnablesKnownActive | omnisharp-dotnet/src/Services/Rules/RulesToReportDiagnosticsConverter.cs:55-59 | the ids the map enables are exactly the active ids that are known rules |
| RuleSeverities.ConvertIgnoresUnknownActive | omnisharp-dotnet/src/Services/Rules/RulesToReportDiagnosticsConverter.cs:47-53 | active ids that are not known rules raise no error and do not change the map |
| RuleSeverities.ConvertNoActiveRules | omnisharp-dotnet/src/Services/Rules/RulesToReportDiagnosticsConverter.cs:55-59 | with no active rule every known rule is suppressed |
| Rules.HandleConfig | omnisharp-dotnet/src/Services/Services/ConfigService.cs:51-55 | the repository afterwards reads back exactly the request's rules (the empty list for null) and the answer is `true` |
| Rules.HandleConfigSupersedes | omnisharp-dotnet/src/Services/Services/ConfigService.cs:53 | the previous content plays no part: the last push wins |
| SonarLintXml.ConvertToConfiguration | omnisharp-dotnet/src/Services/Rules/SonarLintXml/RulesToSonarLintConfigurationConverter.cs:34-55 | one rule per input rule, in order, keyed by the rule id; a null parameter dictionary stays null; settings are null |
| SonarLintXml.ConfigurationRoundTrip | omnisharp-dotnet/src/Services/Rules/SonarLintXml/RulesToSonarLintConfigurationConverter.cs:36-46 | the rule definitions, parameters and order included, can be read back from the configuration |
| SonarLintXml.FileNameOfCombinePath | omnisharp-dotnet/src/SonarLint.OmniSharp.Plugin/Rules/RulesToAdditionalTextConverter.cs:41 | combining any directory with `SonarLint.xml` gives a path whose file name is `SonarLint.xml` |
| SonarLintXml.ToAdditionalText | omnisharp-dotnet/src/SonarLint.OmniSharp.Plugin/Rules/RulesToAdditionalTextConverter.cs:41-65 | the additional text is named `SonarLint.xml` and holds the serialised configuration of the rules |
| AdditionalFiles.ReplaceByFileName | omnisharp-dotnet/src/Services/DiagnosticWorker/SonarLintAnalysisConfigProvider.cs:114-135 | the new file comes last; before it is the filter of the existing files keeping, in order and with repeats, those whose file name differs, ignoring case, from the new file's name, each as often as it occurs; the config-options provider is kept |
| AdditionalFiles.ReplaceByPathSuffix | omnisharp-dotnet/src/SonarLint.OmniSharp.Plugin/DiagnosticWorker/SonarLintDiagnosticWorker.cs:118-132 | the new file comes last; before it is the filter of the existing files keeping, in order and with repeats, those whose path does not end with the new file's name, each as often as it occurs |
| AdditionalFiles.ReplaceByFileNameKeepsOthers | omnisharp-dotnet/src/Services/DiagnosticWorker/SonarLintAnalysisConfigProvider.cs:119-134 | the kept files are a subsequence of the existing ones and each file whose name differs is kept exactly as many times as it occurs; the others are dropped entirely |
| AdditionalFiles.ReplaceByPathSuffixKeepsOthers | omnisharp-dotnet/src/SonarLint.OmniSharp.Plugin/DiagnosticWorker/SonarLintDiagnosticWorker.cs:121-131 | the kept files are a subsequence of the existing ones and each file whose path does not end with the name is kept exactly as many times as it occurs; the others are dropped entirely |
| AdditionalFiles.ReplaceByFileNameLeavesOne | omnisharp-dotnet/src/Services/DiagnosticWorker/SonarLintAnalysisConfigProvider.cs:119-134 | afterwards the new file is the only one whose name matches, ignoring case |
| AdditionalFiles.ReplaceByPathSuffixLeavesOne | omnisharp-dotnet/src/SonarLint.OmniSharp.Plugin/DiagnosticWorker/SonarLintDiagnosticWorker.cs:123-126 | afterwards the new file is the only one whose path ends with its name |
| AdditionalFiles.ReplaceByFileNameIgnoresDirectoryAndCase | omnisharp-dotnet/src/Services/DiagnosticWorker/SonarLintAnalysisConfigProvider.cs:129-134 | an existing file in another directory whose name differs only in letter case is replaced |
| AdditionalFiles.SuffixMatchRemovesMore | omnisharp-dotnet/src/SonarLint.OmniSharp.Plugin/DiagnosticWorker/SonarLintDiagnosticWorker.cs:121-126 | a file named like `MySonarLint.xml` is removed by the older path-suffix rule but kept by the file-name rule |
| PluginDiagnosticWorker.ForwardedCall | omnisharp-dotnet/src/SonarLint.OmniSharp.Plugin/DiagnosticWorker/SonarLintDiagnosticWorker.cs:86-132 | the base analysis receives the same project and document, only the SonarAnalyzer analyzers, the converter's severities, and options equal to `AdditionalFiles.ReplaceByPathSuffix` of the workspace's: the files whose path does not end with `SonarLint.xml`, in order and with repeats, then the new `SonarLint.xml` |
| PluginDiagnosticWorker.AnalyzeDocumentIgnoresAllAnalyzers | omnisharp-dotnet/src/SonarLint.OmniSharp.Plugin/DiagnosticWorker/SonarLintDiagnosticWorker.cs:90-101 | the analyzers proposed by the base worker do not affect the result |
| PluginConfigProvider.Get | omnisharp-dotnet/src/SonarLint.OmniSharp.Plugin/DiagnosticWorker/SonarLintAnalysisConfigProvider.cs:78-131 | the current SonarAnalyzer analyzers, the converter's severities on the same compilation, and options equal to `AdditionalFiles.ReplaceByFileName` of the original: the files not named `SonarLint.xml` in any letter case, in order and with repeats, then the new `SonarLint.xml` |
| PluginConfigProvider.GetReplacesSeveritiesWholesale | omnisharp-dotnet/src/SonarLint.OmniSharp.Plugin/DiagnosticWorker/SonarLintAnalysisConfigProvider.cs:98-104 | the forced severities do not depend on the original compilation's overrides |
| ServicesConfigProvider.NewProvider | omnisharp-dotnet/src/Services/DiagnosticWorker/SonarLintAnalysisConfigProvider.cs:78-83 | the cached rule ids are exactly the ids some analyzer supports |
| ServicesConfigProvider.Get | omnisharp-dotnet/src/Services/DiagnosticWorker/SonarLintAnalysisConfigProvider.cs:86-108 | fails exactly when no rule is known; otherwise the cached analyzers and rule ids, a severity map over the known ids that enables exactly the active ones, and `SonarLint.xml` replaced by file name |
| ServicesConfigProvider.GetReturnsCachedAnalyzers | omnisharp-dotnet/src/Services/DiagnosticWorker/SonarLintAnalysisConfigProvider.cs:94-95 | two calls with any repositories, compilations and options return the same analyzers and rule ids |
| ServicesConfigProvider.GetReplacesSeveritiesWholesale | omnisharp-dotnet/src/Services/DiagnosticWorker/SonarLintAnalysisConfigProvider.cs:102-107 | the forced severities do not depend on the original compilation's overrides |
| ServicesConfigProvider.GetReadsLatestPush | omnisharp-dotnet/src/Services/DiagnosticWorker/SonarLintAnalysisConfigProvider.cs:86-93 | after a `/sonarlint/config` push the next call enables exactly the pushed rules that are known, and appends the pushed rules' `SonarLint.xml` |
| ServicesDiagnosticWorker.AnalyzeDocument | omnisharp-dotnet/src/Services/DiagnosticWorker/SonarLintDiagnosticWorker.cs:58-74 | fails as the config provider fails; otherwise the base analysis's diagnostics whose id is a known rule, in order, each as many times as the base analysis reports it, and no others |
| ServicesDiagnosticWorker.AnalyzeDocumentIgnoresAllAnalyzers | omnisharp-dotnet/src/Services/DiagnosticWorker/SonarLintDiagnosticWorker.cs:62-68 | the analyzers proposed by the base worker do not affect the result |
| ServicesDiagnosticWorker.NoRulesNoDiagnostics | omnisharp-dotnet/src/Services/DiagnosticWorker/SonarLintDiagnosticWorker.cs:70-71 | with no known rule nothing is reported |
| ServicesDiagnosticWorker.KeepRecognisedAll | omnisharp-dotnet/src/Services/DiagnosticWorker/SonarLintDiagnosticWorker.cs:71 | when every diagnostic is of a known rule, all are kept in order |
| ServicesDiagnosticWorker.WithServicesProvider | omnisharp-dotnet/src/Services/DiagnosticWorker/SonarLintDiagnosticWorker.cs:62-73 | wired to the Services config provider, every diagnostic returned has an id some SonarAnalyzer analyzer supports |
| QuickFixes.NewEdit | omnisharp-dotnet/src/Services/DiagnosticWorker/QuickFixes/QuickFix.cs:62-68 | an edit keeps the four coordinates and the new text it is built from |
| QuickFixes.NewFix | omnisharp-dotnet/src/Services/DiagnosticWorker/QuickFixes/QuickFix.cs:45-54 | a null or empty edit list is refused with the "A fix should have at least one edit." argument error on `edits`; otherwise the fix holds the file name and the edits unchanged |
| QuickFixes.NewQuickFix | omnisharp-dotnet/src/Services/DiagnosticWorker/QuickFixes/QuickFix.cs:28-37 | a null or empty fix list is refused with the argument error on `fixes`; otherwise the message and the fixes are kept |
| QuickFixes.NewQuickFixOfNewFixes | omnisharp-dotnet/src/Services/DiagnosticWorker/QuickFixes/QuickFix.cs:30-33 | fixes that the fix constructor accepted make a valid quick fix exactly when there is at least one |
| QuickFixes.NewFixRoundTrip | omnisharp-dotnet/src/Services/DiagnosticWorker/QuickFixes/QuickFix.cs:45-54 | the fix constructor rebuilds a fix from its own file name and edits exactly when it has an edit |
| QuickFixes.NewQuickFixRoundTrip | omnisharp-dotnet/src/Services/DiagnosticWorker/QuickFixes/QuickFix.cs:28-37 | the quick-fix constructor rebuilds a quick fix from its own message and fixes exactly when it has a fix; every valid quick fix is rebuilt |
| CodeActions.FixProviderPool | omnisharp-dotnet/src/Services/DiagnosticWorker/QuickFixes/SonarLintDiagnosticCodeActionsProvider.cs:48 | a provider is in the pool exactly when some code-action provider has it; the pool of concatenated provider lists is the concatenation of their pools, and one provider contributes its own fix providers in order |
| CodeActions.FixProviderPoolAppend | omnisharp-dotnet/src/Services/DiagnosticWorker/QuickFixes/SonarLintDiagnosticCodeActionsProvider.cs:48 | the pool of two provider lists is the first list's pool followed by the second's |
| CodeActions.FixProviderPoolSingle | omnisharp-dotnet/src/Services/DiagnosticWorker/QuickFixes/SonarLintDiagnosticCodeActionsProvider.cs:48 | the pool of one provider is its fix providers, in order and with repeats |
| CodeActions.AskedProviders | omnisharp-dotnet/src/Services/DiagnosticWorker/QuickFixes/SonarLintDiagnosticCodeActionsProvider.cs:56 | the providers asked are those of the pool, in pool order, that can fix the diagnostic's id |
| CodeActions.AskedProvidersFilterPool | omnisharp-dotnet/src/Services/DiagnosticWorker/QuickFixes/SonarLintDiagnosticCodeActionsProvider.cs:56 | the providers asked are the pool filtered on fixing the id: each applicable provider as often as it is in the pool, no other |
| CodeActions.GetCodeActions | omnisharp-dotnet/src/Services/DiagnosticWorker/QuickFixes/SonarLintDiagnosticCodeActionsProvider.cs:54-67 | an empty pool, or a pool where no provider fixes the id, yields no action; what it yields otherwise, the concatenation in pool order of what each provider fixing the id registers, is stated by `CodeActions.GetCodeActionsAreRegistrations` |
| CodeActions.GetCodeActionsAreRegistrations | omnisharp-dotnet/src/Services/DiagnosticWorker/QuickFixes/DiagnosticCodeActionsProvider.cs:55-70 | the actions are the concatenation, in order, of what each applicable provider registers for the diagnostic and document |
| CodeActions.GetCodeActionsAppend | omnisharp-dotnet/src/Services/DiagnosticWorker/QuickFixes/SonarLintDiagnosticCodeActionsProvider.cs:56-66 | providers are consulted independently: the actions of a concatenated pool are the concatenated actions |
| QuickFixesProvider.ChangedSolutions | omnisharp-dotnet/src/Services/DiagnosticWorker/QuickFixes/DiagnosticQuickFixesProvider.cs:105 | the changed solutions are exactly those of the apply-changes operations; other operations contribute nothing |
| QuickFixesProvider.ChangedSolutionsAppend | omnisharp-dotnet/src/Services/DiagnosticWorker/QuickFixes/DiagnosticQuickFixesProvider.cs:105 | the operations are read one by one, in order |
| QuickFixesProvider.OtherOperationIgnored | omnisharp-dotnet/src/Services/DiagnosticWorker/QuickFixes/DiagnosticQuickFixesProvider.cs:105 | inserting an operation that changes no solution anywhere changes nothing |
| QuickFixesProvider.DiffRequests | omnisharp-dotnet/src/Services/DiagnosticWorker/QuickFixes/DiagnosticQuickFixesProvider.cs:101-115 | one diff per changed solution: the first against the current solution, each later one against the previous changed solution; all use the document's directory and pass `true, false` as the two trailing arguments |
| QuickFixesProvider.ToEdit | omnisharp-dotnet/src/Services/DiagnosticWorker/QuickFixes/DiagnosticQuickFixesProvider.cs:128-134 | the edit copies the text change's coordinates and new text without shifting them |
| QuickFixesProvider.ToFix | omnisharp-dotnet/src/Services/DiagnosticWorker/QuickFixes/DiagnosticQuickFixesProvider.cs:124-126 | a modified file with no change fails with the empty-edits error; otherwise one edit per change, in order, on that file |
| QuickFixesProvider.ToFixes | omnisharp-dotnet/src/Services/DiagnosticWorker/QuickFixes/DiagnosticQuickFixesProvider.cs:120-126 | fails exactly when some modified file has no change; otherwise one fix per modified file, in order |
| QuickFixesProvider.ActionQuickFix | omnisharp-dotnet/src/Services/DiagnosticWorker/QuickFixes/DiagnosticQuickFixesProvider.cs:98-118 | a code action becomes a quick fix titled like the action with one fix per modified file of all its diffs; it fails when there is no modified file or one without change |
| QuickFixesProvider.ActionsQuickFixes | omnisharp-dotnet/src/Services/DiagnosticWorker/QuickFixes/DiagnosticQuickFixesProvider.cs:95-121 | one quick fix per code action, in order, failing exactly when some action's quick fix fails |
| QuickFixesProvider.GetDiagnosticQuickFixes | omnisharp-dotnet/src/Services/DiagnosticWorker/QuickFixes/DiagnosticQuickFixesProvider.cs:85-122 | no document for the path gives no quick fix; otherwise the i-th quick fix is the i-th code action's own quick fix under the document's directory, all valid and titled like their actions, failing exactly when one action fails |
| QuickFixesProvider.UnknownDocumentSkipsCodeActions | omnisharp-dotnet/src/Services/DiagnosticWorker/QuickFixes/DiagnosticQuickFixesProvider.cs:88-93 | without a document the code actions are never consulted |
| QuickFixesProvider.ActionWithoutApplyChangesFails | omnisharp-dotnet/src/Services/DiagnosticWorker/QuickFixes/DiagnosticQuickFixesProvider.cs:105-118 | an action whose operations change no solution fails with the empty-fixes argument error |
| CodeLocations.EqualsIsValueEquality | omnisharp-dotnet/src/SonarLint.OmniSharp.Plugin/DiagnosticWorker/DiagnosticLocation/CodeLocation.cs:53-61 | two locations are equal exactly when all six fields agree |
| CodeLocations.ObjectEquals | omnisharp-dotnet/src/SonarLint.OmniSharp.Plugin/DiagnosticWorker/DiagnosticLocation/CodeLocation.cs:63-69 | an object equals a location exactly when it is a location with the same fields; the same reference is equal, anything else is not |
| CodeLocations.GetHashCode | omnisharp-dotnet/src/SonarLint.OmniSharp.Plugin/DiagnosticWorker/DiagnosticLocation/CodeLocation.cs:71-81 | the hash is a signed 32-bit value |
| CodeLocations.EqualsImpliesSameHash | omnisharp-dotnet/src/SonarLint.OmniSharp.Plugin/DiagnosticWorker/DiagnosticLocation/CodeLocation.cs:53-81 | equal locations have equal hashes, whatever the string hash |
| CodeLocations.HashIgnoresEndColumn | omnisharp-dotnet/src/SonarLint.OmniSharp.Plugin/DiagnosticWorker/DiagnosticLocation/CodeLocation.cs:71-81 | the end column is not part of the hash: locations differing only there hash alike but are not equal |
| CodeLocations.HashExample | omnisharp-dotnet/src/SonarLint.OmniSharp.Plugin/DiagnosticWorker/DiagnosticLocation/CodeLocation.cs:75-80 | the 397-multiplier combination with unchecked 32-bit wrap-around gives 62570773 for a location with only line 1 set |
| DiagnosticLocations.FilterTags | omnisharp-dotnet/src/SonarLint.OmniSharp.Plugin/DiagnosticWorker/OmniSharp/DiagnosticExtensions.cs:23-24 | the tags kept are the filter of the input on being `Unnecessary` or `Deprecated`, in order, each as often as it occurs |
| DiagnosticLocations.ToDiagnosticLocation | omnisharp-dotnet/src/SonarLint.OmniSharp.Plugin/DiagnosticWorker/OmniSharp/DiagnosticExtensions.cs:26-45 | the location carries the mapped span's path and zero-based coordinates, the message, the id, the severity's name (one of Hidden, Info, Warning, Error), and `FilterTags` of the custom tags, that is the Unnecessary and Deprecated tags in their order with repeats |
| DiagnosticLocations.LogLevelDeterminesSeverity | omnisharp-dotnet/src/Services/DiagnosticWorker/OmniSharp/DiagnosticExtensions.cs:39 | the log level names the severity: two diagnostics with the same log level have the same severity |
| DiagnosticLocations.LocationMessage | omnisharp-dotnet/src/SonarLint.OmniSharp.Plugin/DiagnosticWorker/DiagnosticLocation/SonarLintDiagnosticLocationExtensions.cs:49 | a secondary location without a property under its index has no message |
| DiagnosticLocations.ToAdditionalLocation | omnisharp-dotnet/src/SonarLint.OmniSharp.Plugin/DiagnosticWorker/DiagnosticLocation/SonarLintDiagnosticLocationExtensions.cs:51-64 | the code location copies the span's path and coordinates and carries the given message |
| DiagnosticLocations.ToAdditionalLocations | omnisharp-dotnet/src/SonarLint.OmniSharp.Plugin/DiagnosticWorker/DiagnosticLocation/SonarLintDiagnosticLocationExtensions.cs:29-43 | one code location per additional location, in order, the i-th with the message stored under property "i" |
| DiagnosticLocations.SecondaryMessages | omnisharp-dotnet/src/SonarLint.OmniSharp.Plugin/DiagnosticWorker/DiagnosticLocation/SonarLintDiagnosticLocationExtensions.cs:49 | the analyzer's property map stores the i-th secondary message under the decimal key of i and holds nothing else |
| DiagnosticLocations.SecondaryMessagesRoundTrip | omnisharp-dotnet/src/SonarLint.OmniSharp.Plugin/DiagnosticWorker/DiagnosticLocation/SonarLintDiagnosticLocationExtensions.cs:29-49 | messages stored by index are read back on the matching additional locations; locations beyond the messages get none |
| DiagnosticLocations.GroupByLocation | omnisharp-dotnet/src/SonarLint.OmniSharp.Plugin/DiagnosticWorker/OmniSharp/DiagnosticExtensions.cs:57-63 | one entry per distinct key; the entries come in the order in which their keys first occur in the items; each holds the first item's location and the projects of all items with that key, in order |
| DiagnosticLocations.GroupByLocationKeepsEveryReport | omnisharp-dotnet/src/SonarLint.OmniSharp.Plugin/DiagnosticWorker/OmniSharp/DiagnosticExtensions.cs:57-63 | the entries' project lists together have one project per item |
| DiagnosticLocations.SameLocationTwoProjects | omnisharp-dotnet/src/SonarLint.OmniSharp.Plugin/DiagnosticWorker/OmniSharp/DiagnosticExtensions.cs:57-63 | two items at the same location give one entry holding the first location and both projects |
| DiagnosticLocations.Reports | omnisharp-dotnet/src/SonarLint.OmniSharp.Plugin/DiagnosticWorker/OmniSharp/DiagnosticExtensions.cs:51 | every diagnostic of every document is paired with its document, and the pairs number the diagnostics |
| DiagnosticLocations.DocumentReportsMembership | omnisharp-dotnet/src/Services/DiagnosticWorker/OmniSharp/DiagnosticExtensions.cs:53 | a document's pairs are exactly its diagnostics with that document |
| DiagnosticLocations.GroupProjectsAreReporters | omnisharp-dotnet/src/SonarLint.OmniSharp.Plugin/DiagnosticWorker/OmniSharp/DiagnosticExtensions.cs:51-61 | the projects of a group are the projects of the reports whose diagnostic has the group's key, in report order |
| DiagnosticLocations.DistinctByProject | omnisharp-dotnet/src/SonarLint.OmniSharp.Plugin/DiagnosticWorker/OmniSharp/DiagnosticExtensions.cs:50-63 | distinct keys, in the order in which they are first reported; every report's key present; each entry's projects are the reporters of its key; each entry's location is the first report's; one project per report overall |
| ServicesDiagnosticExtensions.ToSonarLintLocation | omnisharp-dotnet/src/Services/DiagnosticWorker/OmniSharp/DiagnosticExtensions.cs:27-48 | the location of the diagnostic, its additional locations and the given quick fixes, with no project yet |
| ServicesDiagnosticExtensions.RecordQuickFixes | omnisharp-dotnet/src/Services/DiagnosticWorker/OmniSharp/DiagnosticExtensions.cs:56-62 | fails exactly when some fetch fails, with the first failure's error; otherwise every reported diagnostic gets an entry and other entries are untouched |
| ServicesDiagnosticExtensions.RecordQuickFixesKeepsLast | omnisharp-dotnet/src/Services/DiagnosticWorker/OmniSharp/DiagnosticExtensions.cs:58-62 | a diagnostic reported several times keeps the quick fixes fetched for its last report |
| ServicesDiagnosticExtensions.DistinctDiagnosticLocationsByProject | omnisharp-dotnet/src/Services/DiagnosticWorker/OmniSharp/DiagnosticExtensions.cs:50-77 | fails exactly when a quick-fix fetch fails; otherwise distinct locations covering every report, in the order in which they are first reported, each with the first report's location, the last report's quick fixes and the reporting projects in order, one project per report overall |
| PluginDiagnosticExtensions.ToSonarLintLocation | omnisharp-dotnet/src/SonarLint.OmniSharp.Plugin/DiagnosticWorker/OmniSharp/DiagnosticExtensions.cs:26-45 | the location of the diagnostic and its additional locations, with no project yet |
| PluginDiagnosticExtensions.DistinctDiagnosticLocationsByProject | omnisharp-dotnet/src/SonarLint.OmniSharp.Plugin/DiagnosticWorker/OmniSharp/DiagnosticExtensions.cs:48-64 | distinct locations covering every report, in the order in which they are first reported, each with the first report's location and the reporting projects in order, one project per report overall |
| PluginDiagnosticExtensions.EveryDiagnosticReported | omnisharp-dotnet/src/SonarLint.OmniSharp.Plugin/DiagnosticWorker/OmniSharp/DiagnosticExtensions.cs:50-57 | every diagnostic of every document has an entry with its key |
| PluginDiagnosticExtensions.SameDiagnosticTwoProjects | omnisharp-dotnet/src/SonarLint.OmniSharp.Plugin/DiagnosticWorker/OmniSharp/DiagnosticExtensions.cs:57-62 | the same diagnostic in two projects' documents gives one location naming both projects |
| PluginDiagnosticExtensions.DistinctKeysCount | omnisharp-dotnet/src/SonarLint.OmniSharp.Plugin/DiagnosticWorker/OmniSharp/DiagnosticExtensions.cs:57 | there are as many entries as distinct keys |
| CodeCheck.Matching | omnisharp-dotnet/src/Services/Services/DiagnosticsToQuickFixConverter.cs:51 | a null or empty filter keeps every document; otherwise exactly the documents at that path, in order, each as often as it occurs |
| CodeCheck.Convert | omnisharp-dotnet/src/Services/Services/DiagnosticsToQuickFixConverter.cs:48-55 | fails exactly when a quick-fix fetch fails; otherwise distinct named locations of the matching documents, in the order in which they are first reported, each with the first report's location and the reporting projects, and every named report covered |
| CodeCheck.ConvertReportsOnlyMatchingDocuments | omnisharp-dotnet/src/Services/Services/DiagnosticsToQuickFixConverter.cs:50-52 | every location returned comes from a diagnostic of a document that passes the filter |
| CodeCheck.ConvertEmpty | omnisharp-dotnet/src/Services/Services/DiagnosticsToQuickFixConverter.cs:48-55 | no document gives no location |
| CodeCheck.Dispatch | omnisharp-dotnet/src/Services/Services/SonarLintCodeCheckService.cs:61-73 | a null or empty file name asks for all diagnostics with no filter; any other asks for exactly that file and filters on it |
| CodeCheck.ServicesHandle | omnisharp-dotnet/src/Services/Services/SonarLintCodeCheckService.cs:61-80 | one worker call, as dispatched, and the converter's answer to its result |
| CodeCheck.ServicesHandleNullIsEmpty | omnisharp-dotnet/src/Services/Services/SonarLintCodeCheckService.cs:63-68 | a null file name is handled like an empty one, with a single request for all diagnostics |
| CodeCheck.ServicesHandleGivenFile | omnisharp-dotnet/src/Services/Services/SonarLintCodeCheckService.cs:70-72 | a named file makes exactly one request for that file and every answer location comes from a document at that path |
| CodeCheck.PluginResponse | omnisharp-dotnet/src/SonarLint.OmniSharp.Plugin/Services/SonarLintCodeCheckService.cs:66-75 | distinct named locations of the matching documents, in the order in which they are first reported, each with the first report's location and the reporting projects, and every named report covered |
| CodeCheck.PluginHandle | omnisharp-dotnet/src/SonarLint.OmniSharp.Plugin/Services/SonarLintCodeCheckService.cs:52-64 | one worker call, as dispatched, and the response built from its result |
| CodeCheck.PluginHandleMergesProjects | omnisharp-dotnet/src/SonarLint.OmniSharp.Plugin/Services/SonarLintCodeCheckService.cs:66-75 | a diagnostic reported for the file by two projects is answered once, naming both projects |
| CopiedWorker.ForDocumentUsesOneAnalysis | omnisharp-dotnet/src/Services/DiagnosticWorker/OmniSharp/CopiedCSharpDiagnosticWorker.cs:201-215 | a document of the miscellaneous project depends only on the syntax diagnostics, any other only on the semantic ones |
| CopiedWorker.BareMiscNameIsSemantic | omnisharp-dotnet/src/Services/DiagnosticWorker/OmniSharp/CopiedCSharpDiagnosticWorker.cs:205 | only the name with the `.csproj` suffix selects the syntax-only analysis |
| CopiedWorker.Entry | omnisharp-dotnet/src/Services/DiagnosticWorker/OmniSharp/CopiedCSharpDiagnosticWorker.cs:185 | the result names the document, its path, its project's id and name |
| CopiedWorker.EntriesMembership | omnisharp-dotnet/src/Services/DiagnosticWorker/OmniSharp/CopiedCSharpDiagnosticWorker.cs:172-186 | one result per document with a project name, and only those |
| CopiedWorker.GetDiagnostics | omnisharp-dotnet/src/Services/DiagnosticWorker/OmniSharp/CopiedCSharpDiagnosticWorker.cs:158-199 | no path gives no result; otherwise, in some order, one result per resolved document that has a project name |
| CopiedWorker.GetDiagnosticsSplits | omnisharp-dotnet/src/Services/DiagnosticWorker/OmniSharp/CopiedCSharpDiagnosticWorker.cs:164-168 | the results for two lists of paths together are the results for each list |
| CopiedWorker.UnusableDocumentsSkipped | omnisharp-dotnet/src/Services/DiagnosticWorker/OmniSharp/CopiedCSharpDiagnosticWorker.cs:174-175 | documents without a project or project name add no result |
| CopiedWorker.AllDocumentPaths | omnisharp-dotnet/src/Services/DiagnosticWorker/OmniSharp/CopiedCSharpDiagnosticWorker.cs:244 | every document of every project of the solution has its path listed |
| CopiedWorker.GetAllDiagnostics | omnisharp-dotnet/src/Services/DiagnosticWorker/OmniSharp/CopiedCSharpDiagnosticWorker.cs:242-246 | the results for all documents' paths of the current solution |
| CopiedWorker.AnalyzeProjects | omnisharp-dotnet/src/Services/DiagnosticWorker/OmniSharp/CopiedCSharpDiagnosticWorker.cs:262-272 | fails with the cancellation error exactly when cancellation is seen before some document; otherwise every document's diagnostics, in order |
| CopiedWorker.ProjectDiagnosticsAppend | omnisharp-dotnet/src/Services/DiagnosticWorker/OmniSharp/CopiedCSharpDiagnosticWorker.cs:265-269 | the documents are analysed one after the other |
| CopiedWorker.AnalyzeDocument | omnisharp-dotnet/src/Services/DiagnosticWorker/OmniSharp/CopiedCSharpDiagnosticWorker.cs:256-260 | cancellation fails first; a document without project fails with a null reference; otherwise the document is analysed under its project's name |
| CopiedWorker.OneDocumentProject | omnisharp-dotnet/src/Services/DiagnosticWorker/OmniSharp/CopiedCSharpDiagnosticWorker.cs:256-272 | a one-document project is analysed as that document alone |
| CopiedWorker.ProcessNextItem | omnisharp-dotnet/src/Services/DiagnosticWorker/OmniSharp/CopiedCSharpDiagnosticWorker.cs:135-150 | the result names the file; its locations carry no quick fixes and have distinct keys; each is the first queued location with its key, and they come in the order their keys first occur; every queued diagnostic is covered |
| CopiedWorker.ProcessQueue | omnisharp-dotnet/src/Services/DiagnosticWorker/OmniSharp/CopiedCSharpDiagnosticWorker.cs:121-133 | one result per distinct queued path, in the order the paths were first queued, and each is that path's own result |
| CopiedWorker.ProcessQueueOncePerPath | omnisharp-dotnet/src/Services/DiagnosticWorker/OmniSharp/CopiedCSharpDiagnosticWorker.cs:125 | a path queued twice is processed once |
| SensorRules.RuleKeyOfLine | omnisharp-plugin/src/main/java/org/sonarsource/sonarlint/omnisharp/OmnisharpSensor.java:157-160 | a trimmed line gives a key exactly when it starts with `<key>S` and ends with `</key>`; the key is what lies between and starts with S |
| SensorRules.RuleKeyOfLineRoundTrip | omnisharp-plugin/src/main/java/org/sonarsource/sonarlint/omnisharp/OmnisharpSensor.java:157-160 | a key element written with any surrounding whitespace reads back as its key |
| SensorRules.NonSonarKeyIgnored | omnisharp-plugin/src/main/java/org/sonarsource/sonarlint/omnisharp/OmnisharpSensor.java:157 | keys that do not start with S are not rule keys |
| SensorRules.AllRulesKeys | omnisharp-plugin/src/main/java/org/sonarsource/sonarlint/omnisharp/OmnisharpSensor.java:151-168 | the keys are exactly those of the lines that hold one |
| SensorRules.AllRulesKeysAppend | omnisharp-plugin/src/main/java/org/sonarsource/sonarlint/omnisharp/OmnisharpSensor.java:155-162 | keys keep the file's line order |
| SensorRules.GetAllRulesKeys | omnisharp-plugin/src/main/java/org/sonarsource/sonarlint/omnisharp/OmnisharpSensor.java:151-168 | with no memo the keys read so far are memoised first; a failed read throws "Unable to load rules" and leaves those keys memoised; a successful one returns and memoises the keys; with a memo, it is returned |
| SensorRules.RulesKeysMemoised | omnisharp-plugin/src/main/java/org/sonarsource/sonarlint/omnisharp/OmnisharpSensor.java:152 | after a first call, a second one ignores the file and returns the same keys |
| SensorRules.FailedReadKeepsPartialKeys | omnisharp-plugin/src/main/java/org/sonarsource/sonarlint/omnisharp/OmnisharpSensor.java:151-168 | after a read that failed, the next call returns the keys read before the failure and never reads again |
| SensorRules.RuleJsonOf | omnisharp-plugin/src/main/java/org/sonarsource/sonarlint/omnisharp/OmnisharpSensor.java:106-118 | a rule entry is enabled exactly when the rule is active in csharpsquid, and has parameters exactly when it is active with some |
| SensorRules.BuildConfig | omnisharp-plugin/src/main/java/org/sonarsource/sonarlint/omnisharp/OmnisharpSensor.java:104-120 | one rule entry per known key, in order |
| SensorRules.BuildConfigEnablesActive | omnisharp-plugin/src/main/java/org/sonarsource/sonarlint/omnisharp/OmnisharpSensor.java:104-120 | the enabled ids are exactly the known keys active in csharpsquid, and every known key has an entry |
| ResponseProcessor.TextOrNull | omnisharp-plugin/src/main/java/org/sonarsource/sonarlint/omnisharp/protocol/OmnisharpEndpoints.java:117-120 | the text is null exactly when the member is missing or JSON null |
| ResponseProcessor.ToDiagnostic | omnisharp-plugin/src/main/java/org/sonarsource/sonarlint/omnisharp/OmnisharpProtocol.java:190-215 | the diagnostic keeps the id, the main location and the additional locations in order, or none |
| ResponseProcessor.ToLocationInjective | omnisharp-plugin/src/main/java/org/sonarsource/sonarlint/omnisharp/OmnisharpProtocol.java:218-225 | distinct JSON locations with text give distinct locations |
| ResponseProcessor.Register | omnisharp-plugin/src/main/java/org/sonarsource/sonarlint/omnisharp/protocol/OmnisharpResponseProcessor.java:117-121 | the id gets a fresh handler and other handlers are untouched |
| ResponseProcessor.Remove | omnisharp-plugin/src/main/java/org/sonarsource/sonarlint/omnisharp/protocol/OmnisharpResponseProcessor.java:123-125 | only the id's handler goes |
| ResponseProcessor.RegisterRemove | omnisharp-plugin/src/main/java/org/sonarsource/sonarlint/omnisharp/protocol/OmnisharpResponseProcessor.java:117-125 | registering an unused id and removing it restores the registry |
| ResponseProcessor.HandleJsonMessage | omnisharp-plugin/src/main/java/org/sonarsource/sonarlint/omnisharp/protocol/OmnisharpResponseProcessor.java:69-104 | a response to a registered id stores it and counts the latch down; an unregistered one is dropped; `started` releases the start latch, project events the first-update latch, `Diagnostic` is ignored, the rest is logged |
| ResponseProcessor.HandleLine | omnisharp-plugin/src/main/java/org/sonarsource/sonarlint/omnisharp/protocol/OmnisharpResponseProcessor.java:58-67 | a line that is not JSON is only logged |
| ResponseProcessor.HandleOmnisharpOutput | omnisharp-plugin/src/main/java/org/sonarsource/sonarlint/omnisharp/protocol/OmnisharpResponseProcessor.java:58-104 | the registered ids never change, only a `started` event releases the start latch, and a handler changes only on a response to its id |
| ResponseProcessor.HandleLinesAnswers | omnisharp-plugin/src/main/java/org/sonarsource/sonarlint/omnisharp/protocol/OmnisharpResponseProcessor.java:72-79 | a fresh handler's latch reaches zero exactly when a response to its id appears, and then it holds that response |
| ResponseProcessor.AnsweredStaysAnswered | omnisharp-plugin/src/main/java/org/sonarsource/sonarlint/omnisharp/protocol/OmnisharpResponseProcessor.java:72-79 | an answered handler stays answered by a response to its id |
| ResponseProcessor.LastResponse | omnisharp-plugin/src/main/java/org/sonarsource/sonarlint/omnisharp/protocol/OmnisharpResponseProcessor.java:72-79 | a response to the id is found exactly when some line answers it, and it answers the id |
| ResponseProcessor.LastResponseIsLast | omnisharp-plugin/src/main/java/org/sonarsource/sonarlint/omnisharp/protocol/OmnisharpResponseProcessor.java:72-79 | the response found is that of a line after which no line answers the id |
| ResponseProcessor.HandlerKeepsLastResponse | omnisharp-plugin/src/main/java/org/sonarsource/sonarlint/omnisharp/protocol/OmnisharpResponseProcessor.java:72-79 | over any lines a registered handler ends holding the last response to its id, or what it held when none arrives |
| ResponseProcessor.NonJsonLineOnlyLogged | omnisharp-plugin/src/main/java/org/sonarsource/sonarlint/omnisharp/protocol/OmnisharpResponseProcessor.java:60-64 | a line that is not JSON changes no handler |
| Endpoints.DoRequestAndWaitForResponse | omnisharp-plugin/src/main/java/org/sonarsource/sonarlint/omnisharp/protocol/OmnisharpEndpoints.java:122-142 | takes the next number; a refused write fails with "Unable to send request"; otherwise it succeeds exactly when a response to its number arrives, with the last such response, and times out otherwise; its handler never outlives the call |
| Endpoints.AwaitResponse | omnisharp-plugin/src/main/java/org/sonarsource/sonarlint/omnisharp/protocol/OmnisharpEndpoints.java:131-137 | succeeds with the last response to the id exactly when one arrives, else fails with the timeout message |
| Endpoints.OtherHandlersUnaffected | omnisharp-plugin/src/main/java/org/sonarsource/sonarlint/omnisharp/protocol/OmnisharpEndpoints.java:126-141 | a request's registration does not change what happens to the other handlers |
| Endpoints.SonarDiagnostics | omnisharp-plugin/src/main/java/org/sonarsource/sonarlint/omnisharp/protocol/OmnisharpEndpoints.java:104-115 | a diagnostic is handed over exactly when the response holds it and its id starts with S; they keep the response's order |
| Endpoints.SonarDiagnosticsCounts | omnisharp-plugin/src/main/java/org/sonarsource/sonarlint/omnisharp/protocol/OmnisharpEndpoints.java:104-115 | each diagnostic with an id starting with S is handed over as many times as the response holds it; no other is |
| Endpoints.SonarIssuesAreFiltered | omnisharp-plugin/src/main/java/org/sonarsource/sonarlint/omnisharp/protocol/OmnisharpEndpoints.java:104-115 | reading the issues one by one is the filter on the S prefix of the converted issues |
| Endpoints.CodeCheck | omnisharp-plugin/src/main/java/org/sonarsource/sonarlint/omnisharp/protocol/OmnisharpEndpoints.java:58-63 | a `/sonarlint/codecheck` request for the file whose success hands over the Sonar diagnostics of the last response to its number |
| Endpoints.Config | omnisharp-plugin/src/main/java/org/sonarsource/sonarlint/omnisharp/protocol/OmnisharpEndpoints.java:65-67 | a `/sonarlint/config` request carrying the configuration, numbered next |
| Endpoints.FileChanged | omnisharp-plugin/src/main/java/org/sonarsource/sonarlint/omnisharp/protocol/OmnisharpEndpoints.java:83-90 | a `/filesChanged` request with the one path and its change type, numbered next |
| Endpoints.UpdateBuffer | omnisharp-plugin/src/main/java/org/sonarsource/sonarlint/omnisharp/protocol/OmnisharpEndpoints.java:92-97 | an `/updatebuffer` request with the path and the buffer, numbered next |
| Endpoints.StopServer | omnisharp-plugin/src/main/java/org/sonarsource/sonarlint/omnisharp/protocol/OmnisharpEndpoints.java:99-102 | a `/stopserver` request takes a number but registers no handler |
| Endpoints.RunNumbersRequests | omnisharp-plugin/src/main/java/org/sonarsource/sonarlint/omnisharp/protocol/OmnisharpEndpoints.java:123-145 | consecutive requests, waiting or not, take consecutive numbers and leave the registry's ids as they were |
| Endpoints.FreshEndpointsNumberFromOne | omnisharp-plugin/src/main/java/org/sonarsource/sonarlint/omnisharp/protocol/OmnisharpEndpoints.java:44 | new endpoints number requests from 1 and keep no handler |
| OmnisharpProtocol.ProtocolLogLine | omnisharp-plugin/src/main/java/org/sonarsource/sonarlint/omnisharp/OmnisharpProtocol.java:134-142 | a log message mentioning `SonarLint.xml"` is dropped, any other is logged |
| OmnisharpProtocol.ProtocolAgreesWithProcessor | omnisharp-plugin/src/main/java/org/sonarsource/sonarlint/omnisharp/OmnisharpProtocol.java:76-128 | the handlers evolve as under the response processor, and the reactions differ only on a flooding log event |
| OmnisharpProtocol.ProtocolLinesAgreeWithProcessor | omnisharp-plugin/src/main/java/org/sonarsource/sonarlint/omnisharp/OmnisharpProtocol.java:76-91 | over any output the handlers end as under the response processor |
| OmnisharpProtocol.WriteRequest | omnisharp-plugin/src/main/java/org/sonarsource/sonarlint/omnisharp/OmnisharpProtocol.java:252-264 | the request is written exactly when the input stream is set; otherwise a warning is logged |
| OmnisharpProtocol.DoRequestAndWaitForResponse | omnisharp-plugin/src/main/java/org/sonarsource/sonarlint/omnisharp/OmnisharpProtocol.java:232-250 | takes the next number, writes only when the input is set, and succeeds with the last response to its number exactly when one arrives, else times out naming the request |
| OmnisharpProtocol.StoppedServerTimesOut | omnisharp-plugin/src/main/java/org/sonarsource/sonarlint/omnisharp/OmnisharpProtocol.java:232-256 | against a stopped server this client times out while the endpoints fail at once; both number the request alike |
| OmnisharpProtocol.CodeCheck | omnisharp-plugin/src/main/java/org/sonarsource/sonarlint/omnisharp/OmnisharpProtocol.java:144-149 | succeeds exactly when a response to the check arrives, and then hands over the Sonar diagnostics of the last such response |
| OmnisharpProtocol.FileChanged | omnisharp-plugin/src/main/java/org/sonarsource/sonarlint/omnisharp/OmnisharpProtocol.java:169-176 | a `/filesChanged` request with one entry holding the path and the change type's protocol value, numbered next, failing exactly when unanswered |
| OmnisharpProtocol.StopServer | omnisharp-plugin/src/main/java/org/sonarsource/sonarlint/omnisharp/OmnisharpProtocol.java:185-188 | the stop request is numbered and written, never registered |
| OmnisharpSensor.IssueOf | omnisharp-plugin/src/main/java/org/sonarsource/sonarlint/omnisharp/OmnisharpSensor.java:181-194 | the issue has the csharpsquid rule of the diagnostic's id, the file, the diagnostic's text, and its columns shifted by one to zero-based offsets |
| OmnisharpSensor.FileIssues | omnisharp-plugin/src/main/java/org/sonarsource/sonarlint/omnisharp/OmnisharpSensor.java:178-194 | an issue is saved exactly when it is the issue of some diagnostic whose rule is active; there are no more issues than diagnostics |
| OmnisharpSensor.FileIssuesOfActive | omnisharp-plugin/src/main/java/org/sonarsource/sonarlint/omnisharp/OmnisharpSensor.java:178-194 | the issues are the issue of each diagnostic of an active rule, in order and with repeats: the filter on active rules followed by the conversion |
| OmnisharpSensor.IssuesOfScannedActive | omnisharp-plugin/src/main/java/org/sonarsource/sonarlint/omnisharp/OmnisharpSensor.java:181-183 | every issue saved over the scanned files is of an active rule |
| OmnisharpSensor.ScanFile | omnisharp-plugin/src/main/java/org/sonarsource/sonarlint/omnisharp/OmnisharpSensor.java:170-179 | an unreadable buffer fails before any request; otherwise the buffer update precedes the code check; a completed scan saves exactly the file's issues from the response to its check; an unanswered update or check throws its timeout and saves nothing |
| OmnisharpSensor.UpdateBuffer | omnisharp-plugin/src/main/java/org/sonarsource/sonarlint/omnisharp/OmnisharpProtocol.java:178-183 | an `/updatebuffer` request with the path and the buffer, numbered next, succeeding exactly when OmniSharp answers it |
| OmnisharpSensor.CodeCheck | omnisharp-plugin/src/main/java/org/sonarsource/sonarlint/omnisharp/OmnisharpSensor.java:178 | a code-check request for the file, numbered next; when answered, the issues saved are those of the diagnostics of the response; unanswered, it times out |
| OmnisharpSensor.ScanNext | omnisharp-plugin/src/main/java/org/sonarsource/sonarlint/omnisharp/OmnisharpSensor.java:128-135 | one more file, not cancelled before, carries the loop's account over: a completed file adds its two requests and the issues of its check's response after those of the earlier files; a file that throws adds its requests and no issue |
| OmnisharpSensor.ScanFiles | omnisharp-plugin/src/main/java/org/sonarsource/sonarlint/omnisharp/OmnisharpSensor.java:127-143 | files are scanned in order until cancellation or a failure; cancellation is checked before each file and stops the scan; two requests per scanned file; the issues are those of each scanned file's check response, in file order |
| OmnisharpSensor.Execute | omnisharp-plugin/src/main/java/org/sonarsource/sonarlint/omnisharp/OmnisharpSensor.java:88-144 | with no C# file nothing is started or sent; otherwise the server is started on the base directory, and a failed start throws "Unable to start OmniSharp"; a failed rule-key read throws it and sends nothing; otherwise the configuration goes first and the issues are those of each scanned file's check response, all of active rules |
| OmnisharpSensor.Analyse | omnisharp-plugin/src/main/java/org/sonarsource/sonarlint/omnisharp/OmnisharpSensor.java:104-143 | once started: the rule keys are read and memoised; a failure throws before any request; otherwise as `ConfigureAndScan` |
| OmnisharpSensor.ConfigureAndScan | omnisharp-plugin/src/main/java/org/sonarsource/sonarlint/omnisharp/OmnisharpSensor.java:104-143 | the configuration of every known key is pushed first, then the files are scanned; the issues are those of each scanned file's check response, all of active rules |
| CommandBuilder.MandatoryConfig | omnisharp-plugin/src/main/java/org/sonarsource/sonarlint/omnisharp/OmnisharpCommandBuilder.java:100-102 | a missing property fails with "Property '<key>' is required"; otherwise its value |
| CommandBuilder.AddArguments | omnisharp-plugin/src/main/java/org/sonarsource/sonarlint/omnisharp/OmnisharpCommandBuilder.java:81-98 | `-v`, the host pid option only for a non-zero pid, the MSBuild override only when given, the fixed options, `-s` with the solution or else the base directory, and `--plugin` with the services path last |
| CommandBuilder.AddArgumentsReadBack | omnisharp-plugin/src/main/java/org/sonarsource/sonarlint/omnisharp/OmnisharpCommandBuilder.java:83-94 | reading the arguments back finds the solution target after `-s` and the host pid exactly when it is non-zero |
| CommandBuilder.BuildNet6 | omnisharp-plugin/src/main/java/org/sonarsource/sonarlint/omnisharp/OmnisharpCommandBuilder.java:47-62 | the .NET CLI (given, or `dotnet.exe` on Windows, else `dotnet`), the net6 OmniSharp.dll, then the arguments; fails when the net6 location is missing |
| CommandBuilder.Build | omnisharp-plugin/src/main/java/org/sonarsource/sonarlint/omnisharp/OmnisharpCommandBuilder.java:64-79 | on Windows the OmniSharp.exe of the Windows location; elsewhere mono (given or `mono`) and the mono OmniSharp.exe; then the arguments; fails when that location is missing |
| CommandBuilder.LaunchersShareOptions | omnisharp-plugin/src/main/java/org/sonarsource/sonarlint/omnisharp/OmnisharpCommandBuilder.java:47-79 | both launchers end with the same arguments |
| CommandBuilder.SolutionOverridesBaseDir | omnisharp-plugin/src/main/java/org/sonarsource/sonarlint/omnisharp/OmnisharpCommandBuilder.java:93-94 | with a solution the base directory plays no part |
| FileListener.Process | omnisharp-plugin/src/main/java/org/sonarsource/sonarlint/omnisharp/OmnisharpFileListener.java:57-88 | nothing unless the server started; a created solution or project, or a modified solution, stops the server; any other event is forwarded with its change type |
| FileListener.DeletionNeverStops | omnisharp-plugin/src/main/java/org/sonarsource/sonarlint/omnisharp/OmnisharpFileListener.java:73-75 | any deletion is forwarded, whatever the file |
| FileListener.ProjectFileEvents | omnisharp-plugin/src/main/java/org/sonarsource/sonarlint/omnisharp/OmnisharpFileListener.java:64-82 | creating a project stops the server while modifying it is forwarded as a change |
| FileListener.SolutionFileEvents | omnisharp-plugin/src/main/java/org/sonarsource/sonarlint/omnisharp/OmnisharpFileListener.java:64-80 | creating or modifying a solution stops the server |
| FileListener.ChangeRequest | omnisharp-plugin/src/main/java/org/sonarsource/sonarlint/omnisharp/OmnisharpProtocol.java:169-176 | a forwarded change becomes a `/filesChanged` request with the path and the protocol's change type |
| FileListener.ForwardedEventIsSent | omnisharp-plugin/src/main/java/org/sonarsource/sonarlint/omnisharp/OmnisharpFileListener.java:62-83 | a forwarded event sends the next `/filesChanged` request naming its path with `Create`, `Delete` or `Change` for a creation, deletion or modification |
| ServerController.Complete | omnisharp-plugin/src/main/java/org/sonarsource/sonarlint/omnisharp/OmnisharpServerController.java:114-120 | completing a future only affects a pending one |
| ServerController.OnProcessStarted | omnisharp-plugin/src/main/java/org/sonarsource/sonarlint/omnisharp/OmnisharpServerController.java:82-103 | a started process waits on fresh futures |
| ServerController.OnProcessStartFailed | omnisharp-plugin/src/main/java/org/sonarsource/sonarlint/omnisharp/OmnisharpServerController.java:105-109 | a failed launch fails both futures with its message and returns to STOPPED |
| ServerController.OnStartSignal | omnisharp-plugin/src/main/java/org/sonarsource/sonarlint/omnisharp/OmnisharpServerController.java:91-98 | the start signal moves a pending start to OMNISHARP_STARTED |
| ServerController.OnProjectsLoaded | omnisharp-plugin/src/main/java/org/sonarsource/sonarlint/omnisharp/OmnisharpServerController.java:100-102 | project loading completes only the load future |
| ServerController.OnStartupTimeout | omnisharp-plugin/src/main/java/org/sonarsource/sonarlint/omnisharp/OmnisharpServerController.java:90-95 | a timed-out start fails the pending futures |
| ServerController.OnTerminated | omnisharp-plugin/src/main/java/org/sonarsource/sonarlint/omnisharp/OmnisharpServerController.java:111-123 | the end of the process cancels the pending futures when stopping, fails them as terminated unexpectedly otherwise, and returns to the initial state |
| ServerController.StepsPreserveValid | omnisharp-plugin/src/main/java/org/sonarsource/sonarlint/omnisharp/OmnisharpServerController.java:82-123 | whatever the process and OmniSharp do, OMNISHARP_STARTED goes with a completed start and nothing is pending when stopped |
| ServerController.StoppedIgnoresEvents | omnisharp-plugin/src/main/java/org/sonarsource/sonarlint/omnisharp/OmnisharpServerController.java:60-67 | a fresh machine stays as it is whatever events arrive |
| ServerController.RestartCheck | omnisharp-plugin/src/main/java/org/sonarsource/sonarlint/omnisharp/OmnisharpServerController.java:173-178 | the cached values always become the new ones; a restart is needed exactly when started and some value changed |
| ServerController.StopServer | omnisharp-plugin/src/main/java/org/sonarsource/sonarlint/omnisharp/OmnisharpServerController.java:244-258 | nothing when stopped; otherwise the stop request is sent and the server ends stopped |
| ServerController.StopCancelsPendingStart | omnisharp-plugin/src/main/java/org/sonarsource/sonarlint/omnisharp/OmnisharpServerController.java:111-123 | stopping before termination cancels a pending start; any other termination fails it |
| ServerController.StartCommand | omnisharp-plugin/src/main/java/org/sonarsource/sonarlint/omnisharp/OmnisharpServerController.java:212-220 | the .NET 6 or the framework launcher command, as chosen |
| ServerController.StartResult | omnisharp-plugin/src/main/java/org/sonarsource/sonarlint/omnisharp/OmnisharpServerController.java:185-192 | a completed start succeeds; a cancelled one is a cancellation; a timeout and a failure throw with their messages |
| ServerController.StartServer | omnisharp-plugin/src/main/java/org/sonarsource/sonarlint/omnisharp/OmnisharpServerController.java:212-232 | a command that cannot be built changes nothing; a launch starts the process or fails it |
| ServerController.LazyStart | omnisharp-plugin/src/main/java/org/sonarsource/sonarlint/omnisharp/OmnisharpServerController.java:169-194 | caches the values; stops exactly when started with changed values; starts exactly when stopped then; reports each launch and startup outcome |
| ServerController.RepeatedLazyStartStartsOnce | omnisharp-plugin/src/main/java/org/sonarsource/sonarlint/omnisharp/OmnisharpServerController.java:169-194 | after a successful start, the same call neither stops nor starts anything and succeeds |
| ServerController.FirstLazyStartLaunches | omnisharp-plugin/src/main/java/org/sonarsource/sonarlint/omnisharp/OmnisharpServerController.java:179-184 | a new controller starts on the first call without sending a stop |
| ServerController.ChangedSettingsRestart | omnisharp-plugin/src/main/java/org/sonarsource/sonarlint/omnisharp/OmnisharpServerController.java:173-184 | changing a value while running stops and restarts the server |
| ServerController.WriteRequestOnStdIn | omnisharp-plugin/src/main/java/org/sonarsource/sonarlint/omnisharp/OmnisharpServerController.java:260-271 | false and nothing written when stopped; otherwise written, and a failed write throws |
| ServerController.StoppedServerRefusesRequests | omnisharp-plugin/src/main/java/org/sonarsource/sonarlint/omnisharp/OmnisharpServerController.java:260-264 | a request to a stopped server fails at once and leaves no handler |

## Left out

- Process and stream plumbing is not modelled, and neither is concurrency. This covers `ProcessWrapper`, the request pumpers, `OmnisharpServer`, thread and latch waiting, timeouts, the semaphore throttling and the Rx buffering of the copied worker, and `ImmutableInterlocked`. Waiting is modelled as the list of lines the server prints while the client waits. A timeout is the absence of a response in that list.
- OmnisharpSensor.IssueOf: always builds the issue's range. In the source, `InputFile.newRange` (part of the SonarQube plugin API, not of this model) throws `IllegalArgumentException` for a position outside the file, such as column 0 or a line past the end. That exception escapes `handle`, `codeCheck` and `scanFile`, keeps the issues already saved for the file and ends the scan. The model has no file contents to check a range against, so it neither rejects such a range nor models that abort.
- JSON and XML (de)serialisation is not modelled. This covers Gson and `SonarLintConfigurationSerializer`. Messages are abstract datatypes, and a line that is not JSON is a line without a parsed message. A JSON member that is present but ill-typed is not modelled.
- Roslyn is not modelled, because it is foreign code. This covers compilation, semantic and syntax analysis, `CodeFixProvider.RegisterCodeFixesAsync`, `GetFileChangesAsync` and `Path.Combine`/`resolve`. These are uninterpreted function parameters, and Roslyn objects are datatypes with opaque handles.
- `RuleDefinitionsRepository.cs` is not part of this model. Its behaviour (store, read back, empty at first) is taken from its use in `ConfigService` and from the tests.
- The converter behind the Plugin config provider takes one argument and is not part of this model. It is a parameter. The Services config provider calls a one-argument `Convert` that does not exist. It is modelled as the two-argument `RulesToReportDiagnosticsConverter.Convert` applied to the known rule ids, which is how the tests wire it.
- `SonarLintDiagnosticLocationExtensions.cs` refers to an undefined `CodeCodeLocation` type. It is read as `CodeLocation`.
- The Services `SonarLintCodeCheckService` builds its converter with no argument and does not await `Convert`. The model passes the quick-fix provider and uses the awaited result.
- `ZeroBasedIndexConverter`, assembly loading, MEF composition, the host-services providers, the code-action provider registrations, `PingService`, plugin registration, property definitions, `OmnisharpServicesExtractor` and `describe()` of the sensor are left out. They are wiring without logic of their own.
- The workspace-event handlers of the copied worker are left out because they are event plumbing. This covers `OnWorkspaceChanged`, `OnDocumentOpened`, `QueueForDiagnosis`, `QueueDocumentsForDiagnostics` and `EmitDiagnostics`. Only the processing of a queue of paths is modelled.
- `CopiedCSharpDiagnosticWorkerWithAnalyzers`, the class both SonarLint diagnostic workers derive from (SonarLintDiagnosticWorker.cs in `Services` and in `SonarLint.OmniSharp.Plugin`), is not part of this model. Its `AnalyzeDocument` is the `baseAnalyze` parameter of `PluginDiagnosticWorker` and `ServicesDiagnosticWorker`. `CopiedCSharpDiagnosticWorker`, modelled in `copied_worker.dfy`, is a separate worker that nothing in this repository derives from, so the model does not wire it to either SonarLint worker.
- Path names are plain strings:
  - `Path.GetFileName`/`File.getName` return the text after the last separator;
  - the separators are `/` and `\`, so a drive colon is not a separator;
  - `EndsWith` is ordinal;
  - the case-insensitive comparison folds ASCII letters only.
  - `Path.GetDirectoryName` is the text before the last separator. For a path directly under the root, such as `/a`, the model gives the empty string where .NET gives `/`; trailing separators and UNC roots are not treated specially either.
- `string.GetHashCode` is randomised per process and foreign. `CodeLocations.GetHashCode` takes it as a parameter.
- Grouping equality is abstract. The .NET `GroupBy` over `SonarLintDiagnosticLocation` is modelled with a key function on the location's value. Equality of that key is the grouping equality.
- The sequence numbers are unbounded. Wrap-around of Java's `long` after 2^63 requests is not modelled.
- An interrupted wait is not modelled, so the "Interrupted!" failure never happens in the model.
- ServerController.StopServer: the failure "Could not stop Omnisharp properly" when waiting for termination fails is not modelled. The stop is taken to complete with the process's termination.
- ServerController.OnStartSignal: the race in which the start future's completion handler sets OMNISHARP_STARTED after a termination is not modelled. Neither are the separate timeout of the load-projects future and the log lines.
- ServerController.StartResult: the message of a startup timeout's cause is not used, since the source only tests its type.
- OmnisharpProtocol.WriteRequest: the IOException "Unable to write in Omnisharp stdin" raised by a failed write is not modelled. Only the stopped-server guard is.
- OmnisharpSensor.ScanFiles: what OmniSharp answers is an oracle parameter (`respond`) and `ProgressReport` is left out, so the contracts speak of the requests sent and the issues kept, not of the server's analysis.
- In this snapshot the Java classes do not quite fit together. `OmnisharpFileListener` calls `OmnisharpProtocol.fileChanged` and `OmnisharpServer.stop`, and the response processor expects latches where the controller passes futures. Each class is modelled on its own terms and linked through the shared request and reaction types.
- The sensor pushes `{"rules":[{ruleId,isEnabled,params}]}`, while the .NET `ConfigRequest` reads `activeRules`. The model keeps both shapes as written and does not connect them.
