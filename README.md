# SonarLint for Visual Studio: the analyzer-wrapping framework and rule logic, in Dafny

This project models the core of SonarLint's .NET code analysis (the `sonar-dotnet-codeanalysis` repository) and proves properties of that model.

**The framework that hosts dynamically loaded analyzers.** `WrappingAnalyzer` loads external analyzer plugins. It re-issues each supported descriptor enabled-by-default and tagged NotConfigurable, keyed by diagnostic Id. It hands every plugin proxy analysis contexts. Each proxy forwards a registration to the host context one-to-one. A forwarded callback's report action goes through one gate, `ReportIfEnabled`. The gate drops diagnostics whose Id is disabled or unknown, and rebuilds every other one with the re-issued descriptor. The disabled Ids are toggled by the Visual Studio package's timer. Registration and reporting helpers skip generated code, and a memoised cache remembers which trees are generated.

The framework is modelled as classes that keep the host's registration lists, with tagged callbacks in place of closures. A plugin is a data "program" of registration requests and reports. Proved:
- every forwarded callback, however deeply nested under start scopes, delivers exactly what the gate lets through (`FireForwarded`);
- nothing carrying a disabled Id reaches the host.

**Rule, code-fix and tooling logic.** This part covers the decision procedures of a set of rules, code fixes and tools. Syntax trees and symbols are datatypes; a tree the source walks by parent links is an arena whose parents come first. The rules, fixes and tools covered:
- generic variance (`GenericTypeParameterInOut`);
- conditional simplification to `??` and `?:`;
- parallel collections;
- members shadowing a base member;
- one top-level type per file;
- one statement per line;
- loop counters changed in the body;
- trivial properties;
- casts to interfaces;
- `ByRef` parameters;
- Visual Basic short-circuit operators and their fix;
- the redundant-argument and multiple-declaration fixes;
- the runner's bindable-parent walk;
- the descriptor's rule detail;
- the parameter loader;
- test-project detection;
- the regression-file converter.

Roslyn's semantic queries appear as datatype fields or parameters.

Each module is one source file, or one component of it. `Common` holds string and option helpers shared by all of them.

## Model

| member | source | states |
|---|---|---|
| VsPackage.Toggle | src/MyVsix/VSPackage1.cs:124-143 | an enabled family is disabled and the five Ids are added; a disabled one is enabled and the five Ids removed; afterwards the family is disabled iff all five Ids are; no other rule or Id changes |
| VsPackage.ToggleTwice | src/MyVsix/VSPackage1.cs:134-143 | two toggles from an enabled family give the same rules and the Id set less the five Ids, which is the original set iff it held none of them |
| VsPackage.TimerElapsed | src/MyVsix/VSPackage1.cs:120-143 | the shared switches end up as one toggle of their old state |
| Enablement.RuleSwitches.constructor | src/SonarLint.CSharp/Rules/DynamicAnalyzerLoader/WrappingAnalysisContext.cs:32 | the disabled rule set and the disabled Id set start empty |
| Diagnostics.DiagnosticSink.Report | src/SonarLint.CSharp/Rules/DynamicAnalyzerLoader/WrappingAnalyzer.cs:206 | the host's report action appends exactly the diagnostic it is given |
| ReportGate.GetWrappedContext | src/SonarLint.CSharp/Rules/DynamicAnalyzerLoader/WrappingAnalyzer.cs:115-177 | a wrapped context keeps the subject, options and cancellation token; only the report action, now gated, and the supported-diagnostic test, now always true, differ |
| ReportGate.ReportIfEnabled | src/SonarLint.CSharp/Rules/DynamicAnalyzerLoader/WrappingAnalyzer.cs:181-207 | a diagnostic is forwarded iff its Id is neither disabled nor unknown, and then with the re-issued descriptor and the original location, additional locations, properties and message arguments |
| ReportGate.ReissuedKeepsId | src/SonarLint.CSharp/Rules/DynamicAnalyzerLoader/WrappingAnalyzer.cs:188-204 | with a map keyed by Id, a forwarded diagnostic keeps its Id |
| ReportGate.ReachesHost | src/SonarLint.CSharp/Rules/DynamicAnalyzerLoader/WrappingAnalyzer.cs:181-207 | one report reaches the host at most once, and never through the gate with a disabled Id |
| ReportGate.WrappedReportIsGated | src/SonarLint.CSharp/Rules/DynamicAnalyzerLoader/WrappingAnalyzer.cs:115-207 | reporting through a wrapped context hands the host exactly what the gate lets through |
| ReportGate.GateAll | src/SonarLint.CSharp/Rules/DynamicAnalyzerLoader/WrappingAnalyzer.cs:181-207 | the gate applied to a run of reports forwards no more than were reported |
| ReportGate.GateAllAppend | src/SonarLint.CSharp/Rules/DynamicAnalyzerLoader/WrappingAnalyzer.cs:181-207 | gating distributes over concatenation, so order is kept |
| ReportGate.GateAllSuppresses | src/SonarLint.CSharp/Rules/DynamicAnalyzerLoader/WrappingAnalyzer.cs:183-204 | nothing forwarded carries a disabled or unknown Id; each forwarded diagnostic has the re-issued descriptor and comes from a reported one with the same Id, location and message arguments |
| ReportGate.GateAllPassesEnabled | src/SonarLint.CSharp/Rules/DynamicAnalyzerLoader/WrappingAnalyzer.cs:183-206 | with nothing disabled and every Id known, every report is forwarded, in order, as itself with its re-issued descriptor |
| AnalyzerLoader.Remap | src/SonarLint.CSharp/Rules/DynamicAnalyzerLoader/WrappingAnalyzer.cs:68-81 | the re-issued descriptor keeps every field but two: it is enabled by default, and its tags are NotConfigurable followed by the original tags, with none for null |
| AnalyzerLoader.AnalyzerTypesOf | src/SonarLint.CSharp/Rules/DynamicAnalyzerLoader/WrappingAnalyzer.cs:94-100 | exactly the types of an assembly that derive from DiagnosticAnalyzer, carry the attribute, are not abstract and are classes |
| AnalyzerLoader.AnalyzerTypesOfInOrder | src/SonarLint.CSharp/Rules/DynamicAnalyzerLoader/WrappingAnalyzer.cs:94-100 | the analyzer types in the order the assembly lists them, a type listed twice kept twice |
| AnalyzerLoader.GetAnalyzerTypesInOrder | src/SonarLint.CSharp/Rules/DynamicAnalyzerLoader/WrappingAnalyzer.cs:90-103 | each assembly's analyzer types in turn, repeats across assemblies kept |
| AnalyzerLoader.GetAnalyzerTypes | src/SonarLint.CSharp/Rules/DynamicAnalyzerLoader/WrappingAnalyzer.cs:90-103 | a type is kept iff it is an analyzer type of one of the assemblies |
| AnalyzerLoader.FirstParameterless | src/SonarLint.CSharp/Rules/DynamicAnalyzerLoader/WrappingAnalyzer.cs:86-87 | the first constructor without parameters, or none when every constructor takes some |
| AnalyzerLoader.InvokeDefaultConstructor | src/SonarLint.CSharp/Rules/DynamicAnalyzerLoader/WrappingAnalyzer.cs:83-88 | no plugin without a parameterless constructor; the load fails iff the first parameterless constructor throws; otherwise its plugin |
| AnalyzerLoader.InstantiateAll | src/SonarLint.CSharp/Rules/DynamicAnalyzerLoader/WrappingAnalyzer.cs:53-56 | the list fails iff some parameterless constructor throws; otherwise it is each type's default-constructed plugin, in type order, with types lacking a parameterless constructor skipped |
| AnalyzerLoader.ConstructiblePluginIsLoaded | src/SonarLint.CSharp/Rules/DynamicAnalyzerLoader/WrappingAnalyzer.cs:53-56 | every type whose parameterless constructor builds a plugin contributes that plugin to a successful load |
| AnalyzerLoader.InstantiateAllFailsAtFirstThrow | src/SonarLint.CSharp/Rules/DynamicAnalyzerLoader/WrappingAnalyzer.cs:53-56 | a failed load carries the error of the first type whose invoked constructor throws |
| AnalyzerLoader.AllSupportedDiagnostics | src/SonarLint.CSharp/Rules/DynamicAnalyzerLoader/WrappingAnalyzer.cs:58-59 | exactly the supported descriptors of the loaded plugins |
| AnalyzerLoader.HoldsRemappedStep | src/SonarLint.CSharp/Rules/DynamicAnalyzerLoader/WrappingAnalyzer.cs:61-65 | adding a new Id with its re-issued descriptor keeps the map holding exactly the re-issued descriptors |
| AnalyzerLoader.DescriptorMapStep | src/SonarLint.CSharp/Rules/DynamicAnalyzerLoader/WrappingAnalyzer.cs:61-65 | one loop step: a failure stays, an Id already present fails, a new Id is added with its re-issued descriptor |
| AnalyzerLoader.DescriptorMapHoldsRemapped | src/SonarLint.CSharp/Rules/DynamicAnalyzerLoader/WrappingAnalyzer.cs:58-65 | a built map holds every supported Id, each under its own re-issued descriptor, and no other key |
| AnalyzerLoader.DistinctIdsSnoc | src/SonarLint.CSharp/Rules/DynamicAnalyzerLoader/WrappingAnalyzer.cs:61-65 | a list extended by one descriptor has distinct Ids iff the list had and the new Id is absent from it |
| AnalyzerLoader.HoldsRemappedKeys | src/SonarLint.CSharp/Rules/DynamicAnalyzerLoader/WrappingAnalyzer.cs:58-65 | a built map holds a key iff some supported descriptor has that Id |
| AnalyzerLoader.DescriptorMapSucceedsIffDistinct | src/SonarLint.CSharp/Rules/DynamicAnalyzerLoader/WrappingAnalyzer.cs:58-65 | the constructor completes iff the supported Ids are distinct: a repeated Id makes Add throw rather than overwrite |
| AnalyzerLoader.DescriptorMapKeyedById | src/SonarLint.CSharp/Rules/DynamicAnalyzerLoader/WrappingAnalyzer.cs:61-65 | every key of a built map is the Id of the descriptor stored under it, as the gate's lookup expects |
| AnalyzerLoader.DescriptorMapFailurePersists | src/SonarLint.CSharp/Rules/DynamicAnalyzerLoader/WrappingAnalyzer.cs:61-65 | once a prefix fails, the whole loop fails with the same error |
| AnalyzerLoader.DescriptorMapFailureNamesFirstDuplicate | src/SonarLint.CSharp/Rules/DynamicAnalyzerLoader/WrappingAnalyzer.cs:61-65 | a failed load names the first Id that repeats an earlier one |
| AnalyzerLoader.BuildDescriptorMap | src/SonarLint.CSharp/Rules/DynamicAnalyzerLoader/WrappingAnalyzer.cs:61-65 | the foreach loop computes the descriptor map, stopping at the first repeated Id |
| AnalyzerLoader.SupportedDiagnosticsAreRemapped | src/SonarLint.CSharp/Rules/DynamicAnalyzerLoader/WrappingAnalyzer.cs:41-42 | SupportedDiagnostics holds exactly the re-issued supported descriptors |
| DynamicAnalyzerLoader.Forward | src/SonarLint.CSharp/Rules/DynamicAnalyzerLoader/WrappingAnalysisContext.cs:43-95 | a forwarded registration keeps the scope, the kinds and the action; start scopes hand the action a fresh proxy and every other scope a wrapped context |
| DynamicAnalyzerLoader.ForwardAll | src/SonarLint.CSharp/Rules/DynamicAnalyzerLoader/WrappingAnalysisContext.cs:43-95 | one forwarded registration per request, position by position |
| DynamicAnalyzerLoader.ForwardAllSnoc | src/SonarLint.CSharp/Rules/DynamicAnalyzerLoader/WrappingAnalysisContext.cs:43-95 | forwarding one more request appends its forwarded registration |
| DynamicAnalyzerLoader.WrappingAnalyzer.constructor | src/SonarLint.CSharp/Rules/DynamicAnalyzerLoader/WrappingAnalyzer.cs:37-39 | the analyzer's fields hold the plugins, the descriptor map and the shared switches that Create computed |
| DynamicAnalyzerLoader.WrappingAnalyzer.Create | src/SonarLint.CSharp/Rules/DynamicAnalyzerLoader/WrappingAnalyzer.cs:44-66 | no paths give no plugin list and an empty map; otherwise the instantiated plugins and the map of their re-issued descriptors, or the failure of a throwing constructor or a repeated Id |
| DynamicAnalyzerLoader.WrappingAnalyzer.ReportIfEnabled | src/SonarLint.CSharp/Rules/DynamicAnalyzerLoader/WrappingAnalyzer.cs:181-207 | the host's report action receives the gated diagnostic once, or is not called at all |
| DynamicAnalyzerLoader.WrappingAnalyzer.Initialize | src/SonarLint.CSharp/Rules/DynamicAnalyzerLoader/WrappingAnalyzer.cs:105-111 | each plugin initialises against a fresh proxy over the same host context, so the host receives every plugin's requests forwarded, plugin by plugin; with no analyzer list it throws and registers nothing |
| DynamicAnalyzerLoader.WrappingAnalysisContext.constructor | src/SonarLint.CSharp/Rules/DynamicAnalyzerLoader/WrappingAnalysisContext.cs:37-41 | the proxy keeps the host context and the analyzer |
| DynamicAnalyzerLoader.WrappingAnalysisContext.RegisterCompilationAction | src/SonarLint.CSharp/Rules/DynamicAnalyzerLoader/WrappingAnalysisContext.cs:43-47 | exactly one compilation registration is appended on the host, whose callback gets a wrapped context |
| DynamicAnalyzerLoader.WrappingAnalysisContext.RegisterSemanticModelAction | src/SonarLint.CSharp/Rules/DynamicAnalyzerLoader/WrappingAnalysisContext.cs:49-53 | exactly one semantic-model registration is appended, with a wrapped context |
| DynamicAnalyzerLoader.WrappingAnalysisContext.RegisterSymbolAction | src/SonarLint.CSharp/Rules/DynamicAnalyzerLoader/WrappingAnalysisContext.cs:55-61 | exactly one symbol registration is appended, with the same symbol kinds and a wrapped context |
| DynamicAnalyzerLoader.WrappingAnalysisContext.RegisterCompilationStartAction | src/SonarLint.CSharp/Rules/DynamicAnalyzerLoader/WrappingAnalysisContext.cs:63-67 | exactly one compilation-start registration is appended, whose callback gets a compilation-start proxy |
| DynamicAnalyzerLoader.WrappingAnalysisContext.RegisterCodeBlockStartAction | src/SonarLint.CSharp/Rules/DynamicAnalyzerLoader/WrappingAnalysisContext.cs:69-74 | exactly one code-block-start registration is appended, whose callback gets a code-block-start proxy |
| DynamicAnalyzerLoader.WrappingAnalysisContext.RegisterCodeBlockAction | src/SonarLint.CSharp/Rules/DynamicAnalyzerLoader/WrappingAnalysisContext.cs:76-80 | exactly one code-block registration is appended, with a wrapped context |
| DynamicAnalyzerLoader.WrappingAnalysisContext.RegisterSyntaxTreeAction | src/SonarLint.CSharp/Rules/DynamicAnalyzerLoader/WrappingAnalysisContext.cs:82-86 | exactly one syntax-tree registration is appended, with a wrapped context |
| DynamicAnalyzerLoader.WrappingAnalysisContext.RegisterSyntaxNodeAction | src/SonarLint.CSharp/Rules/DynamicAnalyzerLoader/WrappingAnalysisContext.cs:88-95 | exactly one syntax-node registration is appended, with the same syntax kinds and a wrapped context |
| DynamicAnalyzerLoader.WrappingAnalysisContext.Apply | src/SonarLint.CSharp/Rules/DynamicAnalyzerLoader/WrappingAnalysisContext.cs:43-95 | a plugin's requests arrive on the host forwarded, one registration each, in order |
| DynamicAnalyzerLoader.WrappingCompilationStartAnalysisContext.constructor | src/SonarLint.CSharp/Rules/DynamicAnalyzerLoader/WrappingCompilationStartAnalysisContext.cs:34-45 | the proxy's compilation, options and cancellation token are the host context's |
| DynamicAnalyzerLoader.WrappingCompilationStartAnalysisContext.RegisterCompilationEndAction | src/SonarLint.CSharp/Rules/DynamicAnalyzerLoader/WrappingCompilationStartAnalysisContext.cs:47-51 | exactly one compilation-end registration is appended, with a wrapped compilation context |
| DynamicAnalyzerLoader.WrappingCompilationStartAnalysisContext.RegisterSemanticModelAction | src/SonarLint.CSharp/Rules/DynamicAnalyzerLoader/WrappingCompilationStartAnalysisContext.cs:53-57 | exactly one semantic-model registration is appended, with a wrapped context |
| DynamicAnalyzerLoader.WrappingCompilationStartAnalysisContext.RegisterSymbolAction | src/SonarLint.CSharp/Rules/DynamicAnalyzerLoader/WrappingCompilationStartAnalysisContext.cs:59-64 | exactly one symbol registration is appended, with the same symbol kinds |
| DynamicAnalyzerLoader.WrappingCompilationStartAnalysisContext.RegisterCodeBlockStartAction | src/SonarLint.CSharp/Rules/DynamicAnalyzerLoader/WrappingCompilationStartAnalysisContext.cs:66-70 | exactly one code-block-start registration is appended, whose callback gets a further code-block-start proxy |
| DynamicAnalyzerLoader.WrappingCompilationStartAnalysisContext.RegisterCodeBlockAction | src/SonarLint.CSharp/Rules/DynamicAnalyzerLoader/WrappingCompilationStartAnalysisContext.cs:72-76 | exactly one code-block registration is appended, with a wrapped context |
| DynamicAnalyzerLoader.WrappingCompilationStartAnalysisContext.RegisterSyntaxTreeAction | src/SonarLint.CSharp/Rules/DynamicAnalyzerLoader/WrappingCompilationStartAnalysisContext.cs:78-82 | exactly one syntax-tree registration is appended, with a wrapped context |
| DynamicAnalyzerLoader.WrappingCompilationStartAnalysisContext.RegisterSyntaxNodeAction | src/SonarLint.CSharp/Rules/DynamicAnalyzerLoader/WrappingCompilationStartAnalysisContext.cs:84-90 | exactly one syntax-node registration is appended, with the same syntax kinds |
| DynamicAnalyzerLoader.WrappingCompilationStartAnalysisContext.Apply | src/SonarLint.CSharp/Rules/DynamicAnalyzerLoader/WrappingCompilationStartAnalysisContext.cs:47-90 | a compilation-start action's requests arrive on the host forwarded, in order |
| DynamicAnalyzerLoader.WrappingCodeBlockStartAnalysisContext.constructor | src/SonarLint.CSharp/Rules/DynamicAnalyzerLoader/WrappingCodeBlockStartAnalysisContext.cs:35-47 | the proxy's code block, owning symbol, semantic model, options and cancellation token are the host context's |
| DynamicAnalyzerLoader.WrappingCodeBlockStartAnalysisContext.RegisterCodeBlockEndAction | src/SonarLint.CSharp/Rules/DynamicAnalyzerLoader/WrappingCodeBlockStartAnalysisContext.cs:49-53 | exactly one code-block-end registration is appended, with a wrapped code-block context |
| DynamicAnalyzerLoader.WrappingCodeBlockStartAnalysisContext.RegisterSyntaxNodeAction | src/SonarLint.CSharp/Rules/DynamicAnalyzerLoader/WrappingCodeBlockStartAnalysisContext.cs:55-61 | exactly one syntax-node registration is appended, with the same kinds and a wrapped node context |
| DynamicAnalyzerLoader.WrappingCodeBlockStartAnalysisContext.Apply | src/SonarLint.CSharp/Rules/DynamicAnalyzerLoader/WrappingCodeBlockStartAnalysisContext.cs:49-61 | a code-block-start action's requests arrive on the host forwarded, in order |
| DynamicAnalyzerLoader.RunCompilationStartCallback | src/SonarLint.CSharp/Rules/DynamicAnalyzerLoader/WrappingAnalysisContext.cs:63-67 | a forwarded compilation-start callback hands the action a fresh proxy over the host's start context, with its compilation and options, and the action's requests arrive there forwarded |
| DynamicAnalyzerLoader.RunCodeBlockStartCallback | src/SonarLint.CSharp/Rules/DynamicAnalyzerLoader/WrappingAnalysisContext.cs:69-74 | a forwarded code-block-start callback hands the action a fresh proxy over the host's code-block-start context, and its requests arrive there forwarded |
| DynamicAnalyzerLoader.ReportEachGated | src/SonarLint.CSharp/Rules/DynamicAnalyzerLoader/WrappingAnalyzer.cs:115-207 | reporting through the gated action is the gate applied to each diagnostic in turn |
| DynamicAnalyzerLoader.FireForwarded | src/SonarLint.CSharp/Rules/DynamicAnalyzerLoader/WrappingCodeBlockStartAnalysisContext.cs:49-61 | whatever a forwarded request leads to, however deeply its start scopes nest, the host receives exactly the gate applied, in order, to what the plugin reported |
| DynamicAnalyzerLoader.FireNestedForwarded | src/SonarLint.CSharp/Rules/DynamicAnalyzerLoader/WrappingCompilationStartAnalysisContext.cs:47-90 | the same for the requests made inside a start scope |
| DynamicAnalyzerLoader.FireAllForwarded | src/SonarLint.CSharp/Rules/DynamicAnalyzerLoader/WrappingAnalyzer.cs:105-111 | a whole Initialize's forwarded registrations are all wrapping and deliver the gated reports, in order |
| DynamicAnalyzerLoader.ForwardedReportsAreSuppressed | src/SonarLint.CSharp/Rules/DynamicAnalyzerLoader/WrappingAnalysisContext.cs:32 | nothing the host receives from a forwarded plugin carries a disabled Id, and everything it receives carries the re-issued descriptor |
| GeneratedCode.TryAdd | src/SonarLint/Helpers/DiagnosticAnalyzerContextHelper.cs:145 | an existing entry is never overwritten; a missing key is added with the value |
| GeneratedCode.GeneratedCodeCache.constructor | src/SonarLint/Helpers/DiagnosticAnalyzerContextHelper.cs:124-125 | the cache starts empty |
| GeneratedCode.GeneratedCodeCache.IsGenerated | src/SonarLint/Helpers/DiagnosticAnalyzerContextHelper.cs:127-147 | a null tree is not generated and nothing is consulted; a cached verdict is returned without asking the recogniser; on a miss the recogniser is asked once and its verdict cached and returned |
| GeneratedCode.RegisterSyntaxNodeActionInNonGenerated | src/SonarLint/Helpers/DiagnosticAnalyzerContextHelper.cs:33-48 | exactly one syntax-node registration with the same kinds, whose callback checks the node's tree |
| GeneratedCode.RegisterSyntaxTreeActionInNonGenerated | src/SonarLint/Helpers/DiagnosticAnalyzerContextHelper.cs:50-67 | exactly one compilation-start registration, which registers the guarded tree action |
| GeneratedCode.RegisterCodeBlockStartActionInNonGenerated | src/SonarLint/Helpers/DiagnosticAnalyzerContextHelper.cs:69-82 | exactly one code-block-start registration whose callback checks the block's tree |
| GeneratedCode.RunStartThenTreeCallback | src/SonarLint/Helpers/DiagnosticAnalyzerContextHelper.cs:55-66 | the compilation-start callback registers one tree action, guarded in that start context's compilation |
| GeneratedCode.RunGuardedCallback | src/SonarLint/Helpers/DiagnosticAnalyzerContextHelper.cs:39-81 | the user action runs iff the node's, block's or tree's tree is not generated in the compilation checked; the cache stays consistent with the recogniser |
| GeneratedCode.ReportDiagnosticIfNonGenerated | src/SonarLint/Helpers/DiagnosticAnalyzerContextHelper.cs:88-110 | the diagnostic reaches the report action iff its location's source tree is not generated |
| GeneratedCode.ReportDiagnosticIfNonGeneratedInSymbolCompilation | src/SonarLint/Helpers/DiagnosticAnalyzerContextHelper.cs:112-118 | the overload without a compilation behaves as the one given the context's own compilation |
| ParameterLoader.ChildrenNamed | src/SonarLint/Helpers/ParameterLoader.cs:56-60 | `Elements(name)`: only elements of that name, no more than the children, and some whenever a child has the name |
| ParameterLoader.ChildrenNamedSelects | src/SonarLint/Helpers/ParameterLoader.cs:56-60 | exactly the children of that name, each as often as it occurs, so `Single` sees their true count |
| ParameterLoader.Single | src/SonarLint/Helpers/ParameterLoader.cs:56-64 | `Single()` succeeds iff there is exactly one element, which it returns; otherwise it fails naming the element looked for |
| ParameterLoader.Descendants | src/SonarLint/Helpers/ParameterLoader.cs:54 | every element of the container is among its descendants |
| ParameterLoader.DescendantsClosed | src/SonarLint/Helpers/ParameterLoader.cs:54 | the descendants hold every child of a descendant, and nothing that is neither a given element nor such a child |
| ParameterLoader.SelectRules | src/SonarLint/Helpers/ParameterLoader.cs:54 | exactly the Rule elements that have a Parameters child, in both directions |
| ParameterLoader.ParseParameterList | src/SonarLint/Helpers/ParameterLoader.cs:58-65 | succeeds iff every Parameter element is well formed; then one key/value pair per element, in order, holding that element's Key and Value texts |
| ParameterLoader.ParseRuleSucceedsIffWellFormed | src/SonarLint/Helpers/ParameterLoader.cs:56-71 | a rule parses iff it has a single Key, a single Parameters and well-formed parameters; its entry then holds the Key text and one pair per Parameter |
| ParameterLoader.ParseRulesFromSucceedsIff | src/SonarLint/Helpers/ParameterLoader.cs:54-74 | the rules parse iff every one of them is well formed |
| ParameterLoader.ParseRulesFromEntries | src/SonarLint/Helpers/ParameterLoader.cs:54-74 | a successful parse has one entry per rule, in order, each that rule's own |
| ParameterLoader.ParseRulesFromError | src/SonarLint/Helpers/ParameterLoader.cs:54-74 | a failed parse carries the error of one of the rules |
| ParameterLoader.ParseRulesFromSpec | src/SonarLint/Helpers/ParameterLoader.cs:54-74 | both directions of success, the entries in document order on success, and a rule's own error on failure |
| ParameterLoader.ParseParameters | src/SonarLint/Helpers/ParameterLoader.cs:51-77 | the builder loop yields the same list, or the same first error, as the parse of the selected rules |
| ParameterLoader.ChangeParameterType | src/SonarLint/Helpers/ParameterLoader.cs:132-143 | a String parameter is its text; an Integer is unsigned digits in the 32-bit range, an empty or non-digit text is a format error; any other type is not supported |
| ParameterLoader.IntegerParameterRoundTrip | src/SonarLint/Helpers/ParameterLoader.cs:138-139 | every non-negative 32-bit number written in decimal reads back as itself |
| ParameterLoader.IntegerParameterOverflows | src/SonarLint/Helpers/ParameterLoader.cs:138-139 | a number past the 32-bit range is an overflow, not a wrapped value |
| ParameterLoader.FileName | src/SonarLint/Helpers/ParameterLoader.cs:147 | an empty path throws; otherwise the name is the path's suffix after the last '/', '\\' or volume ':' and holds no separator |
| ParameterLoader.DriveRelativeConfigurationFile | src/SonarLint/Helpers/ParameterLoader.cs:145-148 | a drive-relative path such as C:SonarLint.xml names the configuration file |
| ParameterLoader.FileNameInDirectory | src/SonarLint/Helpers/ParameterLoader.cs:147 | the name of a file appended to a directory after any separator is the appended name |
| ParameterLoader.ConfigurationFileInAnyDirectory | src/SonarLint/Helpers/ParameterLoader.cs:145-148 | a path matches iff its file name equals SonarLint.xml ignoring case, whatever the directory |
| ParameterLoader.ParameteredAnalyzer.constructor | src/SonarLint/Helpers/ParameterLoader.cs:101-104 | a fresh analyzer with its supported Ids and properties and no values set |
| ParameterLoader.ParameteredAnalyzer.SetAttributedProperties | src/SonarLint/Helpers/ParameterLoader.cs:106-127 | the property loop leaves the values and outcome that the reference run over the properties gives |
| ParameterLoader.FirstConfigurationFile | src/SonarLint/Helpers/ParameterLoader.cs:89-90 | a throw is the empty-path error, and a file found is an additional file whose name matches |
| ParameterLoader.FirstConfigurationFileThrows | src/SonarLint/Helpers/ParameterLoader.cs:89-90 | the search throws iff an empty path comes before any matching file |
| ParameterLoader.FirstConfigurationFileFinds | src/SonarLint/Helpers/ParameterLoader.cs:89-90 | a file is found iff a matching file comes before any empty path |
| ParameterLoader.FirstConfigurationFileFindsNone | src/SonarLint/Helpers/ParameterLoader.cs:89-90 | nothing is found iff every path is a non-empty name other than SonarLint.xml |
| ParameterLoader.EmptyPathBeforeConfigurationFileThrows | src/SonarLint/Helpers/ParameterLoader.cs:89-90 | an empty path before any SonarLint.xml makes the run throw with nothing set |
| ParameterLoader.RuleEntryFor | src/SonarLint/Helpers/ParameterLoader.cs:108-114 | no entries gives none; entries with no single supported diagnostic throw; a found entry is one for the single Id, and none found means no entry has that Id |
| ParameterLoader.ValueFor | src/SonarLint/Helpers/ParameterLoader.cs:116-122 | a found value is in the list and has the key; none found means no value has the key |
| ParameterLoader.SetProperties | src/SonarLint/Helpers/ParameterLoader.cs:101-127 | a value once set stays set, and an early return happens only when the rule lookup did not throw |
| ParameterLoader.CompletedSetsEveryAttributedProperty | src/SonarLint/Helpers/ParameterLoader.cs:106-129 | when the run completes, every property carrying one RuleParameter attribute has a value, and none carries several |
| ParameterLoader.SetPropertiesKeepsOthers | src/SonarLint/Helpers/ParameterLoader.cs:106-127 | a value no later property's name overwrites survives the run |
| ParameterLoader.CompletedSetsConfiguredValues | src/SonarLint/Helpers/ParameterLoader.cs:106-127 | on completion a singly-attributed property not shadowed by a later one holds its key's value in the rule entry, converted to the attribute's type |
| ParameterLoader.CompletedNeedsRuleEntry | src/SonarLint/Helpers/ParameterLoader.cs:108-129 | with an attributed property, completion needs an entry for the analyzer's single Id |
| ParameterLoader.ProcessedAnalyzerIsUnchanged | src/SonarLint/Helpers/ParameterLoader.cs:84-87 | an analyzer already processed keeps all its values and is not processed again |
| ParameterLoader.NoConfigurationFileReturnsEarly | src/SonarLint/Helpers/ParameterLoader.cs:89-95 | without a SonarLint.xml among the additional files the run returns early and sets nothing |
| ParameterLoader.NoRuleEntryReturnsEarly | src/SonarLint/Helpers/ParameterLoader.cs:108-114 | without an entry for the analyzer's Id, the first attributed property ends the run early with the values unchanged |
| ParameterLoader.ParameterLoaderState.constructor | src/SonarLint/Helpers/ParameterLoader.cs:79 | the processed set starts empty |
| ParameterLoader.ParameterLoaderState.SetParameterValues | src/SonarLint/Helpers/ParameterLoader.cs:81-130 | the analyzer's values are those of the reference run, and it joins the processed set iff that run completes |
| ParameterLoader.ParameterLoaderState.ApplyConfigurationFile | src/SonarLint/Helpers/ParameterLoader.cs:97-129 | loading, parsing and setting from the found file leave the values of the reference run, and mark the analyzer processed iff it completes |
| ProjectType.ReferencesTestFramework | src/SonarLint/Helpers/ProjectTypeHelper.cs:38-49 | true iff some referenced assembly's upper-cased name is one of the three test framework names |
| ProjectType.IsTest | src/SonarLint/Helpers/ProjectTypeHelper.cs:28-40 | true iff the upper-cased assembly name (empty when missing) contains TEST or some reference is a test framework |
| ProjectType.UpperIgnoresCase | src/SonarLint/Helpers/ProjectTypeHelper.cs:37-39 | names that agree up to letter case upper-case to the same text |
| ProjectType.IsTestIgnoresCase | src/SonarLint/Helpers/ProjectTypeHelper.cs:28-40 | assembly and reference names that differ only in letter case give the same verdict |
| ProjectType.LowerCaseTestAssembly | src/SonarLint/Helpers/ProjectTypeHelper.cs:37-42 | an assembly named in lower case with "tests" in it is a test project |
| ProjectType.XunitReference | src/SonarLint/Helpers/ProjectTypeHelper.cs:38-47 | a reference to xunit.core in lower case makes a test project |
| GenericVariance.SlotRequirements | src/SonarLint.CSharp/Rules/GenericTypeParameterInOut.cs:375-394 | an out slot keeps the requirements, an in slot swaps them, an invariant slot requires both kinds of safety |
| GenericVariance.CanTypeParameterBeVariantInNamed | src/SonarLint.CSharp/Rules/GenericTypeParameterInOut.cs:340-406 | the walk out through containing types, stopping at the first unsafe slot, gives the verdict of the reference definition over all slots |
| GenericVariance.InOutDuality | src/SonarLint.CSharp/Rules/GenericTypeParameterInOut.cs:310-406 | the parameter can be contravariant under some requirements exactly when it can be covariant with output and input requirements swapped |
| GenericVariance.SlotsDuality | src/SonarLint.CSharp/Rules/GenericTypeParameterInOut.cs:362-405 | the same mirror property for the slots of a named type from any position on |
| GenericVariance.WeakerRequirementsStaySafe | src/SonarLint.CSharp/Rules/GenericTypeParameterInOut.cs:310-406 | requiring less safety never turns a safe occurrence unsafe |
| GenericVariance.WeakerSlotsStaySafe | src/SonarLint.CSharp/Rules/GenericTypeParameterInOut.cs:362-405 | the same monotonicity for the slots of a named type |
| GenericVariance.ForeignArgumentBlocksVariance | src/SonarLint.CSharp/Rules/GenericTypeParameterInOut.cs:370-373 | a named type with a type argument other than the parameter rules out either variance, as written |
| GenericVariance.CheckTypeParameterConstraints | src/SonarLint.CSharp/Rules/GenericTypeParameterInOut.cs:285-304 | the early-exit loop over the constraint types computes that every constraint is input-safe |
| GenericVariance.CheckTypeParameterInParameters | src/SonarLint.CSharp/Rules/GenericTypeParameterInOut.cs:265-283 | the early-exit loop computes that every parameter is input-safe, and output-safe too when passed by reference |
| GenericVariance.CheckTypeParameterInMethod | src/SonarLint.CSharp/Rules/GenericTypeParameterInOut.cs:230-252 | constraints, then the return type as output, then the parameters, as the reference definition combines them |
| GenericVariance.CheckTypeParameterInInterface | src/SonarLint.CSharp/Rules/GenericTypeParameterInOut.cs:154-202 | a declared variance gives false; otherwise every base interface, method and event member must allow the variance |
| GenericVariance.ReportFor | src/SonarLint.CSharp/Rules/GenericTypeParameterInOut.cs:206-226 | at most one issue, present iff exactly one of in and out is possible and the parameter has declaring syntax; it is at that syntax and names the possible keyword |
| GenericVariance.CheckInterfaceTypeParameter | src/SonarLint.CSharp/Rules/GenericTypeParameterInOut.cs:81-91 | one type parameter of an interface gives the issue the reference definition gives |
| GenericVariance.CheckInterfaceVariance | src/SonarLint.CSharp/Rules/GenericTypeParameterInOut.cs:73-92 | nothing for an unknown interface symbol; otherwise the issues of all its type parameters, in order |
| GenericVariance.CheckDelegateTypeParameter | src/SonarLint.CSharp/Rules/GenericTypeParameterInOut.cs:117-127 | one type parameter of a delegate gives the issue the reference definition gives |
| GenericVariance.KnownParameters | src/SonarLint.CSharp/Rules/GenericTypeParameterInOut.cs:107-111 | one known parameter per parameter symbol, in order |
| GenericVariance.CollectParameters | src/SonarLint.CSharp/Rules/GenericTypeParameterInOut.cs:107-115 | None iff some parameter symbol is unknown, otherwise the known parameters |
| GenericVariance.CheckDelegateTypeParameters | src/SonarLint.CSharp/Rules/GenericTypeParameterInOut.cs:117-127 | the loop over a delegate's type parameters yields the issues of the reference definition |
| GenericVariance.CheckDelegateVariance | src/SonarLint.CSharp/Rules/GenericTypeParameterInOut.cs:93-128 | nothing when the delegate, its return type or any parameter symbol is unknown; a missing parameter list counts as empty |
| GenericVariance.InterfaceIssuesOnlyForInvariant | src/SonarLint.CSharp/Rules/GenericTypeParameterInOut.cs:81-91 | a type parameter that already declares a variance is never reported |
| GenericVariance.ProducerInterfaceReportsOut | src/SonarLint.CSharp/Rules/GenericTypeParameterInOut.cs:81-91 | `interface IProducer<T> { T Get(); }` reports T as able to be "out" |
| GenericVariance.ConsumerInterfaceReportsIn | src/SonarLint.CSharp/Rules/GenericTypeParameterInOut.cs:81-91 | `interface IConsumer<T> { void Put(T t); }` reports T as able to be "in" |
| ConditionalSimplification.RemoveParentheses | src/SonarLint.CSharp/Rules/ConditionalSimplification.cs:115-117 | the result is never a parenthesized expression |
| ConditionalSimplification.TryGetExpressionComparedToNull | src/SonarLint.CSharp/Rules/ConditionalSimplification.cs:365-392 | found iff the expression is `==` or `!=` with a null literal on one side; the other side is returned, the left tried first, with whether null makes the condition true |
| ConditionalSimplification.ExtractSingleStatement | src/SonarLint.CSharp/Rules/ConditionalSimplification.cs:247-260 | a block gives its statement iff it has exactly one; any other statement is itself |
| ConditionalSimplification.TypesCompatibleSymmetric | src/SonarLint.CSharp/Rules/ConditionalSimplification.cs:140-156 | type compatibility does not depend on the order of the two expressions |
| ConditionalSimplification.AreCandidateInvocations | src/SonarLint.CSharp/Rules/ConditionalSimplification.cs:275-346 | with the corrected target check (see ## Findings): the counting loop over the arguments computes the reference definition: same target, one difference, and one comparison to the condition where there is one |
| ConditionalSimplification.NullCoalescingCases | src/SonarLint.CSharp/Rules/ConditionalSimplification.cs:348-363 | documents the case split only (the value property is NullCoalescingKeepsValue): a true branch equal to the compared expression qualifies iff null is in the false branch, a false branch equal to it iff null is in the true branch, anything else iff the calls are candidates |
| ConditionalSimplification.AreCandidateAssignments | src/SonarLint.CSharp/Rules/ConditionalSimplification.cs:216-245 | simplifiable iff both are assignments of the same kind to the same left side with compatible right sides; null coalescing iff, in addition, the right sides qualify for the compared expression |
| ConditionalSimplification.NullCoalescingNeedsComparison | src/SonarLint.CSharp/Rules/ConditionalSimplification.cs:158-214 | null coalescing is only claimed for a simplifiable pair, and only when a compared expression exists |
| ConditionalSimplification.ReturnsNeedCompatibleTypes | src/SonarLint.CSharp/Rules/ConditionalSimplification.cs:162-181 | with no compared expression, two returns can be simplified exactly when their types are compatible |
| ConditionalSimplification.IfStatementIssues | src/SonarLint.CSharp/Rules/ConditionalSimplification.cs:74-109 | with the corrected target check (see ## Findings): at most one issue; reported iff the if has an else, is no else-if, has differing single-statement branches and CanBeSimplified holds for them with the nullable compared expression; at the if keyword, with "??" and the property True iff CanBeSimplified says null coalescing |
| ConditionalSimplification.ReportedIfKeepsValue | src/SonarLint.CSharp/Rules/ConditionalSimplification.cs:74-109 | every if reported with "??" chooses between two expressions whose `??` form has the same value |
| ConditionalSimplification.NullCheckedReturnsAreReported | src/SonarLint.CSharp/Rules/ConditionalSimplification.cs:74-109 | `if (x == null) return y; else return x;` over a reference type is reported with "??" |
| ConditionalSimplification.ConditionalExpressionIssues | src/SonarLint.CSharp/Rules/ConditionalSimplification.cs:111-138 | with the corrected target check (see ## Findings): at most one issue, suggesting "??"; reported iff the stripped branches differ, the stripped condition compares to null an expression that can be null, and the branches qualify |
| ConditionalSimplification.RemoveParenthesesKeepsValue | src/SonarLint.CSharp/Rules/ConditionalSimplification.cs:115-117 | stripping parentheses does not change an expression's value |
| ConditionalSimplification.ComparisonToNullMeaning | src/SonarLint.CSharp/Rules/ConditionalSimplification.cs:365-392 | a recognised comparison is true exactly when the compared expression's null-ness matches the returned sense |
| ConditionalSimplification.FirstDifferenceFrom | src/SonarLint.CSharp/Rules/ConditionalSimplification.cs:306-313 | the position found is the first one where the argument lists differ, or their length |
| ConditionalSimplification.NoDifferenceFrom | src/SonarLint.CSharp/Rules/ConditionalSimplification.cs:306-345 | with no difference the lists agree and nothing is counted against the condition |
| ConditionalSimplification.SingleDifferenceFrom | src/SonarLint.CSharp/Rules/ConditionalSimplification.cs:306-345 | with exactly one difference it is the first one, the lists agree elsewhere, and the count is that position's |
| ConditionalSimplification.ArgumentValuesAgree | src/SonarLint.CSharp/Rules/ConditionalSimplification.cs:306-345 | replacing one argument with an expression of the same value leaves the argument values unchanged |
| ConditionalSimplification.InvocationRewriteKeepsValue | src/SonarLint.CSharp/Rules/ConditionalSimplification.cs:275-346 | for qualifying calls the `?:` and its `??` form have the same value |
| ConditionalSimplification.NullCoalescingKeepsValue | src/SonarLint.CSharp/Rules/ConditionalSimplification.cs:348-363 | whenever the branches qualify, the `?:` and the suggested `??` have the same value in every environment, given that the rewritten call binds to the same method |
| ConditionalSimplification.ReportedConditionalKeepsValue | src/SonarLint.CSharp/Rules/ConditionalSimplification.cs:111-138 | every reported `?:` has the value of the `??` form it suggests |
| ConditionalSimplification.CandidateInvocationsIgnoreTarget | src/SonarLint.CSharp/Rules/ConditionalSimplification.cs:275-346 | `x != null ? a.M(x) : b.M(y)` passes the check as written but not the corrected one |
| ConditionalSimplification.IgnoredTargetChangesValue | src/SonarLint.CSharp/Rules/ConditionalSimplification.cs:275-346 | for that input the suggested `a.M(x ?? y)` differs in value from the original |
| ParallelCollections.GetElementAccessesFilters | src/SonarLint.CSharp/Rules/ParallelCollections.cs:95-106 | exactly the one-argument element accesses that are not the left side of an assignment, in both directions |
| ParallelCollections.AppendArgumentRecordsPair | src/SonarLint.CSharp/Rules/ParallelCollections.cs:179-185 | adding an argument under a recorded collection records exactly that pair more |
| ParallelCollections.AddKeyRecordsPair | src/SonarLint.CSharp/Rules/ParallelCollections.cs:173-176 | adding a new collection with one argument records exactly that pair more |
| ParallelCollections.AlreadyReportedTable.constructor | src/SonarLint.CSharp/Rules/ParallelCollections.cs:110 | a fresh table records no pair |
| ParallelCollections.AlreadyReportedTable.ContainsOrAdd | src/SonarLint.CSharp/Rules/ParallelCollections.cs:167-192 | true iff an equivalent collection/argument pair was already recorded; afterwards the pair is recorded |
| ParallelCollections.Scan | src/SonarLint.CSharp/Rules/ParallelCollections.cs:115-149 | the matching collections start with access i's own collection |
| ParallelCollections.ScanCollectsParallelCollections | src/SonarLint.CSharp/Rules/ParallelCollections.cs:132-149 | the matching collections are pairwise non-equivalent and each indexed by an argument equivalent to access i's; every repeated access is equivalent to one of them |
| ParallelCollections.ScanMatchingDistinct | src/SonarLint.CSharp/Rules/ParallelCollections.cs:138-147 | no two matching collections are equivalent |
| ParallelCollections.ScanMatchingIndexed | src/SonarLint.CSharp/Rules/ParallelCollections.cs:138-147 | each matching collection is indexed, at or after access i, by an argument equivalent to access i's |
| ParallelCollections.ScanRepeatsMatch | src/SonarLint.CSharp/Rules/ParallelCollections.cs:140-142 | every repeated access is equivalent to a matching collection |
| ParallelCollections.IssuesAt | src/SonarLint.CSharp/Rules/ParallelCollections.cs:159-162 | one issue per reported node, at that node, with the joined collection names |
| ParallelCollections.PairsWithExtends | src/SonarLint.CSharp/Rules/ParallelCollections.cs:153-156 | recording one more collection records exactly its pair with the argument |
| ParallelCollections.StepReportsOnlyParallelCollections | src/SonarLint.CSharp/Rules/ParallelCollections.cs:112-164 | a turn records its own pair and forgets none, only appends issues, and reports only when its argument mentions a loop variable and at least two non-equivalent collections are indexed alike |
| ParallelCollections.ProcessRecordsMore | src/SonarLint.CSharp/Rules/ParallelCollections.cs:112-164 | the recorded pairs only grow from turn to turn |
| ParallelCollections.RepeatedPairAddsNothing | src/SonarLint.CSharp/Rules/ParallelCollections.cs:119-122 | an access whose collection and argument repeat an earlier recorded pair changes nothing on its turn |
| ParallelCollections.ScanFrom | src/SonarLint.CSharp/Rules/ParallelCollections.cs:132-149 | the inner loop yields the matching and repeated collections of the reference scan |
| ParallelCollections.UnionOf | src/SonarLint.CSharp/Rules/ParallelCollections.cs:159 | the loop computes the union of the matching and repeated collections |
| ParallelCollections.RecordAll | src/SonarLint.CSharp/Rules/ParallelCollections.cs:153-156 | the table then records every matching collection with the argument, and nothing else new |
| ParallelCollections.CheckAccess | src/SonarLint.CSharp/Rules/ParallelCollections.cs:114-163 | one turn of the loop leaves the recorded pairs and issues of the reference step |
| ParallelCollections.CheckElementAccessExpressions | src/SonarLint.CSharp/Rules/ParallelCollections.cs:108-165 | the outer loop with a fresh table yields the issues of the reference run over all accesses |
| ParallelCollections.LoopWithoutDeclarationThrows | src/SonarLint.CSharp/Rules/ParallelCollections.cs:71-72 | as written, a for loop without a declaration dereferences null |
| ParallelCollections.NoLoopIdentifierNoIssue | src/SonarLint.CSharp/Rules/ParallelCollections.cs:124-130 | with no loop identifier nothing is reported |
| ParallelCollections.ForLoopWithoutDeclarationIsSilent | src/SonarLint.CSharp/Rules/ParallelCollections.cs:71-75 | corrected: a for loop without a declaration has no loop identifiers and gives no issue |
| ParallelCollections.TestCompilationsAreSkipped | src/SonarLint.CSharp/Rules/ParallelCollections.cs:66-85 | test compilations get no issue from either loop kind |
| ParallelCollections.SameCollectionTwiceIsCompliant | src/Tests/SonarLint.UnitTest/TestCases/ParallelCollections.cs:37-45 | reading `creatures[i]` twice in one loop is compliant |
| ParallelCollections.DictionaryReadsAreReported | src/Tests/SonarLint.UnitTest/TestCases/ParallelCollections.cs:47-58 | the three reads of `dict1[key]` and the read of `dict2[key]` are reported, and the write to `dict2[key]` is not |
| MemberShadows.SimilarMembersSelect | src/SonarLint/Rules/MemberShadowsParentMember.cs:122-125 | exactly the non-private members whose lower-cased name is the lowered name; private members never count |
| MemberShadows.BaseChain | src/SonarLint/Rules/MemberShadowsParentMember.cs:117-141 | the base types visited are never error types |
| MemberShadows.NoReportIffNoHit | src/SonarLint/Rules/MemberShadowsParentMember.cs:119-142 | nothing is reported iff no base type in the chain has a similar member |
| MemberShadows.ReportIsFirstHit | src/SonarLint/Rules/MemberShadowsParentMember.cs:119-142 | otherwise the report names the first base type with a similar member: the exact-match message if one matches exactly, else the similar message with the first similar member |
| MemberShadows.CheckMember | src/SonarLint/Rules/MemberShadowsParentMember.cs:98-143 | the while loop over base types gives the issues of the reference definition |
| MemberShadows.MemberIssuesExclusions | src/SonarLint/Rules/MemberShadowsParentMember.cs:100-114 | at most one issue, at the member's identifier, and none for a missing symbol, an override or an interface implementation |
| MemberShadows.MethodIssues | src/SonarLint/Rules/MemberShadowsParentMember.cs:83-95 | a method named Equals is never reported; any other gets at most one issue, at its identifier |
| MemberShadows.CheckFieldDeclaration | src/SonarLint/Rules/MemberShadowsParentMember.cs:64-73 | the loop over declarators gives one CheckMember result per declarator, in order |
| MemberShadows.FieldIssuesPerDeclarator | src/SonarLint/Rules/MemberShadowsParentMember.cs:68-71 | at most one issue per declarator, each at one of the declarators' identifiers |
| MemberShadows.FleshIsReported | src/Tests/SonarLint.UnitTest/TestCases/MemberShadowsParentMember.cs:35 | `FLESH` in Raspberry is reported as similar to Fruit's protected `flesh` |
| MemberShadows.FleshColorIsCompliant | src/Tests/SonarLint.UnitTest/TestCases/MemberShadowsParentMember.cs:36 | `FLESH_COLOR` is compliant, because the only similar member is private |
| MemberShadows.EqualsMethodIsCompliant | src/Tests/SonarLint.UnitTest/TestCases/MemberShadowsParentMember.cs:28 | Fruit's `Equals()` would clash with Object's, but the method handler skips it |
| TopLevelTypes.KindsOfInterestAreExactly | src/SonarLint/Rules/SingleTopLevelTypePerFile.cs:42-75 | the C# kinds of interest are exactly class and interface declarations; the Visual Basic ones class, interface and module blocks |
| TopLevelTypes.Ancestors | src/SonarLint/Rules/SingleTopLevelTypePerFileBase.cs:82-90 | the ancestors found lie strictly before the node in document order |
| TopLevelTypes.TopLevelIffNoAncestorOfInterest | src/SonarLint/Rules/SingleTopLevelTypePerFileBase.cs:80-92 | a node is top-level iff none of its proper ancestors has a kind of interest |
| TopLevelTypes.CheckIsTopLevel | src/SonarLint/Rules/SingleTopLevelTypePerFileBase.cs:80-92 | the while loop up the parents computes exactly that |
| TopLevelTypes.TopLevelTypesOrdered | src/SonarLint/Rules/SingleTopLevelTypePerFileBase.cs:72-78 | the collected nodes are in strictly increasing document order |
| TopLevelTypes.TopLevelTypesMembers | src/SonarLint/Rules/SingleTopLevelTypePerFileBase.cs:72-78 | a node is collected iff it is of a kind of interest and top-level |
| TopLevelTypes.TopLevelTypesSelect | src/SonarLint/Rules/SingleTopLevelTypePerFileBase.cs:72-78 | the collected nodes are exactly the top-level nodes of interest, each once, in document order |
| TopLevelTypes.NestedTypesAreNotTopLevel | src/SonarLint/Rules/SingleTopLevelTypePerFileBase.cs:80-92 | a type nested in a type of interest is never collected |
| TopLevelTypes.GetTopLevelTypes | src/SonarLint/Rules/SingleTopLevelTypePerFileBase.cs:72-78 | the filter over the nodes gives those top-level nodes |
| TopLevelTypes.ReportLabels | src/SonarLint/Rules/SingleTopLevelTypePerFile.cs:48-98 | a node of interest is reported at its identifier, labelled class, interface or module by its kind |
| TopLevelTypes.ReportsForEach | src/SonarLint/Rules/SingleTopLevelTypePerFileBase.cs:64-67 | each collected node gives exactly one report, in order |
| TopLevelTypes.TreeIssuesReportEachTopLevelType | src/SonarLint/Rules/SingleTopLevelTypePerFileBase.cs:58-69 | with two or more top-level types each is reported once, at its identifier; with at most one nothing is reported |
| TopLevelTypes.TopLevelTypesAreOfInterest | src/SonarLint/Rules/SingleTopLevelTypePerFileBase.cs:72-78 | every collected node is a node of the tree of a kind of interest |
| TopLevelTypes.GeneratedTreesAreSkipped | src/SonarLint/Rules/SingleTopLevelTypePerFileBase.cs:58 | a generated tree is never analysed |
| TopLevelTypes.AnalyzeTree | src/SonarLint/Rules/SingleTopLevelTypePerFileBase.cs:58-69 | the tree action yields the issues of the reference definition |
| SingleStatementPerLine.StatementsSelect | src/SonarLint/Rules/SingleStatementPerLineBase.cs:81-89 | the collected nodes are exactly the statements that are not excluded, in document order |
| SingleStatementPerLine.GetContainingStatement | src/SonarLint/Rules/SingleStatementPerLineBase.cs:92-103 | the while loop that climbs from the token's parent gives the reference containing statement |
| SingleStatementPerLine.ContainingStatementIsExcluded | src/SonarLint/Rules/SingleStatementPerLineBase.cs:94-102 | the walk stops only at nothing or at an excluded statement |
| SingleStatementPerLine.EndLineBranchNeverFires | src/SonarLint/Rules/SingleStatementPerLineBase.cs:121-127 | a collected statement is never its last token's containing statement, so its end line is never added |
| SingleStatementPerLine.OnLine | src/SonarLint/Rules/SingleStatementPerLineBase.cs:116-119 | a line's group holds only statements of the list |
| SingleStatementPerLine.OnLineSelects | src/SonarLint/Rules/SingleStatementPerLineBase.cs:116-119 | a line's group is exactly the listed statements starting on it, in increasing order |
| SingleStatementPerLine.OnLineSnoc | src/SonarLint/Rules/SingleStatementPerLineBase.cs:116-119 | one statement more joins the group of its own start line only |
| SingleStatementPerLine.GroupsStepAt | src/SonarLint/Rules/SingleStatementPerLineBase.cs:130-134 | on each line, adding a statement to the cache keeps that line's entry equal to its group |
| SingleStatementPerLine.GroupsStep | src/SonarLint/Rules/SingleStatementPerLineBase.cs:116-134 | adding a statement new to its start line keeps the cache grouping the statements by start line |
| SingleStatementPerLine.CacheGroupsByStartLine | src/SonarLint/Rules/SingleStatementPerLineBase.cs:66-70 | after each statement the cache maps each line to exactly the statements so far that start on it, with no other entry |
| SingleStatementPerLine.NextIsNewToItsLine | src/SonarLint/Rules/SingleStatementPerLineBase.cs:66-70 | in document order, a statement is not yet in its start line's group |
| SingleStatementPerLine.MinStartMaxEndBounds | src/SonarLint/Rules/SingleStatementPerLineBase.cs:110-111 | the min and max are attained by some statement and bound all their intersections with the line |
| SingleStatementPerLine.TreeCacheGroups | src/SonarLint/Rules/SingleStatementPerLineBase.cs:64-70 | the tree's cache groups all its collected statements by start line, and every key is a line of the text |
| SingleStatementPerLine.SeveralOnLine | src/SonarLint/Rules/SingleStatementPerLineBase.cs:73 | a group has more than one statement iff two different statements start on that line |
| SingleStatementPerLine.TreeIssuesPerLine | src/SonarLint/Rules/SingleStatementPerLineBase.cs:64-77 | a line is reported iff two different collected statements start on it |
| SingleStatementPerLine.LocationWithinLine | src/SonarLint/Rules/SingleStatementPerLineBase.cs:105-114 | the location lies within the line and starts no later than any of the statements |
| SingleStatementPerLine.TreeIssueSpan | src/SonarLint/Rules/SingleStatementPerLineBase.cs:72-114 | each reported span lies within its line and starts no later than any statement starting there |
| SingleStatementPerLine.BuildLineCache | src/SonarLint/Rules/SingleStatementPerLineBase.cs:66-70 | the foreach fills the cache the reference grouping describes |
| SingleStatementPerLine.ReportLines | src/SonarLint/Rules/SingleStatementPerLineBase.cs:72-77 | one location per line with more than one statement, and no other line |
| SingleStatementPerLine.AnalyzeTree | src/SonarLint/Rules/SingleStatementPerLineBase.cs:60-78 | the tree action yields the issues of the reference definition, and nothing for a generated tree |
| SingleStatementPerLine.CollectStatements | src/SonarLint/Rules/SingleStatementPerLineBase.cs:81-89 | the walk over the nodes collects the reference statement list |
| ForLoopCounterChanged.SideEffectKindsAreExactly | src/SonarLint.CSharp/Rules/ForLoopCounterChanged.cs:69-95 | the side-effect kinds are exactly the two prefix, two postfix and eleven assignment kinds |
| ForLoopCounterChanged.GroupOf | src/SonarLint.CSharp/Rules/ForLoopCounterChanged.cs:137 | a side-effect kind lies in exactly one group, so the Single lookup never fails |
| ForLoopCounterChanged.AffectedIsOperandOrLeft | src/SonarLint.CSharp/Rules/ForLoopCounterChanged.cs:73-94 | the affected expression is the operand of ++ and --, and the left side of every assignment kind |
| ForLoopCounterChanged.AffectedUpToSelects | src/SonarLint.CSharp/Rules/ForLoopCounterChanged.cs:132-138 | the affected expressions are those of the side-effect nodes, in document order, and of no other node |
| ForLoopCounterChanged.DeclaredFromSelects | src/SonarLint.CSharp/Rules/ForLoopCounterChanged.cs:119-123 | the declared counters are exactly the known symbols of the declarators, never null |
| ForLoopCounterChanged.InitializedFromSelects | src/SonarLint.CSharp/Rules/ForLoopCounterChanged.cs:125-127 | the initialized counters are exactly the symbols of the left sides of simple assignments |
| ForLoopCounterChanged.LoopCountersSelect | src/SonarLint.CSharp/Rules/ForLoopCounterChanged.cs:117-130 | the union holds each counter once and nothing else, with null only from a simple-assignment initializer whose left side binds to nothing |
| ForLoopCounterChanged.ReportsUpToSelects | src/SonarLint.CSharp/Rules/ForLoopCounterChanged.cs:105-112 | an affected expression is reported iff it binds to a loop counter |
| ForLoopCounterChanged.ForIssuesReportCounterUpdates | src/SonarLint.CSharp/Rules/ForLoopCounterChanged.cs:99-114 | an issue is reported iff a side-effect node of the body updates an expression bound to a loop counter; it sits at that expression and quotes its text |
| ForLoopCounterChanged.ForIssuesAtMostOnePerUpdate | src/SonarLint.CSharp/Rules/ForLoopCounterChanged.cs:105-112 | at most one issue per affected expression of the body |
| ForLoopCounterChanged.OnlyTheBodyIsSearched | src/SonarLint.CSharp/Rules/ForLoopCounterChanged.cs:105 | the condition and the incrementors never change the issues |
| ForLoopCounterChanged.GeneratedCodeIsSkipped | src/SonarLint.CSharp/Rules/ForLoopCounterChanged.cs:99 | nothing is reported in generated code |
| ForLoopCounterChanged.CheckForStatement | src/SonarLint.CSharp/Rules/ForLoopCounterChanged.cs:100-113 | the foreach over the affected expressions yields the issues of the reference definition |
| PropertyToAutoProperty.TryGetFieldAcceptsExactly | src/SonarLint.CSharp/Rules/PropertyToAutoProperty.cs:128-168 | a field is found exactly for a bare field name, `this.field`, or `T.field` where T is the declaring type |
| PropertyToAutoProperty.FirstOfKind | src/SonarLint.CSharp/Rules/PropertyToAutoProperty.cs:72-73 | a found accessor is in the list and of the kind asked for; none found means no accessor has that kind |
| PropertyToAutoProperty.FieldFromGetterSpec | src/SonarLint.CSharp/Rules/PropertyToAutoProperty.cs:170-188 | the getter gives a field iff its body is a single `return` of an expression naming that field |
| PropertyToAutoProperty.FieldFromSetterSpec | src/SonarLint.CSharp/Rules/PropertyToAutoProperty.cs:95-126 | the setter gives a field iff its body is a single simple assignment of the implicit `value` parameter to an expression naming that field |
| PropertyToAutoProperty.GetAndSetOfTwo | src/SonarLint.CSharp/Rules/PropertyToAutoProperty.cs:65-78 | two accessors hold a get and a set exactly when both lookups succeed, and each lookup then finds the accessor of its kind |
| PropertyToAutoProperty.ReportedIsConvertible | src/SonarLint.CSharp/Rules/PropertyToAutoProperty.cs:60-92 | a reported property is convertible |
| PropertyToAutoProperty.ConvertibleIsReported | src/SonarLint.CSharp/Rules/PropertyToAutoProperty.cs:60-92 | a convertible property is reported |
| PropertyToAutoProperty.PropertyIssueIffConvertible | src/SonarLint.CSharp/Rules/PropertyToAutoProperty.cs:60-92 | a property is reported iff it is convertible: two accessors, a get and a set over the same field, the field without attributes and matching in staticness and type; the report is at the identifier |
| PropertyToAutoProperty.ReportedPropertiesHaveGetAndSet | src/SonarLint.CSharp/Rules/PropertyToAutoProperty.cs:65-78 | a reported property has exactly two accessors, one get and one set |
| PropertyToAutoProperty.AttributedFieldIsNotReported | src/SonarLint.CSharp/Rules/PropertyToAutoProperty.cs:85 | a field with attributes is never reported, whatever the accessors |
| PropertyToAutoProperty.GeneratedCodeIsSkipped | src/SonarLint.CSharp/Rules/PropertyToAutoProperty.cs:60 | nothing is reported in generated code, and at most one issue otherwise |
| CastConcreteTypeToInterface.ExpressionIssuesSpec | src/SonarLint.CSharp/Rules/CastConcreteTypeToInterface.cs:58-94 | one issue, at the node, iff both types are known, the source is an interface and the target a class other than object; casts in generated code are skipped |
| CastConcreteTypeToInterface.CastRoles | src/SonarLint.CSharp/Rules/CastConcreteTypeToInterface.cs:63-75 | a cast takes its type as target and its operand as source, `as` its right and its left; swapping them turns a report into none |
| CastConcreteTypeToInterface.GeneratedCodeFiltersCastsOnly | src/SonarLint.CSharp/Rules/CastConcreteTypeToInterface.cs:60-70 | generated code filters casts, not `as` expressions |
| CastConcreteTypeToInterface.ObjectAndClassSourcesAreSilent | src/SonarLint.CSharp/Rules/CastConcreteTypeToInterface.cs:84-91 | casting to object, or from a class, never reports |
| ParameterUsesByRef.AnyByRef | src/SonarLint/Rules/ParameterUsesByRef.cs:64 | true iff some modifier is ByRef |
| ParameterUsesByRef.ParameterIssuesSpec | src/SonarLint/Rules/ParameterUsesByRef.cs:60-70 | one issue iff the code is not generated and a modifier is ByRef; it is at the identifier and names it |
| ParameterUsesByRef.ModifierOrderIsIrrelevant | src/SonarLint/Rules/ParameterUsesByRef.cs:64 | several ByRef modifiers still give one issue, and their order does not matter |
| UseShortCircuitingOperators.AlternativesAreExactly | src/SonarAnalyzer.VisualBasic/Rules/UseShortCircuitingOperators.cs:40-55 | the alternatives map And to AndAlso and Or to OrElse, and cover every registered kind |
| UseShortCircuitingOperators.NodeIssuesSpec | src/SonarAnalyzer.VisualBasic/Rules/UseShortCircuitingOperators.cs:38-49 | exactly the And and Or nodes of non-generated code get one issue each, at the node, naming the alternative |
| UseShortCircuitingOperatorsFix.ShortCircuitingFollowsTheRule | src/SonarAnalyzer.VisualBasic/Rules/UseShortCircuitingOperatorsFixProvider.cs:43-55 | the rewrite keeps the operands and the node, and changes the kind as the analyzer's alternatives say; any other node is returned unchanged |
| UseShortCircuitingOperatorsFix.ReplaceOnlyTheLocatedNode | src/SonarAnalyzer.VisualBasic/Rules/UseShortCircuitingOperatorsFixProvider.cs:37-39 | when no other node carries its id, the node is what FindNode locates and the only node ReplaceNode replaces |
| UseShortCircuitingOperatorsFix.FixRewritesTheReportedNode | src/SonarAnalyzer.VisualBasic/Rules/UseShortCircuitingOperatorsFixProvider.cs:33-41 | fixing a reported And or Or node rewrites just that node into AndAlso or OrElse over the same operands |
| UseShortCircuitingOperatorsFix.FixesTheRuleOnly | src/SonarAnalyzer.VisualBasic/Rules/UseShortCircuitingOperatorsFixProvider.cs:18-24 | the fix handles exactly the rule's own diagnostic |
| RedundantArgumentFix.ScanKeepsPrefix | src/SonarLint.CSharp/Rules/RedundantArgumentCodeFixProvider.cs:84-104 | at every point of the right-to-left scan the removable arguments are the first of the default-valued ones |
| RedundantArgumentFix.ScanFlag | src/SonarLint.CSharp/Rules/RedundantArgumentCodeFixProvider.cs:92-102 | the removal flag drops exactly at the first unnamed argument without a default value |
| RedundantArgumentFix.ScanCollectsDefaults | src/SonarLint.CSharp/Rules/RedundantArgumentCodeFixProvider.cs:88-91 | every default-valued argument, and no other, is collected |
| RedundantArgumentFix.ScanCollectsRemovable | src/SonarLint.CSharp/Rules/RedundantArgumentCodeFixProvider.cs:92-95 | a default-valued argument is removable without names iff nothing to its right blocks it |
| RedundantArgumentFix.ScanArguments | src/SonarLint.CSharp/Rules/RedundantArgumentCodeFixProvider.cs:78-104 | the foreach over the reversed mappings fills both lists as the reference scan does |
| RedundantArgumentFix.CannotBeRemoved | src/SonarLint.CSharp/Rules/RedundantArgumentCodeFixProvider.cs:116 | an argument is listed iff it has a default value and is not removable without names |
| RedundantArgumentFix.RemoveArguments | src/SonarLint.CSharp/Rules/RedundantArgumentCodeFixProvider.cs:213-220 | the arguments kept are exactly those not removed, and never more |
| RedundantArgumentFix.ParamsMappings | src/SonarLint.CSharp/Rules/RedundantArgumentCodeFixProvider.cs:150-152 | exactly params mappings, each from the list |
| RedundantArgumentFix.RemoveArgumentsAndAddNecessaryNames | src/SonarLint.CSharp/Rules/RedundantArgumentCodeFixProvider.cs:129-161 | the loop and the params step give the reference rewrite |
| RedundantArgumentFix.NonParamsRewriteKeepsTheRest | src/SonarLint.CSharp/Rules/RedundantArgumentCodeFixProvider.cs:137-148 | every removed argument is dropped and the others keep their expressions, in order |
| RedundantArgumentFix.NamedAll | src/SonarLint.CSharp/Rules/RedundantArgumentCodeFixProvider.cs:166-172 | each argument staying is re-created with its parameter's name, ref/out keyword and expression |
| RedundantArgumentFix.AfterARemovalAllAreNamed | src/SonarLint.CSharp/Rules/RedundantArgumentCodeFixProvider.cs:143-172 | after one removal, every argument that stays is given its parameter's name |
| RedundantArgumentFix.RemovalSplitsTheRewrite | src/SonarLint.CSharp/Rules/RedundantArgumentCodeFixProvider.cs:141-147 | a removal at one position splits the rewrite: what comes after it is rewritten as after a removal |
| RedundantArgumentFix.BeforeAnyRemovalNoneAreNamed | src/SonarLint.CSharp/Rules/RedundantArgumentCodeFixProvider.cs:173 | before any removal the arguments are kept as they were |
| RedundantArgumentFix.NamedAfterFirstRemoval | src/SonarLint.CSharp/Rules/RedundantArgumentCodeFixProvider.cs:137-148 | after the first removed argument, every argument kept is named |
| RedundantArgumentFix.ParamsArgumentCases | src/SonarLint.CSharp/Rules/RedundantArgumentCodeFixProvider.cs:176-211 | params arguments are kept when the first is named, named when a single one has the parameter's type, and packed into an array under the parameter's name otherwise |
| RedundantArgumentFix.RegisterCodeFixes | src/SonarLint.CSharp/Rules/RedundantArgumentCodeFixProvider.cs:53-127 | the fixes registered are the reference list of offered fixes |
| RedundantArgumentFix.NothingWithoutInvocationOrMethod | src/SonarLint.CSharp/Rules/RedundantArgumentCodeFixProvider.cs:58-76 | no fix is offered when the invocation or the method symbol cannot be found |
| RedundantArgumentFix.OfferedTitles | src/SonarLint.CSharp/Rules/RedundantArgumentCodeFixProvider.cs:106-126 | the plain removal is offered first when something is removable, and the named rewrite when something is not |
| RedundantArgumentFix.RemovableIff | src/SonarLint.CSharp/Rules/RedundantArgumentCodeFixProvider.cs:84-106 | some argument can go without names iff a default-valued one has no unnamed non-default argument to its right |
| RedundantArgumentFix.RemovableIsUnblocked | src/SonarLint.CSharp/Rules/RedundantArgumentCodeFixProvider.cs:92-95 | with distinct arguments, a removable argument has nothing blocking it to its right |
| RedundantArgumentFix.NotRemovableIsBlocked | src/SonarLint.CSharp/Rules/RedundantArgumentCodeFixProvider.cs:116-117 | an argument that cannot go without names is blocked by an unnamed non-default argument to its right |
| RedundantArgumentFix.BlockedIsNotRemovable | src/SonarLint.CSharp/Rules/RedundantArgumentCodeFixProvider.cs:99-116 | with distinct arguments, a blocked default-valued argument is left for the named rewrite |
| RedundantArgumentFix.NotRemovableIff | src/SonarLint.CSharp/Rules/RedundantArgumentCodeFixProvider.cs:116-126 | with distinct arguments, the named rewrite is offered iff some default-valued argument is blocked |
| RedundantArgumentFix.RemovableArePrefix | src/SonarLint.CSharp/Rules/RedundantArgumentCodeFixProvider.cs:84-104 | the removable arguments are the first of the default-valued ones, in right-to-left order |
| MultipleVariableDeclarationFix.FoundIsHolderNode | src/SonarLint.CSharp/Rules/MultipleVariableDeclarationCodeFixProvider.cs:42-59 | the parent found for a declarator is a declaration-holding node whose declaration holds that declarator |
| MultipleVariableDeclarationFix.FoundIsHolder | src/SonarLint.CSharp/Rules/MultipleVariableDeclarationCodeFixProvider.cs:42-59 | the same over a list of nodes |
| MultipleVariableDeclarationFix.SingleDeclarationsSplit | src/SonarLint.CSharp/Rules/MultipleVariableDeclarationCodeFixProvider.cs:48-88 | n declarators become n declarations in order, each with just that variable, its leading trivia prefixed by the previous token's trailing trivia, and the type without trailing trivia |
| MultipleVariableDeclarationFix.NewNodesCopyTheParent | src/SonarLint.CSharp/Rules/MultipleVariableDeclarationCodeFixProvider.cs:53-78 | a field's copies carry its attribute lists and modifiers, a local statement's its modifiers, one per declarator; any other parent gives none |
| MultipleVariableDeclarationFix.UnchangedUnlessFieldOrLocal | src/SonarLint.CSharp/Rules/MultipleVariableDeclarationCodeFixProvider.cs:34-62 | a changed root means the node was a declarator whose declaration belongs to a field or a local declaration statement |
| MultipleVariableDeclarationFix.ReplaceOnlyTheHolder | src/SonarLint.CSharp/Rules/MultipleVariableDeclarationCodeFixProvider.cs:80 | in a tree whose other nodes carry neither id, the holder is what the search finds and the only node replaced |
| MultipleVariableDeclarationFix.FixReplacesOnlyTheParent | src/SonarLint.CSharp/Rules/MultipleVariableDeclarationCodeFixProvider.cs:34-81 | fixing a declarator of a field or local declaration replaces exactly that member or statement by its single-variable copies, keeping the rest of the tree |
| MultipleVariableDeclarationFix.OtherParentsAreLeftAlone | src/SonarLint.CSharp/Rules/MultipleVariableDeclarationCodeFixProvider.cs:56-62 | a declaration under any other parent is left alone |
| TokenHelper.GetBindableParent | src/SonarQube.SonarLint.Runner/CSharp/TokenHelper.cs:29-92 | the while loop gives the reference walk from the token's parent |
| TokenHelper.BindableIsAncestorOrSelf | src/SonarQube.SonarLint.Runner/CSharp/TokenHelper.cs:31-91 | the walk ends at the node it started from or at one of its ancestors |
| TokenHelper.BindableParentSpec | src/SonarQube.SonarLint.Runner/CSharp/TokenHelper.cs:29-92 | the result is null iff the token has no parent, and otherwise that parent or one of its ancestors |
| TokenHelper.StopsOnTheLeft | src/SonarQube.SonarLint.Runner/CSharp/TokenHelper.cs:36-61 | on the left of a member access or qualified name, or as the alias of an alias-qualified name, the walk does not ascend |
| TokenHelper.ClimbsOneStepIntoCreationOrInterpolation | src/SonarQube.SonarLint.Runner/CSharp/TokenHelper.cs:63-79 | the type of an object creation, and interpolated text, bind to their parent |
| TokenHelper.AscendsOnlyIntoNames | src/SonarQube.SonarLint.Runner/CSharp/TokenHelper.cs:81-88 | wherever the walk moves at all, it ends at a name, an object creation or an interpolated string |
| TokenHelper.NonNameParentStops | src/SonarQube.SonarLint.Runner/CSharp/TokenHelper.cs:81-86 | under a parent that is not a name, outside the special places, the node is its own bindable parent |
| TokenHelper.NameParentAscends | src/SonarQube.SonarLint.Runner/CSharp/TokenHelper.cs:88 | under a name, outside the special places, the walk continues from the parent |
| RuleDetailDescriptor.NewRuleDetail | src/SonarQube.SonarLint.Descriptor/Descriptors/RuleDetail.cs:56-60 | a fresh rule detail has empty tag and parameter lists, every string unset, and is not activated |
| RuleDetailDescriptor.ConvertParametersOneToOne | src/SonarQube.SonarLint.Descriptor/Descriptors/RuleDetail.cs:43-51 | parameters map one to one, in order, each keeping its type, key, description and default value |
| RuleDetailDescriptor.ConvertSpec | src/SonarQube.SonarLint.Descriptor/Descriptors/RuleDetail.cs:33-54 | key, title, description, activation and tags are copied; the severity is the upper-cased one, equal to it ignoring case; the parameters correspond; the cardinality is SINGLE |
| RuleDetailDescriptor.UpperCaseSeverityIsKept | src/SonarQube.SonarLint.Descriptor/Descriptors/RuleDetail.cs:39 | an already upper-case severity is kept as it is |
| RuleDetailDescriptor.SetDescriptionCDataSection | src/SonarQube.SonarLint.Descriptor/Descriptors/RuleDetail.cs:80-83 | the setter always leaves a description set and changes nothing else |
| RuleDetailDescriptor.CDataRoundTrip | src/SonarQube.SonarLint.Descriptor/Descriptors/RuleDetail.cs:74-84 | setting what the getter returns keeps a present description and turns an unset one into "" |
| RuleDetailDescriptor.SetterSpec | src/SonarQube.SonarLint.Descriptor/Descriptors/RuleDetail.cs:80-83 | the setter stores "" for a null section and the section's text otherwise, and the getter then returns that text |
| RegressionCheckConverter.TryParseInt32 | src/RegressionCheckConverter/Program.cs:73 | a parsed number always lies in the 32-bit range |
| RegressionCheckConverter.ParsedLine | src/RegressionCheckConverter/Program.cs:72-76 | the line number is the parsed value, or -1 when the field does not parse |
| RegressionCheckConverter.ParseIntToString | src/RegressionCheckConverter/Program.cs:73 | printing a 32-bit line number and parsing it back gives the number |
| RegressionCheckConverter.RewrittenPathIsEscaped | src/RegressionCheckConverter/Program.cs:80 | a rewritten path holds no space and no forward slash |
| RegressionCheckConverter.LegacyLineSpec | src/RegressionCheckConverter/Program.cs:61-83 | a line of the rule gives an issue iff its path does not end with designer.vb in any case; the issue has the rewritten path, the parsed line or -1, and the fourth field as message |
| RegressionCheckConverter.ShortLinesThrow | src/RegressionCheckConverter/Program.cs:61-82 | a line of the rule with too few fields throws an index error |
| RegressionCheckConverter.FailurePersists | src/RegressionCheckConverter/Program.cs:59-84 | once a line throws, the read of the file fails with that error whatever follows |
| RegressionCheckConverter.ReadLegacyFile | src/RegressionCheckConverter/Program.cs:54-86 | the loop over the lines, with its continues, gives the reference list of legacy issues |
| RegressionCheckConverter.LegacyIssuesAreEscaped | src/RegressionCheckConverter/Program.cs:78-83 | every legacy issue has an escaped path and a message |
| RegressionCheckConverter.NewIssuesOfSpec | src/RegressionCheckConverter/Program.cs:42-51 | the issues are read iff each has a location with a URI; then the result is the .vb ones, converted, in order and each as often as it occurs |
| RegressionCheckConverter.NewFolderIssuesSpec | src/RegressionCheckConverter/Program.cs:36-52 | the folder is read iff every file is, its issues are the files' issues one file after another, and a failure is the first failing file's |
| RegressionCheckConverter.ConvertedLine | src/RegressionCheckConverter/Program.cs:44-49 | a kept issue's line is its region's start line, or -1 without a region; it keeps the URI as path and the message |
| RegressionCheckConverter.StringLeTotal | src/RegressionCheckConverter/Program.cs:21-31 | ordinal string comparison is total |
| RegressionCheckConverter.StringLeAntisymmetric | src/RegressionCheckConverter/Program.cs:21-31 | ordinal comparison both ways means equal strings |
| RegressionCheckConverter.StringLeTransitive | src/RegressionCheckConverter/Program.cs:21-31 | ordinal comparison is transitive |
| RegressionCheckConverter.IssueLeTotal | src/RegressionCheckConverter/Program.cs:22-24 | the path, line and message order is total |
| RegressionCheckConverter.EqualKeysAreEqualIssues | src/RegressionCheckConverter/Program.cs:22-24 | issues equal in path, line and message are the same issue, so the order of equal keys does not matter |
| RegressionCheckConverter.IssueLeTransitive | src/RegressionCheckConverter/Program.cs:22-24 | the path, line and message order is transitive |
| RegressionCheckConverter.Insert | src/RegressionCheckConverter/Program.cs:22-24 | inserting adds exactly that issue |
| RegressionCheckConverter.InsertKeepsSorted | src/RegressionCheckConverter/Program.cs:22-24 | inserting into a sorted list keeps it sorted |
| RegressionCheckConverter.SortIssues | src/RegressionCheckConverter/Program.cs:21-31 | the sorted list holds the same issues |
| RegressionCheckConverter.SortIssuesSorts | src/RegressionCheckConverter/Program.cs:21-31 | the sorted list is ordered by path, line and message and is a permutation of the input |
| RegressionCheckConverter.OutputFileNamesDistinct | src/RegressionCheckConverter/Program.cs:91 | the legacy and new issues of a rule go to different files, and different rules to different files |
| RegressionCheckConverter.OutputFileNameInjective | src/RegressionCheckConverter/Program.cs:91 | the output file name determines the rule's new Id |
| RegressionCheckConverter.WriteIssues | src/RegressionCheckConverter/Program.cs:88-98 | one line per issue, in order, each the issue's text |
| RegressionCheckConverter.SplitAtSeparator | src/RegressionCheckConverter/Program.cs:61 | splitting at a separator gives the text before it, then the split of the rest |
| RegressionCheckConverter.IntToStringHasNoTab | src/RegressionCheckConverter/Program.cs:108 | a printed line number holds no tab |
| RegressionCheckConverter.ToStringRoundTrip | src/RegressionCheckConverter/Program.cs:106-109 | an issue's text, for a path without a tab, splits back into its path and line, and the line parses back to the number |

## Left out
- Reflection and assembly loading: each candidate type's base types, attributes, abstractness, constructors and `_messageArgs` are inputs of the model, not things read from an assembly.
- The Visual Studio package apart from the toggle in `Timer_Elapsed`: the timer, the IDE services and the package's other members.
- XML, JSON and file I/O: the SonarLint.xml document is an element list, and the regression files are sequences of lines.
- Concurrency: the shared disabled-Id set, the generated-code cache (a `ConditionalWeakTable` over a `ConcurrentDictionary`) and the parameter loader's processed set are sequential state; weak references and races are not modelled.
- Culture-sensitive string operations: upper- and lower-casing and case-insensitive comparison work on ASCII letters only, and culture-sensitive `EndsWith` (the `.vb` filter of the new expectation files) is an ordinal suffix comparison.
- Roslyn's compiler, its semantic model and `EquivalenceChecker`: every semantic query is a datatype field or a parameter, and syntactic equivalence is equality of syntax values.
- AnalyzerLoader.BuildDescriptorMap: a second descriptor with an Id already in the map gives a failure value where `Dictionary.Add` throws.
- AnalyzerLoader.InvokeDefaultConstructor: a constructor that throws gives a failure value where the exception propagates out of the loader's constructor.
- DynamicAnalyzerLoader.WrappingAnalyzer.Initialize: with no analyzer paths the analyzer list is absent and `Initialize` gives a null-reference failure value where the source throws.
- The proxy contexts' delegating properties (Compilation, Options, CodeBlock and the others) are constant fields copied from the native context by the constructor, not one getter each.
- TernaryOperatorPointless.RemoveParentheses is not part of this model: the conditional rule uses the evident meaning, stripping every enclosing pair of parentheses.
- ParallelCollections: the order in which diagnostics are reported is not modelled (they form a sequence whose contents are proved), and `Union` of syntax nodes is by node identity.
- SingleStatementPerLine: the enumeration order of the line dictionary is not modelled (issues form a map keyed by line), and the per-line `HashSet` is a duplicate-free list.
- MemberShadows: whether a member implements an interface member is an input.
- TopLevelTypes: a tree is an arena whose nodes are in document order.
- PropertyToAutoProperty: field symbols are compared by value.
- UseShortCircuitingOperatorsFix: the rewritten node keeps the replaced node's id, and a located node that is not a binary expression gives no fix.
- RedundantArgumentFix: `Except` on argument lists is a filter; `ArgumentHasDefaultValue` and the parameter lookup are inputs; a missing parameter symbol gives a failure value; the asynchronous document plumbing and the rebuilding of syntax nodes are left out.
- MultipleVariableDeclarationFix: a declarator's parent is always a variable declaration; new nodes keep the replaced node's id; trivia is a sequence of values.
- TokenHelper: a node's role in its parent is an input recorded in the arena.
- RuleDetailDescriptor: tags are copied by value, source strings are never null, and the CDATA value of a section without data is the empty string.
- RegressionCheckConverter.TryParseInt32: an optional leading sign then digits, inside the 32-bit range; leading and trailing white space, thousands separators and culture-specific signs are not accepted.
- RegressionCheckConverter.SortIssues: an insertion sort by ordinal comparison stands in for `OrderBy`/`ThenBy`, whose default string comparer is culture-sensitive, so paths and messages differing only in a way the culture orders differently from their code points (case, punctuation) may come out in another order; stability cannot be observed because issues with equal keys are equal (`EqualKeysAreEqualIssues`).
- RegressionCheckConverter: a missing location, URI or issue list gives a null-reference failure value where the source throws, so line -1 comes only from a missing region; reading and writing files, JSON deserialisation and `Main` are left out.
- GenericVariance: modelled as written, which is stricter than the C# language rule: a named type whose type argument is a different type blocks variance (`ForeignArgumentBlocksVariance`).
- ParameterLoader.FileName: `new FileInfo(path)` also rejects white-space-only paths, invalid path characters, a ':' outside the drive position and over-long paths, and resolves drive-relative paths through the current directory; only the empty path's exception, '/', '\\' and ':' as separators are modelled.
- ParameterLoader.SetProperties: the early return on a property whose key has no value is part of this function's definition but has no lemma of its own.
- The EmptyMethod, GenericTypeParameterUnused, ThreadStatic and UnusedPrivateMember fix providers, CollisionHandlingAnalysisContext and the runner's Program.cs are not part of this model.

## Findings
| source | as written | input that shows it | evidently intended | confidence | as-written member | corrected member |
|---|---|---|---|---|---|---|
| src/SonarLint.CSharp/Rules/ConditionalSimplification.cs:275-346 | `AreCandidateInvocations` compares the invoked method symbols and the arguments but never the expressions the methods are invoked on | `x != null ? a.M(x) : b.M(y)` is suggested as `a.M(x ?? y)`, which calls through `a` when `x` is null | both invocations must have the same target | not executed | ConditionalSimplification.CandidateInvocationsAsWritten, shown by ConditionalSimplification.CandidateInvocationsIgnoreTarget and ConditionalSimplification.IgnoredTargetChangesValue | ConditionalSimplification.CandidateInvocations, with ConditionalSimplification.NullCoalescingKeepsValue and ConditionalSimplification.ReportedConditionalKeepsValue |
| src/SonarLint.CSharp/Rules/ParallelCollections.cs:71-72 | the loop identifiers of a `for` loop are read from `Declaration.Variables` without a null check | `for (i = 0; i < n; i++)` or `for (;;)` has no declaration, so the analysis throws a null-reference exception | a loop without a declaration declares no loop identifiers and raises no issue | not executed | ParallelCollections.ForIssuesAsWritten, shown by ParallelCollections.LoopWithoutDeclarationThrows | ParallelCollections.ForIssues, with ParallelCollections.ForLoopWithoutDeclarationIsSilent |
