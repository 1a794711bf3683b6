# Fleek CLI function bundling and configuration files, in Dafny

This project models the part of the Fleek platform CLI that prepares an edge
function for upload, together with the helpers that name, find and write the
`fleek.config.*` file. It proves properties of that model.

- **Runtime module registry.** The 13 built-ins the edge runtime serves
  under `node:` (`RuntimeModules`). The 68 built-ins it can never serve,
  bare and prefixed (`ModuleChecker`).
- **Specifier rewriter** (`NodeProtocolImportSpecifier`). Each line that
  imports a supported module gets its quoted specifier rewritten to
  `"node:m"`. The file is folded over the module list. The load hook runs on
  `.js` files, and `node:` specifiers resolve as external.
  - The import regular expression is an explicit leftmost, lazy/greedy match
    predicate. Its `g` flag state `lastIndex` is threaded from line to line,
    as the code does. This holds in the whole-file fold and in the load hook
    as well. A corrected fold, with every line tested on its own, sits
    beside it (see Findings).
- **Compatibility checker** (`ModuleChecker`). A plugin object whose
  `beforeResolve` hook records every unsupported request in a caller-owned
  insertion-ordered set (`JsSet`).
- **Transpile and facade** (`GetCodeFromPath`):
  - the `globalThis.fleek.env` banner;
  - the plugin list and the esbuild options;
  - how a build outcome becomes a `TranspileResponse`;
  - the report of unsupported modules;
  - the `require(...)` heuristic;
  - the `getCodeFromPath` guard-and-throw sequence.

  The esbuild run is an oracle. It is given as the module requests it
  resolves and whether it succeeded or threw, and what it threw.
- **Upload progress** (`UploadOnProgress`). The three-way handler driving a
  `cli-progress` bar (`ProgressBar`).
- **Configuration files:**
  - `fleek.config.<ext>` naming (`ConfigFile`);
  - the priority search for an existing file (`ConfigurationPath`);
  - the per-format file text and the write (`SaveConfiguration`);
  - the format choices of the site prompt (`SelectConfigurationFormat`).

The file system is a map from paths to text plus a set of directories
(`FileSystem.Workspace`). For `fs.access`, a set of readable paths stands in,
and the probe records every path it is asked about
(`ConfigurationPath.AccessProbe`). The terminal is a log of output events
(`Output.Terminal`). Translated messages are named by their translation key.

Where the code and its documentation disagree, the model follows the code:

- **Failure policy.** `getCodeFromPath` raises `FleekFunctionBundlingFailedError`
  on every failed build, whatever the `bundle` flag. The documented policy
  says a failed single-file transform would still return a path; the code
  does not do that.
- **`UnknownError` is reachable.** A thrown object whose `message` is the
  empty string gives a falsy error. The facade then raises `UnknownError`
  (`GetCodeFromPath.Decision`).
- **Report on failure too.** Unsupported modules are reported before the
  success check, so they are also reported when the build fails.
- **`saveConfiguration` returns nothing.** Its test at
  `src/utils/configuration/saveConfiguration.test.ts:60-63` expects the file
  name back. The model follows the code: `SaveConfiguration.SaveConfiguration`
  has no result.
- **The deploy command's `bundle` flag is always true, but it does not reach
  `getCodeFromPath`.** `src/commands/functions/index.ts` passes `bundle`,
  while `src/commands/functions/deploy.ts` computes `bundle = !args.noBundle`.
  That flag goes to `getJsCodeFromPath`, which is not part of this model. No
  source file here calls `getCodeFromPath`, so its `bundle` is unconstrained.
  `GetCodeFromPath.Decision` and `GetCodeFromPath.GetCodeFromPath` treat both
  values.

## Model

| member | source | states |
|---|---|---|
| RuntimeModules.NamesShape | src/commands/functions/runtimeModules.ts:4-18 | the registry has 13 names, `buffer` first and `zlib` last |
| RuntimeModules.NamesDistinct | src/commands/functions/runtimeModules.ts:4-18 | no name is listed twice |
| RuntimeModules.NamesAreBare | src/commands/functions/runtimeModules.ts:4-18 | no name already starts with `node:` |
| RuntimeModules.NamesArePlain | src/commands/functions/runtimeModules.ts:4-18 | every name is non-empty and has no quote or whitespace, so it can sit between quotes in a specifier |
| NodeProtocolImportSpecifier.CopyMatchesRegistry | src/commands/functions/plugins/nodeProtocolImportSpecifier.ts:7-21 | the rewriter's private copy of the list equals the registry element for element |
| ModuleChecker.UnsupportedPrefixClosed | src/commands/functions/utils/plugins/moduleChecker.ts:3-72 | every bare entry has its `node:` twin listed and every prefixed entry its bare twin; no entry carries the prefix twice |
| ModuleChecker.BareHalf | src/commands/functions/utils/plugins/moduleChecker.ts:4-37 | the first 34 entries have no prefix, and each one prefixed is among the last 34 |
| ModuleChecker.PrefixedHalf | src/commands/functions/utils/plugins/moduleChecker.ts:38-71 | each of the last 34 entries is `node:` followed by one of the first 34 |
| ModuleChecker.BareSize | src/commands/functions/utils/plugins/moduleChecker.ts:4-37 | the 34 bare entries are distinct: the set built from them has 34 elements |
| ModuleChecker.TwinSizes | src/commands/functions/utils/plugins/moduleChecker.ts:3-72 | adding the prefix to every bare entry is one-to-one, so the prefixed half is as large as the bare half and shares no entry with it |
| ModuleChecker.TableSize | src/commands/functions/utils/plugins/moduleChecker.ts:3-72 | no entry of the list is repeated: each half has 34 distinct entries and the `Set` has 68 |
| ModuleChecker.TwinTables | src/commands/functions/utils/plugins/moduleChecker.ts:3-72 | two tables related that way are together closed under adding and removing one prefix |
| ModuleChecker.ClassifiedAlike | src/commands/functions/utils/plugins/moduleChecker.ts:87 | a bare request and its `node:` form are both unsupported or both not |
| ModuleChecker.RegistriesDisjoint | src/commands/functions/utils/plugins/moduleChecker.ts:3-72 | no supported built-in is classified unsupported, bare or prefixed |
| ModuleChecker.SupportedNotListed | src/commands/functions/utils/plugins/moduleChecker.ts:3-72 | no supported name occurs in the unsupported set |
| ModuleChecker.SupportedNotBare | src/commands/functions/utils/plugins/moduleChecker.ts:4-37 | no supported name occurs among the bare unsupported entries |
| ModuleChecker.Recorded | src/commands/functions/utils/plugins/moduleChecker.ts:87-89 | after one request the set holds its old elements plus the request as written iff it or its `node:` form is listed; it only grows, old elements first, still without duplicates |
| ModuleChecker.RecordedTwice | src/commands/functions/utils/plugins/moduleChecker.ts:88 | recording a request twice leaves the set recording it once does |
| ModuleChecker.RecordedAllContents | src/commands/functions/utils/plugins/moduleChecker.ts:84-92 | after a series of requests the set holds exactly the old elements plus every unsupported request, without duplicates, old elements first |
| ModuleChecker.RecordedAllSnoc | src/commands/functions/utils/plugins/moduleChecker.ts:84-92 | one more request extends the series by one recording step |
| ModuleChecker.ModuleCheckerPlugin.constructor | src/commands/functions/utils/plugins/moduleChecker.ts:78-79 | the plugin shares the caller's set and has not called back yet |
| ModuleChecker.ModuleCheckerPlugin.BeforeResolve | src/commands/functions/utils/plugins/moduleChecker.ts:84-92 | the shared set becomes `Recorded(old set, request)` and the callback count rises by exactly one, recorded or not |
| JsSet.Added | src/commands/functions/utils/plugins/moduleChecker.ts:88 | `Set.add` keeps the elements, appends a new one at the end, and never duplicates |
| JsSet.AddedTwice | src/commands/functions/utils/plugins/moduleChecker.ts:88 | adding an element twice equals adding it once |
| JsSet.StringSet.Add | src/commands/functions/utils/plugins/moduleChecker.ts:88 | the set's elements become `Added(old elements, x)` and stay duplicate-free |
| NodeProtocolImportSpecifier.Convention | src/commands/functions/plugins/nodeProtocolImportSpecifier.ts:32 | the replacement is `"`, `node:`, the module name and `"`, seven characters longer than the name |
| NodeProtocolImportSpecifier.FirstTail | src/commands/functions/plugins/nodeProtocolImportSpecifier.ts:30 | the lazy `[\w\W]*?` stops at the first position where `from`, whitespace and the quoted name follow, or there is none |
| NodeProtocolImportSpecifier.LeftmostMatch | src/commands/functions/plugins/nodeProtocolImportSpecifier.ts:30 | the match found from an index starts at the leftmost `import` that has a tail after it; there is none iff the reference predicate `MatchesFrom` fails |
| NodeProtocolImportSpecifier.ImportTest | src/commands/functions/plugins/nodeProtocolImportSpecifier.ts:30-35 | `.test` succeeds iff the pattern occurs at or after `lastIndex`; on failure `lastIndex` becomes 0, on success it becomes the end of the leftmost match at or after the old value, which lies past that value |
| NodeProtocolImportSpecifier.MatchesFromZero | src/commands/functions/plugins/nodeProtocolImportSpecifier.ts:30 | a line that matches from some index matches from 0 |
| NodeProtocolImportSpecifier.NoImportNoMatch | src/commands/functions/plugins/nodeProtocolImportSpecifier.ts:30 | a line without `import` never passes the test |
| NodeProtocolImportSpecifier.NoTokenNoMatch | src/commands/functions/plugins/nodeProtocolImportSpecifier.ts:30 | a line without a quoted `m` never passes the test |
| NodeProtocolImportSpecifier.NoTokenUnchanged | src/commands/functions/plugins/nodeProtocolImportSpecifier.ts:37 | `replace` leaves a line with no quoted `m` unchanged |
| NodeProtocolImportSpecifier.FirstTokenSplit | src/commands/functions/plugins/nodeProtocolImportSpecifier.ts:37 | the text before the first quoted `m` is kept, that token becomes `"node:m"` (double quotes for either quote), and scanning resumes right after it |
| NodeProtocolImportSpecifier.ReplaceKeepsNoNewline | src/commands/functions/plugins/nodeProtocolImportSpecifier.ts:37 | the replacement never introduces a line break |
| NodeProtocolImportSpecifier.RewrittenHasNoTail | src/commands/functions/plugins/nodeProtocolImportSpecifier.ts:30-32 | after the replacement no `from … "m"` tail is left, since every quote before `m` is now followed by `node:` |
| NodeProtocolImportSpecifier.RewriteLine | src/commands/functions/plugins/nodeProtocolImportSpecifier.ts:34-38 | a line passing the test from `lastIndex` is replaced and the index becomes the end of the leftmost match from there; any other line is kept and the index resets to 0 |
| NodeProtocolImportSpecifier.RewriteLines | src/commands/functions/plugins/nodeProtocolImportSpecifier.ts:33-39 | with `lastIndex` shared across the map, the line count is kept; each line is kept or replaced; lines failing a fresh test are kept; a matching first line is replaced |
| NodeProtocolImportSpecifier.ReplaceLineShape | src/commands/functions/plugins/nodeProtocolImportSpecifier.ts:23-40 | `replaceLineByMatchRegExpr` as written keeps the number of `\n`-separated lines, and each line is either kept or has its tokens replaced; lines failing the test are kept |
| NodeProtocolImportSpecifier.ReplaceLineUnchanged | src/commands/functions/plugins/nodeProtocolImportSpecifier.ts:33-39 | contents on which no line passes the test come back byte for byte |
| NodeProtocolImportSpecifier.RewriteEachLine | src/commands/functions/plugins/nodeProtocolImportSpecifier.ts:34-38 | with each line tested on its own, every matching line is replaced and every other line kept |
| NodeProtocolImportSpecifier.ReplaceLineIntendedShape | src/commands/functions/plugins/nodeProtocolImportSpecifier.ts:33-39 | the corrected rewrite keeps the line count, replaces every line that passes the test and keeps every other line |
| NodeProtocolImportSpecifier.ReplaceLineIntendedIdempotent | src/commands/functions/plugins/nodeProtocolImportSpecifier.ts:30-32 | running the corrected rewrite again on its own output changes nothing |
| NodeProtocolImportSpecifier.AsWrittenWithinIntended | src/commands/functions/plugins/nodeProtocolImportSpecifier.ts:30-35 | each line of the rewrite as written is either the corrected line or the original: the shared `lastIndex` can only make lines be skipped |
| NodeProtocolImportSpecifier.LastIndexSkipsNextImport | src/commands/functions/plugins/nodeProtocolImportSpecifier.ts:30-35 | on two identical lines `import a from 'path'`, the code as written rewrites only the first; the corrected rewrite rewrites both |
| NodeProtocolImportSpecifier.RepeatedLineSkipped | src/commands/functions/plugins/nodeProtocolImportSpecifier.ts:30-35 | any line whose match ends at its last character is rewritten the first time and skipped when repeated on the next line |
| NodeProtocolImportSpecifier.ApplyConventionLines | src/commands/functions/plugins/nodeProtocolImportSpecifier.ts:51-56 | the fold as written, one fresh regex per module whose `lastIndex` the lines share, keeps the line count, and lines without `import` come back unchanged |
| NodeProtocolImportSpecifier.ApplyConventionUnchanged | src/commands/functions/plugins/nodeProtocolImportSpecifier.ts:51-56 | under the fold as written, contents with no `import` on any line come back unchanged |
| NodeProtocolImportSpecifier.ConventionKeepsLines | src/commands/functions/plugins/nodeProtocolImportSpecifier.ts:42-65 | the conversion as written over the 13 supported modules keeps the line count and every line without `import` |
| NodeProtocolImportSpecifier.ApplyConventionIntendedLines | src/commands/functions/plugins/nodeProtocolImportSpecifier.ts:51-56 | the corrected fold, each line tested on its own, keeps the line count and every line without `import` |
| NodeProtocolImportSpecifier.ApplyConventionSplit | src/commands/functions/plugins/nodeProtocolImportSpecifier.ts:51-56 | folding over `a + b` is folding over `a`, then over `b` |
| NodeProtocolImportSpecifier.FoldWithoutTokens | src/commands/functions/plugins/nodeProtocolImportSpecifier.ts:51-56 | modules quoted on no line of the text leave it unchanged, under either fold |
| NodeProtocolImportSpecifier.ConventionSkipsRepeatedImport | src/commands/functions/plugins/nodeProtocolImportSpecifier.ts:42-65 | on a file with `import a from 'path'` on two lines, the conversion as written rewrites only the first line; the corrected fold rewrites both |
| NodeProtocolImportSpecifier.OnLoadSkipsRepeatedImport | src/commands/functions/plugins/nodeProtocolImportSpecifier.ts:74-84 | the load hook hands esbuild that file with only the first import converted |
| NodeProtocolImportSpecifier.SubpathNotRewritten | src/commands/functions/plugins/nodeProtocolImportSpecifier.ts:30 | `import p from 'path/posix'` is left alone by the rewrite for `path` |
| NodeProtocolImportSpecifier.PrefixedNotRewritten | src/commands/functions/plugins/nodeProtocolImportSpecifier.ts:30 | `import c from "node:crypto"` is left alone by the rewrite for `crypto` |
| NodeProtocolImportSpecifier.OnLoad | src/commands/functions/plugins/nodeProtocolImportSpecifier.ts:74-84 | the load hook answers iff the path ends in `.js`, and then with the file text converted by the fold as written |
| NodeProtocolImportSpecifier.OnResolve | src/commands/functions/plugins/nodeProtocolImportSpecifier.ts:86-89 | the resolve hook answers iff the path starts with `node:`, keeping the path and marking it external |
| NodeProtocolImportSpecifier.RewrittenSpecifiersExternal | src/commands/functions/plugins/nodeProtocolImportSpecifier.ts:86-89 | every specifier the rewrite produces resolves as external, unchanged |
| GetCodeFromPath.BannerFor | src/commands/functions/utils/getCodeFromPath.ts:105-117 | a banner is attached iff the environment has at least one variable |
| GetCodeFromPath.BannerShowsEntry | src/commands/functions/utils/getCodeFromPath.ts:106-116 | every entry sits in the banner at its offset with its value verbatim after `key: "`, `",\n"` follows it when another entry comes, and offsets increase in order |
| GetCodeFromPath.AssemblePlugins | src/commands/functions/utils/getCodeFromPath.ts:69-89 | the list is the checker, the rewriter and the progress plugin in that order, with the polyfill appended iff bundling |
| GetCodeFromPath.MakeBuildOptions | src/commands/functions/utils/getCodeFromPath.ts:91-117 | the options carry the entry point, the flag, the fixed settings, the plugin list and the banner exactly when the environment is non-empty |
| GetCodeFromPath.ErrorMessage | src/commands/functions/utils/getCodeFromPath.ts:127-128 | the error is the thrown `message` iff the thrown value is an object whose `message` is a string, and otherwise `unknownTransformError` |
| GetCodeFromPath.ResponseFor | src/commands/functions/utils/getCodeFromPath.ts:119-146 | success iff the build did not throw; on success path `.fleek/function.js` and no error; on failure the source path and the chosen error; always the shared set |
| GetCodeFromPath.ResolveRequests | src/commands/functions/utils/getCodeFromPath.ts:67-70 | after the build's resolutions the shared set is the recording of every request in order, and the hook called back once per request |
| GetCodeFromPath.EnsureTempDir | src/commands/functions/utils/getCodeFromPath.ts:60-64 | `.fleek` is created iff nothing by that name exists; files are untouched |
| GetCodeFromPath.SettleBuild | src/commands/functions/utils/getCodeFromPath.ts:119-138 | on success the bar is set to 100 and stopped, on failure only stopped; the response is `ResponseFor` the outcome |
| GetCodeFromPath.TranspileCode | src/commands/functions/utils/getCodeFromPath.ts:47-147 | on success the bundle text is written to `.fleek/function.js` and the returned path names it, on failure files are unchanged; `.fleek` ensured, a fresh set holding exactly the unsupported requests, the response for the outcome, the options for the call, and a bar finished at 100 or left at 10 |
| GetCodeFromPath.UnsupportedReportContents | src/commands/functions/utils/getCodeFromPath.ts:27-39 | nothing is printed iff the set is empty; otherwise a blank line, one complaint per element in insertion order, the doc-link message, the link and a blank line, and a package is named iff it is in the set |
| GetCodeFromPath.MistakesOnce | src/commands/functions/utils/getCodeFromPath.ts:28-34 | a set's complaints are pairwise different, so each module is named once |
| GetCodeFromPath.ShowUnsupportedModules | src/commands/functions/utils/getCodeFromPath.ts:27-39 | the terminal receives exactly `UnsupportedReport` of the set's elements |
| GetCodeFromPath.FirstRequireCall | src/commands/functions/utils/getCodeFromPath.ts:162-166 | the leftmost position where `require`, whitespace, `(` and a later `)` occur |
| GetCodeFromPath.HasRequireCall | src/commands/functions/utils/getCodeFromPath.ts:161-167 | the check is true iff the pattern occurs anywhere in the text |
| GetCodeFromPath.RequireCallFlagged | src/commands/functions/utils/getCodeFromPath.ts:162 | any text holding `require(args)` with no `)` inside the args is flagged |
| GetCodeFromPath.Decision | src/commands/functions/utils/getCodeFromPath.ts:198-206 | returns `.fleek/function.js` iff the build succeeded; `UnknownError` exactly for a thrown empty-string message; otherwise the bundling error with the chosen message, whatever the flag |
| GetCodeFromPath.GetCodeFromPath | src/commands/functions/utils/getCodeFromPath.ts:169-207 | a missing path fails first and touches nothing; a directory fails on reading; otherwise the answer is `Decision`, the terminal gets the `require` warning then the unsupported report; only `.fleek` may be created and, on success, `.fleek/function.js` written with the bundle, whose path is returned |
| ProgressBar.AfterStart | src/output/utils/uploadOnProgress.ts:10 | `start` marks the bar started and not stopped, with the given total and value |
| ProgressBar.AfterUpdate | src/output/utils/uploadOnProgress.ts:12 | `update` moves only the value |
| ProgressBar.AfterStop | src/output/utils/uploadOnProgress.ts:13 | `stop` marks the bar stopped and keeps everything else |
| ProgressBar.SingleBar.constructor | src/commands/functions/utils/getCodeFromPath.ts:49-54 | a new bar is not started, with total 100 and value 0 |
| ProgressBar.SingleBar.Start | src/commands/functions/utils/getCodeFromPath.ts:79 | the bar's state becomes `AfterStart` of the old state |
| ProgressBar.SingleBar.Update | src/commands/functions/utils/getCodeFromPath.ts:122 | the bar's state becomes `AfterUpdate` of the old state |
| ProgressBar.SingleBar.Stop | src/commands/functions/utils/getCodeFromPath.ts:123 | the bar's state becomes `AfterStop` of the old state |
| UploadOnProgress.OnProgress | src/output/utils/uploadOnProgress.ts:9-16 | load 0 starts the bar at total `totalSize ?? 0` and value 0, even when the total is 0 too; a non-zero load equal to the total sets the value and stops it; any other load only sets the value |
| UploadOnProgress.ReplaySnoc | src/output/utils/uploadOnProgress.ts:5-17 | a series of events followed by one more is the series, then one handler step |
| UploadOnProgress.UnknownTotalNeverStops | src/output/utils/uploadOnProgress.ts:11-15 | with no known total, no series of events stops a running bar |
| UploadOnProgress.ValueFollowsLastLoad | src/output/utils/uploadOnProgress.ts:12-15 | after an event with positive load the bar shows exactly that load |
| UploadOnProgress.CompleteUploadFinishesBar | src/output/utils/uploadOnProgress.ts:9-13 | events from load 0 up to a known positive total leave the bar started, stopped, with that total and full |
| UploadOnProgress.StartedWithTotal | src/output/utils/uploadOnProgress.ts:9-10 | after a starting event with a known total, and further events with the same total, the bar is started with that total |
| UploadOnProgress.KeepsStartedAndTotal | src/output/utils/uploadOnProgress.ts:11-15 | events that carry the bar's total keep it started with that total |
| UploadOnProgress.UploadProgressHandler.constructor | src/output/utils/uploadOnProgress.ts:3 | the handler drives the bar it was given |
| UploadOnProgress.UploadProgressHandler.Handle | src/output/utils/uploadOnProgress.ts:5-17 | each event turns the bar's state into `OnProgress(old state, event)` |
| ConfigFile.ConfigFileByTypeValue | src/utils/config.ts:8 | the name is `fleek.config.` followed by the extension, one dot longer than both |
| ConfigFile.ConfigFileByTypeName | src/utils/config.ts:6 | the name for an enum key is the name for that key's value |
| ConfigFile.ExtensionRoundTrip | src/utils/config.ts:8 | the extension reads back from the name, and a name with an extension is exactly the one built from it |
| ConfigFile.ConfigFileInjective | src/utils/config.ts:8 | distinct extensions give distinct names |
| ConfigFile.ConfigFileSpelled | src/utils/config.ts:4-8 | the base name and the dot spell `fleek.config.` |
| ConfigFile.KnownFormatFiles | src/utils/config.ts:8 | `ts`, `js` and `json` name `fleek.config.ts`, `fleek.config.js` and `fleek.config.json` |
| ConfigurationPath.JoinPath | src/utils/configuration/getConfigurationPath.ts:11 | the joined path starts with the directory and ends with the name |
| ConfigurationPath.AccessProbe.Access | src/utils/configuration/getConfigurationPath.ts:25-28 | access succeeds iff the path is readable, and the path is recorded as checked |
| ConfigurationPath.FirstReadable | src/utils/configuration/getConfigurationPath.ts:22-33 | the index of a readable candidate path with no readable path before it, or none when no candidate path is readable |
| ConfigurationPath.GetConfigurationPath | src/utils/configuration/getConfigurationPath.ts:9-36 | the result is `ConfigurationPath` of the readable set, and the paths checked are exactly `Probes`, in order |
| ConfigurationPath.PredefinedDecides | src/utils/configuration/getConfigurationPath.ts:10-17 | with a truthy predefined path only that path is checked; the call resolves to it iff it is readable and otherwise rejects carrying it |
| ConfigurationPath.SearchPriority | src/utils/configuration/getConfigurationPath.ts:19-35 | without one, the call resolves iff some default name is readable, then to the highest-priority readable one, and otherwise rejects with no `configPath` |
| ConfigurationPath.ProbesStopAtFirst | src/utils/configuration/getConfigurationPath.ts:22-33 | the checked paths are a prefix of the candidates, all unreadable but the last, which is the result when there is one; nothing after it is checked |
| ConfigurationPath.EmptyPredefinedFallsThrough | src/utils/configuration/getConfigurationPath.ts:10 | an empty predefined path behaves as none at all |
| ConfigurationPath.ResolvedPathShape | src/utils/configuration/getConfigurationPath.ts:11-31 | every resolved path is the directory joined with the predefined path or with a default name |
| ConfigurationPath.CandidatesAreConfigFiles | src/utils/configuration/getConfigurationPath.ts:20 | the default names are the configuration file names of `ts`, `js` and `json`, in that order |
| SaveConfiguration.ContentFrame | src/utils/configuration/saveConfiguration.ts:14-30 | each format's text is a fixed head, the one stringified configuration, and a fixed tail |
| SaveConfiguration.EmbeddedRoundTrip | src/utils/configuration/saveConfiguration.ts:14-29 | the stringified configuration reads back from the written text of every format |
| SaveConfiguration.ContentInjective | src/utils/configuration/saveConfiguration.ts:14-29 | different configurations give different file texts |
| SaveConfiguration.TsLayout | src/utils/configuration/saveConfiguration.ts:17 | the TypeScript file's first line is the `FleekConfig` import and its second line is blank |
| SaveConfiguration.JsLayout | src/utils/configuration/saveConfiguration.ts:23 | the JavaScript file's first line is the JSDoc type line |
| SaveConfiguration.SaveConfiguration | src/utils/configuration/saveConfiguration.ts:10-31 | exactly one file changes, `fleek.config.<format>`, which receives that format's text; directories are untouched |
| SelectConfigurationFormat.ChoiceFor | src/commands/sites/prompts/selectConfigurationFormatPrompt.ts:10-17 | the value is the enum value and the title is the member name, ` (`, the configuration file name for the value, and `)` |
| SelectConfigurationFormat.ChoicesInKeyOrder | src/commands/sites/prompts/selectConfigurationFormatPrompt.ts:4-17 | three choices, JSON, Typescript and Javascript in that order, with values `json`, `ts` and `js` |
| SelectConfigurationFormat.TitleParts | src/commands/sites/prompts/selectConfigurationFormatPrompt.ts:14 | a title starts with the member name and contains the file name of its value |
| SelectConfigurationFormat.TitlesNameFiles | src/commands/sites/prompts/selectConfigurationFormatPrompt.ts:14 | every title contains `getConfigFileByTypeValue` of its value |
| SelectConfigurationFormat.ValuesAreSaveFormats | src/commands/sites/prompts/selectConfigurationFormatPrompt.ts:4-8 | the values are distinct and are exactly the formats `saveConfiguration` accepts |
| FileSystem.Workspace.ReadFile | src/commands/functions/utils/getCodeFromPath.ts:163 | a file's text, a directory error for a directory, and a missing-file error otherwise |
| FileSystem.Workspace.MakeDirectory | src/commands/functions/utils/getCodeFromPath.ts:63 | adds the directory and nothing else |
| FileSystem.Workspace.WriteFile | src/utils/configuration/saveConfiguration.ts:19 | creates or replaces that one file and nothing else |

## Left out

- The esbuild `build` call is an oracle outcome: the requests the checker sees, then either success with the bundle text it writes to `.fleek/function.js` or a thrown value. Bundling and minification, and so how that text is derived from the entry file, are not modelled. Neither is a write failure inside esbuild, which would show up as a thrown value.
- The webpack and esbuild hook registration (`apply`, `tap`, `tapAsync`, `setup`) is not modelled; the hooks are plain functions and methods.
- `moduleChecker` returns a webpack plugin object (`apply` and no `setup`), which `transpileCode` puts in an esbuild plugin list. How esbuild treats such an object is outside this model. The build's oracle parameters cover every possibility: the hook sees the given requests, which may be none, and then the build returns or throws. The contracts hold for all of them. If esbuild never calls the hook, nothing is ever reported as unsupported. If it rejects the object, every build ends in `Threw`.
- The `ProgressBar` plugin's `onStart` is assumed to fire once before resolution.
- `asyncLocalStoragePolyfill` is not part of this model. Only its place in the plugin list is.
- The `try/catch` around `applyNodeProtocolConvention` is not modelled (its async rejection bypasses `onError`), nor is the `catch` in `uploadOnProgress` that only writes a debug line. Both are promise and exception plumbing.
- `JSON.stringify(config, undefined, 2)` is the parameter `stringify`; JSON serialisation itself is not modelled.
- `fs.access`, `fs.existsSync`, `fs.mkdirSync`, `readFile` and `writeFile` act on an abstract workspace, and `fs.access` on a set of readable paths. The model does not capture permission errors, races, a write to a path that is a directory, or a write beneath a path that is a regular file. For example, if `.fleek` already exists as a file, `mkdir` is skipped, and a `Built` outcome still writes `.fleek/function.js`. A real build would throw there, which the `Threw` outcome covers. A path is assumed never to be both a file and a directory.
- `ConfigurationPath.JoinPath`: `path.join` normalisation (`..`, `.`, repeated or leading separators in the name) is not modelled. Only the single separator between the two parts is.
- `process.cwd()` is the parameter `cwd`.
- `getFileLikeObject` and `filesFromPaths` are not modelled; `getCodeFromPath` does not call them.
- The `FleekSiteConfigFormats` enum is not part of this model. `ConfigFile.ConfigFileByTypeName` takes its key-to-value table as a map.
- The `selectPrompt` call and `src/utils/formats.ts` are not modelled.
- Terminal wording and translations (`t(...)`) are not modelled. Output events name their translation key, and `unknownTransformError`'s translation is taken as non-empty text.
- `cli-progress` rendering and format strings are not modelled; the bar is its started/stopped flags, total and value.
- Event sizes are JavaScript numbers; the model uses integers, so fractional sizes and `NaN` are not covered.
- Strings are sequences of code points, not UTF-16 code units. The regex `\s` set is written out character by character.
- A module name containing regex metacharacters is not covered. The registry names contain none.

## Findings

| source | as written | input that shows it | evidently intended | confidence | as-written member | corrected member |
|---|---|---|---|---|---|---|
| src/commands/functions/plugins/nodeProtocolImportSpecifier.ts:30-35 | one `g`-flagged RegExp object tests every line of the file, so `lastIndex` left by a matching line is where the next line's test starts | two identical lines `import a from 'path'`: the first test ends at index 20, the second line is tested from 20, fails, and keeps `'path'` | each line is tested on its own from index 0, so every importing line is rewritten, and a second pass over the output changes nothing. The file conversion as written is not idempotent: a second pass over that output rewrites line 2 | not executed | NodeProtocolImportSpecifier.ReplaceLineByMatchRegExpr and NodeProtocolImportSpecifier.ApplyConvention, with NodeProtocolImportSpecifier.LastIndexSkipsNextImport, NodeProtocolImportSpecifier.ConventionSkipsRepeatedImport and NodeProtocolImportSpecifier.OnLoadSkipsRepeatedImport | NodeProtocolImportSpecifier.ReplaceLineIntended and NodeProtocolImportSpecifier.ApplyConventionIntended, with NodeProtocolImportSpecifier.ReplaceLineIntendedShape, NodeProtocolImportSpecifier.ReplaceLineIntendedIdempotent and NodeProtocolImportSpecifier.ApplyConventionIntendedLines |
