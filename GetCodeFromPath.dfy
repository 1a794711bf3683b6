/** Turning a function's source file into a bundle
    (src/commands/functions/utils/getCodeFromPath.ts): the environment
    banner, the plugin list, the esbuild options, how a build outcome becomes
    a `TranspileResponse`, the report of unsupported modules, the `require`
    heuristic and the `getCodeFromPath` facade. The esbuild run itself is an
    oracle: the module requests it resolves and whether it threw. */
module GetCodeFromPath {
  import opened Wrappers
  import opened JsText
  import opened JsSet
  import opened ProgressBar
  import opened Output
  import opened FileSystem
  import ModuleChecker

  const TempDir: string := ".fleek"
  const OutFile: string := TempDir + "/function.js"
  const DocsUrl: string := "https://fleek.xyz/docs"

  // ---------------------------------------------------------------------
  // The environment banner
  // ---------------------------------------------------------------------

  /** `Object.entries(env)`: names and values in the object's own order. */
  type Env = seq<(string, string)>

  /** One entry as the banner writes it: `key: "value"`, the value unescaped. */
  function EnvEntry(key: string, value: string): string {
    key + ": \"" + value + "\""
  }

  function EnvEntries(env: Env): (r: seq<string>)
    ensures |r| == |env|
    ensures forall k :: 0 <= k < |env| ==> r[k] == EnvEntry(env[k].0, env[k].1)
  {
    seq(|env|, k requires 0 <= k < |env| => EnvEntry(env[k].0, env[k].1))
  }

  const BannerHead: string := "\n    globalThis.fleek = {\n      env: {\n        "
  const BannerTail: string := "\n      }\n    }\n    "

  /** The `banner.js` text: the entries joined by `",\n"` inside
      `globalThis.fleek = { env: { … } }`. */
  function Banner(env: Env): string {
    BannerHead + JoinWith(EnvEntries(env), ",\n") + BannerTail
  }

  /** The banner is attached exactly when there is at least one variable. */
  function BannerFor(env: Env): (r: Option<string>)
    ensures r.Some? <==> |env| > 0
    ensures r.Some? ==> r.value == Banner(env)
  {
    if |env| > 0 then Some(Banner(env)) else None
  }

  /** Where entry `k` starts in the banner. */
  function EntryOffset(env: Env, k: nat): nat
    requires k < |env|
  {
    |BannerHead| + JoinOffset(EnvEntries(env), ",\n", k)
  }

  /** Every variable appears in the banner as `key: "value"`, its value
      verbatim between the quotes, in `Object.entries` order with `",\n"`
      between neighbours. */
  lemma BannerShowsEntry(env: Env, k: nat)
    requires k < |env|
    ensures HasAt(Banner(env), EntryOffset(env, k), EnvEntry(env[k].0, env[k].1))
    ensures HasAt(Banner(env), EntryOffset(env, k) + |env[k].0| + 3, env[k].1)
    ensures k + 1 < |env| ==> HasAt(Banner(env), EntryOffset(env, k) + |EnvEntry(env[k].0, env[k].1)|, ",\n")
    ensures k + 1 < |env| ==> EntryOffset(env, k) < EntryOffset(env, k + 1)
  {
    EntryShowsValue(env[k].0, env[k].1);
    EnclosedItem(BannerHead, BannerTail, EnvEntries(env), ",\n", k, |env[k].0| + 3, env[k].1);
  }

  /** Item `k` of a join framed by `h` and `t`, a piece `w` of it, and the
      separator after it. */
  lemma EnclosedItem(h: string, t: string, items: seq<string>, sep: string, k: nat, p: nat, w: string)
    requires k < |items| && HasAt(items[k], p, w)
    ensures HasAt(h + JoinWith(items, sep) + t, |h| + JoinOffset(items, sep, k), items[k])
    ensures HasAt(h + JoinWith(items, sep) + t, |h| + JoinOffset(items, sep, k) + p, w)
    ensures k + 1 < |items| ==> HasAt(h + JoinWith(items, sep) + t, |h| + JoinOffset(items, sep, k) + |items[k]|, sep)
    ensures k + 1 < |items| ==> JoinOffset(items, sep, k + 1) == JoinOffset(items, sep, k) + |items[k]| + |sep|
  {
    var o := JoinOffset(items, sep, k);
    JoinWithAt(items, sep, k);
    Enclosed(h, JoinWith(items, sep), t, o, items[k]);
    HasAtNested(h + JoinWith(items, sep) + t, |h| + o, items[k], p, w);
    if k + 1 < |items| {
      Enclosed(h, JoinWith(items, sep), t, o + |items[k]|, sep);
    }
  }

  lemma Enclosed(h: string, j: string, t: string, o: nat, w: string)
    requires HasAt(j, o, w)
    ensures HasAt(h + j + t, |h| + o, w)
  {
    HasAtPrepend(j, t, o, w);
    HasAtAppend(h, j + t, o, w);
    assert h + (j + t) == h + j + t;
  }

  lemma EntryShowsValue(key: string, value: string)
    ensures HasAt(EnvEntry(key, value), |key| + 3, value)
  {
    var e := EnvEntry(key, value);
    assert e == key + ": \"" + value + "\"";
    assert e[|key| + 3..|key| + 3 + |value|] == value;
  }

  // ---------------------------------------------------------------------
  // Plugins and build options
  // ---------------------------------------------------------------------

  datatype Plugin =
    | ModuleCheckerPlugin
    | NodeProtocolImportSpecifierPlugin
    | ProgressBarPlugin
    | AsyncLocalStoragePolyfillPlugin

  /** The plugin list: the checker, the specifier rewriter and the progress
      bar always, in that order, and the polyfill last when bundling. */
  predicate PluginChain(plugins: seq<Plugin>, bundle: bool) {
    && |plugins| == (if bundle then 4 else 3)
    && plugins[..3] == [ModuleCheckerPlugin, NodeProtocolImportSpecifierPlugin, ProgressBarPlugin]
    && (AsyncLocalStoragePolyfillPlugin in plugins <==> bundle)
  }

  method AssemblePlugins(bundle: bool) returns (plugins: seq<Plugin>)
    ensures PluginChain(plugins, bundle)
    ensures bundle ==> plugins[3] == AsyncLocalStoragePolyfillPlugin
  {
    plugins := [ModuleCheckerPlugin, NodeProtocolImportSpecifierPlugin, ProgressBarPlugin];
    if bundle {
      plugins := plugins + [AsyncLocalStoragePolyfillPlugin];
    }
  }

  datatype BuildOptions = BuildOptions(
    entryPoints: seq<string>,
    bundle: bool,
    logLevel: string,
    platform: string,
    format: string,
    target: string,
    treeShaking: bool,
    mainFields: seq<string>,
    outfile: string,
    minify: bool,
    plugins: seq<Plugin>,
    banner: Option<string>)

  /** The options `transpileCode` hands to esbuild. */
  predicate OptionsFor(o: BuildOptions, filePath: string, bundle: bool, env: Env) {
    && o.entryPoints == [filePath] && o.bundle == bundle && FixedOptions(o)
    && PluginChain(o.plugins, bundle) && o.banner == BannerFor(env)
  }

  /** The options that do not depend on the call. */
  predicate FixedOptions(o: BuildOptions) {
    && o.logLevel == "silent" && o.platform == "browser" && o.format == "esm" && o.target == "esnext"
    && o.treeShaking && o.minify && o.mainFields == ["browser", "module", "main"] && o.outfile == OutFile
  }

  // ---------------------------------------------------------------------
  // The build outcome and the response
  // ---------------------------------------------------------------------

  /** The `message` property of a thrown object. */
  datatype MessageValue = StringValue(text: string) | NonStringValue

  /** What esbuild threw: a non-null object, with or without a `message`, or
      anything else (a falsy value, a primitive, a function). */
  datatype Thrown = NotAnObject | ObjectValue(message: Option<MessageValue>)

  /** How esbuild's `build` ends: having written the bundle text `artifact`
      to the `outfile`, or by throwing. */
  datatype BuildOutcome = Built(artifact: string) | Threw(thrown: Thrown)

  /** A response's error text: the thrown message, or the translation of
      `unknownTransformError`. */
  datatype ErrorText = Text(text: string) | UnknownTransformError

  /** JavaScript truthiness of the error text. A translation is never empty. */
  predicate Truthy(e: ErrorText) {
    e.UnknownTransformError? || e.text != ""
  }

  /** The catch block's choice of error message. */
  function ErrorMessage(e: Thrown): (r: ErrorText)
    ensures r.Text? <==> e.ObjectValue? && e.message.Some? && e.message.value.StringValue?
    ensures r.Text? ==> r.text == e.message.value.text
  {
    match e
    case ObjectValue(Some(StringValue(text))) => Text(text)
    case _ => UnknownTransformError
  }

  datatype TranspileResponse = TranspileResponse(
    path: string,
    unsupportedModules: StringSet,
    success: bool,
    error: Option<ErrorText>)

  /** The response `transpileCode` gives for a build outcome. */
  function ResponseFor(filePath: string, outcome: BuildOutcome, used: StringSet): (r: TranspileResponse)
    ensures r.unsupportedModules == used
    ensures r.success <==> outcome.Built?
    ensures r.success ==> r.path == OutFile && r.error.None?
    ensures !r.success ==> r.path == filePath && r.error == Some(ErrorMessage(outcome.thrown))
  {
    match outcome
    case Built(_) => TranspileResponse(OutFile, used, true, None)
    case Threw(e) => TranspileResponse(filePath, used, false, Some(ErrorMessage(e)))
  }

  /** The `buildOptions` object, with the banner set only for a non-empty
      environment. */
  method MakeBuildOptions(filePath: string, bundle: bool, env: Env, plugins: seq<Plugin>)
    returns (options: BuildOptions)
    requires PluginChain(plugins, bundle)
    ensures OptionsFor(options, filePath, bundle, env)
    ensures options.plugins == plugins
  {
    options := BuildOptions([filePath], bundle, "silent", "browser", "esm", "esnext", true,
                            ["browser", "module", "main"], OutFile, true, plugins, None);
    if |env| > 0 {
      options := options.(banner := Some(Banner(env)));
    }
  }

  /** The build's module resolution: the checker's hook sees every request
      in order. */
  method ResolveRequests(checker: ModuleChecker.ModuleCheckerPlugin, requests: seq<string>)
    requires checker.unsupportedModulesUsed.Valid()
    modifies checker, checker.unsupportedModulesUsed
    ensures checker.unsupportedModulesUsed.Valid()
    ensures checker.unsupportedModulesUsed.elements ==
      ModuleChecker.RecordedAll(old(checker.unsupportedModulesUsed.elements), requests)
    ensures checker.callbacks == old(checker.callbacks) + |requests|
  {
    var used := checker.unsupportedModulesUsed;
    ghost var start := used.elements;
    for k := 0 to |requests|
      invariant used.Valid()
      invariant used.elements == ModuleChecker.RecordedAll(start, requests[..k])
      invariant checker.callbacks == old(checker.callbacks) + k
    {
      ModuleChecker.RecordedAllPrefix(start, requests, k);
      checker.BeforeResolve(requests[k]);
    }
    assert requests[..|requests|] == requests;
  }

  /** Creates the `.fleek` directory unless something by that name exists. */
  method EnsureTempDir(ws: Workspace)
    modifies ws
    ensures ws.files == old(ws.files)
    ensures ws.directories == if old(ws.Exists(TempDir)) then old(ws.directories) else old(ws.directories) + {TempDir}
  {
    if !ws.Exists(TempDir) {
      ws.MakeDirectory(TempDir);
    }
  }

  /** `transpileCode`. The build first fires `onStart` (the progress bar
      starts at 10 of 100), then resolves `requests` through the checker,
      then, as `outcome` says, writes the bundle to `.fleek/function.js` and
      succeeds, or throws. */
  method TranspileCode(ws: Workspace, filePath: string, bundle: bool, env: Env,
                       requests: seq<string>, outcome: BuildOutcome)
    returns (r: TranspileResponse, options: BuildOptions, bar: SingleBar)
    modifies ws
    ensures ws.files == if outcome.Built? then old(ws.files)[OutFile := outcome.artifact] else old(ws.files)
    ensures ws.directories == if old(ws.Exists(TempDir)) then old(ws.directories) else old(ws.directories) + {TempDir}
    ensures fresh(r.unsupportedModules) && r.unsupportedModules.Valid()
    ensures r.unsupportedModules.elements == ModuleChecker.RecordedAll([], requests)
    ensures r == ResponseFor(filePath, outcome, r.unsupportedModules)
    ensures r.success ==> r.path in ws.files && ws.files[r.path] == outcome.artifact
    ensures OptionsFor(options, filePath, bundle, env)
    ensures fresh(bar) && bar.State() == BarState(true, true, 100, if outcome.Built? then 100 else 10)
  {
    bar := new SingleBar();
    EnsureTempDir(ws);
    var used := new StringSet();
    var checker := new ModuleChecker.ModuleCheckerPlugin(used);
    var plugins := AssemblePlugins(bundle);
    options := MakeBuildOptions(filePath, bundle, env, plugins);
    bar.Start(100, 10);
    ResolveRequests(checker, requests);
    if outcome.Built? {
      ws.WriteFile(OutFile, outcome.artifact);
    }
    r := SettleBuild(bar, filePath, used, outcome);
  }

  /** The `try`/`catch` around `await build(buildOptions)`: the bar is
      filled and stopped on success, only stopped on failure. */
  method SettleBuild(bar: SingleBar, filePath: string, used: StringSet, outcome: BuildOutcome)
    returns (r: TranspileResponse)
    modifies bar
    ensures r == ResponseFor(filePath, outcome, used)
    ensures bar.State() == if outcome.Built? then AfterStop(AfterUpdate(old(bar.State()), 100)) else AfterStop(old(bar.State()))
  {
    match outcome
    case Built(_) =>
      bar.Update(100);
      bar.Stop();
      r := TranspileResponse(OutFile, used, true, None);
    case Threw(e) =>
      bar.Stop();
      r := TranspileResponse(filePath, used, false, Some(ErrorMessage(e)));
  }

  // ---------------------------------------------------------------------
  // Reporting unsupported modules
  // ---------------------------------------------------------------------

  function Mistakes(used: seq<string>): (r: seq<OutputEvent>)
    ensures |r| == |used|
    ensures forall k :: 0 <= k < |used| ==> r[k] == Mistake(UnsupportedPackage(used[k]))
  {
    seq(|used|, k requires 0 <= k < |used| => Mistake(UnsupportedPackage(used[k])))
  }

  /** What `showUnsupportedModules` prints for the elements of the set. */
  function UnsupportedReport(used: seq<string>): seq<OutputEvent> {
    if |used| == 0 then []
    else [PrintNewLine] + Mistakes(used) + [Log(ShowUnsupportedModulesDocLink), Link(DocsUrl), PrintNewLine]
  }

  /** Nothing for an empty set; otherwise one complaint per element, in
      insertion order, and nothing else named. */
  lemma UnsupportedReportContents(used: seq<string>)
    ensures |used| == 0 <==> UnsupportedReport(used) == []
    ensures |used| > 0 ==> |UnsupportedReport(used)| == |used| + 4
    ensures |used| > 0 ==> forall k :: 0 <= k < |used| ==> UnsupportedReport(used)[k + 1] == Mistake(UnsupportedPackage(used[k]))
    ensures |used| > 0 ==> forall k :: |used| + 1 <= k < |used| + 4 ==> !UnsupportedReport(used)[k].Mistake?
    ensures forall x :: Mistake(UnsupportedPackage(x)) in UnsupportedReport(used) <==> x in used
  {
    if |used| > 0 {
      ReportLayout(used);
      var r := UnsupportedReport(used);
      forall x ensures Mistake(UnsupportedPackage(x)) in r <==> x in used {
        if x in used {
          var k :| 0 <= k < |used| && used[k] == x;
          assert r[k + 1] == Mistake(UnsupportedPackage(x));
        }
      }
    }
  }

  /** A set's complaints are pairwise different: each element is named
      once. */
  lemma MistakesOnce(used: seq<string>)
    requires NoDuplicates(used)
    ensures forall i, j :: 0 <= i < j < |used| ==> Mistakes(used)[i] != Mistakes(used)[j]
  {
    var r := Mistakes(used);
    forall i, j | 0 <= i < j < |used| ensures r[i] != r[j] {
      assert r[i].message.packageName == used[i];
      assert r[j].message.packageName == used[j];
    }
  }

  lemma ReportLayout(used: seq<string>)
    requires |used| > 0
    ensures |UnsupportedReport(used)| == |used| + 4
    ensures forall k :: 0 <= k < |used| ==> UnsupportedReport(used)[k + 1] == Mistake(UnsupportedPackage(used[k]))
    ensures UnsupportedReport(used)[0] == PrintNewLine
    ensures forall k :: |used| + 1 <= k < |used| + 4 ==> !UnsupportedReport(used)[k].Mistake?
  {
    var tail: seq<OutputEvent> := [Log(ShowUnsupportedModulesDocLink), Link(DocsUrl), PrintNewLine];
    var r := UnsupportedReport(used);
    assert r == [PrintNewLine] + Mistakes(used) + tail;
    forall k | |used| + 1 <= k < |used| + 4 ensures !r[k].Mistake? {
      assert r[k] == tail[k - |used| - 1];
    }
  }

  /** `showUnsupportedModules`. */
  method ShowUnsupportedModules(terminal: Terminal, unsupportedModulesUsed: StringSet)
    modifies terminal
    ensures terminal.events == old(terminal.events) + UnsupportedReport(unsupportedModulesUsed.elements)
  {
    var list := unsupportedModulesUsed.elements;
    if |list| > 0 {
      terminal.Emit(PrintNewLine);
      for k := 0 to |list|
        invariant terminal.events == old(terminal.events) + [PrintNewLine] + Mistakes(list[..k])
      {
        MistakesSnoc(list, k);
        terminal.Emit(Mistake(UnsupportedPackage(list[k])));
      }
      assert list[..|list|] == list;
      terminal.Emit(Log(ShowUnsupportedModulesDocLink));
      terminal.Emit(Link(DocsUrl));
      terminal.Emit(PrintNewLine);
      ReportAppended(old(terminal.events), list);
    }
  }

  lemma MistakesSnoc(used: seq<string>, k: nat)
    requires k < |used|
    ensures Mistakes(used[..k + 1]) == Mistakes(used[..k]) + [Mistake(UnsupportedPackage(used[k]))]
  {
  }

  lemma ReportAppended(before: seq<OutputEvent>, used: seq<string>)
    requires |used| > 0
    ensures before + [PrintNewLine] + Mistakes(used) + [Log(ShowUnsupportedModulesDocLink)] + [Link(DocsUrl)] + [PrintNewLine] == before + UnsupportedReport(used)
  {
  }

  // ---------------------------------------------------------------------
  // The `require(...)` heuristic
  // ---------------------------------------------------------------------

  /** `require\s*\([^)]*\)` matches at `i`: `require`, whitespace, `(` and a
      `)` somewhere after it. */
  predicate RequireCallAt(s: string, i: nat) {
    && HasAt(s, i, "require")
    && var p := i + 7 + WhitespaceRun(s, i + 7);
       p < |s| && s[p] == '(' && ')' in s[p + 1..]
  }

  /** The leftmost match at or after `i`. */
  function FirstRequireCall(s: string, i: nat): (r: Option<nat>)
    requires i <= |s|
    ensures r.Some? ==> i <= r.value && RequireCallAt(s, r.value)
    ensures r.Some? ==> forall j :: i <= j < r.value ==> !RequireCallAt(s, j)
    ensures r.None? ==> forall j :: i <= j ==> !RequireCallAt(s, j)
    decreases |s| - i
  {
    if RequireCallAt(s, i) then Some(i)
    else if i == |s| then None
    else FirstRequireCall(s, i + 1)
  }

  /** `checkUserSourceCodeSupport` on the file's text: a fresh regex, so the
      test starts at index 0. */
  function HasRequireCall(contents: string): (r: bool)
    ensures r <==> exists i: nat :: RequireCallAt(contents, i)
  {
    FirstRequireCall(contents, 0).Some?
  }

  /** Any text holding `require(` followed later by `)` is flagged. */
  lemma RequireCallFlagged(before: string, args: string, after: string)
    requires ')' !in args
    ensures HasRequireCall(before + "require(" + args + ")" + after)
  {
    var s := before + "require(" + args + ")" + after;
    var i := |before|;
    assert s[i..i + 7] == "require";
    assert WhitespaceRun(s, i + 7) == 0 by { assert s[i + 7] == '('; }
    assert s[i + 8 + |args|] == ')';
    assert ')' in s[i + 8..];
    assert RequireCallAt(s, i);
  }

  // ---------------------------------------------------------------------
  // `getCodeFromPath`
  // ---------------------------------------------------------------------

  datatype FacadeError =
    | FunctionPathNotValid(path: string)
    | ReadFailed(path: string, reason: ReadError)
    | BundlingFailed(error: ErrorText)
    | Unknown

  /** The facade's answer for a build outcome, whatever the `bundle` flag:
      the bundle's path on success; on failure `UnknownError` for a falsy
      error text and `FleekFunctionBundlingFailedError` otherwise. */
  function Decision(outcome: BuildOutcome): (r: Result<string, FacadeError>)
    ensures r.Success? <==> outcome.Built?
    ensures r.Success? ==> r.value == OutFile
    ensures r == Failure(Unknown) <==> outcome == Threw(ObjectValue(Some(StringValue(""))))
    ensures r.Failure? && r.error != Unknown ==> r.error == BundlingFailed(ErrorMessage(outcome.thrown))
  {
    match outcome
    case Built(_) => Success(OutFile)
    case Threw(e) =>
      var error := ErrorMessage(e);
      if !Truthy(error) then Failure(Unknown) else Failure(BundlingFailed(error))
  }

  /** The lines printed before the build when the source uses `require`. */
  function RequireWarning(contents: string): seq<OutputEvent> {
    if HasRequireCall(contents) then [Error(RequireDeprecatedUseES6Syntax)] else []
  }

  /** `getCodeFromPath`. A missing path fails before anything is touched; a
      directory fails when it is read; otherwise the `require` check only
      prints, the build runs, its unsupported modules are reported, and the
      outcome decides. */
  method GetCodeFromPath(ws: Workspace, terminal: Terminal, filePath: string, bundle: bool, env: Env,
                         requests: seq<string>, outcome: BuildOutcome)
    returns (r: Result<string, FacadeError>)
    modifies ws, terminal
    ensures !old(ws.Exists(filePath)) ==>
      r == Failure(FunctionPathNotValid(filePath)) && unchanged(ws) && unchanged(terminal)
    ensures old(ws.Exists(filePath)) && filePath !in old(ws.files) ==>
      r == Failure(ReadFailed(filePath, IsADirectory)) && unchanged(ws) && unchanged(terminal)
    ensures filePath in old(ws.files) ==>
      && r == Decision(outcome)
      && terminal.events == old(terminal.events) + RequireWarning(old(ws.files)[filePath])
                            + UnsupportedReport(ModuleChecker.RecordedAll([], requests))
      && ws.files == (if outcome.Built? then old(ws.files)[OutFile := outcome.artifact] else old(ws.files))
      && ws.directories == (if old(ws.Exists(TempDir)) then old(ws.directories) else old(ws.directories) + {TempDir})
    ensures r.Success? ==> r.value in ws.files && ws.files[r.value] == outcome.artifact
  {
    if !ws.Exists(filePath) {
      return Failure(FunctionPathNotValid(filePath));
    }
    var read := ws.ReadFile(filePath);
    if read.Failure? {
      return Failure(ReadFailed(filePath, read.error));
    }
    var contents := read.value;
    var isUserSourceCodeSupported := HasRequireCall(contents);
    if isUserSourceCodeSupported {
      terminal.Emit(Error(RequireDeprecatedUseES6Syntax));
    }
    var response, _, _ := TranspileCode(ws, filePath, bundle, env, requests, outcome);
    ShowUnsupportedModules(terminal, response.unsupportedModules);
    if !response.success {
      if response.error.None? || !Truthy(response.error.value) {
        return Failure(Unknown);
      }
      return Failure(BundlingFailed(response.error.value));
    }
    return Success(response.path);
  }
}
