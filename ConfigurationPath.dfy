/** Locating the configuration file
    (src/utils/configuration/getConfigurationPath.ts): an explicit path, or
    the first readable default name in priority order. */
module ConfigurationPath {
  import opened Wrappers
  import ConfigFile

  /** `FleekConfigMissingFileError`, with the `configPath` it was built with. */
  datatype ConfigError = FleekConfigMissingFileError(configPath: Option<string>)

  /** The default names, highest priority first. */
  const SupposedFilenames: seq<string> := ["fleek.config.ts", "fleek.config.js", "fleek.config.json"]

  /** `path.join(cwd, name)` for a relative `name`: one separator between the
      two parts. */
  function JoinPath(cwd: string, name: string): (r: string)
    ensures |r| >= |cwd| + |name| && r[..|cwd|] == cwd && r[|r| - |name|..] == name
  {
    if |cwd| > 0 && cwd[|cwd| - 1] == '/' then cwd + name else cwd + "/" + name
  }

  /** `fs.access(path, constants.R_OK)` against a fixed set of readable paths,
      remembering every path it was asked about, in order. */
  class AccessProbe {
    const readable: set<string>
    var probed: seq<string>

    constructor (readable0: set<string>)
      ensures readable == readable0 && probed == []
    {
      readable := readable0;
      probed := [];
    }

    method Access(path: string) returns (ok: bool)
      modifies this
      ensures ok <==> path in readable
      ensures probed == old(probed) + [path]
    {
      ok := path in readable;
      probed := probed + [path];
    }
  }

  /** The optional `predefinedConfigPath` is truthy: given and not empty. */
  predicate IsPredefined(predefinedConfigPath: Option<string>) {
    predefinedConfigPath.Some? && |predefinedConfigPath.value| > 0
  }

  /** Every name joined to `cwd`, in order. */
  function CandidatePaths(cwd: string, names: seq<string>): (r: seq<string>)
    ensures |r| == |names|
    ensures forall k :: 0 <= k < |names| ==> r[k] == JoinPath(cwd, names[k])
  {
    seq(|names|, k requires 0 <= k < |names| => JoinPath(cwd, names[k]))
  }

  /** The index of the first of `paths` that is readable. */
  function FirstReadable(readable: set<string>, paths: seq<string>): (r: Option<nat>)
    ensures r.Some? ==> r.value < |paths| && paths[r.value] in readable
    ensures r.Some? ==> forall k :: 0 <= k < r.value ==> paths[k] !in readable
    ensures r.None? ==> forall k :: 0 <= k < |paths| ==> paths[k] !in readable
    decreases |paths|
  {
    if |paths| == 0 then None
    else if paths[0] in readable then Some(0)
    else
      var rest := FirstReadable(readable, paths[1..]);
      assert forall k :: 1 <= k < |paths| ==> paths[k] == paths[1..][k - 1];
      match rest {
        case Some(k) => Some(k + 1)
        case None => None
      }
  }

  /** A readable path with no readable path before it is the one found. */
  lemma FirstReadableAt(readable: set<string>, paths: seq<string>, i: nat)
    requires i < |paths| && paths[i] in readable
    requires forall k :: 0 <= k < i ==> paths[k] !in readable
    ensures FirstReadable(readable, paths) == Some(i)
  {
  }

  /** The default name at `k` is readable and none before it is. */
  predicate IsFirstReadable(readable: set<string>, cwd: string, k: nat)
    requires k < |SupposedFilenames|
  {
    JoinPath(cwd, SupposedFilenames[k]) in readable &&
    forall j :: 0 <= j < k ==> JoinPath(cwd, SupposedFilenames[j]) !in readable
  }

  /** What the call resolves to, or rejects with. */
  function ConfigurationPath(readable: set<string>, cwd: string, predefinedConfigPath: Option<string>): Result<string, ConfigError> {
    if IsPredefined(predefinedConfigPath) then
      var absolutePath := JoinPath(cwd, predefinedConfigPath.value);
      if absolutePath in readable then Success(absolutePath)
      else Failure(FleekConfigMissingFileError(Some(predefinedConfigPath.value)))
    else
      match FirstReadable(readable, CandidatePaths(cwd, SupposedFilenames)) {
        case Some(k) => Success(JoinPath(cwd, SupposedFilenames[k]))
        case None => Failure(FleekConfigMissingFileError(None))
      }
  }

  /** The paths the call checks for readability, in order. */
  function Probes(readable: set<string>, cwd: string, predefinedConfigPath: Option<string>): seq<string> {
    if IsPredefined(predefinedConfigPath) then [JoinPath(cwd, predefinedConfigPath.value)]
    else
      match FirstReadable(readable, CandidatePaths(cwd, SupposedFilenames)) {
        case Some(k) => CandidatePaths(cwd, SupposedFilenames)[..k + 1]
        case None => CandidatePaths(cwd, SupposedFilenames)
      }
  }

  /** `getConfigurationPath`. */
  method GetConfigurationPath(probe: AccessProbe, cwd: string, predefinedConfigPath: Option<string>)
    returns (r: Result<string, ConfigError>)
    modifies probe
    ensures r == ConfigurationPath(probe.readable, cwd, predefinedConfigPath)
    ensures probe.probed == old(probe.probed) + Probes(probe.readable, cwd, predefinedConfigPath)
  {
    if predefinedConfigPath.Some? && |predefinedConfigPath.value| > 0 {
      var absolutePath := JoinPath(cwd, predefinedConfigPath.value);
      var accessible := probe.Access(absolutePath);
      if accessible {
        return Success(absolutePath);
      }
      return Failure(FleekConfigMissingFileError(Some(predefinedConfigPath.value)));
    }
    ghost var candidates := CandidatePaths(cwd, SupposedFilenames);
    for i := 0 to |SupposedFilenames|
      invariant probe.probed == old(probe.probed) + candidates[..i]
      invariant forall k :: 0 <= k < i ==> candidates[k] !in probe.readable
    {
      var absolutePath := JoinPath(cwd, SupposedFilenames[i]);
      var isSupposedFileAccessible := probe.Access(absolutePath);
      assert candidates[..i + 1] == candidates[..i] + [absolutePath];
      if isSupposedFileAccessible {
        FirstReadableAt(probe.readable, candidates, i);
        return Success(absolutePath);
      }
    }
    assert candidates[..|SupposedFilenames|] == candidates;
    return Failure(FleekConfigMissingFileError(None));
  }

  /** With a truthy predefined path, only that path is checked: the call
      resolves to it when it is readable and rejects naming it otherwise. */
  lemma PredefinedDecides(readable: set<string>, cwd: string, predefinedConfigPath: Option<string>)
    requires IsPredefined(predefinedConfigPath)
    ensures var absolutePath := JoinPath(cwd, predefinedConfigPath.value);
      var r := ConfigurationPath(readable, cwd, predefinedConfigPath);
      (r.Success? <==> absolutePath in readable) &&
      (r.Success? ==> r.value == absolutePath) &&
      (r.Failure? ==> r.error.configPath == Some(predefinedConfigPath.value)) &&
      Probes(readable, cwd, predefinedConfigPath) == [absolutePath]
  {
  }

  /** Without one, the call resolves iff some default name is readable, and
      then to the highest-priority readable one; otherwise it rejects with no
      `configPath`. */
  lemma {:induction false} SearchPriority(readable: set<string>, cwd: string, predefinedConfigPath: Option<string>)
    requires !IsPredefined(predefinedConfigPath)
    ensures var r := ConfigurationPath(readable, cwd, predefinedConfigPath);
      (r.Success? <==> exists k :: 0 <= k < |SupposedFilenames| && JoinPath(cwd, SupposedFilenames[k]) in readable) &&
      (r.Failure? ==> r.error == FleekConfigMissingFileError(None)) &&
      (r.Success? ==> exists k :: 0 <= k < |SupposedFilenames| && IsFirstReadable(readable, cwd, k) && r.value == JoinPath(cwd, SupposedFilenames[k]))
  {
    match FirstReadable(readable, CandidatePaths(cwd, SupposedFilenames))
    case Some(k) =>
      assert JoinPath(cwd, SupposedFilenames[k]) in readable;
    case None =>
  }

  /** The search stops at the first readable name: the checked paths are a
      prefix of the candidates, every one but the last unreadable, and the
      last one is the result whenever there is one. */
  lemma {:induction false} ProbesStopAtFirst(readable: set<string>, cwd: string, predefinedConfigPath: Option<string>)
    requires !IsPredefined(predefinedConfigPath)
    ensures var probes := Probes(readable, cwd, predefinedConfigPath);
      var r := ConfigurationPath(readable, cwd, predefinedConfigPath);
      1 <= |probes| <= |SupposedFilenames| &&
      probes == CandidatePaths(cwd, SupposedFilenames)[..|probes|] &&
      (forall k :: 0 <= k < |probes| - 1 ==> probes[k] !in readable) &&
      (r.Success? ==> r.value == probes[|probes| - 1])
  {
    var all := CandidatePaths(cwd, SupposedFilenames);
    match FirstReadable(readable, CandidatePaths(cwd, SupposedFilenames))
    case Some(k) =>
      assert Probes(readable, cwd, predefinedConfigPath) == all[..k + 1];
    case None =>
      assert all[..|all|] == all;
  }

  /** An empty predefined path is falsy, and the call behaves as if none was given. */
  lemma EmptyPredefinedFallsThrough(readable: set<string>, cwd: string)
    ensures ConfigurationPath(readable, cwd, Some("")) == ConfigurationPath(readable, cwd, None)
    ensures Probes(readable, cwd, Some("")) == Probes(readable, cwd, None)
  {
  }

  /** Every resolved path is `cwd` joined with the predefined path or with
      one of the default names. */
  lemma ResolvedPathShape(readable: set<string>, cwd: string, predefinedConfigPath: Option<string>)
    ensures var r := ConfigurationPath(readable, cwd, predefinedConfigPath);
      r.Success? ==>
        (IsPredefined(predefinedConfigPath) && r.value == JoinPath(cwd, predefinedConfigPath.value)) ||
        (exists k :: 0 <= k < |SupposedFilenames| && r.value == JoinPath(cwd, SupposedFilenames[k]))
  {
  }

  /** The default names are the configuration file names of the `ts`, `js`
      and `json` formats, in that order. */
  lemma CandidatesAreConfigFiles()
    ensures SupposedFilenames == [ConfigFile.ConfigFileByTypeValue("ts"), ConfigFile.ConfigFileByTypeValue("js"), ConfigFile.ConfigFileByTypeValue("json")]
  {
    ConfigFile.KnownFormatFiles();
  }
}
