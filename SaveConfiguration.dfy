/** Writing the configuration file (src/utils/configuration/saveConfiguration.ts):
    the pretty-printed configuration, wrapped as a TypeScript module, a
    CommonJS module or bare JSON, in the file named after the format. */
module SaveConfiguration {
  import opened Wrappers
  import opened JsText
  import opened FileSystem
  import ConfigFile

  /** The `format` union `'ts' | 'js' | 'json'`. */
  predicate IsFormat(format: string) {
    format == "ts" || format == "js" || format == "json"
  }

  type Format = f: string | IsFormat(f) witness "json"

  /** The package the generated files take the `FleekConfig` type from. */
  const CliPackage: string := "@fleek-platform/cli"
  const TsImportLine: string := "import { FleekConfig } from '" + CliPackage + "';"
  const TsHead: string := TsImportLine + "\n\n" + "export default "
  const TsTail: string := " satisfies FleekConfig;"
  const JsTypeLine: string := "/** @type {import('" + CliPackage + "').FleekConfig} */"
  const JsHead: string := JsTypeLine + "\n" + "module.exports = "
  const JsTail: string := ";"

  /** The file text for `format`, given `JSON.stringify(config, undefined, 2)`. */
  function Content(format: Format, prettyStringifiedConfig: string): string {
    if format == "ts" then TsHead + prettyStringifiedConfig + TsTail
    else if format == "js" then JsHead + prettyStringifiedConfig + JsTail
    else prettyStringifiedConfig
  }

  /** What comes before the configuration in the file of `format`. */
  function Head(format: Format): string {
    if format == "ts" then TsHead else if format == "js" then JsHead else ""
  }

  /** What comes after it. */
  function Tail(format: Format): string {
    if format == "ts" then TsTail else if format == "js" then JsTail else ""
  }

  /** The configuration text embedded in a file of `format`, if the file has
      that format's frame. */
  function Embedded(format: Format, content: string): Option<string> {
    var h, t := Head(format), Tail(format);
    if |h| + |t| <= |content| && StartsWith(content, h) && EndsWith(content, t)
    then Some(content[|h|..|content| - |t|])
    else None
  }

  /** Every format wraps the same stringified configuration in a fixed frame. */
  lemma ContentFrame(format: Format, prettyStringifiedConfig: string)
    ensures Content(format, prettyStringifiedConfig) == Head(format) + prettyStringifiedConfig + Tail(format)
  {
  }

  /** The stringified configuration can be read back from the file, so the
      file determines it. */
  lemma EmbeddedRoundTrip(format: Format, prettyStringifiedConfig: string)
    ensures Embedded(format, Content(format, prettyStringifiedConfig)) == Some(prettyStringifiedConfig)
  {
    var h, t := Head(format), Tail(format);
    var c := Content(format, prettyStringifiedConfig);
    ContentFrame(format, prettyStringifiedConfig);
    assert c[..|h|] == h;
    assert c[|c| - |t|..] == t;
    assert c[|h|..|c| - |t|] == prettyStringifiedConfig;
  }

  /** Different configurations give different files. */
  lemma ContentInjective(format: Format, a: string, b: string)
    ensures Content(format, a) == Content(format, b) ==> a == b
  {
    EmbeddedRoundTrip(format, a);
    EmbeddedRoundTrip(format, b);
  }

  /** The TypeScript file opens with the import line and a blank line. */
  lemma TsLayout(prettyStringifiedConfig: string)
    ensures |SplitLines(Content("ts", prettyStringifiedConfig))| >= 2
    ensures SplitLines(Content("ts", prettyStringifiedConfig))[..2] == [TsImportLine, ""]
  {
    var rest := "export default " + prettyStringifiedConfig + TsTail;
    assert Content("ts", prettyStringifiedConfig) == TsImportLine + "\n" + ("" + "\n" + rest);
    HeaderLinesPlain();
    SplitThroughLine(TsImportLine, "" + "\n" + rest);
    SplitThroughLine("", rest);
  }

  /** The JavaScript file opens with the JSDoc type line. */
  lemma JsLayout(prettyStringifiedConfig: string)
    ensures SplitLines(Content("js", prettyStringifiedConfig))[0] == JsTypeLine
  {
    var rest := "module.exports = " + prettyStringifiedConfig + JsTail;
    assert Content("js", prettyStringifiedConfig) == JsTypeLine + "\n" + rest;
    HeaderLinesPlain();
    SplitThroughLine(JsTypeLine, rest);
  }

  lemma HeaderLinesPlain()
    ensures '\n' !in TsImportLine && '\n' !in JsTypeLine
  {
    TsImportLinePlain();
    JsTypeLinePlain();
  }

  lemma TsImportLinePlain()
    ensures '\n' !in TsImportLine
  {
  }

  lemma JsTypeLinePlain()
    ensures '\n' !in JsTypeLine
  {
  }

  /** `saveConfiguration`. It resolves to nothing. `stringify` stands for
      `JSON.stringify(·, undefined, 2)`, which is not part of this model. */
  method SaveConfiguration<C>(ws: Workspace, stringify: C -> string, config: C, format: Format)
    modifies ws
    ensures ws.files == old(ws.files)[ConfigFile.ConfigFileByTypeValue(format) := Content(format, stringify(config))]
    ensures ws.directories == old(ws.directories)
  {
    ConfigFile.KnownFormatFiles();
    var prettyStringifiedConfig := stringify(config);
    if format == "ts" {
      var content := TsHead + prettyStringifiedConfig + TsTail;
      ws.WriteFile("fleek.config.ts", content);
    }
    if format == "js" {
      var content := JsHead + prettyStringifiedConfig + JsTail;
      ws.WriteFile("fleek.config.js", content);
    }
    if format == "json" {
      ws.WriteFile("fleek.config.json", prettyStringifiedConfig);
    }
  }
}
