/** Configuration file names (src/utils/config.ts): `fleek.config.<ext>`. */
module ConfigFile {
  import opened Wrappers
  import opened JsText

  const ConfigBasename: string := "fleek.config"

  /** `getConfigFileByTypeValue`: the base name, a dot and the extension. */
  function ConfigFileByTypeValue(value: string): (r: string)
    ensures |r| == |ConfigBasename| + 1 + |value|
    ensures StartsWith(r, ConfigBasename + ".")
  {
    ConfigBasename + "." + value
  }

  /** `getConfigFileByTypeName`: the file name for an enum key. The enum
      `FleekSiteConfigFormats` is not part of this model, so its key-to-value
      table is a parameter. */
  function ConfigFileByTypeName(formats: map<string, string>, name: string): (r: string)
    requires name in formats
    ensures r == ConfigFileByTypeValue(formats[name])
  {
    ConfigBasename + "." + formats[name]
  }

  /** The extension of a configuration file name, if it is one. */
  function ExtensionOf(fileName: string): Option<string> {
    if StartsWith(fileName, ConfigBasename + ".") then Some(fileName[|ConfigBasename| + 1..]) else None
  }

  /** The extension can be read back from the name, and a name with an
      extension is exactly the one built from it. */
  lemma ExtensionRoundTrip(value: string, fileName: string)
    ensures ExtensionOf(ConfigFileByTypeValue(value)) == Some(value)
    ensures ExtensionOf(fileName) == Some(value) ==> ConfigFileByTypeValue(value) == fileName
  {
    var r := ConfigFileByTypeValue(value);
    assert r[|ConfigBasename| + 1..] == value;
    if ExtensionOf(fileName) == Some(value) {
      assert fileName == fileName[..|ConfigBasename| + 1] + fileName[|ConfigBasename| + 1..];
    }
  }

  /** Distinct extensions give distinct file names. */
  lemma ConfigFileInjective(a: string, b: string)
    ensures ConfigFileByTypeValue(a) == ConfigFileByTypeValue(b) ==> a == b
  {
    ExtensionRoundTrip(a, "");
    ExtensionRoundTrip(b, "");
  }

  /** The name is `fleek.config.` followed by the extension. */
  lemma ConfigFileSpelled(value: string)
    ensures ConfigFileByTypeValue(value) == "fleek.config." + value
  {
    BasenameWithDot();
  }

  lemma BasenameWithDot()
    ensures ConfigBasename + "." == "fleek.config."
  {
  }

  /** The three supported extensions name the files `fleek.config.ts`,
      `fleek.config.js` and `fleek.config.json`. */
  lemma KnownFormatFiles()
    ensures ConfigFileByTypeValue("ts") == "fleek.config.ts"
    ensures ConfigFileByTypeValue("js") == "fleek.config.js"
    ensures ConfigFileByTypeValue("json") == "fleek.config.json"
  {
  }
}
