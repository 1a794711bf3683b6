/** The format choices offered when a site configuration is created
    (src/commands/sites/prompts/selectConfigurationFormatPrompt.ts). */
module SelectConfigurationFormat {
  import opened JsText
  import ConfigFile
  import SaveConfiguration

  /** The members of the string enum `AvailableFormats`. */
  datatype AvailableFormat = JSON | Typescript | Javascript

  /** `Object.keys(AvailableFormats)`: a string enum has no reverse mapping,
      so these are its member names in declaration order. */
  const Keys: seq<AvailableFormat> := [JSON, Typescript, Javascript]

  function KeyName(f: AvailableFormat): string {
    match f
    case JSON => "JSON"
    case Typescript => "Typescript"
    case Javascript => "Javascript"
  }

  /** `AvailableFormats[name]`. */
  function Value(f: AvailableFormat): string {
    match f
    case JSON => "json"
    case Typescript => "ts"
    case Javascript => "js"
  }

  datatype Choice = Choice(title: string, value: string)

  /** The choice built for one enum member. */
  function ChoiceFor(f: AvailableFormat): (c: Choice)
    ensures c.value == Value(f)
    ensures c.title == KeyName(f) + " (" + ConfigFile.ConfigFileByTypeValue(Value(f)) + ")"
  {
    ConfigFile.ConfigFileSpelled(Value(f));
    TitleGroups(KeyName(f), "fleek.config.", Value(f));
    Choice(KeyName(f) + " (fleek.config." + Value(f) + ")", Value(f))
  }

  lemma TitleGroups(name: string, prefix: string, value: string)
    ensures name + " (" + prefix + value + ")" == name + " (" + (prefix + value) + ")"
  {
  }

  /** `choices`. */
  const Choices: seq<Choice> := seq(|Keys|, i requires 0 <= i < |Keys| => ChoiceFor(Keys[i]))

  /** Three choices, JSON first, then TypeScript, then JavaScript. */
  lemma ChoicesInKeyOrder()
    ensures |Choices| == 3
    ensures Choices[0].value == "json" && Choices[1].value == "ts" && Choices[2].value == "js"
    ensures StartsWith(Choices[0].title, "JSON") && StartsWith(Choices[1].title, "Typescript") && StartsWith(Choices[2].title, "Javascript")
  {
    forall i | 0 <= i < 3 ensures StartsWith(Choices[i].title, KeyName(Keys[i])) {
      TitleParts(Keys[i]);
    }
  }

  /** The title starts with the member name and names the file the value
      selects. */
  lemma TitleParts(f: AvailableFormat)
    ensures StartsWith(ChoiceFor(f).title, KeyName(f))
    ensures Contains(ChoiceFor(f).title, ConfigFile.ConfigFileByTypeValue(Value(f)))
  {
    var t := ChoiceFor(f).title;
    var n := ConfigFile.ConfigFileByTypeValue(Value(f));
    assert t[..|KeyName(f)|] == KeyName(f);
    assert t[|KeyName(f)| + 2..|KeyName(f)| + 2 + |n|] == n;
    assert HasAt(t, |KeyName(f)| + 2, n);
  }

  /** Every title names the configuration file of its value. */
  lemma TitlesNameFiles()
    ensures forall i :: 0 <= i < |Choices| ==> Contains(Choices[i].title, ConfigFile.ConfigFileByTypeValue(Choices[i].value))
  {
    forall i | 0 <= i < |Choices| ensures Contains(Choices[i].title, ConfigFile.ConfigFileByTypeValue(Choices[i].value)) {
      TitleParts(Keys[i]);
    }
  }

  /** The values are distinct and are exactly the formats the configuration
      can be saved in. */
  lemma ValuesAreSaveFormats()
    ensures forall i, j :: 0 <= i < j < |Choices| ==> Choices[i].value != Choices[j].value
    ensures forall v :: SaveConfiguration.IsFormat(v) <==> exists i :: 0 <= i < |Choices| && Choices[i].value == v
  {
    ChoicesInKeyOrder();
    forall v ensures SaveConfiguration.IsFormat(v) ==> exists i :: 0 <= i < |Choices| && Choices[i].value == v {
      if v == "json" {
        assert Choices[0].value == v;
      } else if v == "ts" {
        assert Choices[1].value == v;
      } else if v == "js" {
        assert Choices[2].value == v;
      }
    }
  }
}
