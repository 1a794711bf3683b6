/** The built-in modules the edge runtime provides under the `node:`
    specifier (src/commands/functions/runtimeModules.ts). */
module RuntimeModules {
  import opened JsText

  const NodePrefix: string := "node:"

  /** The supported built-ins, in the order the source lists them. */
  const Names: seq<string> := [
    "buffer",
    "crypto",
    "domain",
    "events",
    "http",
    "https",
    "path",
    "punycode",
    "stream",
    "string_decoder",
    "url",
    "util",
    "zlib"
  ]

  /** No name occurs twice in `names`. */
  predicate Distinct(names: seq<string>) {
    forall i, j :: 0 <= i < j < |names| ==> names[i] != names[j]
  }

  /** A name the specifier rewriter can put between quotes: non-empty, and
      free of quote characters, whitespace and newlines. */
  predicate IsPlainName(m: string) {
    |m| > 0 && forall k :: 0 <= k < |m| ==> m[k] != '"' && m[k] != '\'' && !IsWhitespace(m[k])
  }

  lemma NamesShape()
    ensures |Names| == 13
    ensures Names[0] == "buffer" && Names[12] == "zlib"
  {
  }

  lemma NamesDistinct()
    ensures Distinct(Names)
  {
  }

  /** No supported name is already written with the `node:` prefix. */
  lemma NamesAreBare()
    ensures forall k :: 0 <= k < |Names| ==> !StartsWith(Names[k], NodePrefix)
  {
    forall k | 0 <= k < |Names| ensures !StartsWith(Names[k], NodePrefix) {
      assert Names[k][0] != NodePrefix[0];
    }
  }

  lemma NamesArePlain()
    ensures forall k :: 0 <= k < |Names| ==> IsPlainName(Names[k])
  {
  }
}
