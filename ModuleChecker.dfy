/** The compatibility checker (src/commands/functions/utils/plugins/moduleChecker.ts):
    the table of built-ins the edge runtime can never provide, and the
    `beforeResolve` hook that records every such module a build asks for. */
module ModuleChecker {
  import opened JsText
  import opened JsSet
  import opened RuntimeModules

  /** The unsupported built-ins, bare and `node:`-prefixed: the `Set` built
      from a list of the bare names followed by each of them again with the
      prefix. */
  const UnsupportedModules: set<string> := UnsupportedBare + UnsupportedPrefixed

  /** The first half of the list, in source order. */
  const UnsupportedBare: set<string> := {
    "assert/strict",
    "child_process",
    "cluster",
    "constants",
    "dgram",
    "diagnostics_channel",
    "dns",
    "fs",
    "fs/promises",
    "http2",
    "inspector",
    "module",
    "net",
    "os",
    "path/posix",
    "path/win32",
    "perf_hooks",
    "process",
    "querystring",
    "readline",
    "repl",
    "stream/promises",
    "stream/web",
    "sys",
    "timers",
    "timers/promises",
    "tls",
    "trace_events",
    "tty",
    "v8",
    "vm",
    "wasi",
    "webcrypto",
    "worker_threads"
  }

  /** The source lists the names alphabetically, so they fall into runs by
      first letter; the runs are what the table is counted by. They are a
      second copy of the bare names, split up, and `BareRuns` checks that
      copy against the literal above. */

  const BareAtoD: set<string> := {
    "assert/strict",
    "child_process",
    "cluster",
    "constants",
    "dgram",
    "diagnostics_channel",
    "dns"
  }

  const BareFtoO: set<string> := {
    "fs",
    "fs/promises",
    "http2",
    "inspector",
    "module",
    "net",
    "os"
  }

  const BarePtoR: set<string> := {
    "path/posix",
    "path/win32",
    "perf_hooks",
    "process",
    "querystring",
    "readline",
    "repl"
  }

  const BareStoT: set<string> := {
    "stream/promises",
    "stream/web",
    "sys",
    "timers",
    "timers/promises",
    "tls",
    "trace_events",
    "tty"
  }

  const BareVtoW: set<string> := {
    "v8",
    "vm",
    "wasi",
    "webcrypto",
    "worker_threads"
  }

  /** The second half. */
  const UnsupportedPrefixed: set<string> := {
    NodePrefix + "assert/strict",
    NodePrefix + "child_process",
    NodePrefix + "cluster",
    NodePrefix + "constants",
    NodePrefix + "dgram",
    NodePrefix + "diagnostics_channel",
    NodePrefix + "dns",
    NodePrefix + "fs",
    NodePrefix + "fs/promises",
    NodePrefix + "http2",
    NodePrefix + "inspector",
    NodePrefix + "module",
    NodePrefix + "net",
    NodePrefix + "os",
    NodePrefix + "path/posix",
    NodePrefix + "path/win32",
    NodePrefix + "perf_hooks",
    NodePrefix + "process",
    NodePrefix + "querystring",
    NodePrefix + "readline",
    NodePrefix + "repl",
    NodePrefix + "stream/promises",
    NodePrefix + "stream/web",
    NodePrefix + "sys",
    NodePrefix + "timers",
    NodePrefix + "timers/promises",
    NodePrefix + "tls",
    NodePrefix + "trace_events",
    NodePrefix + "tty",
    NodePrefix + "v8",
    NodePrefix + "vm",
    NodePrefix + "wasi",
    NodePrefix + "webcrypto",
    NodePrefix + "worker_threads"
  }

  /** `x` is non-empty and begins with a letter from `lo` to `hi`. */
  predicate FirstIn(x: string, lo: char, hi: char) {
    |x| > 0 && lo <= x[0] <= hi
  }

  /** Two tables whose entries begin in disjoint letter ranges share no
      entry, so their union counts both. */
  lemma RangesAdd(a: set<string>, b: set<string>, lo: char, mid: char, hi: char)
    requires lo <= mid <= hi
    requires forall x :: x in a ==> FirstIn(x, lo, mid)
    requires forall x :: x in b ==> |x| > 0 && mid < x[0] <= hi
    ensures |a + b| == |a| + |b|
    ensures forall x :: x in a + b ==> FirstIn(x, lo, hi)
  {
    assert a * b == {} by {
      forall x | x in a * b ensures false {
      }
    }
  }

  lemma BareAtoDShape()
    ensures |BareAtoD| == 7
    ensures forall x :: x in BareAtoD ==> FirstIn(x, 'a', 'd')
  {
  }

  lemma BareFtoOShape()
    ensures |BareFtoO| == 7
    ensures forall x :: x in BareFtoO ==> FirstIn(x, 'f', 'o')
  {
  }

  lemma BarePtoRShape()
    ensures |BarePtoR| == 7
    ensures forall x :: x in BarePtoR ==> FirstIn(x, 'p', 'r')
  {
  }

  lemma BareStoTShape()
    ensures |BareStoT| == 8
    ensures forall x :: x in BareStoT ==> FirstIn(x, 's', 't')
  {
  }

  lemma BareVtoWShape()
    ensures |BareVtoW| == 5
    ensures forall x :: x in BareVtoW ==> FirstIn(x, 'v', 'w')
  {
  }

  lemma BareRuns()
    ensures UnsupportedBare == BareAtoD + BareFtoO + BarePtoR + BareStoT + BareVtoW
  {
  }

  /** The first half has 34 distinct names. */
  lemma BareSize()
    ensures |UnsupportedBare| == 34
  {
    BareRuns();
    BareAtoDShape();
    BareFtoOShape();
    BarePtoRShape();
    BareStoTShape();
    BareVtoWShape();
    RangesAdd(BareAtoD, BareFtoO, 'a', 'd', 'o');
    RangesAdd(BareAtoD + BareFtoO, BarePtoR, 'a', 'o', 'r');
    RangesAdd(BareAtoD + BareFtoO + BarePtoR, BareStoT, 'a', 'r', 't');
    RangesAdd(BareAtoD + BareFtoO + BarePtoR + BareStoT, BareVtoW, 'a', 't', 'w');
  }

  /** Prefixing every name of a table with `p` keeps its size. */
  lemma {:induction false} PrefixedImageSize(names: set<string>, p: string)
    ensures |set x | x in names :: p + x| == |names|
    decreases |names|
  {
    if names != {} {
      var y :| y in names;
      var rest := names - {y};
      PrefixedImageSize(rest, p);
      assert p + y !in (set x | x in rest :: p + x) by {
        forall x | x in rest ensures p + x != p + y {
          assert (p + x)[|p|..] == x;
          assert (p + y)[|p|..] == y;
        }
      }
      assert (set x | x in names :: p + x) == (set x | x in rest :: p + x) + {p + y};
    }
  }

  /** Twin tables as in `TwinTables` are the same size and share no entry. */
  lemma TwinSizes(bare: set<string>, prefixed: set<string>, p: string)
    requires forall x :: x in bare ==> !StartsWith(x, p)
    requires forall x :: x in bare ==> p + x in prefixed
    requires forall x :: x in prefixed ==> StartsWith(x, p) && x[|p|..] in bare
    ensures |prefixed| == |bare|
    ensures |bare + prefixed| == |bare| + |prefixed|
  {
    var image := set x | x in bare :: p + x;
    forall y | y in prefixed ensures y in image {
      var x := y[|p|..];
      assert y == p + x;
    }
    assert prefixed == image;
    PrefixedImageSize(bare, p);
    assert bare * prefixed == {} by {
      forall x | x in bare * prefixed ensures false {
      }
    }
  }

  /** The second half is the first with the prefix, so it has 34 names too,
      and the two halves together have 68. */
  lemma TableSize()
    ensures |UnsupportedBare| == 34 && |UnsupportedPrefixed| == 34
    ensures |UnsupportedModules| == 68
  {
    BareSize();
    BareHalf();
    PrefixedHalf();
    TwinSizes(UnsupportedBare, UnsupportedPrefixed, NodePrefix);
  }

  /** The guard of the hook: the request, or its `node:` form, is listed. */
  predicate IsUnsupportedRequest(request: string) {
    request in UnsupportedModules || NodePrefix + request in UnsupportedModules
  }

  /** Each bare entry has its `node:` twin in the table, each prefixed
      entry its bare twin, and no entry carries the prefix twice. */
  lemma UnsupportedPrefixClosed()
    ensures forall x :: x in UnsupportedModules && !StartsWith(x, NodePrefix) ==> NodePrefix + x in UnsupportedModules
    ensures forall x :: x in UnsupportedModules && StartsWith(x, NodePrefix) ==> x[|NodePrefix|..] in UnsupportedModules
    ensures forall x :: x in UnsupportedModules ==> !StartsWith(x, NodePrefix + NodePrefix)
  {
    BareHalf();
    PrefixedHalf();
    TwinTables(UnsupportedBare, UnsupportedPrefixed, NodePrefix);
  }

  lemma BareHalf()
    ensures forall x :: x in UnsupportedBare ==> !StartsWith(x, NodePrefix)
    ensures forall x :: x in UnsupportedBare ==> NodePrefix + x in UnsupportedPrefixed
  {
    BareUnprefixed();
    BarePrefixedListed();
  }

  lemma BareUnprefixed()
    ensures forall x :: x in UnsupportedBare ==> !StartsWith(x, NodePrefix)
  {
    forall x | x in UnsupportedBare ensures !StartsWith(x, NodePrefix) {
      assert |x| < |NodePrefix| || x[0] != NodePrefix[0];
    }
  }

  lemma BarePrefixedListed()
    ensures forall x :: x in UnsupportedBare ==> NodePrefix + x in UnsupportedPrefixed
  {
  }

  lemma PrefixedHalf()
    ensures forall x :: x in UnsupportedPrefixed ==> StartsWith(x, NodePrefix) && x[|NodePrefix|..] in UnsupportedBare
  {
  }

  /** Two tables where the second is the first with prefix `p`, and no entry
      of the first begins with `p`, together are closed under adding and
      removing one `p`, and never hold `p` twice. */
  lemma TwinTables(bare: set<string>, prefixed: set<string>, p: string)
    requires forall x :: x in bare ==> !StartsWith(x, p)
    requires forall x :: x in bare ==> p + x in prefixed
    requires forall x :: x in prefixed ==> StartsWith(x, p) && x[|p|..] in bare
    ensures forall x :: x in bare + prefixed && !StartsWith(x, p) ==> p + x in bare + prefixed
    ensures forall x :: x in bare + prefixed && StartsWith(x, p) ==> x[|p|..] in bare + prefixed
    ensures forall x :: x in bare + prefixed ==> !StartsWith(x, p + p)
  {
    forall x | x in bare + prefixed
      ensures !StartsWith(x, p) ==> p + x in bare + prefixed
      ensures StartsWith(x, p) ==> x[|p|..] in bare + prefixed
      ensures !StartsWith(x, p + p)
    {
      if x in bare {
      } else {
        var b := x[|p|..];
        assert x == p + b;
      }
    }
  }

  /** A bare request and its `node:` form are classified alike. */
  lemma ClassifiedAlike(m: string)
    requires !StartsWith(m, NodePrefix)
    ensures IsUnsupportedRequest(m) <==> IsUnsupportedRequest(NodePrefix + m)
  {
    UnsupportedPrefixClosed();
    var p := NodePrefix;
    assert StartsWith(p + (p + m), p + p) by {
      assert (p + (p + m))[..2 * |p|] == p + p;
    }
  }

  /** No supported module is unsupported, in either spelling. */
  lemma RegistriesDisjoint()
    ensures forall k :: 0 <= k < |RuntimeModules.Names| ==>
      !IsUnsupportedRequest(RuntimeModules.Names[k]) &&
      !IsUnsupportedRequest(NodePrefix + RuntimeModules.Names[k])
  {
    UnsupportedPrefixClosed();
    SupportedNotListed();
    var p := NodePrefix;
    forall k | 0 <= k < |RuntimeModules.Names|
      ensures !IsUnsupportedRequest(RuntimeModules.Names[k]) && !IsUnsupportedRequest(p + RuntimeModules.Names[k])
    {
      var n := RuntimeModules.Names[k];
      assert StartsWith(p + n, p) && (p + n)[|p|..] == n;
      assert StartsWith(p + (p + n), p + p) by {
        assert (p + (p + n))[..2 * |p|] == p + p;
      }
    }
  }

  lemma SupportedNotListed()
    ensures forall k :: 0 <= k < |RuntimeModules.Names| ==> RuntimeModules.Names[k] !in UnsupportedModules
  {
    SupportedNotBare();
    PrefixedHalf();
    RuntimeModules.NamesAreBare();
    assert forall k :: 0 <= k < |RuntimeModules.Names| ==> RuntimeModules.Names[k] !in UnsupportedPrefixed;
  }

  lemma SupportedNotBare()
    ensures forall k :: 0 <= k < |RuntimeModules.Names| ==> RuntimeModules.Names[k] !in UnsupportedBare
  {
    SupportedNotBareFirst();
    SupportedNotBareMiddle();
    SupportedNotBareLast();
  }

  lemma SupportedNotBareFirst()
    ensures "buffer" !in UnsupportedBare && "crypto" !in UnsupportedBare && "domain" !in UnsupportedBare
    ensures "events" !in UnsupportedBare && "http" !in UnsupportedBare
  {
    assert "buffer"[0] == 'b';
    assert "crypto"[0] == 'c';
    assert "domain"[0] == 'd';
    assert "events"[0] == 'e';
    assert "http"[0] == 'h';
  }

  lemma SupportedNotBareMiddle()
    ensures "https" !in UnsupportedBare && "path" !in UnsupportedBare && "punycode" !in UnsupportedBare
    ensures "stream" !in UnsupportedBare
  {
    assert "https"[0] == 'h' && "https"[4] == 's';
    assert "path"[0] == 'p';
    assert "punycode"[0] == 'p';
    assert "stream"[0] == 's';
  }

  lemma SupportedNotBareLast()
    ensures "string_decoder" !in UnsupportedBare && "url" !in UnsupportedBare
    ensures "util" !in UnsupportedBare && "zlib" !in UnsupportedBare
  {
    assert "string_decoder"[0] == 's';
    assert "url"[0] == 'u';
    assert "util"[0] == 'u';
    assert "zlib"[0] == 'z';
  }

  /** The caller-owned set after the hook has seen `request`. */
  function Recorded(used: seq<string>, request: string): (r: seq<string>)
    ensures forall x :: x in r <==> x in used || (x == request && IsUnsupportedRequest(request))
    ensures |used| <= |r| && r[..|used|] == used
    ensures NoDuplicates(used) ==> NoDuplicates(r)
  {
    if IsUnsupportedRequest(request) then Added(used, request) else used
  }

  /** The set after the hook has seen every request of a build, in order. */
  function RecordedAll(used: seq<string>, requests: seq<string>): seq<string>
    decreases |requests|
  {
    if |requests| == 0 then used else RecordedAll(Recorded(used, requests[0]), requests[1..])
  }

  /** Recording the same request twice gives the set recording it once does. */
  lemma RecordedTwice(used: seq<string>, request: string)
    ensures Recorded(Recorded(used, request), request) == Recorded(used, request)
  {
  }

  /** After a build, the set holds exactly what it held before plus every
      requested module that is unsupported, each once, the old ones first. */
  lemma {:induction false} RecordedAllContents(used: seq<string>, requests: seq<string>)
    ensures forall x :: x in RecordedAll(used, requests) <==> x in used || (x in requests && IsUnsupportedRequest(x))
    ensures NoDuplicates(used) ==> NoDuplicates(RecordedAll(used, requests))
    ensures |used| <= |RecordedAll(used, requests)| && RecordedAll(used, requests)[..|used|] == used
    decreases |requests|
  {
    if |requests| > 0 {
      var next := Recorded(used, requests[0]);
      RecordedAllContents(next, requests[1..]);
      assert forall x :: x in requests <==> x == requests[0] || x in requests[1..];
      var r := RecordedAll(used, requests);
      assert r == RecordedAll(next, requests[1..]);
      assert r[..|used|] == r[..|next|][..|used|];
    }
  }

  /** Recording one more request extends the fold by one step. */
  lemma {:induction false} RecordedAllSnoc(used: seq<string>, requests: seq<string>, request: string)
    ensures RecordedAll(used, requests + [request]) == Recorded(RecordedAll(used, requests), request)
    decreases |requests|
  {
    if |requests| == 0 {
      assert [] + [request] == [request];
      assert [request][1..] == [];
    } else {
      assert (requests + [request])[1..] == requests[1..] + [request];
      RecordedAllSnoc(Recorded(used, requests[0]), requests[1..], request);
    }
  }

  /** One more request of a list, recorded. */
  lemma RecordedAllPrefix(used: seq<string>, requests: seq<string>, k: nat)
    requires k < |requests|
    ensures RecordedAll(used, requests[..k + 1]) == Recorded(RecordedAll(used, requests[..k]), requests[k])
  {
    assert requests[..k + 1] == requests[..k] + [requests[k]];
    RecordedAllSnoc(used, requests[..k], requests[k]);
  }

  /** The `moduleChecker` plugin. It shares the caller's set and writes into it. */
  class ModuleCheckerPlugin {
    const unsupportedModulesUsed: StringSet
    /** How many times the hook has called `callback()`, letting resolution go on. */
    var callbacks: nat

    constructor (used: StringSet)
      ensures unsupportedModulesUsed == used && callbacks == 0
    {
      unsupportedModulesUsed := used;
      callbacks := 0;
    }

    /** The `beforeResolve` hook for one resolution request. */
    method BeforeResolve(request: string)
      requires unsupportedModulesUsed.Valid()
      modifies this, unsupportedModulesUsed
      ensures unsupportedModulesUsed.Valid()
      ensures unsupportedModulesUsed.elements == Recorded(old(unsupportedModulesUsed.elements), request)
      ensures callbacks == old(callbacks) + 1
    {
      if request in UnsupportedModules || NodePrefix + request in UnsupportedModules {
        unsupportedModulesUsed.Add(request);
      }
      callbacks := callbacks + 1;
    }
  }
}
