/** `parseTests` (parser.go:12-43): a test file split on its `## name`
    headings, each block read into a `Test`, the blocks without a request
    line dropped. */
module Parser {
  import opened Wrappers
  import opened Text
  import opened Types
  import opened Patterns
  import opened Frontmatter
  import opened TestBlock

  /** The name a heading gives its test: the rest of its line. */
  function NameOf(s: string, h: Heading): (name: string)
    requires HeadingOk(s, h)
    ensures |name| > 0 && '\n' !in name
    ensures s[h.start..h.nameEnd] == "## " + name
  {
    assert s[h.start..h.start + 3] == "## ";
    assert s[h.start..h.nameEnd] == s[h.start..h.start + 3] + s[h.nameStart..h.nameEnd];
    assert forall c :: c in s[h.nameStart..h.nameEnd] ==> c in s[h.start..h.nameEnd];
    s[h.nameStart..h.nameEnd]
  }

  /** The text of the `i`th block: from the end of its heading line's match
      up to the next heading or the end. */
  function BlockOf(s: string, hs: seq<Heading>, i: nat): string
    requires WellPlaced(s, hs, 0) && i < |hs|
  {
    var blockEnd := if i + 1 < |hs| then hs[i + 1].start else |s|;
    s[hs[i].nameEnd..blockEnd]
  }

  /** Whether the `i`th block has a request line, which is whether its test
      is kept (see TestBlock.BlockUrl). */
  predicate HasRequest(s: string, hs: seq<Heading>, i: nat)
    requires WellPlaced(s, hs, 0) && i < |hs|
  {
    FirstMethodLine(Split(BlockOf(s, hs, i), '\n'), 0).Some?
  }

  function TestAt(s: string, hs: seq<Heading>, i: nat, defaults: Defaults, baseDir: string, env: Env): Test
    requires WellPlaced(s, hs, 0) && i < |hs|
  {
    BlockTest(NameOf(s, hs[i]), BlockOf(s, hs, i), defaults, baseDir, env)
  }

  /** The tests of the first `n` blocks whose URL is set. */
  function BlockTests(s: string, hs: seq<Heading>, n: nat, defaults: Defaults, baseDir: string, env: Env): seq<Test>
    requires WellPlaced(s, hs, 0) && n <= |hs|
  {
    if n == 0 then []
    else
      var prev := BlockTests(s, hs, n - 1, defaults, baseDir, env);
      var t := TestAt(s, hs, n - 1, defaults, baseDir, env);
      if t.url != "" then prev + [t] else prev
  }

  /** What `parseTests` returns. */
  function TestsOf(content: string, baseDir: string, env: Env): seq<Test> {
    var (defaults, s) := Frontmatter.Frontmatter(content);
    var hs := HeadingsFrom(s, 0);
    HeadingsWellPlaced(s, 0);
    BlockTests(s, hs, |hs|, defaults, baseDir, env)
  }

  /** One iteration of `parseTests`: the `i`th block read into a test. */
  method ReadBlock(s: string, matches: seq<Heading>, i: nat, defaults: Defaults, baseDir: string, env: Env)
    returns (test: Test)
    requires WellPlaced(s, matches, 0) && i < |matches|
    ensures test == TestAt(s, matches, i, defaults, baseDir, env)
  {
    var testName := s[matches[i].nameStart..matches[i].nameEnd];
    var blockEnd := |s|;
    if i + 1 < |matches| {
      blockEnd := matches[i + 1].start;
    }
    var blockContent := s[matches[i].nameEnd..blockEnd];
    test := ParseTestBlock(testName, blockContent, defaults, baseDir, env);
  }

  /** `parseTests`. */
  method ParseTests(content: string, baseDir: string, env: Env) returns (tests: seq<Test>)
    ensures tests == TestsOf(content, baseDir, env)
  {
    var defaults, s := ParseFrontmatter(content);
    var matches := HeadingsFrom(s, 0);
    HeadingsWellPlaced(s, 0);
    tests := [];
    for i := 0 to |matches|
      invariant tests == BlockTests(s, matches, i, defaults, baseDir, env)
    {
      var test := ReadBlock(s, matches, i, defaults, baseDir, env);
      if test.url != "" {
        tests := tests + [test];
      }
    }
  }

  // ---- properties ----

  /** The elements of `xs` whose flag is set, in order. */
  function KeepIf<T>(xs: seq<T>, flags: seq<bool>): seq<T>
    requires |xs| == |flags|
    decreases |xs|
  {
    if |xs| == 0 then []
    else
      var n := |xs| - 1;
      KeepIf(xs[..n], flags[..n]) + if flags[n] then [xs[n]] else []
  }

  /** The indices of the set flags, in order. */
  function Trues(flags: seq<bool>): (ks: seq<nat>)
    ensures forall j :: 0 <= j < |ks| ==> ks[j] < |flags|
    decreases |flags|
  {
    if |flags| == 0 then []
    else
      var n := |flags| - 1;
      Trues(flags[..n]) + if flags[n] then [n] else []
  }

  /** The set flags are found in order, and all of them. */
  lemma {:induction false} TruesExactly(flags: seq<bool>)
    ensures var ks := Trues(flags);
      && (forall j, l :: 0 <= j < l < |ks| ==> ks[j] < ks[l])
      && (forall k :: 0 <= k < |flags| ==> (k in ks <==> flags[k]))
    decreases |flags|
  {
    if |flags| > 0 {
      var n := |flags| - 1;
      var pre := flags[..n];
      TruesExactly(pre);
      var ks, ks' := Trues(flags), Trues(pre);
      assert ks == ks' + if flags[n] then [n] else [];
      forall k | 0 <= k < |flags|
        ensures k in ks <==> flags[k]
      {
        if k < n {
          assert pre[k] == flags[k];
          assert k in ks <==> k in ks';
        } else {
          assert n !in ks';
        }
      }
    }
  }

  /** The `j`th element kept is the element at the `j`th set flag. */
  lemma {:induction false} KeepIfAt<T>(xs: seq<T>, flags: seq<bool>)
    requires |xs| == |flags|
    ensures var ks := Trues(flags);
      && |KeepIf(xs, flags)| == |ks|
      && forall j :: 0 <= j < |ks| ==> KeepIf(xs, flags)[j] == xs[ks[j]]
    decreases |xs|
  {
    if |xs| > 0 {
      var n := |xs| - 1;
      KeepIfAt(xs[..n], flags[..n]);
      var ks, ks' := Trues(flags), Trues(flags[..n]);
      forall j | 0 <= j < |ks|
        ensures KeepIf(xs, flags)[j] == xs[ks[j]]
      {
        if j < |ks'| {
          assert ks[j] == ks'[j];
          assert xs[..n][ks'[j]] == xs[ks'[j]];
        }
      }
    }
  }

  /** Whether each block has a request line. */
  function RequestFlags(s: string, hs: seq<Heading>): (flags: seq<bool>)
    requires WellPlaced(s, hs, 0)
    ensures |flags| == |hs|
  {
    seq(|hs|, k requires 0 <= k < |hs| && WellPlaced(s, hs, 0) => HasRequest(s, hs, k))
  }

  /** The test of every block, kept or not. */
  function AllTests(s: string, hs: seq<Heading>, defaults: Defaults, baseDir: string, env: Env): (ts: seq<Test>)
    requires WellPlaced(s, hs, 0)
    ensures |ts| == |hs|
  {
    seq(|hs|, k requires 0 <= k < |hs| && WellPlaced(s, hs, 0) => TestAt(s, hs, k, defaults, baseDir, env))
  }

  /** Keeping one more element, or not, as its flag says. */
  lemma {:induction false} KeepStep<T>(prev: seq<T>, xs: seq<T>, flags: seq<bool>, n: nat, x: T, keep: bool)
    requires 0 < n <= |xs| == |flags|
    requires prev == KeepIf(xs[..n - 1], flags[..n - 1]) && xs[n - 1] == x && flags[n - 1] == keep
    ensures (if keep then prev + [x] else prev) == KeepIf(xs[..n], flags[..n])
  {
    assert xs[..n][..n - 1] == xs[..n - 1];
    assert flags[..n][..n - 1] == flags[..n - 1];
  }

  /** A block's test has a URL exactly when the block has a request line. */
  lemma {:induction false} KeptIffRequest(s: string, hs: seq<Heading>, i: nat, defaults: Defaults, baseDir: string, env: Env)
    requires WellPlaced(s, hs, 0) && i < |hs|
    ensures TestAt(s, hs, i, defaults, baseDir, env).url != "" <==> HasRequest(s, hs, i)
  {
    BlockUrl(NameOf(s, hs[i]), BlockOf(s, hs, i), defaults, baseDir, env);
  }

  /** Dropping the tests without a URL is keeping those of the blocks with a
      request line. */
  lemma {:induction false} BlockTestsKeep(s: string, hs: seq<Heading>, n: nat, defaults: Defaults, baseDir: string, env: Env)
    requires WellPlaced(s, hs, 0) && n <= |hs|
    ensures BlockTests(s, hs, n, defaults, baseDir, env) ==
            KeepIf(AllTests(s, hs, defaults, baseDir, env)[..n], RequestFlags(s, hs)[..n])
  {
    if n > 0 {
      BlockTestsKeep(s, hs, n - 1, defaults, baseDir, env);
      var t := TestAt(s, hs, n - 1, defaults, baseDir, env);
      KeptIffRequest(s, hs, n - 1, defaults, baseDir, env);
      KeepStep(BlockTests(s, hs, n - 1, defaults, baseDir, env), AllTests(s, hs, defaults, baseDir, env),
               RequestFlags(s, hs), n, t, HasRequest(s, hs, n - 1));
    }
  }

  /** `parseTests` keeps the tests of the blocks with a request line. */
  lemma {:induction false} TestsOfKeep(content: string, baseDir: string, env: Env)
    ensures var (defaults, s) := Frontmatter.Frontmatter(content);
      var hs := HeadingsFrom(s, 0);
      WellPlaced(s, hs, 0) &&
      TestsOf(content, baseDir, env) == KeepIf(AllTests(s, hs, defaults, baseDir, env), RequestFlags(s, hs))
  {
    var (defaults, s) := Frontmatter.Frontmatter(content);
    var hs := HeadingsFrom(s, 0);
    HeadingsWellPlaced(s, 0);
    var all, flags := AllTests(s, hs, defaults, baseDir, env), RequestFlags(s, hs);
    BlockTestsKeep(s, hs, |hs|, defaults, baseDir, env);
    assert all[..|hs|] == all && flags[..|hs|] == flags;
  }

  /** One test per `## name` block with a request line, in document order,
      each built from its heading's name and its block's text, and no
      other. */
  lemma {:induction false} TestsPerHeading(s: string, hs: seq<Heading>, defaults: Defaults, baseDir: string, env: Env)
    requires WellPlaced(s, hs, 0)
    ensures var ts := KeepIf(AllTests(s, hs, defaults, baseDir, env), RequestFlags(s, hs));
      var ks := Trues(RequestFlags(s, hs));
      && |ts| == |ks|
      && (forall j :: 0 <= j < |ts| ==> ts[j] == TestAt(s, hs, ks[j], defaults, baseDir, env))
      && (forall j, l :: 0 <= j < l < |ks| ==> ks[j] < ks[l])
      && (forall k :: 0 <= k < |hs| ==> (k in ks <==> HasRequest(s, hs, k)))
  {
    var all, flags := AllTests(s, hs, defaults, baseDir, env), RequestFlags(s, hs);
    KeepIfAt(all, flags);
    TruesExactly(flags);
  }

  /** Each test is named by the rest of its heading line. */
  lemma {:induction false} TestAtName(s: string, hs: seq<Heading>, k: nat, defaults: Defaults, baseDir: string, env: Env)
    requires WellPlaced(s, hs, 0) && k < |hs|
    ensures s[hs[k].start..hs[k].nameEnd] == "## " + TestAt(s, hs, k, defaults, baseDir, env).name
  {
    BlockUrl(NameOf(s, hs[k]), BlockOf(s, hs, k), defaults, baseDir, env);
  }

  /** Every `## name` line of the text after the frontmatter heads a block. */
  lemma {:induction false} HeadingsAreHeadingLines(content: string, q: nat)
    requires var s := Frontmatter.Frontmatter(content).1;
      q <= |s| && LineStart(s, q) && IsHeadingAt(s, q)
    ensures var s := Frontmatter.Frontmatter(content).1;
      Heading(q, q + 3, LineEnd(s, q)) in HeadingsFrom(s, 0)
  {
    var s := Frontmatter.Frontmatter(content).1;
    HeadingsComplete(s, 0, q);
  }
}
