/** `parseAssertions` (parser.go): the bullets after the first `Assert:` or
    `Asserts:` line of a test block, each read as at most one assertion. */
module AssertionScan {
  import opened Wrappers
  import opened Text
  import opened Types
  import opened Patterns

  /** What one bullet, less its "- ", says. */
  datatype Bullet = Simple(a: Assertion) | PartialMarker | Unrecognised

  /** The shape every parsed assertion has. */
  predicate WellFormed(a: Assertion) {
    match a.kind
    case Status => a.field == ""
    case BodyContains => |a.field| > 0 && '`' !in a.field && a.value == ""
    case FieldEquals => |a.field| > 0 && '`' !in a.field && |a.value| > 0 && '`' !in a.value
    case Duration => a.field == "" && |a.value| > 0 && '\n' !in a.value
    case BodyMatchesFile => a.field == ""
    case BodyPartialMatch => a.field == "" && |a.value| > 0
  }

  /** The patterns of parser.go:284-341, tried in that order. */
  function ClassifyBullet(b: string, baseDir: string, env: Env): (r: Bullet)
    ensures r.Simple? ==> WellFormed(r.a) && r.a.kind != BodyPartialMatch
    ensures r.PartialMarker? ==> b == "Body partially matches:"
  {
    if HasPrefix(b, "Status is ") then Simple(Assertion(Status, "", b[10..]))
    else if MatchBodyContains(b).Some? then
      Simple(Assertion(BodyContains, MatchBodyContains(b).value, ""))
    else if MatchFieldEquals(b).Some? then
      Simple(Assertion(FieldEquals, MatchFieldEquals(b).value.0, MatchFieldEquals(b).value.1))
    else if MatchDuration(b).Some? then
      Simple(Assertion(Duration, "", MatchDuration(b).value))
    else if MatchBodyMatchesFile(b).Some? then
      Simple(Assertion(BodyMatchesFile, "", ResolvePath(env, baseDir, MatchBodyMatchesFile(b).value)))
    else if b == "Body partially matches:" then PartialMarker
    else Unrecognised
  }

  /** The text a line marked `>>` contributes to a partial match. */
  function MarkOf(line: string): seq<string> {
    var trimmed := TrimSpace(line);
    if HasPrefix(trimmed, ">>") then
      var m := TrimSpace(TrimPrefix(trimmed, ">>"));
      if m != "" then [m] else []
    else []
  }

  /** The marked lines of a fence body, in order. */
  function Marked(ls: seq<string>): seq<string> {
    if |ls| == 0 then [] else Marked(ls[..|ls| - 1]) + MarkOf(ls[|ls| - 1])
  }

  /** The loop at parser.go:349-358. */
  method MarkedLines(block: string) returns (marked: seq<string>)
    ensures marked == Marked(Split(block, '\n'))
  {
    var ls := Split(block, '\n');
    marked := [];
    for i := 0 to |ls|
      invariant marked == Marked(ls[..i])
    {
      assert ls[..i + 1][..i] == ls[..i];
      var trimmed := TrimSpace(ls[i]);
      if HasPrefix(trimmed, ">>") {
        var markedLine := TrimSpace(TrimPrefix(trimmed, ">>"));
        if markedLine != "" {
          marked := marked + [markedLine];
        }
      }
    }
    assert ls[..|ls|] == ls;
  }

  /** Marked lines are never empty, there are no more of them than lines,
      and there are none unless some line, trimmed, starts with `>>`. */
  lemma {:induction false} MarkedShape(ls: seq<string>)
    ensures |Marked(ls)| <= |ls|
    ensures forall k :: 0 <= k < |Marked(ls)| ==> Marked(ls)[k] != ""
    ensures (forall j :: 0 <= j < |ls| ==> !HasPrefix(TrimSpace(ls[j]), ">>")) ==> Marked(ls) == []
  {
    if |ls| > 0 {
      var init := ls[..|ls| - 1];
      MarkedShape(init);
      assert forall j :: 0 <= j < |init| ==> init[j] == ls[j];
    }
  }

  /** The first line at or after `from` that holds "```". */
  function FenceLine(lines: seq<string>, from: nat): (r: Option<nat>)
    requires from <= |lines|
    ensures r.Some? ==> from <= r.value < |lines| && Contains(lines[r.value], "```")
    ensures r.Some? ==> forall j :: from <= j < r.value ==> !Contains(lines[j], "```")
    decreases |lines| - from
  {
    if from == |lines| then None
    else if Contains(lines[from], "```") then Some(from)
    else FenceLine(lines, from + 1)
  }

  /** Where the scan resumes after a partial-match bullet at `i`: at the
      second line after `i` that holds "```", or at `i` if there is none. */
  function SkipFence(lines: seq<string>, i: nat): (r: nat)
    requires i < |lines|
    ensures i <= r < |lines|
  {
    match FenceLine(lines, i + 1)
    case None => i
    case Some(j) =>
      match FenceLine(lines, j + 1)
      case None => i
      case Some(k) => k
  }

  /** The loops at parser.go:366-377. */
  method SkipPastFence(lines: seq<string>, i: nat) returns (next: nat)
    requires i < |lines|
    ensures next == SkipFence(lines, i)
  {
    var j := i + 1;
    while j < |lines|
      invariant i + 1 <= j <= |lines|
      invariant FenceLine(lines, i + 1) == FenceLine(lines, j)
    {
      if Contains(lines[j], "```") {
        var k := j + 1;
        while k < |lines|
          invariant j + 1 <= k <= |lines|
          invariant FenceLine(lines, j + 1) == FenceLine(lines, k)
        {
          if Contains(lines[k], "```") {
            return k;
          }
          k := k + 1;
        }
        return i;
      }
      j := j + 1;
    }
    return i;
  }

  /** The assertion a partial-match bullet yields, if any. */
  function PartialOf(block: string): seq<Assertion> {
    var marked := Marked(Split(block, '\n'));
    if |marked| > 0 then [Assertion(BodyPartialMatch, "", Join(marked, "\n"))] else []
  }

  /** What the line at `i` contributes and where the scan goes on: `next`
      is None where the loop stops at a line that is not a bullet. */
  datatype Step = Step(out: seq<Assertion>, next: Option<nat>)

  /** What a partial-match bullet at `i` yields, and the last line its
      fenced block covers: the bullet's own line when no block follows it. */
  function PartialResult(lines: seq<string>, i: nat): (r: (seq<Assertion>, nat))
    requires i < |lines|
    ensures r.1 < |lines|
  {
    match MatchPartialFence(Join(lines[i + 1..], "\n"))
    case None => ([], i)
    case Some(block) => (PartialOf(block), SkipFence(lines, i))
  }

  /** One pass of the loop at parser.go:272-381. */
  function BulletStep(lines: seq<string>, i: nat, baseDir: string, env: Env): (r: Step)
    requires i < |lines|
    ensures r.next.Some? ==> i < r.next.value <= |lines|
    ensures |r.out| <= 1
  {
    var line := TrimSpace(lines[i]);
    if line == "" then Step([], Some(i + 1))
    else if !HasPrefix(line, "- ") then Step([], None)
    else BulletOf(lines, i, ClassifyBullet(line[2..], baseDir, env))
  }

  /** One pass for a bullet at `i` that says `c`. */
  function BulletOf(lines: seq<string>, i: nat, c: Bullet): (r: Step)
    requires i < |lines|
    ensures r.next.Some? ==> i < r.next.value <= |lines|
    ensures |r.out| <= 1
  {
    match c
    case Simple(a) => Step([a], Some(i + 1))
    case Unrecognised => Step([], Some(i + 1))
    case PartialMarker => Step(PartialResult(lines, i).0, Some(PartialResult(lines, i).1 + 1))
  }

  /** The assertions the bullets from line `i` on yield. */
  function ScanBullets(lines: seq<string>, i: nat, baseDir: string, env: Env): seq<Assertion>
    requires i <= |lines|
    decreases |lines| - i
  {
    if i == |lines| then []
    else
      var st := BulletStep(lines, i, baseDir, env);
      match st.next
      case None => st.out
      case Some(j) => st.out + ScanBullets(lines, j, baseDir, env)
  }

  /** What `parseAssertions` returns for a test block. */
  function AssertionsOf(content: string, baseDir: string, env: Env): seq<Assertion> {
    match FindAssertHeader(content, 0)
    case None => []
    case Some(e) => ScanBullets(Split(content[e..], '\n'), 0, baseDir, env)
  }

  /** How the scan goes on past the line at `i`, case by case. */
  lemma {:induction false} ScanUnfold(lines: seq<string>, i: nat, baseDir: string, env: Env)
    requires i < |lines|
    ensures var st := BulletStep(lines, i, baseDir, env);
      ScanBullets(lines, i, baseDir, env) ==
        st.out + if st.next.Some? then ScanBullets(lines, st.next.value, baseDir, env) else []
  {
  }

  /** A blank line is skipped. */
  lemma {:induction false} ScanBlank(lines: seq<string>, i: nat, baseDir: string, env: Env)
    requires i < |lines| && TrimSpace(lines[i]) == ""
    ensures ScanBullets(lines, i, baseDir, env) == ScanBullets(lines, i + 1, baseDir, env)
  {
    assert BulletStep(lines, i, baseDir, env) == Step([], Some(i + 1));
  }

  /** A bullet read as a single-line assertion contributes it and the scan
      goes on at the next line. */
  lemma {:induction false} ScanBullet(lines: seq<string>, i: nat, a: Assertion, baseDir: string, env: Env)
    requires i < |lines| && ReadsAs(lines[i], a, baseDir, env)
    ensures ScanBullets(lines, i, baseDir, env) == [a] + ScanBullets(lines, i + 1, baseDir, env)
  {
    assert BulletStep(lines, i, baseDir, env) == Step([a], Some(i + 1));
  }

  /** A line that, trimmed, is a bullet read as the single-line assertion
      `a`. */
  predicate ReadsAs(line: string, a: Assertion, baseDir: string, env: Env) {
    var l := TrimSpace(line);
    HasPrefix(l, "- ") && ClassifyBullet(l[2..], baseDir, env) == Simple(a)
  }

  lemma {:induction false} ConcatAssoc<T>(a: seq<T>, b: seq<T>, c: seq<T>)
    ensures (a + b) + c == a + (b + c)
  {
  }

  /** The fenced block a partial-match bullet at `i` introduces
      (parser.go:343-378): the assertion it yields and the last line it
      covers. */
  method PartialBlock(lines: seq<string>, i: nat) returns (found: seq<Assertion>, next: nat)
    requires i < |lines|
    ensures found == PartialResult(lines, i).0 && next == PartialResult(lines, i).1
  {
    found, next := [], i;
    var remaining := Join(lines[i + 1..], "\n");
    match MatchPartialFence(remaining) {
      case None =>
      case Some(block) =>
        var marked := MarkedLines(block);
        if |marked| > 0 {
          found := [Assertion(BodyPartialMatch, "", Join(marked, "\n"))];
        }
        next := SkipPastFence(lines, i);
    }
  }

  /** The body of the loop at parser.go:272-381 for line `i`: what it
      appends, and the line the loop goes on from (None at `break`). */
  method ScanLine(lines: seq<string>, i: nat, baseDir: string, env: Env) returns (found: seq<Assertion>, next: Option<nat>)
    requires i < |lines|
    ensures Step(found, next) == BulletStep(lines, i, baseDir, env)
  {
    var line := TrimSpace(lines[i]);
    if line == "" {
      return [], Some(i + 1);
    }
    if !HasPrefix(line, "- ") {
      return [], None;
    }
    line := TrimPrefix(line, "- ");
    assert line == TrimSpace(lines[i])[2..];
    var c := ClassifyBullet(line, baseDir, env);
    found, next := ScanBulletLine(lines, i, c);
  }

  /** The same for a bullet, by what it says. */
  method ScanBulletLine(lines: seq<string>, i: nat, c: Bullet) returns (found: seq<Assertion>, next: Option<nat>)
    requires i < |lines|
    ensures Step(found, next) == BulletOf(lines, i, c)
  {
    match c {
      case Simple(a) =>
        return [a], Some(i + 1);
      case Unrecognised =>
        return [], Some(i + 1);
      case PartialMarker =>
        var last;
        found, last := PartialBlock(lines, i);
        return found, Some(last + 1);
    }
  }

  /** `parseAssertions`. */
  method ParseAssertions(content: string, baseDir: string, env: Env) returns (assertions: seq<Assertion>)
    ensures assertions == AssertionsOf(content, baseDir, env)
  {
    assertions := [];
    var loc := FindAssertHeader(content, 0);
    if loc.None? {
      return;
    }
    var lines := Split(content[loc.value..], '\n');
    var i := 0;
    while i < |lines|
      invariant 0 <= i <= |lines|
      invariant assertions + ScanBullets(lines, i, baseDir, env) == ScanBullets(lines, 0, baseDir, env)
      decreases |lines| - i
    {
      var found, next := ScanLine(lines, i, baseDir, env);
      ScanUnfold(lines, i, baseDir, env);
      ConcatAssoc(assertions, found, if next.Some? then ScanBullets(lines, next.value, baseDir, env) else []);
      assertions := assertions + found;
      if next.None? {
        break;
      }
      i := next.value;
    }
  }

  // ---- properties ----

  /** Whatever one line contributes is well formed. */
  lemma {:induction false} StepWellFormed(lines: seq<string>, i: nat, baseDir: string, env: Env)
    requires i < |lines|
    ensures forall k :: 0 <= k < |BulletStep(lines, i, baseDir, env).out| ==> WellFormed(BulletStep(lines, i, baseDir, env).out[k])
  {
    var st := BulletStep(lines, i, baseDir, env);
    var line := TrimSpace(lines[i]);
    if line == "" || !HasPrefix(line, "- ") {
      assert st.out == [];
    } else {
      var c := ClassifyBullet(line[2..], baseDir, env);
      match c
      case Simple(a) =>
        assert st.out == [a];
        assert WellFormed(st.out[0]);
      case Unrecognised =>
        assert st.out == [];
      case PartialMarker =>
        assert st.out == PartialResult(lines, i).0;
        match MatchPartialFence(Join(lines[i + 1..], "\n"))
        case None =>
        case Some(block) =>
          var marked := Marked(Split(block, '\n'));
          if |marked| > 0 {
            MarkedShape(Split(block, '\n'));
            JoinNonEmpty(marked, "\n");
            assert WellFormed(st.out[0]);
          }
    }
  }

  /** Every assertion the scan yields is well formed, and there are no more
      of them than lines scanned. */
  lemma {:induction false} ScanShape(lines: seq<string>, i: nat, baseDir: string, env: Env)
    requires i <= |lines|
    ensures |ScanBullets(lines, i, baseDir, env)| <= |lines| - i
    ensures forall k :: 0 <= k < |ScanBullets(lines, i, baseDir, env)| ==> WellFormed(ScanBullets(lines, i, baseDir, env)[k])
    decreases |lines| - i
  {
    if i < |lines| {
      var st := BulletStep(lines, i, baseDir, env);
      StepWellFormed(lines, i, baseDir, env);
      if st.next.Some? {
        ScanShape(lines, st.next.value, baseDir, env);
      }
    }
  }

  /** How an assertion is written as a bullet (less its "- "). */
  function BulletText(a: Assertion): string {
    match a.kind
    case Status => "Status is " + a.value
    case BodyContains => "Body contains `" + a.field + "`"
    case FieldEquals => "Field `" + a.field + "` equals `" + a.value + "`"
    case Duration => "Duration less than " + a.value
    case BodyMatchesFile => "Body matches file `" + a.value + "`"
    case BodyPartialMatch => "Body partially matches:"
  }

  /** The single-line assertions whose bullet reads back as themselves:
      no newline anywhere, a file path that is absolute, and a status or
      limit that ends in something other than white space. */
  predicate Printable(a: Assertion) {
    WellFormed(a) && a.kind != BodyPartialMatch && '\n' !in a.field && '\n' !in a.value &&
    match a.kind
    case Status => |a.value| > 0 && !IsSpace(a.value[|a.value| - 1])
    case Duration => !IsSpace(a.value[|a.value| - 1])
    case BodyMatchesFile => IsAbs(a.value) && '`' !in a.value
    case _ => true
  }

  /** Each printable assertion is what its bullet is classified as: no
      pattern tried earlier claims it. */
  lemma {:induction false} ClassifyText(a: Assertion, baseDir: string, env: Env)
    requires Printable(a)
    ensures ClassifyBullet(BulletText(a), baseDir, env) == Simple(a)
  {
    match a.kind
    case Status => ClassifyStatus(a.value, baseDir, env);
    case BodyContains => ClassifyBodyContains(a.field, baseDir, env);
    case FieldEquals => ClassifyFieldEquals(a.field, a.value, baseDir, env);
    case Duration => ClassifyDuration(a.value, baseDir, env);
    case BodyMatchesFile => ClassifyBodyMatchesFile(a.value, baseDir, env);
  }

  lemma {:induction false} ClassifyStatus(v: string, baseDir: string, env: Env)
    ensures ClassifyBullet("Status is " + v, baseDir, env) == Simple(Assertion(Status, "", v))
  {
    var b := "Status is " + v;
    assert b[..10] == "Status is " && b[10..] == v;
  }

  lemma {:induction false} ClassifyBodyContains(f: string, baseDir: string, env: Env)
    requires |f| > 0 && '`' !in f
    ensures ClassifyBullet("Body contains `" + f + "`", baseDir, env) == Simple(Assertion(BodyContains, f, ""))
  {
    var b := "Body contains `" + f + "`";
    Differs(b, "Status is ", 0);
    BodyContainsRoundTrip(f, "");
    assert b == "Body contains `" + f + "`" + "";
  }

  lemma {:induction false} ClassifyFieldEquals(f: string, v: string, baseDir: string, env: Env)
    requires |f| > 0 && '`' !in f && |v| > 0 && '`' !in v
    ensures ClassifyBullet("Field `" + f + "` equals `" + v + "`", baseDir, env) == Simple(Assertion(FieldEquals, f, v))
  {
    var b := "Field `" + f + "` equals `" + v + "`";
    Differs(b, "Status is ", 0);
    Differs(b, "Body contains `", 0);
    assert MatchBodyContains(b) == None;
    FieldEqualsRoundTrip(f, v, "");
    assert b == "Field `" + f + "` equals `" + v + "`" + "";
  }

  lemma {:induction false} ClassifyDuration(v: string, baseDir: string, env: Env)
    requires |v| > 0 && '\n' !in v
    ensures ClassifyBullet("Duration less than " + v, baseDir, env) == Simple(Assertion(Duration, "", v))
  {
    var b := "Duration less than " + v;
    Differs(b, "Status is ", 0);
    Differs(b, "Body contains `", 0);
    Differs(b, "Field `", 0);
    assert MatchBodyContains(b) == None;
    assert MatchFieldEquals(b) == None;
    DurationRoundTrip(v);
  }

  lemma {:induction false} ClassifyBodyMatchesFile(path: string, baseDir: string, env: Env)
    requires IsAbs(path) && '`' !in path
    ensures ClassifyBullet("Body matches file `" + path + "`", baseDir, env) == Simple(Assertion(BodyMatchesFile, "", path))
  {
    var b := "Body matches file `" + path + "`";
    Differs(b, "Status is ", 0);
    Differs(b, "Body contains `", 5);
    Differs(b, "Field `", 0);
    Differs(b, "Duration less than ", 0);
    Differs(b, "Time less than ", 0);
    assert MatchBodyContains(b) == None;
    assert MatchFieldEquals(b) == None;
    assert MatchDuration(b) == None;
    BodyMatchesFileRoundTrip(path, "");
    assert b == "Body matches file `" + path + "`" + "";
  }

  /** The bullet line of an assertion. */
  function BulletLine(a: Assertion): string {
    "- " + BulletText(a)
  }

  /** A printable bullet line has nothing to trim and no newline. */
  lemma {:induction false} BulletLineShape(a: Assertion)
    requires Printable(a)
    ensures TrimSpace(BulletLine(a)) == BulletLine(a)
    ensures '\n' !in BulletLine(a)
    ensures HasPrefix(BulletLine(a), "- ") && BulletLine(a)[2..] == BulletText(a)
  {
    var l := BulletLine(a);
    var t := BulletText(a);
    assert l == "- " + t;
    assert l[..2] == "- " && l[2..] == t;
    TextEnds(a);
    assert l[|l| - 1] == t[|t| - 1];
    TrimSpaceNoop(l);
  }

  /** A printable assertion's text has no newline and does not end in white
      space. */
  lemma {:induction false} TextEnds(a: Assertion)
    requires Printable(a)
    ensures |BulletText(a)| > 0 && !IsSpace(BulletText(a)[|BulletText(a)| - 1])
    ensures '\n' !in BulletText(a)
  {
    var t := BulletText(a);
    match a.kind {
      case Status =>
        assert t[|t| - 1] == a.value[|a.value| - 1];
      case Duration =>
        assert t[|t| - 1] == a.value[|a.value| - 1];
      case BodyContains =>
      case FieldEquals =>
      case BodyMatchesFile =>
    }
  }

  /** A line of its own, with nothing to trim, that reads as `a`. */
  predicate BulletFor(line: string, a: Assertion, baseDir: string, env: Env) {
    TrimSpace(line) == line && '\n' !in line && ReadsAs(line, a, baseDir, env)
  }

  /** The bullet line of a printable assertion reads back as it. */
  lemma {:induction false} PrintedReadsAs(a: Assertion, baseDir: string, env: Env)
    requires Printable(a)
    ensures BulletFor(BulletLine(a), a, baseDir, env)
  {
    BulletLineShape(a);
    ClassifyText(a, baseDir, env);
  }

  /** A sequence of lists that each begin with an element of `xs` and go on
      with the next one: the first of them is the rest of `xs`. */
  lemma {:induction false} Telescope<T>(f: nat -> seq<T>, xs: seq<T>, off: nat, i: nat)
    requires off <= i <= off + |xs|
    requires f(off + |xs|) == []
    requires forall k :: off <= k < off + |xs| ==> f(k) == [xs[k - off]] + f(k + 1)
    ensures f(i) == xs[i - off..]
    decreases off + |xs| - i
  {
    if i < off + |xs| {
      Telescope(f, xs, off, i + 1);
      assert xs[i - off..] == [xs[i - off]] + xs[i + 1 - off..];
    }
  }

  /** Lines `off..` that each read as one assertion of `xs` scan to `xs`. */
  lemma {:induction false} ScanPrinted(lines: seq<string>, off: nat, xs: seq<Assertion>, baseDir: string, env: Env)
    requires |lines| == off + |xs|
    requires forall k :: 0 <= k < |xs| ==> ReadsAs(lines[off + k], xs[k], baseDir, env)
    ensures ScanBullets(lines, off, baseDir, env) == xs
  {
    var f := (k: nat) => if k <= |lines| then ScanBullets(lines, k, baseDir, env) else [];
    forall k | off <= k < off + |xs|
      ensures f(k) == [xs[k - off]] + f(k + 1)
    {
      assert ReadsAs(lines[off + (k - off)], xs[k - off], baseDir, env);
      ScanBullet(lines, k, xs[k - off], baseDir, env);
    }
    Telescope(f, xs, off, off);
  }

  /** An `Assert:` section written out from printable assertions, one bullet
      per line, is parsed back to exactly those assertions, in order. */
  lemma {:induction false} AssertSectionRoundTrip(xs: seq<Assertion>, baseDir: string, env: Env)
    requires |xs| > 0 && forall k :: 0 <= k < |xs| ==> Printable(xs[k])
    ensures AssertionsOf("Assert:\n" + Join(Printed(xs), "\n"), baseDir, env) == xs
  {
    PrintedLinesReadAs(xs, baseDir, env);
    SectionRoundTrip(Printed(xs), xs, baseDir, env);
  }

  /** A section of lines that each read as one assertion of `xs`. */
  lemma {:induction false} SectionRoundTrip(ps: seq<string>, xs: seq<Assertion>, baseDir: string, env: Env)
    requires |ps| == |xs| > 0
    requires forall k :: 0 <= k < |xs| ==> BulletFor(ps[k], xs[k], baseDir, env)
    ensures AssertionsOf("Assert:\n" + Join(ps, "\n"), baseDir, env) == xs
  {
    var lines := [""] + ps;
    BulletsShape(ps, xs, baseDir, env);
    SectionLines(ps);
    ShiftReadsAs(lines, ps, xs, baseDir, env);
    ScanBlank(lines, 0, baseDir, env);
    ScanPrinted(lines, 1, xs, baseDir, env);
    SectionScan("Assert:\n" + Join(ps, "\n"), 7, lines, baseDir, env);
  }

  /** A section whose header ends at `e` yields what its lines scan to. */
  lemma {:induction false} SectionScan(content: string, e: nat, lines: seq<string>, baseDir: string, env: Env)
    requires FindAssertHeader(content, 0) == Some(e) && e <= |content| && Split(content[e..], '\n') == lines
    ensures AssertionsOf(content, baseDir, env) == ScanBullets(lines, 0, baseDir, env)
  {
  }

  /** Each bullet line of printable assertions reads back as its own. */
  lemma {:induction false} PrintedLinesReadAs(xs: seq<Assertion>, baseDir: string, env: Env)
    requires forall k :: 0 <= k < |xs| ==> Printable(xs[k])
    ensures forall k :: 0 <= k < |xs| ==> BulletFor(Printed(xs)[k], xs[k], baseDir, env)
  {
    forall k | 0 <= k < |xs|
      ensures BulletFor(Printed(xs)[k], xs[k], baseDir, env)
    {
      PrintedReadsAs(xs[k], baseDir, env);
    }
  }

  /** Such lines have no line break, the first starts with `-`, and each
      reads as its assertion. */
  lemma {:induction false} BulletsShape(ps: seq<string>, xs: seq<Assertion>, baseDir: string, env: Env)
    requires |ps| == |xs| > 0
    requires forall k :: 0 <= k < |xs| ==> BulletFor(ps[k], xs[k], baseDir, env)
    ensures |ps[0]| > 0 && !IsRegexSpace(ps[0][0])
    ensures forall k :: 0 <= k < |ps| ==> '\n' !in ps[k]
    ensures forall k :: 0 <= k < |xs| ==> ReadsAs(ps[k], xs[k], baseDir, env)
  {
    assert BulletFor(ps[0], xs[0], baseDir, env);
    assert ps[0][..2] == "- ";
  }

  /** Lines that read as `xs` still do behind a first line. */
  lemma {:induction false} ShiftReadsAs(lines: seq<string>, ps: seq<string>, xs: seq<Assertion>, baseDir: string, env: Env)
    requires lines == [""] + ps && |ps| == |xs|
    requires forall k :: 0 <= k < |xs| ==> ReadsAs(ps[k], xs[k], baseDir, env)
    ensures forall k :: 0 <= k < |xs| ==> ReadsAs(lines[1 + k], xs[k], baseDir, env)
  {
    forall k | 0 <= k < |xs|
      ensures ReadsAs(lines[1 + k], xs[k], baseDir, env)
    {
      assert lines[1 + k] == ps[k];
    }
  }

  /** The lines after the `Assert:` header of a section of lines `ps`
      that have no line break and start with something other than white
      space: an empty one (the header's own line break) and then `ps`. */
  lemma {:induction false} SectionLines(ps: seq<string>)
    requires |ps| > 0 && |ps[0]| > 0 && !IsRegexSpace(ps[0][0])
    requires forall k :: 0 <= k < |ps| ==> '\n' !in ps[k]
    ensures var content := "Assert:\n" + Join(ps, "\n");
      FindAssertHeader(content, 0) == Some(7) && Split(content[7..], '\n') == [""] + ps
  {
    var rest := Join(ps, "\n");
    JoinHead(ps, "\n");
    assert rest[0] == ps[0][0];
    AssertHeaderRoundTrip(rest);
    var content := "Assert:\n" + rest;
    assert content[7..] == "\n" + rest;
    var lines := [""] + ps;
    assert Join(lines, "\n") == "\n" + rest;
    SplitJoin(lines, '\n');
  }

  /** The bullet lines of a list of assertions. */
  function Printed(xs: seq<Assertion>): (ps: seq<string>)
    ensures |ps| == |xs| && forall k :: 0 <= k < |xs| ==> ps[k] == BulletLine(xs[k])
  {
    if |xs| == 0 then [] else [BulletLine(xs[0])] + Printed(xs[1..])
  }

  /** A join starts with its first part. */
  lemma {:induction false} JoinHead(parts: seq<string>, sep: string)
    requires |parts| > 0
    ensures |Join(parts, sep)| >= |parts[0]| && Join(parts, sep)[..|parts[0]|] == parts[0]
  {
  }

  /** A string that differs from a literal at position `k` does not start
      with it. */
  lemma {:induction false} Differs(s: string, p: string, k: nat)
    requires k < |p| && k < |s| && s[k] != p[k]
    ensures !HasPrefix(s, p)
  {
  }

  lemma {:induction false} JoinNonEmpty(parts: seq<string>, sep: string)
    requires |parts| > 0 && parts[0] != ""
    ensures Join(parts, sep) != ""
  {
    if |parts| > 1 {
      assert Join(parts, sep) == parts[0] + sep + Join(parts[1..], sep);
      assert |Join(parts, sep)| >= |parts[0]|;
    }
  }
}
