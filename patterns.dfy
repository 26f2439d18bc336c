/** Each regular expression of parser.go, written out as a matcher over
    characters that returns what the Go code reads from the match: the
    submatches, or the positions of the match. Go's `regexp` returns the
    leftmost match and, among those, the one a backtracking matcher would
    find first; each matcher below is written out that way. */
module Patterns {
  import opened Wrappers
  import opened Text

  // ---- `^(GET|POST|PUT|PATCH|DELETE)\s+(\S+)` (parser.go:142) ----

  const Verbs: seq<string> := ["GET", "POST", "PUT", "PATCH", "DELETE"]

  function LeadingVerb(line: string): (r: Option<string>)
    ensures r.Some? ==> r.value in Verbs && HasPrefix(line, r.value)
    ensures r.None? ==> forall v :: v in Verbs ==> !HasPrefix(line, v)
  {
    if HasPrefix(line, "GET") then Some("GET")
    else if HasPrefix(line, "POST") then Some("POST")
    else if HasPrefix(line, "PUT") then Some("PUT")
    else if HasPrefix(line, "PATCH") then Some("PATCH")
    else if HasPrefix(line, "DELETE") then Some("DELETE")
    else None
  }

  /** The method and the target of a request line: a verb at the very start,
      one or more `\s`, and the run of `\S` after them. */
  function MatchMethodLine(line: string): (r: Option<(string, string)>)
    ensures r.Some? ==> r.value.0 in Verbs && HasPrefix(line, r.value.0)
    ensures r.Some? ==> |r.value.1| > 0 && forall j :: 0 <= j < |r.value.1| ==> !IsRegexSpace(r.value.1[j])
  {
    match LeadingVerb(line)
    case None => None
    case Some(v) =>
      var a := SpanSpace(line, |v|);
      if a == |v| || a == |line| then None
      else Some((v, line[a..SpanNonSpace(line, a)]))
  }

  /** No verb is a prefix of a line starting with another verb. */
  lemma {:induction false} LeadingVerbOf(v: string, rest: string)
    requires v in Verbs
    ensures LeadingVerb(v + rest) == Some(v)
  {
    var line := v + rest;
    assert line[..|v|] == v;
    assert line[0] == v[0] && line[1] == v[1];
    if v == "POST" {
      assert line[0] != 'G';
    } else if v == "PUT" {
      assert line[0] != 'G' && line[1] != 'O';
    } else if v == "PATCH" {
      assert line[0] != 'G' && line[1] != 'O' && line[1] != 'U';
    } else if v == "DELETE" {
      assert line[0] == 'D';
    }
  }

  /** A request line written as verb, white space, target and (optionally)
      white space and anything, reads back as that verb and target. */
  lemma {:induction false} MethodLineRoundTrip(v: string, ws: string, target: string, rest: string)
    requires v in Verbs
    requires |ws| >= 1 && forall j :: 0 <= j < |ws| ==> IsRegexSpace(ws[j])
    requires |target| >= 1 && forall j :: 0 <= j < |target| ==> !IsRegexSpace(target[j])
    requires rest == [] || IsRegexSpace(rest[0])
    ensures MatchMethodLine(v + ws + target + rest) == Some((v, target))
  {
    var line := v + ws + target + rest;
    assert line == v + (ws + target + rest) == v + ws + (target + rest);
    LeadingVerbOf(v, ws + target + rest);
    SpaceRunAt(v, ws, target + rest);
    NonSpaceRunAt(v + ws, target, rest);
    MethodLineAt(line, v, |v| + |ws|, |v| + |ws| + |target|);
  }

  /** The `\s` run after `pre` is `ws`, when what follows does not start
      with white space. */
  lemma {:induction false} SpaceRunAt(pre: string, ws: string, post: string)
    requires forall j :: 0 <= j < |ws| ==> IsRegexSpace(ws[j])
    requires post == [] || !IsRegexSpace(post[0])
    ensures SpanSpace(pre + ws + post, |pre|) == |pre| + |ws|
  {
    var s := pre + ws + post;
    forall j | |pre| <= j < |pre| + |ws| ensures IsRegexSpace(s[j]) {
      assert s[j] == ws[j - |pre|];
    }
    if post != [] {
      assert s[|pre| + |ws|] == post[0];
    }
    SpanSpaceExact(s, |pre|, |pre| + |ws|);
  }

  /** The `\S` run after `pre` is `t`, when what follows is empty or starts
      with white space. */
  lemma {:induction false} NonSpaceRunAt(pre: string, t: string, post: string)
    requires forall j :: 0 <= j < |t| ==> !IsRegexSpace(t[j])
    requires post == [] || IsRegexSpace(post[0])
    ensures SpanNonSpace(pre + t + post, |pre|) == |pre| + |t|
    ensures (pre + t + post)[|pre|..|pre| + |t|] == t
  {
    var s := pre + t + post;
    forall j | |pre| <= j < |pre| + |t| ensures !IsRegexSpace(s[j]) {
      assert s[j] == t[j - |pre|];
    }
    if post != [] {
      assert s[|pre| + |t|] == post[0];
    }
    SpanNonSpaceExact(s, |pre|, |pre| + |t|);
  }

  lemma {:induction false} MethodLineAt(line: string, v: string, a: nat, e: nat)
    requires LeadingVerb(line) == Some(v) && |v| < a < |line|
    requires SpanSpace(line, |v|) == a && SpanNonSpace(line, a) == e
    ensures MatchMethodLine(line) == Some((v, line[a..e]))
  {
  }

  // ---- the option bullets (parser.go:174-176) ----

  /** `^-\s+` followed by the ASCII literal `lit`, ignoring case: the
      position just after the literal. */
  function BulletWord(line: string, lit: string): (r: Option<nat>)
    ensures r.Some? ==> r.value <= |line|
  {
    if |line| == 0 || line[0] != '-' then None
    else
      var p := SpanSpace(line, 1);
      if p == 1 || !HasPrefixFold(line[p..], lit) then None else Some(p + |lit|)
  }

  /** `(?i)^-\s+Wait until status is (\d+)$`: the digits. */
  function MatchWait(line: string): (r: Option<string>)
    ensures r.Some? ==> |r.value| > 0 && AllDigits(r.value)
  {
    match BulletWord(line, "Wait until status is ")
    case None => None
    case Some(q) =>
      var d := line[q..];
      if |d| > 0 && AllDigits(d) then Some(d) else None
  }

  /** `(?i)^-\s+Retry (\d+) times every (.+)$`: the count's digits and the
      delay text, untrimmed. */
  function MatchRetry(line: string): (r: Option<(string, string)>)
    ensures r.Some? ==> |r.value.0| > 0 && AllDigits(r.value.0)
    ensures r.Some? ==> |r.value.1| > 0 && '\n' !in r.value.1
  {
    match BulletWord(line, "Retry ")
    case None => None
    case Some(q) =>
      var e := SpanDigits(line, q);
      if e == q || !HasPrefixFold(line[e..], " times every ") then None
      else
        var delay := line[e + 13..];
        if |delay| == 0 || '\n' in delay then None else Some((line[q..e], delay))
  }

  /** `^-\s+([^:]+):\s*(.+)$`: the name and the value, untrimmed. The name
      runs to the first colon; `\s+` gives back its last character when
      only white space precedes the colon, and so does `\s*` when only
      white space follows it. */
  function MatchHeader(line: string): (r: Option<(string, string)>)
  {
    if |line| == 0 || line[0] != '-' then None
    else match IndexOfChar(line, ':')
      case None => None
      case Some(c) =>
        var p0 := SpanSpace(line, 1);
        if p0 == 1 || (p0 == c && c < 3) || c + 1 >= |line| then None
        else
          var p := if p0 < c then p0 else c - 1;
          var q0 := SpanSpace(line, c + 1);
          var q := if q0 < |line| then q0 else |line| - 1;
          if '\n' in line[q..] then None else Some((line[p..c], line[q..]))
  }

  /** A header bullet `- Name: value` reads back as its trimmed name and
      value, when the name holds no colon and does not start with white
      space. */
  lemma {:induction false} HeaderRoundTrip(name: string, value: string)
    requires |name| > 0 && ':' !in name && !IsRegexSpace(name[0])
    requires '\n' !in value
    ensures var line := "- " + name + ": " + value;
            MatchHeader(line).Some?
            && TrimSpace(MatchHeader(line).value.0) == TrimSpace(name)
            && TrimSpace(MatchHeader(line).value.1) == TrimSpace(value)
  {
    var line := "- " + name + ": " + value;
    var c := |name| + 2;
    assert line[..c] == "- " + name;
    assert line[2..c] == name;
    assert line[c + 1..] == " " + value;
    HeaderMatchShape(line, c);
    TrimSpaceSkip(" ", value);
  }

  lemma {:induction false} HeaderMatchShape(line: string, c: nat)
    requires 3 <= c && c + 1 < |line| && line[0] == '-' && IsRegexSpace(line[1]) && !IsRegexSpace(line[2])
    requires line[c] == ':' && ':' !in line[..c] && '\n' !in line[c + 1..]
    ensures MatchHeader(line).Some?
    ensures MatchHeader(line).value.0 == line[2..c]
    ensures TrimSpace(MatchHeader(line).value.1) == TrimSpace(line[c + 1..])
  {
    assert forall j :: 0 <= j < c ==> line[j] == line[..c][j];
    assert IndexOfChar(line, ':') == Some(c);
    SpanSpaceExact(line, 1, 2);
    var q0 := SpanSpace(line, c + 1);
    var q := if q0 < |line| then q0 else |line| - 1;
    HeaderValueTail(line, c, q);
    MatchHeaderIs(line, c, q);
  }

  /** The value the header pattern captures starts at `q`: it has no
      newline and trims like the whole text after the colon. */
  lemma {:induction false} HeaderValueTail(line: string, c: nat, q: nat)
    requires c + 1 < |line| && '\n' !in line[c + 1..]
    requires q == if SpanSpace(line, c + 1) < |line| then SpanSpace(line, c + 1) else |line| - 1
    ensures c + 1 <= q < |line| && '\n' !in line[q..]
    ensures TrimSpace(line[q..]) == TrimSpace(line[c + 1..])
  {
    var ws := line[c + 1..q];
    assert line[c + 1..] == ws + line[q..];
    assert forall j :: 0 <= j < |ws| ==> IsSpace(ws[j]) by {
      assert forall j :: 0 <= j < |ws| ==> ws[j] == line[c + 1 + j];
    }
    TrimSpaceSkip(ws, line[q..]);
    assert '\n' !in line[q..] by {
      assert forall j :: 0 <= j < |line| - q ==> line[q..][j] == line[c + 1..][j + q - c - 1];
    }
  }

  lemma {:induction false} MatchHeaderIs(line: string, c: nat, q: nat)
    requires 3 <= c && c + 1 < |line| && line[0] == '-'
    requires IndexOfChar(line, ':') == Some(c) && SpanSpace(line, 1) == 2
    requires q == (if SpanSpace(line, c + 1) < |line| then SpanSpace(line, c + 1) else |line| - 1)
    requires '\n' !in line[q..]
    ensures MatchHeader(line) == Some((line[2..c], line[q..]))
  {
  }

  // ---- the assertion bullets (parser.go:294, 304, 315, 325) ----

  /** A backquoted run that starts at `q`: the position of the closing
      backquote, when the run is not empty (`([^`]+)``). */
  function Quoted(b: string, q: nat): (r: Option<nat>)
    ensures r.Some? ==> q < r.value < |b| && b[r.value] == '`'
    ensures r.Some? ==> forall j :: q <= j < r.value ==> b[j] != '`'
  {
    match IndexOf(b, "`", q)
    case None => None
    case Some(e) =>
      assert forall j :: q <= j < e ==> b[j] != '`' by {
        forall j | q <= j < e ensures b[j] != '`' {
          assert !OccursAt(b, "`", j);
          assert b[j..j + 1] == [b[j]];
        }
      }
      assert b[e..e + 1] == "`";
      if e > q then Some(e) else None
  }

  /** ``^Body contains `([^`]+)` ``: the field. */
  function MatchBodyContains(b: string): (r: Option<string>)
    ensures r.Some? ==> |r.value| > 0 && '`' !in r.value
  {
    if !HasPrefix(b, "Body contains `") then None
    else match Quoted(b, 15)
      case None => None
      case Some(e) =>
        assert forall j :: 0 <= j < e - 15 ==> b[15..e][j] == b[15 + j];
        Some(b[15..e])
  }

  /** ``^Field `([^`]+)` equals `([^`]+)` ``: the field and the value. */
  function MatchFieldEquals(b: string): (r: Option<(string, string)>)
    ensures r.Some? ==> |r.value.0| > 0 && '`' !in r.value.0
    ensures r.Some? ==> |r.value.1| > 0 && '`' !in r.value.1
  {
    if !HasPrefix(b, "Field `") then None
    else match Quoted(b, 7)
      case None => None
      case Some(e1) =>
        if !OccursAt(b, "` equals `", e1) then None
        else match Quoted(b, e1 + 10)
          case None => None
          case Some(e2) =>
            assert forall j :: 0 <= j < e1 - 7 ==> b[7..e1][j] == b[7 + j];
            var v := b[e1 + 10..e2];
            assert forall j :: 0 <= j < |v| ==> v[j] == b[e1 + 10 + j];
            Some((b[7..e1], v))
  }

  /** `^(?:Duration|Time) less than (.+)$`: the limit, as written. */
  function MatchDuration(b: string): (r: Option<string>)
    ensures r.Some? ==> |r.value| > 0 && '\n' !in r.value
  {
    var rest := if HasPrefix(b, "Duration less than ") then Some(b[19..])
                else if HasPrefix(b, "Time less than ") then Some(b[15..])
                else None;
    match rest
    case None => None
    case Some(v) => if |v| == 0 || '\n' in v then None else Some(v)
  }

  /** ``^Body matches file `([^`]+)` ``: the path, as written. */
  function MatchBodyMatchesFile(b: string): (r: Option<string>)
    ensures r.Some? ==> |r.value| > 0 && '`' !in r.value
  {
    if !HasPrefix(b, "Body matches file `") then None
    else match Quoted(b, 19)
      case None => None
      case Some(e) =>
        assert forall j :: 0 <= j < e - 19 ==> b[19..e][j] == b[19 + j];
        Some(b[19..e])
  }

  /** A backquoted run written out is found again. */
  lemma {:induction false} QuotedRoundTrip(s: string, q: nat, f: string)
    requires |f| > 0 && '`' !in f
    requires q + |f| < |s| && s[q..q + |f|] == f && s[q + |f|] == '`'
    ensures Quoted(s, q) == Some(q + |f|)
  {
    var e := q + |f|;
    assert s[e..e + 1] == "`";
    assert OccursAt(s, "`", e);
    forall j | q <= j < e ensures !OccursAt(s, "`", j) {
      assert s[j] == f[j - q];
      assert s[j..j + 1] == [s[j]];
    }
    var r := IndexOf(s, "`", q);
    assert r.Some?;
    assert r.value == e;
  }

  lemma {:induction false} BodyContainsRoundTrip(f: string, rest: string)
    requires |f| > 0 && '`' !in f
    ensures MatchBodyContains("Body contains `" + f + "`" + rest) == Some(f)
  {
    var b := "Body contains `" + f + "`" + rest;
    assert b[..15] == "Body contains `";
    assert b[15..15 + |f|] == f && b[15 + |f|] == '`';
    QuotedRoundTrip(b, 15, f);
    assert b[15..15 + |f|] == f;
  }

  lemma {:induction false} FieldEqualsRoundTrip(f: string, v: string, rest: string)
    requires |f| > 0 && '`' !in f && |v| > 0 && '`' !in v
    ensures MatchFieldEquals("Field `" + f + "` equals `" + v + "`" + rest) == Some((f, v))
  {
    FieldEqualsText(f, v, rest);
    FieldEqualsParts("Field `" + f + "` equals `" + v + "`" + rest, f, v);
  }

  lemma {:induction false} FieldEqualsText(f: string, v: string, rest: string)
    ensures var b := "Field `" + f + "` equals `" + v + "`" + rest;
            var e1 := 7 + |f|;
            e1 + 10 + |v| < |b| && b[..7] == "Field `" && b[7..e1] == f && b[e1] == '`'
            && b[e1..e1 + 10] == "` equals `" && b[e1 + 10..e1 + 10 + |v|] == v && b[e1 + 10 + |v|] == '`'
  {
    var b := "Field `" + f + "` equals `" + v + "`" + rest;
    var e1 := 7 + |f|;
    assert b[..7] == "Field `";
    assert b[7..e1] == f && b[e1] == '`';
    assert b[e1..e1 + 10] == "` equals `";
    assert b[e1 + 10..e1 + 10 + |v|] == v && b[e1 + 10 + |v|] == '`';
  }

  lemma {:induction false} FieldEqualsParts(b: string, f: string, v: string)
    requires |f| > 0 && '`' !in f && |v| > 0 && '`' !in v
    requires var e1 := 7 + |f|;
             e1 + 10 + |v| < |b| && b[..7] == "Field `" && b[7..e1] == f && b[e1] == '`'
             && b[e1..e1 + 10] == "` equals `" && b[e1 + 10..e1 + 10 + |v|] == v && b[e1 + 10 + |v|] == '`'
    ensures MatchFieldEquals(b) == Some((f, v))
  {
    var e1 := 7 + |f|;
    QuotedRoundTrip(b, 7, f);
    QuotedRoundTrip(b, e1 + 10, v);
    FieldEqualsAt(b, e1, e1 + 10 + |v|);
  }

  lemma {:induction false} FieldEqualsAt(b: string, e1: nat, e2: nat)
    requires HasPrefix(b, "Field `") && Quoted(b, 7) == Some(e1)
    requires OccursAt(b, "` equals `", e1) && Quoted(b, e1 + 10) == Some(e2)
    ensures MatchFieldEquals(b) == Some((b[7..e1], b[e1 + 10..e2]))
  {
  }

  lemma {:induction false} DurationRoundTrip(v: string)
    requires |v| > 0 && '\n' !in v
    ensures MatchDuration("Duration less than " + v) == Some(v)
    ensures MatchDuration("Time less than " + v) == Some(v)
  {
    var b := "Duration less than " + v;
    assert b[..19] == "Duration less than " && b[19..] == v;
    var t := "Time less than " + v;
    assert t[..15] == "Time less than " && t[15..] == v;
    assert !HasPrefix(t, "Duration less than ") by {
      assert t[0] == 'T';
    }
  }

  lemma {:induction false} BodyMatchesFileRoundTrip(path: string, rest: string)
    requires |path| > 0 && '`' !in path
    ensures MatchBodyMatchesFile("Body matches file `" + path + "`" + rest) == Some(path)
  {
    var b := "Body matches file `" + path + "`" + rest;
    assert b[..19] == "Body matches file `";
    assert b[19..19 + |path|] == path && b[19 + |path|] == '`';
    QuotedRoundTrip(b, 19, path);
  }

  // ---- fences: `\s*\n(.+?)```` (the tail of parser.go:217 and :344) ----

  /** The greatest `k` in `[a, e)` where a newline can end `\s*` so that a
      non-empty body and a closing fence follow: the body's bounds. */
  function LastBreak(s: string, a: nat, e: nat): (r: Option<(nat, nat)>)
    requires a <= e <= |s|
    ensures r.Some? ==> a < r.value.0 <= e && r.value.0 < r.value.1 && r.value.1 + 3 <= |s|
    ensures r.Some? ==> s[r.value.0 - 1] == '\n' && OccursAt(s, "```", r.value.1)
    ensures r.Some? ==> forall j :: r.value.0 + 1 <= j < r.value.1 ==> !OccursAt(s, "```", j)
    decreases e - a
  {
    if e == a then None
    else
      var k := e - 1;
      if s[k] == '\n' then
        match IndexOf(s, "```", k + 2)
        case Some(b) => Some((k + 1, b))
        case None => LastBreak(s, a, k)
      else LastBreak(s, a, k)
  }

  /** `\s*\n(.+?)```` matched at `a`: the body's bounds. */
  function FenceTail(s: string, a: nat): (r: Option<(nat, nat)>)
    requires a <= |s|
    ensures r.Some? ==> a < r.value.0 < r.value.1 && r.value.1 + 3 <= |s|
    ensures r.Some? ==> forall j :: a <= j < r.value.0 ==> IsRegexSpace(s[j])
  {
    LastBreak(s, a, SpanSpace(s, a))
  }

  datatype FenceKind = JsonFence | FormFence

  /** "```(json|form)" followed by the fence tail, at `p`. */
  function BodyFenceAt(s: string, p: nat): (r: Option<(FenceKind, string)>)
    requires p <= |s|
  {
    if !OccursAt(s, "```", p) then None
    else
      var kind := if OccursAt(s, "json", p + 3) then Some(JsonFence)
                  else if OccursAt(s, "form", p + 3) then Some(FormFence)
                  else None;
      if kind.None? then None
      else match FenceTail(s, p + 7)
        case None => None
        case Some((b, e)) => Some((kind.value, s[b..e]))
  }

  /** `(?s)```(json|form)\s*\n(.+?)```` (parser.go:217): the leftmost
      match, its kind and its body. */
  function FindBodyFence(s: string, p: nat): (r: Option<(FenceKind, string)>)
    requires p <= |s|
    ensures r.Some? ==> |r.value.1| > 0
    decreases |s| - p
  {
    match BodyFenceAt(s, p)
    case Some(f) => Some(f)
    case None => if p == |s| then None else FindBodyFence(s, p + 1)
  }

  /** A fence opened by "```json" and a newline, around a body that is not
      white space up to a newline and holds no fence of its own, gives back
      that body. */
  lemma {:induction false} BodyFenceRoundTrip(body: string)
    requires |body| > 0 && !IsRegexSpace(body[0])
    requires forall j :: 0 <= j < |body| ==> !OccursAt(body + "```", "```", j)
    ensures FindBodyFence("```json\n" + body + "```", 0) == Some((JsonFence, body))
  {
    var s := "```json\n" + body + "```";
    JsonOpening(body);
    assert s[8] == s[8..][0] == body[0];
    FenceBodyOnce(s, body);
    JsonFenceAtStart(s, 8 + |body|);
  }

  lemma {:induction false} JsonOpening(body: string)
    ensures var s := "```json\n" + body + "```";
            |s| == 8 + |body| + 3 && s[0..3] == "```" && s[3..7] == "json" && s[7] == '\n'
            && s[8..] == body + "```"
  {
    var pre := "```json\n";
    var s := pre + (body + "```");
    assert s == "```json\n" + body + "```";
    assert s[..8] == pre && s[8..] == body + "```";
    assert s[0..3] == pre[0..3] && s[3..7] == pre[3..7] && s[7] == pre[7];
  }

  lemma {:induction false} FenceBodyOnce(s: string, body: string)
    requires |s| == 8 + |body| + 3 && s[8..] == body + "```"
    requires forall j :: 0 <= j < |body| ==> !OccursAt(body + "```", "```", j)
    ensures s[8..8 + |body|] == body && OccursAt(s, "```", 8 + |body|)
    ensures forall j :: 9 <= j < 8 + |body| ==> !OccursAt(s, "```", j)
  {
    var b := 8 + |body|;
    assert s[b..b + 3] == s[8..][|body|..] == "```";
    forall j | 9 <= j < b ensures !OccursAt(s, "```", j) {
      OccursAtSuffix(s, 8, "```", j - 8);
    }
  }

  lemma {:induction false} JsonFenceAtStart(s: string, b: nat)
    requires 9 <= b && b + 3 <= |s|
    requires s[0..3] == "```" && s[3..7] == "json" && s[7] == '\n' && !IsRegexSpace(s[8])
    requires OccursAt(s, "```", b) && forall j :: 9 <= j < b ==> !OccursAt(s, "```", j)
    ensures FindBodyFence(s, 0) == Some((JsonFence, s[8..b]))
  {
    JsonTailAt(s, b);
    JsonFenceAt(s, b);
    FenceFoundAt(s, (JsonFence, s[8..b]));
  }

  lemma {:induction false} JsonTailAt(s: string, b: nat)
    requires 9 <= b && b + 3 <= |s|
    requires s[7] == '\n' && !IsRegexSpace(s[8])
    requires OccursAt(s, "```", b) && forall j :: 9 <= j < b ==> !OccursAt(s, "```", j)
    ensures FenceTail(s, 7) == Some((8, b))
  {
    SpanSpaceExact(s, 7, 8);
    assert IndexOf(s, "```", 9) == Some(b);
    assert LastBreak(s, 7, 8) == Some((8, b));
  }

  lemma {:induction false} JsonFenceAt(s: string, b: nat)
    requires 9 <= b && b + 3 <= |s|
    requires s[0..3] == "```" && s[3..7] == "json" && FenceTail(s, 7) == Some((8, b))
    ensures BodyFenceAt(s, 0) == Some((JsonFence, s[8..b]))
  {
    assert OccursAt(s, "```", 0) && OccursAt(s, "json", 3);
  }

  lemma {:induction false} FenceFoundAt(s: string, f: (FenceKind, string))
    requires BodyFenceAt(s, 0) == Some(f)
    ensures FindBodyFence(s, 0) == Some(f)
  {
  }

  /** `(?s)^\s*```(?:json)?\s*\n(.+?)```` (parser.go:344), anchored at the
      start: the body. */
  function MatchPartialFence(s: string): (r: Option<string>)
    ensures r.Some? ==> |r.value| > 0
  {
    var w := SpanSpace(s, 0);
    if !OccursAt(s, "```", w) then None
    else
      var withJson := if OccursAt(s, "json", w + 3) then FenceTail(s, w + 7) else None;
      var bounds := if withJson.Some? then withJson else FenceTail(s, w + 3);
      match bounds
      case None => None
      case Some((b, e)) => Some(s[b..e])
  }

  // ---- `(?m)^Asserts?:\s*$` (parser.go:261) ----

  /** The greatest `j` in `[a, w]` where `$` holds: the end or a newline. */
  function LastLineEnd(s: string, a: nat, w: nat): (r: Option<nat>)
    requires a <= w <= |s|
    ensures r.Some? ==> a <= r.value <= w && (r.value == |s| || s[r.value] == '\n')
    decreases w - a
  {
    if w == |s| || s[w] == '\n' then Some(w)
    else if w == a then None
    else LastLineEnd(s, a, w - 1)
  }

  /** The end of an `Assert:` or `Asserts:` match that starts at `p`. */
  function AssertHeaderAt(s: string, p: nat): (r: Option<nat>)
    requires p <= |s|
    ensures r.Some? ==> p + 7 <= r.value <= |s|
  {
    if !(p == 0 || s[p - 1] == '\n') || !OccursAt(s, "Assert", p) then None
    else
      var c := if OccursAt(s, "s:", p + 6) then p + 7 else p + 6;
      if !OccursAt(s, ":", c) then None
      else LastLineEnd(s, c + 1, SpanSpace(s, c + 1))
  }

  /** The leftmost match at or after `p`: the end of the match. */
  function FindAssertHeader(s: string, p: nat): (r: Option<nat>)
    requires p <= |s|
    ensures r.Some? ==> r.value <= |s|
    decreases |s| - p
  {
    match AssertHeaderAt(s, p)
    case Some(e) => Some(e)
    case None => if p == |s| then None else FindAssertHeader(s, p + 1)
  }

  /** A section that opens with an `Assert:` line is read from the newline
      that ends that line. */
  lemma {:induction false} AssertHeaderRoundTrip(rest: string)
    requires |rest| > 0 && !IsRegexSpace(rest[0])
    ensures FindAssertHeader("Assert:\n" + rest, 0) == Some(7)
  {
    AssertOpening(rest);
    AssertHeaderFirst("Assert:\n" + rest);
  }

  lemma {:induction false} AssertOpening(rest: string)
    requires |rest| > 0 && !IsRegexSpace(rest[0])
    ensures var s := "Assert:\n" + rest;
            |s| > 8 && s[0..6] == "Assert" && s[6..7] == ":" && s[7] == '\n' && !IsRegexSpace(s[8])
  {
    var s := "Assert:\n" + rest;
    assert s[0..6] == "Assert" && s[6..7] == ":";
  }

  lemma {:induction false} AssertHeaderFirst(s: string)
    requires |s| > 8 && s[0..6] == "Assert" && s[6..7] == ":" && s[7] == '\n' && !IsRegexSpace(s[8])
    ensures FindAssertHeader(s, 0) == Some(7)
  {
    AssertLineAtStart(s);
  }

  lemma {:induction false} AssertLineAtStart(s: string)
    requires |s| > 8 && s[0..6] == "Assert" && s[6..7] == ":" && s[7] == '\n' && !IsRegexSpace(s[8])
    ensures AssertHeaderAt(s, 0) == Some(7)
  {
    assert !OccursAt(s, "s:", 6) by {
      assert s[6] == ':';
    }
    SpanSpaceExact(s, 7, 8);
  }

  // ---- `(?m)^## (.+)$` (parser.go:21) ----

  /** The positions of one heading: where its line starts, where its name
      starts and where the name (and the match) ends. */
  datatype Heading = Heading(start: nat, nameStart: nat, nameEnd: nat)

  /** The end of the line that starts at `p`. */
  function LineEnd(s: string, p: nat): (e: nat)
    requires p <= |s|
    ensures p <= e <= |s| && (e == |s| || s[e] == '\n')
    ensures forall j :: p <= j < e ==> s[j] != '\n'
    decreases |s| - p
  {
    if p == |s| || s[p] == '\n' then p else LineEnd(s, p + 1)
  }

  predicate LineStart(s: string, p: nat)
    requires p <= |s|
  {
    p == 0 || s[p - 1] == '\n'
  }

  /** The line at `p` is `## ` and at least one more character. */
  predicate IsHeadingAt(s: string, p: nat)
    requires p <= |s|
  {
    OccursAt(s, "## ", p) && p + 3 < |s| && s[p + 3] != '\n'
  }

  /** `h` records a heading line of `s`. */
  predicate HeadingOk(s: string, h: Heading) {
    h.nameStart == h.start + 3 && h.nameStart < h.nameEnd <= |s|
    && (h.nameEnd == |s| || s[h.nameEnd] == '\n') && '\n' !in s[h.start..h.nameEnd]
    && LineStart(s, h.start) && OccursAt(s, "## ", h.start)
  }

  predicate WellPlaced(s: string, hs: seq<Heading>, from: nat) {
    (forall k :: 0 <= k < |hs| ==> from <= hs[k].start && HeadingOk(s, hs[k]))
    && (forall k :: 0 <= k < |hs| - 1 ==> hs[k].nameEnd < hs[k + 1].start)
  }

  /** Every heading line from the line start `p` on, in order; this is
      what `FindAllStringSubmatchIndex` finds (HeadingsWellPlaced and
      HeadingsComplete state it). */
  function HeadingsFrom(s: string, p: nat): (hs: seq<Heading>)
    requires p <= |s| && LineStart(s, p)
    decreases |s| - p
  {
    var e := LineEnd(s, p);
    var rest := if e < |s| then HeadingsFrom(s, e + 1) else [];
    if IsHeadingAt(s, p) then [Heading(p, p + 3, e)] + rest else rest
  }

  /** `WellPlaced`, one heading at a time. */
  predicate Placed(s: string, hs: seq<Heading>, from: nat)
    decreases |hs|
  {
    |hs| == 0 || (from <= hs[0].start && HeadingOk(s, hs[0]) && Placed(s, hs[1..], hs[0].nameEnd + 1))
  }

  lemma {:induction false} PlacedWell(s: string, hs: seq<Heading>, from: nat)
    requires Placed(s, hs, from)
    ensures WellPlaced(s, hs, from)
    decreases |hs|
  {
    if |hs| > 0 {
      var tail := hs[1..];
      PlacedWell(s, tail, hs[0].nameEnd + 1);
      assert forall k :: 1 <= k < |hs| ==> hs[k] == tail[k - 1];
      if |tail| > 0 {
        HeadingOkOrdered(s, tail[0]);
      }
    }
  }

  lemma {:induction false} HeadingOkOrdered(s: string, h: Heading)
    requires HeadingOk(s, h)
    ensures h.start < h.nameEnd
  {
  }

  /** Each heading found is a heading line, and they come in order. */
  lemma {:induction false} HeadingsWellPlaced(s: string, p: nat)
    requires p <= |s| && LineStart(s, p)
    ensures WellPlaced(s, HeadingsFrom(s, p), p)
  {
    HeadingsPlaced(s, p);
    PlacedWell(s, HeadingsFrom(s, p), p);
  }

  lemma {:induction false} HeadingsPlaced(s: string, p: nat)
    requires p <= |s| && LineStart(s, p)
    ensures Placed(s, HeadingsFrom(s, p), p)
    decreases |s| - p
  {
    var e := LineEnd(s, p);
    var rest := if e < |s| then HeadingsFrom(s, e + 1) else [];
    if e < |s| {
      HeadingsPlaced(s, e + 1);
    }
    HeadingsFromStep(s, p);
    PlacedStep(s, p, e, rest, HeadingsFrom(s, p));
  }

  lemma {:induction false} PlacedStep(s: string, p: nat, e: nat, rest: seq<Heading>, hs: seq<Heading>)
    requires p <= |s| && LineStart(s, p) && e == LineEnd(s, p) && Placed(s, rest, e + 1)
    requires hs == if IsHeadingAt(s, p) then [Heading(p, p + 3, e)] + rest else rest
    ensures Placed(s, hs, p)
  {
    if IsHeadingAt(s, p) {
      HeadingAtOk(s, p);
      PlacedCons(s, Heading(p, p + 3, e), rest, p);
    } else {
      PlacedLater(s, rest, e + 1, p);
    }
  }

  lemma {:induction false} HeadingsFromStep(s: string, p: nat)
    requires p <= |s| && LineStart(s, p)
    ensures var e := LineEnd(s, p);
            var rest := if e < |s| then HeadingsFrom(s, e + 1) else [];
            HeadingsFrom(s, p) == if IsHeadingAt(s, p) then [Heading(p, p + 3, e)] + rest else rest
  {
  }

  lemma {:induction false} PlacedCons(s: string, h: Heading, rest: seq<Heading>, from: nat)
    requires from <= h.start && HeadingOk(s, h) && Placed(s, rest, h.nameEnd + 1)
    ensures Placed(s, [h] + rest, from)
  {
    assert ([h] + rest)[1..] == rest;
  }

  lemma {:induction false} PlacedLater(s: string, hs: seq<Heading>, from: nat, p: nat)
    requires p <= from && Placed(s, hs, from)
    ensures Placed(s, hs, p)
  {
  }

  lemma {:induction false} HeadingAtOk(s: string, p: nat)
    requires p <= |s| && LineStart(s, p) && IsHeadingAt(s, p)
    ensures HeadingOk(s, Heading(p, p + 3, LineEnd(s, p)))
  {
    var e := LineEnd(s, p);
    assert forall j :: 0 <= j < e - p ==> s[p..e][j] == s[p + j];
    assert s[p..p + 3] == "## ";
    assert s[p..p + 3][0] == s[p] && s[p..p + 3][1] == s[p + 1] && s[p..p + 3][2] == s[p + 2];
  }

  /** No heading line is missed. */
  lemma {:induction false} HeadingsComplete(s: string, p: nat, q: nat)
    requires p <= q <= |s| && LineStart(s, p) && LineStart(s, q) && IsHeadingAt(s, q)
    ensures Heading(q, q + 3, LineEnd(s, q)) in HeadingsFrom(s, p)
    decreases |s| - p
  {
    if q == p {
      HeadingFirst(s, p);
    } else {
      LineEndBefore(s, p, q);
      HeadingsComplete(s, LineEnd(s, p) + 1, q);
      HeadingsFromKeeps(s, p, Heading(q, q + 3, LineEnd(s, q)));
    }
  }

  lemma {:induction false} HeadingFirst(s: string, p: nat)
    requires p <= |s| && LineStart(s, p) && IsHeadingAt(s, p)
    ensures Heading(p, p + 3, LineEnd(s, p)) in HeadingsFrom(s, p)
  {
    HeadingsFromStep(s, p);
    assert HeadingsFrom(s, p)[0] == Heading(p, p + 3, LineEnd(s, p));
  }

  /** A later line start lies past the end of the line at `p`. */
  lemma {:induction false} LineEndBefore(s: string, p: nat, q: nat)
    requires p < q <= |s| && LineStart(s, q)
    ensures LineEnd(s, p) < q
  {
    assert s[q - 1] == '\n';
  }

  lemma {:induction false} HeadingsFromKeeps(s: string, p: nat, h: Heading)
    requires p <= |s| && LineStart(s, p) && LineEnd(s, p) < |s|
    requires h in HeadingsFrom(s, LineEnd(s, p) + 1)
    ensures h in HeadingsFrom(s, p)
  {
    HeadingsFromNext(s, p);
    InStep(h, Heading(p, p + 3, LineEnd(s, p)), IsHeadingAt(s, p), HeadingsFrom(s, LineEnd(s, p) + 1), HeadingsFrom(s, p));
  }

  lemma {:induction false} HeadingsFromNext(s: string, p: nat)
    requires p <= |s| && LineStart(s, p) && LineEnd(s, p) < |s|
    ensures HeadingsFrom(s, p) == if IsHeadingAt(s, p) then [Heading(p, p + 3, LineEnd(s, p))] + HeadingsFrom(s, LineEnd(s, p) + 1)
                                  else HeadingsFrom(s, LineEnd(s, p) + 1)
  {
  }

  lemma {:induction false} InStep(h: Heading, first: Heading, cond: bool, rest: seq<Heading>, hs: seq<Heading>)
    requires hs == if cond then [first] + rest else rest
    requires h in rest
    ensures h in hs
  {
  }
}
