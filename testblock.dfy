/** `parseTestBlock` (parser.go:121-253): one `## name` block read into a
    `Test` — the request line, the option and header bullets after it, the
    body fence and the assertions. */
module TestBlock {
  import opened Wrappers
  import opened Text
  import opened Assoc
  import opened Types
  import opened Patterns
  import opened AssertionScan

  /** The test a block starts from: the name, method GET, nothing else. */
  function NewTest(name: string): Test {
    Test(name, "GET", "", [], "", "", [], [], 0, "", "", 0, 0)
  }

  // ---- the request line (parser.go:142-166) ----

  predicate IsAbsoluteUrl(target: string) {
    HasPrefix(target, "http://") || HasPrefix(target, "https://")
  }

  /** The URL a request target stands for under the file's root. */
  function ResolveURL(root: string, target: string): (url: string)
    ensures root == "" || IsAbsoluteUrl(target) ==> url == target
    ensures root != "" && HasPrefix(target, "/") ==> url == root + target
    ensures root != "" && !HasPrefix(target, "/") && !IsAbsoluteUrl(target) ==> url == root + "/" + target
  {
    if HasPrefix(target, "/") && root != "" then
      assert (root + target)[|root|..] == target;
      assert target[0] == '/' && "http://"[0] == 'h' && "https://"[0] == 'h';
      root + target
    else if IsAbsoluteUrl(target) then target
    else if root != "" then
      assert (root + "/" + target)[|root| + 1..] == target;
      root + "/" + target
    else target
  }

  /** Whatever the root, the URL ends with the request target. */
  lemma {:induction false} ResolveURLSuffix(root: string, target: string)
    ensures HasSuffix(ResolveURL(root, target), target)
  {
    var url := ResolveURL(root, target);
    if url != target {
      assert url[|url| - |target|..] == target;
    }
  }

  /** The first request line at or after `from`: its index, verb and target. */
  function FirstMethodLine(lines: seq<string>, from: nat): (r: Option<(nat, string, string)>)
    requires from <= |lines|
    ensures r.Some? ==> from <= r.value.0 < |lines| && MatchMethodLine(lines[r.value.0]) == Some((r.value.1, r.value.2))
    ensures r.Some? ==> forall j {:trigger MatchMethodLine(lines[j])} :: from <= j < r.value.0 ==> MatchMethodLine(lines[j]).None?
    ensures r.None? ==> forall j {:trigger MatchMethodLine(lines[j])} :: from <= j < |lines| ==> MatchMethodLine(lines[j]).None?
    decreases |lines| - from
  {
    if from == |lines| then None
    else match MatchMethodLine(lines[from])
      case Some((verb, target)) => Some((from, verb, target))
      case None => FirstMethodLine(lines, from + 1)
  }

  // ---- headers (parser.go:131-136, 203-210) ----

  predicate IsContentType(key: string) {
    EqualFold(key, "Content-Type")
  }

  /** `test.Headers[key] = value`, with `ContentType` following a header
      named Content-Type in any case. */
  function SetHeader(t: Test, key: string, value: string): Test {
    t.(headers := Put(t.headers, key, value),
       contentType := if IsContentType(key) then value else t.contentType)
  }

  /** Setting the headers `hs` one after the other. */
  function SetAll(t: Test, hs: Headers): Test
    decreases |hs|
  {
    if |hs| == 0 then t else SetAll(SetHeader(t, hs[0].0, hs[0].1), hs[1..])
  }

  /** The value of the last Content-Type header in `hs`, or `init` if none
      is named so. */
  function LastContentType(hs: Headers, init: string): string
    decreases |hs|
  {
    if |hs| == 0 then init
    else if IsContentType(hs[|hs| - 1].0) then hs[|hs| - 1].1
    else LastContentType(hs[..|hs| - 1], init)
  }

  // ---- options (parser.go:172-214) ----

  /** What a line after the request line is, the patterns tried in the
      order of parser.go:180-213. */
  datatype OptionLine =
    | Blank
    | WaitLine(status: Option<int>)
    | RetryLine(max: Option<int>, delay: string)
    | HeaderLine(name: string, value: string)
    | EndOfOptions

  function ClassifyOption(line: string): (r: OptionLine)
    ensures r.HeaderLine? ==> TrimSpace(r.name) == r.name && TrimSpace(r.value) == r.value
  {
    if TrimSpace(line) == "" then Blank
    else if MatchWait(line).Some? then WaitLine(ParseInt64(MatchWait(line).value))
    else if MatchRetry(line).Some? then
      RetryLine(ParseInt64(MatchRetry(line).value.0), MatchRetry(line).value.1)
    else if MatchHeader(line).Some? then
      var (name, value) := MatchHeader(line).value;
      TrimSpaceIdem(name);
      TrimSpaceIdem(value);
      HeaderLine(TrimSpace(name), TrimSpace(value))
    else EndOfOptions
  }

  /** The effect of an option line on the test. */
  function ApplyOption(t: Test, o: OptionLine, env: Env): Test {
    match o
    case WaitLine(status) => if status.Some? then t.(waitForStatus := status.value) else t
    case RetryLine(max, delay) =>
      var t1 := if max.Some? then t.(retryMax := max.value) else t;
      (match env.parseDuration(delay)
       case Some(d) => t1.(retryDelay := d)
       case None => t1)
    case HeaderLine(name, value) => SetHeader(t, name, value)
    case _ => t
  }

  /** The option lines from line `i` on, up to the first line that is
      none. */
  function OptionsFrom(lines: seq<string>, i: nat): (os: seq<OptionLine>)
    requires i <= |lines|
    ensures |os| <= |lines| - i
    ensures forall k {:trigger os[k].EndOfOptions?} :: 0 <= k < |os| ==> !os[k].EndOfOptions?
    decreases |lines| - i
  {
    if i == |lines| then []
    else
      var o := ClassifyOption(lines[i]);
      if o.EndOfOptions? then [] else [o] + OptionsFrom(lines, i + 1)
  }

  /** Applying option lines one after the other. */
  function ApplyAll(t: Test, os: seq<OptionLine>, env: Env): Test
    decreases |os|
  {
    if |os| == 0 then t else ApplyAll(ApplyOption(t, os[0], env), os[1..], env)
  }

  /** The effect of the options from line `i` on. */
  function ScanOptions(t: Test, lines: seq<string>, i: nat, env: Env): Test
    requires i <= |lines|
  {
    ApplyAll(t, OptionsFrom(lines, i), env)
  }

  /** The header bullets among option lines, in order. */
  function HeadersOf(os: seq<OptionLine>): Headers
    decreases |os|
  {
    if |os| == 0 then []
    else if os[0].HeaderLine? then [(os[0].name, os[0].value)] + HeadersOf(os[1..])
    else HeadersOf(os[1..])
  }

  function OptionHeaders(lines: seq<string>, i: nat): Headers
    requires i <= |lines|
  {
    HeadersOf(OptionsFrom(lines, i))
  }

  // ---- the body (parser.go:216-247) ----

  function Mime(kind: FenceKind): string {
    match kind
    case JsonFence => "application/json"
    case FormFence => "application/x-www-form-urlencoded"
  }

  /** The content of a body fence: trimmed, or the bytes of the file a
      `FILE:` line names when that file can be read. */
  function BlockBody(raw: string, baseDir: string, env: Env): string {
    var content := TrimSpace(raw);
    if HasPrefix(content, "FILE:") then
      var path := ResolvePath(env, baseDir, TrimSpace(TrimPrefix(content, "FILE:")));
      match env.readFile(path)
      case Some(bytes) => bytes
      case None => content
    else content
  }

  /** The test with the first body fence of the block applied: its content,
      and a content type for its kind unless one is already set. */
  function WithBody(t: Test, content: string, baseDir: string, env: Env): Test {
    match FindBodyFence(content, 0)
    case None => t
    case Some((kind, raw)) =>
      t.(body := BlockBody(raw, baseDir, env),
         contentType := if t.contentType == "" then Mime(kind) else t.contentType)
  }

  // ---- the whole block ----

  /** What `parseTestBlock` returns. */
  function BlockTest(name: string, content: string, defaults: Defaults, baseDir: string, env: Env): Test {
    var t := SetAll(NewTest(name), defaults.headers);
    var lines := Split(content, '\n');
    var m := FirstMethodLine(lines, 0);
    if m.None? then t
    else
      var r := RequestTest(name, OptionsFrom(lines, m.value.0 + 1), m.value.1, m.value.2, defaults, env);
      WithBody(r, content, baseDir, env).(assertions := AssertionsOf(content, baseDir, env))
  }

  /** The test once the request line and the option lines `os` after it
      are read. */
  function RequestTest(name: string, os: seq<OptionLine>, verb: string, target: string,
                       defaults: Defaults, env: Env): Test
  {
    var t := SetAll(NewTest(name), defaults.headers);
    ApplyAll(t.(verb := verb, url := ResolveURL(defaults.root, target)), os, env)
  }

  /** A body fence sets the body, and the content type only if none is set. */
  lemma {:induction false} WithBodyHeaders(t: Test, content: string, baseDir: string, env: Env)
    ensures var r := WithBody(t, content, baseDir, env);
      && r.headers == t.headers && r.url == t.url && r.verb == t.verb && r.name == t.name
      && r.contentType == if t.contentType == "" && FindBodyFence(content, 0).Some?
                          then Mime(FindBodyFence(content, 0).value.0) else t.contentType
  {
  }

  /** The loop at parser.go:131-136. */
  method CopyDefaults(t: Test, hs: Headers) returns (test: Test)
    ensures test == SetAll(t, hs)
  {
    test := t;
    for k := 0 to |hs|
      invariant SetAll(test, hs[k..]) == SetAll(t, hs)
    {
      assert hs[k..][1..] == hs[k + 1..];
      var (key, value) := hs[k];
      test := test.(headers := Put(test.headers, key, value));
      if EqualFold(key, "Content-Type") {
        test := test.(contentType := value);
      }
    }
  }

  /** The loop at parser.go:145-166: the index, verb and target of the
      first request line, if any. */
  method FindMethodLine(lines: seq<string>) returns (r: Option<(nat, string, string)>)
    ensures r == FirstMethodLine(lines, 0)
  {
    var i := 0;
    while i < |lines|
      invariant 0 <= i <= |lines|
      invariant FirstMethodLine(lines, i) == FirstMethodLine(lines, 0)
    {
      match MatchMethodLine(lines[i]) {
        case Some((verb, urlOrPath)) =>
          return Some((i, verb, urlOrPath));
        case None =>
      }
      i := i + 1;
    }
    return None;
  }

  /** The loop at parser.go:178-214. */
  method ScanOptionLines(t: Test, lines: seq<string>, from: nat, env: Env) returns (test: Test)
    requires from <= |lines|
    ensures test == ScanOptions(t, lines, from, env)
  {
    test := t;
    var i := from;
    while i < |lines|
      invariant from <= i <= |lines|
      invariant ApplyAll(test, OptionsFrom(lines, i), env) == ScanOptions(t, lines, from, env)
      decreases |lines| - i
    {
      var option := ClassifyOption(lines[i]);
      if option.EndOfOptions? {
        break;
      }
      test := ApplyOption(test, option, env);
      i := i + 1;
    }
  }

  /** `parseTestBlock`. It returns early when no request line is found,
      which is when the Go code finds `test.URL` empty: a request line's
      target is never empty. */
  method ParseTestBlock(name: string, content: string, defaults: Defaults, baseDir: string, env: Env) returns (test: Test)
    ensures test == BlockTest(name, content, defaults, baseDir, env)
  {
    test := CopyDefaults(NewTest(name), defaults.headers);
    var lines := Split(content, '\n');
    var methodLine := FindMethodLine(lines);
    if methodLine.None? {
      return;
    }
    var (methodLineIdx, verb, urlOrPath) := methodLine.value;
    test := test.(verb := verb, url := ResolveURL(defaults.root, urlOrPath));
    test := ScanOptionLines(test, lines, methodLineIdx + 1, env);
    test := WithBody(test, content, baseDir, env);
    var assertions := ParseAssertions(content, baseDir, env);
    test := test.(assertions := assertions);
  }

  lemma {:induction false} UrlUntouched(t: Test, hs: Headers)
    ensures SetAll(t, hs).url == t.url
    decreases |hs|
  {
    if |hs| > 0 {
      UrlUntouched(SetHeader(t, hs[0].0, hs[0].1), hs[1..]);
    }
  }

  // ---- properties ----

  /** Setting headers one after the other keeps keys distinct and gives
      the map in which each header overrides what was there, later ones
      winning. */
  lemma {:induction false} SetAllMap(t: Test, hs: Headers)
    requires Distinct(t.headers)
    ensures Distinct(SetAll(t, hs).headers)
    ensures ToMap(SetAll(t, hs).headers) == ToMap(t.headers) + ToMap(hs)
    decreases |hs|
  {
    if |hs| == 0 {
      assert ToMap(hs) == map[];
      assert ToMap(t.headers) + map[] == ToMap(t.headers);
    } else {
      var k, v := hs[0].0, hs[0].1;
      var t1 := SetHeader(t, k, v);
      PutDistinct(t.headers, k, v);
      PutToMap(t.headers, k, v);
      SetAllMap(t1, hs[1..]);
      var a, b, c := ToMap(t.headers), map[k := v], ToMap(hs[1..]);
      assert ToMap(hs) == b + c;
      assert ToMap(t1.headers) == a[k := v];
      UpdateThenUnion(a, k, v, c);
    }
  }

  lemma {:induction false} UpdateThenUnion(a: map<string, string>, k: string, v: string, c: map<string, string>)
    ensures a[k := v] + c == a + (map[k := v] + c)
  {
  }

  /** After setting headers, `ContentType` is the last one named
      Content-Type, or what it was if none is. */
  lemma {:induction false} SetAllContentType(t: Test, hs: Headers)
    ensures SetAll(t, hs).contentType == LastContentType(hs, t.contentType)
    decreases |hs|
  {
    if |hs| > 0 {
      var t1 := SetHeader(t, hs[0].0, hs[0].1);
      SetAllContentType(t1, hs[1..]);
      LastContentTypeCons(hs[0], hs[1..], t.contentType);
      assert hs == [hs[0]] + hs[1..];
    }
  }

  lemma {:induction false} LastContentTypeCons(h: (string, string), hs: Headers, init: string)
    ensures LastContentType([h] + hs, init) ==
            LastContentType(hs, if IsContentType(h.0) then h.1 else init)
    decreases |hs|
  {
    if |hs| > 0 {
      var all := [h] + hs;
      assert all[..|all| - 1] == [h] + hs[..|hs| - 1];
      assert all[|all| - 1] == hs[|hs| - 1];
      LastContentTypeCons(h, hs[..|hs| - 1], init);
    } else {
      assert ([h] + hs)[..0] == [];
    }
  }

  /** Looking for the last Content-Type in two lists is looking in the
      second, starting from what the first gives. */
  lemma {:induction false} LastContentTypeAppend(a: Headers, b: Headers, init: string)
    ensures LastContentType(a + b, init) == LastContentType(b, LastContentType(a, init))
    decreases |b|
  {
    if |b| == 0 {
      assert a + b == a;
    } else {
      assert (a + b)[..|a + b| - 1] == a + b[..|b| - 1];
      assert (a + b)[|a + b| - 1] == b[|b| - 1];
      LastContentTypeAppend(a, b[..|b| - 1], init);
    }
  }

  /** The last Content-Type is the value of the last entry so named. */
  lemma {:induction false} LastContentTypeIs(hs: Headers, init: string, j: nat)
    requires j < |hs| && IsContentType(hs[j].0)
    requires forall l :: j < l < |hs| ==> !IsContentType(hs[l].0)
    ensures LastContentType(hs, init) == hs[j].1
    decreases |hs|
  {
    if j < |hs| - 1 {
      var init' := hs[..|hs| - 1];
      assert init'[j] == hs[j];
      forall l | j < l < |init'| ensures !IsContentType(init'[l].0) {
        assert init'[l] == hs[l];
      }
      LastContentTypeIs(init', init, j);
    }
  }

  /** Setting headers changes nothing but the headers and the content type. */
  lemma {:induction false} SetAllKeeps(t: Test, hs: Headers)
    ensures SetAll(t, hs) == t.(headers := SetAll(t, hs).headers, contentType := SetAll(t, hs).contentType)
    decreases |hs|
  {
    if |hs| > 0 {
      SetAllKeeps(SetHeader(t, hs[0].0, hs[0].1), hs[1..]);
    }
  }

  /** Only the header and content type of the test the headers are set on
      matter to the headers they give. */
  lemma {:induction false} SetAllOnly(t: Test, u: Test, hs: Headers)
    requires t.headers == u.headers && t.contentType == u.contentType
    ensures SetAll(t, hs).headers == SetAll(u, hs).headers
    ensures SetAll(t, hs).contentType == SetAll(u, hs).contentType
    decreases |hs|
  {
    if |hs| > 0 {
      SetAllOnly(SetHeader(t, hs[0].0, hs[0].1), SetHeader(u, hs[0].0, hs[0].1), hs[1..]);
    }
  }

  /** The option lines set exactly their header bullets, in order. */
  lemma {:induction false} ApplyAllHeaders(t: Test, os: seq<OptionLine>, env: Env)
    ensures ApplyAll(t, os, env).headers == SetAll(t, HeadersOf(os)).headers
    ensures ApplyAll(t, os, env).contentType == SetAll(t, HeadersOf(os)).contentType
    decreases |os|
  {
    if |os| > 0 {
      var t1 := ApplyOption(t, os[0], env);
      var rest := HeadersOf(os[1..]);
      ApplyAllHeaders(t1, os[1..], env);
      ApplyAllCons(t, os, env, t1);
      if os[0].HeaderLine? {
        SetAllCons(t, (os[0].name, os[0].value), rest, t1);
      } else {
        ApplyOptionNotHeader(t, os[0], env);
        SetAllOnly(t1, t, rest);
      }
    }
  }

  /** One option line applied, then the rest; `t1` is the test after it. */
  lemma {:induction false} ApplyAllCons(t: Test, os: seq<OptionLine>, env: Env, t1: Test)
    requires |os| > 0 && t1 == ApplyOption(t, os[0], env)
    ensures ApplyAll(t, os, env) == ApplyAll(t1, os[1..], env)
    ensures HeadersOf(os) == if os[0].HeaderLine? then [(os[0].name, os[0].value)] + HeadersOf(os[1..]) else HeadersOf(os[1..])
  {
  }

  /** A header set first, then the rest; `t1` is the test after it. */
  lemma {:induction false} SetAllCons(t: Test, h: (string, string), hs: Headers, t1: Test)
    requires t1 == SetHeader(t, h.0, h.1)
    ensures SetAll(t, [h] + hs) == SetAll(t1, hs)
  {
    assert ([h] + hs)[1..] == hs;
  }

  /** An option line that is no header bullet leaves the headers and the
      content type alone. */
  lemma {:induction false} ApplyOptionNotHeader(t: Test, o: OptionLine, env: Env)
    requires !o.HeaderLine?
    ensures ApplyOption(t, o, env).headers == t.headers
    ensures ApplyOption(t, o, env).contentType == t.contentType
  {
  }

  lemma {:induction false} ScanOptionHeaders(t: Test, lines: seq<string>, i: nat, env: Env)
    requires i <= |lines|
    ensures ScanOptions(t, lines, i, env).headers == SetAll(t, OptionHeaders(lines, i)).headers
    ensures ScanOptions(t, lines, i, env).contentType == SetAll(t, OptionHeaders(lines, i)).contentType
  {
    ApplyAllHeaders(t, OptionsFrom(lines, i), env);
  }

  /** Option lines leave the name, method, URL, body and assertions alone. */
  lemma {:induction false} ApplyAllKeeps(t: Test, os: seq<OptionLine>, env: Env)
    ensures var r := ApplyAll(t, os, env);
      r.name == t.name && r.verb == t.verb && r.url == t.url && r.body == t.body && r.assertions == t.assertions
    decreases |os|
  {
    if |os| > 0 {
      ApplyAllKeeps(ApplyOption(t, os[0], env), os[1..], env);
    }
  }

  /** Nothing after the first line that is not an option is read. */
  lemma {:induction false} ScanStopsAt(lines: seq<string>, i: nat, j: nat)
    requires i <= j < |lines| && ClassifyOption(lines[j]).EndOfOptions?
    ensures OptionsFrom(lines, i) == OptionsFrom(lines[..j], i)
    decreases j - i
  {
    OptionsFromEnd(lines, j);
    SlicePrefix(lines, i, j);
    OptionsAgreeUpTo(lines, lines[..j], i, j);
  }

  lemma {:induction false} SlicePrefix(lines: seq<string>, i: nat, j: nat)
    requires i <= j <= |lines|
    ensures j <= |lines[..j]| && lines[i..j] == lines[..j][i..j]
  {
  }

  /** Two line sequences that agree from `i` up to `j`, where both give no
      options, give the same options from `i` on. */
  lemma {:induction false} OptionsAgreeUpTo(a: seq<string>, b: seq<string>, i: nat, j: nat)
    requires i <= j <= |a| && j <= |b| && a[i..j] == b[i..j]
    requires OptionsFrom(a, j) == [] && OptionsFrom(b, j) == []
    ensures OptionsFrom(a, i) == OptionsFrom(b, i)
    decreases j - i
  {
    if i < j {
      assert a[i + 1..j] == a[i..j][1..] && b[i + 1..j] == b[i..j][1..];
      assert a[i] == a[i..j][0] && b[i] == b[i..j][0];
      OptionsAgreeUpTo(a, b, i + 1, j);
      OptionsFromSameLine(a, b, i);
    }
  }

  /** Two line sequences that agree at `i` and give the same options after
      it give the same options from `i` on. */
  lemma {:induction false} OptionsFromSameLine(a: seq<string>, b: seq<string>, i: nat)
    requires i < |a| && i < |b| && a[i] == b[i]
    requires OptionsFrom(a, i + 1) == OptionsFrom(b, i + 1)
    ensures OptionsFrom(a, i) == OptionsFrom(b, i)
  {
  }

  /** The options stop at a line that is none. */
  lemma {:induction false} OptionsFromEnd(lines: seq<string>, j: nat)
    requires j < |lines| && ClassifyOption(lines[j]).EndOfOptions?
    ensures OptionsFrom(lines, j) == [] && OptionsFrom(lines[..j], j) == []
  {
  }

  /** A test has a URL exactly when its block has a request line, and then
      it carries that line's method and resolved target. */
  lemma {:induction false} BlockUrl(name: string, content: string, defaults: Defaults, baseDir: string, env: Env)
    ensures var t := BlockTest(name, content, defaults, baseDir, env);
      var m := FirstMethodLine(Split(content, '\n'), 0);
      && (t.url != "" <==> m.Some?)
      && (m.Some? ==> t.verb == m.value.1 && t.url == ResolveURL(defaults.root, m.value.2))
      && t.name == name
  {
    var lines := Split(content, '\n');
    SetAllKeeps(NewTest(name), defaults.headers);
    match FirstMethodLine(lines, 0)
    case None =>
    case Some((idx, verb, target)) =>
      var t0 := SetAll(NewTest(name), defaults.headers);
      var t1 := t0.(verb := verb, url := ResolveURL(defaults.root, target));
      ApplyAllKeeps(t1, OptionsFrom(lines, idx + 1), env);
      WithBodyHeaders(RequestTest(name, OptionsFrom(lines, idx + 1), verb, target, defaults, env), content, baseDir, env);
  }

  /** The headers after the request line and its options: the file's
      defaults with the header bullets set over them, later ones winning. */
  lemma {:induction false} RequestHeaderMap(name: string, os: seq<OptionLine>, verb: string, target: string,
                         defaults: Defaults, env: Env)
    ensures ToMap(RequestTest(name, os, verb, target, defaults, env).headers) ==
            ToMap(defaults.headers) + ToMap(HeadersOf(os))
  {
    var t0 := SetAll(NewTest(name), defaults.headers);
    DefaultsMap(name, defaults.headers);
    var t1 := t0.(verb := verb, url := ResolveURL(defaults.root, target));
    ApplyAllHeaders(t1, os, env);
    SetAllMap(t1, HeadersOf(os));
  }

  /** A new test with the defaults set holds exactly the defaults. */
  lemma {:induction false} DefaultsMap(name: string, hs: Headers)
    ensures Distinct(SetAll(NewTest(name), hs).headers)
    ensures ToMap(SetAll(NewTest(name), hs).headers) == ToMap(hs)
  {
    var d := ToMap(hs);
    SetAllMap(NewTest(name), hs);
    assert ToMap(NewTest(name).headers) == map[];
    assert map[] + d == d;
  }

  /** The content type after the request line and its options: the last
      of the defaults and then the header bullets named Content-Type. */
  lemma {:induction false} RequestContentType(name: string, os: seq<OptionLine>, verb: string, target: string,
                           defaults: Defaults, env: Env)
    ensures RequestTest(name, os, verb, target, defaults, env).contentType ==
            LastContentType(defaults.headers + HeadersOf(os), "")
  {
    var t0 := SetAll(NewTest(name), defaults.headers);
    SetAllContentType(NewTest(name), defaults.headers);
    var t1 := t0.(verb := verb, url := ResolveURL(defaults.root, target));
    ApplyAllHeaders(t1, os, env);
    SetAllContentType(t1, HeadersOf(os));
    LastContentTypeAppend(defaults.headers, HeadersOf(os), "");
  }

  /** The headers of a test are its file's defaults with its own header
      bullets set over them, in order, later ones winning. */
  lemma {:induction false} BlockHeaders(name: string, content: string, defaults: Defaults, baseDir: string, env: Env)
    requires FirstMethodLine(Split(content, '\n'), 0).Some?
    ensures var lines := Split(content, '\n');
      var idx := FirstMethodLine(lines, 0).value.0;
      ToMap(BlockTest(name, content, defaults, baseDir, env).headers) ==
        ToMap(defaults.headers) + ToMap(OptionHeaders(lines, idx + 1))
  {
    var lines := Split(content, '\n');
    var m := FirstMethodLine(lines, 0).value;
    var r := RequestTest(name, OptionsFrom(lines, m.0 + 1), m.1, m.2, defaults, env);
    BlockFields(name, content, defaults, baseDir, env, r);
    RequestHeaderMapAt(name, lines, m.0 + 1, m.1, m.2, defaults, env);
    MapVia(BlockTest(name, content, defaults, baseDir, env).headers, r.headers,
           ToMap(defaults.headers) + ToMap(OptionHeaders(lines, m.0 + 1)));
  }

  /** Equal header lists give equal maps. */
  lemma {:induction false} MapVia(a: Headers, b: Headers, x: map<string, string>)
    requires a == b && ToMap(b) == x
    ensures ToMap(a) == x
  {
  }

  /** `RequestHeaderMap` for the option lines from line `i` on. */
  lemma {:induction false} RequestHeaderMapAt(name: string, lines: seq<string>, i: nat, verb: string, target: string,
                           defaults: Defaults, env: Env)
    requires i <= |lines|
    ensures ToMap(RequestTest(name, OptionsFrom(lines, i), verb, target, defaults, env).headers) ==
            ToMap(defaults.headers) + ToMap(OptionHeaders(lines, i))
  {
    RequestHeaderMap(name, OptionsFrom(lines, i), verb, target, defaults, env);
  }

  /** The content type of a test is the last header named Content-Type
      among its defaults and then its own bullets; only when there is none
      does a body fence give the type of its kind. */
  lemma {:induction false} BlockContentType(name: string, content: string, defaults: Defaults, baseDir: string, env: Env)
    requires FirstMethodLine(Split(content, '\n'), 0).Some?
    ensures var lines := Split(content, '\n');
      var idx := FirstMethodLine(lines, 0).value.0;
      var ct := LastContentType(defaults.headers + OptionHeaders(lines, idx + 1), "");
      BlockTest(name, content, defaults, baseDir, env).contentType ==
        if ct == "" && FindBodyFence(content, 0).Some? then Mime(FindBodyFence(content, 0).value.0) else ct
  {
    var lines := Split(content, '\n');
    var m := FirstMethodLine(lines, 0).value;
    var r := RequestTest(name, OptionsFrom(lines, m.0 + 1), m.1, m.2, defaults, env);
    RequestContentTypeAt(name, lines, m.0 + 1, m.1, m.2, defaults, env);
    BlockTypeFrom(name, content, defaults, baseDir, env, r, LastContentType(defaults.headers + OptionHeaders(lines, m.0 + 1), ""));
  }

  /** A block whose request part `r` has the content type `last` keeps it,
      unless it is empty and a body fence supplies one. */
  lemma {:induction false} BlockTypeFrom(name: string, content: string, defaults: Defaults, baseDir: string, env: Env, r: Test, last: string)
    requires FirstMethodLine(Split(content, '\n'), 0).Some?
    requires var lines := Split(content, '\n');
      var m := FirstMethodLine(lines, 0).value;
      r == RequestTest(name, OptionsFrom(lines, m.0 + 1), m.1, m.2, defaults, env)
    requires r.contentType == last
    ensures BlockTest(name, content, defaults, baseDir, env).contentType ==
      if last == "" && FindBodyFence(content, 0).Some? then Mime(FindBodyFence(content, 0).value.0) else last
  {
    BlockFields(name, content, defaults, baseDir, env, r);
  }

  /** `RequestContentType` for the option lines from line `i` on. */
  lemma {:induction false} RequestContentTypeAt(name: string, lines: seq<string>, i: nat, verb: string, target: string,
                             defaults: Defaults, env: Env)
    requires i <= |lines|
    ensures RequestTest(name, OptionsFrom(lines, i), verb, target, defaults, env).contentType ==
            LastContentType(defaults.headers + OptionHeaders(lines, i), "")
  {
    RequestContentType(name, OptionsFrom(lines, i), verb, target, defaults, env);
  }

  /** The headers of a block's test are those its request line and options
      give, and so is its content type unless a body fence supplies one. */
  lemma {:induction false} BlockFields(name: string, content: string, defaults: Defaults, baseDir: string, env: Env, r: Test)
    requires FirstMethodLine(Split(content, '\n'), 0).Some?
    requires var lines := Split(content, '\n');
      var m := FirstMethodLine(lines, 0).value;
      r == RequestTest(name, OptionsFrom(lines, m.0 + 1), m.1, m.2, defaults, env)
    ensures var t := BlockTest(name, content, defaults, baseDir, env);
      && t.headers == r.headers
      && t.contentType ==
        if r.contentType == "" && FindBodyFence(content, 0).Some? then Mime(FindBodyFence(content, 0).value.0) else r.contentType
  {
    var w := WithBody(r, content, baseDir, env);
    var a := AssertionsOf(content, baseDir, env);
    BlockTestIs(name, content, defaults, baseDir, env, r, w, a);
    FinishedFields(r, content, baseDir, env, w, a);
  }

  /** A block with a request line is the test `r` its request line and
      options give, the body fence `w` applied over it, and then its
      assertions `a`. */
  lemma {:induction false} BlockTestIs(name: string, content: string, defaults: Defaults, baseDir: string, env: Env,
                    r: Test, w: Test, a: seq<Assertion>)
    requires FirstMethodLine(Split(content, '\n'), 0).Some?
    requires var lines := Split(content, '\n');
      var m := FirstMethodLine(lines, 0).value;
      r == RequestTest(name, OptionsFrom(lines, m.0 + 1), m.1, m.2, defaults, env)
    requires w == WithBody(r, content, baseDir, env) && a == AssertionsOf(content, baseDir, env)
    ensures BlockTest(name, content, defaults, baseDir, env) == w.(assertions := a)
  {
  }

  /** The headers and the content type once the body fence and the
      assertions are read. */
  lemma {:induction false} FinishedFields(r: Test, content: string, baseDir: string, env: Env, w: Test, a: seq<Assertion>)
    requires w == WithBody(r, content, baseDir, env)
    ensures w.(assertions := a).headers == r.headers
    ensures w.(assertions := a).contentType ==
      if r.contentType == "" && FindBodyFence(content, 0).Some? then Mime(FindBodyFence(content, 0).value.0) else r.contentType
  {
    WithBodyHeaders(r, content, baseDir, env);
  }

  /** A bullet is never a blank line. */
  lemma {:induction false} BulletNotBlank(line: string)
    requires |line| > 0 && line[0] == '-'
    ensures TrimSpace(line) != ""
  {
    TrimSpaceShape(line);
  }

  /** Blank lines are skipped; a wait bullet is taken before a retry
      bullet, and both before the header pattern; a line none of them
      matches ends the options. */
  lemma {:induction false} OptionPrecedence(line: string)
    ensures TrimSpace(line) == "" ==> ClassifyOption(line) == Blank
    ensures MatchWait(line).Some? ==> ClassifyOption(line) == WaitLine(ParseInt64(MatchWait(line).value))
    ensures MatchWait(line).None? && MatchRetry(line).Some? ==>
            ClassifyOption(line) == RetryLine(ParseInt64(MatchRetry(line).value.0), MatchRetry(line).value.1)
    ensures ClassifyOption(line).EndOfOptions? <==>
            TrimSpace(line) != "" && MatchWait(line).None? && MatchRetry(line).None? && MatchHeader(line).None?
  {
    if MatchWait(line).Some? || MatchRetry(line).Some? || MatchHeader(line).Some? {
      BulletNotBlank(line);
    }
  }

  /** A retry bullet whose delay does not parse still sets the retry count,
      and leaves the delay as it was. */
  lemma {:induction false} RetryBadDelay(t: Test, max: int, delay: string, env: Env)
    requires env.parseDuration(delay).None?
    ensures ApplyOption(t, RetryLine(Some(max), delay), env) == t.(retryMax := max)
  {
  }

  /** Applying options leaves the body alone, so only the fence sets it. */
  lemma {:induction false} BlockBodyIsFence(name: string, content: string, defaults: Defaults, baseDir: string, env: Env)
    ensures var t := BlockTest(name, content, defaults, baseDir, env);
      var m := FirstMethodLine(Split(content, '\n'), 0);
      && (m.None? ==> t.body == "")
      && (m.Some? && FindBodyFence(content, 0).None? ==> t.body == "")
      && (m.Some? && FindBodyFence(content, 0).Some? ==>
            t.body == BlockBody(FindBodyFence(content, 0).value.1, baseDir, env))
  {
    var lines := Split(content, '\n');
    SetAllKeeps(NewTest(name), defaults.headers);
    match FirstMethodLine(lines, 0)
    case None =>
    case Some((idx, verb, target)) =>
      var t0 := SetAll(NewTest(name), defaults.headers);
      var t1 := t0.(verb := verb, url := ResolveURL(defaults.root, target));
      ApplyAllKeeps(t1, OptionsFrom(lines, idx + 1), env);
  }

  /** A `FILE:` body whose file cannot be read is kept as written; one
      whose file can is the file's bytes, untrimmed. */
  lemma {:induction false} FileBody(raw: string, baseDir: string, env: Env)
    requires HasPrefix(TrimSpace(raw), "FILE:")
    ensures var path := ResolvePath(env, baseDir, TrimSpace(TrimPrefix(TrimSpace(raw), "FILE:")));
      BlockBody(raw, baseDir, env) == if env.readFile(path).Some? then env.readFile(path).value else TrimSpace(raw)
  {
  }
}
