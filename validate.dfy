/** One assertion checked against a response (`validateAssertion`,
    http.go:165-302). A check gives `None` when the assertion holds and the
    reason otherwise. */
module Validate {
  import opened Wrappers
  import opened Text
  import opened Json
  import opened Types
  import opened Values
  import opened Transforms

  /** Why an assertion does not hold; one case per error the Go code
      formats. */
  datatype Failure =
    | InvalidStatus(value: string)
    | StatusMismatch(expectedStatus: int, gotStatus: int, preview: string)
    | NotJson(kind: AssertionKind)
    | MissingField(path: string)
    | TransformFailed(kind: AssertionKind, transformError: TransformError)
    | EmptyAfterTransform(path: string)
    | LookupFailed(kind: AssertionKind, error: FieldError)
    | Mismatch(kind: AssertionKind, field: string, expected: Value, got: Value, afterTransform: bool)
    | InvalidDuration(value: string)
    | TooSlow(limit: int, took: int)
    | FileUnreadable(path: string)
    | FileMismatch(path: string)
    | ResponseNotJson
    | InvalidJsonLine(line: string)
    | Panicked(field: string)

  /** What a response gives the checks: `json.Unmarshal` into a
      `map[string]interface{}`, which stays nil unless the body is a JSON
      object. */
  function JsonBody(body: string, env: Env): Option<map<string, Value>> {
    match env.parseJson(body)
    case Some(Obj(m)) => Some(m)
    case _ => None
  }

  /** The response body shown with a status failure: at most 500
      characters, then `...`. */
  function Preview(body: string): (p: string)
    ensures |body| <= 500 ==> p == body
    ensures |body| > 500 ==> p == body[..500] + "..."
    ensures |p| <= 503
  {
    if |body| > 500 then body[..500] + "..." else body
  }

  // ---- the checks (http.go:168-264) ----

  function CheckStatus(value: string, statusCode: int, body: string): Option<Failure> {
    match ParseInt64(value)
    case None => Some(InvalidStatus(value))
    case Some(expected) =>
      if statusCode != expected then Some(StatusMismatch(expected, statusCode, Preview(body))) else None
  }

  /** `body_contains`: with transforms, the dot path must lead to a value
      whose transformed rendering is not empty; without, the path must be
      a key of the top-level object. */
  function CheckBodyContains(field: string, json: Option<map<string, Value>>, env: Env): Option<Failure> {
    match json
    case None => Some(NotJson(BodyContains))
    case Some(m) =>
      var (path, ts) := FieldTransforms(field);
      if |ts| > 0 then
        match Walk(Obj(m), Split(path, '.'), path)
        case Err(_) => Some(MissingField(path))
        case Ok(v) =>
          match Transformed(Render(v), ts, env)
          case Err(e) => Some(TransformFailed(BodyContains, e))
          case Ok(t) => if t == "" then Some(EmptyAfterTransform(path)) else None
      else if path in m then None
      else Some(MissingField(path))
  }

  function CheckFieldEquals(field: string, value: string, json: Option<map<string, Value>>, env: Env): Option<Failure> {
    match json
    case None => Some(NotJson(FieldEquals))
    case Some(m) =>
      var (path, ts) := FieldTransforms(field);
      match Walk(Obj(m), Split(path, '.'), path)
      case Err(e) => Some(LookupFailed(FieldEquals, e))
      case Ok(actual) =>
        var expected := ParseExpectedValue(value, env);
        if |ts| > 0 then
          match Transformed(Render(actual), ts, env)
          case Err(e) => Some(TransformFailed(FieldEquals, e))
          case Ok(t) =>
            if !ValuesEqual(Str(t), expected) then Some(Mismatch(FieldEquals, field, expected, Str(t), true)) else None
        else if !ValuesEqual(actual, expected) then Some(Mismatch(FieldEquals, field, expected, actual, false))
        else None
  }

  /** `duration`: the limit is read by `parseDuration`, which trims first;
      only a strictly longer response fails. */
  function CheckDuration(value: string, duration: int, env: Env): Option<Failure> {
    match env.parseDuration(TrimSpace(value))
    case None => Some(InvalidDuration(value))
    case Some(limit) => if duration > limit then Some(TooSlow(limit, duration)) else None
  }

  /** `body_matches_file`: a file that is not JSON is compared as text, one
      that is JSON by re-encoding both sides. */
  function CheckBodyMatchesFile(path: string, body: string, env: Env): Option<Failure> {
    match env.readFile(path)
    case None => Some(FileUnreadable(path))
    case Some(expected) =>
      match env.parseJson(expected)
      case None => if body != expected then Some(FileMismatch(path)) else None
      case Some(ej) =>
        match env.parseJson(body)
        case None => Some(ResponseNotJson)
        case Some(aj) => if env.marshal(ej) != env.marshal(aj) then Some(FileMismatch(path)) else None
  }

  // ---- body_partial_match (http.go:266-298) ----

  /** The first field of a parsed line that the response lacks or holds a
      different value for. */
  function FieldsFailure(fields: seq<(string, Value)>, m: map<string, Value>): Option<Failure>
    decreases |fields|
  {
    if |fields| == 0 then None
    else
      var (f, expected) := fields[0];
      match Walk(Obj(m), Split(f, '.'), f)
      case Err(e) => Some(LookupFailed(BodyPartialMatch, e))
      case Ok(actual) =>
        if !ValuesEqual(actual, expected) then Some(Mismatch(BodyPartialMatch, f, expected, actual, false))
        else FieldsFailure(fields[1..], m)
  }

  /** One line of a partial match: blank lines are skipped, a trailing
      comma is dropped, and the rest is read as the members of an object. */
  function LineFailure(line: string, m: map<string, Value>, env: Env): Option<Failure> {
    var trimmed := TrimSpace(line);
    if trimmed == "" then None
    else
      var l := TrimSuffix(trimmed, ",");
      match env.parseFragment("{" + l + "}")
      case None => Some(InvalidJsonLine(l))
      case Some(fields) => FieldsFailure(fields, m)
  }

  /** The first failing line from `i` on. */
  function LinesFailure(lines: seq<string>, i: nat, m: map<string, Value>, env: Env): Option<Failure>
    requires i <= |lines|
    decreases |lines| - i
  {
    if i == |lines| then None
    else match LineFailure(lines[i], m, env)
      case Some(f) => Some(f)
      case None => LinesFailure(lines, i + 1, m, env)
  }

  function CheckPartial(value: string, json: Option<map<string, Value>>, env: Env): Option<Failure> {
    match json
    case None => Some(NotJson(BodyPartialMatch))
    case Some(m) => LinesFailure(Split(value, '\n'), 0, m, env)
  }

  // ---- body_partial_match as written ----

  /** The members of one parsed line checked as the code has it: a member
      whose expected and actual values are both objects or both arrays
      makes `valuesEqual` panic, reported here as `Panicked`. */
  function FieldsFailureAsWritten(fields: seq<(string, Value)>, m: map<string, Value>): Option<Failure>
    decreases |fields|
  {
    if |fields| == 0 then None
    else
      var (f, expected) := fields[0];
      match Walk(Obj(m), Split(f, '.'), f)
      case Err(e) => Some(LookupFailed(BodyPartialMatch, e))
      case Ok(actual) =>
        match ValuesEqualAsWritten(actual, expected)
        case None => Some(Panicked(f))
        case Some(eq) =>
          if !eq then Some(Mismatch(BodyPartialMatch, f, expected, actual, false))
          else FieldsFailureAsWritten(fields[1..], m)
  }

  /** One line of a partial match as the code has it. */
  function LineFailureAsWritten(line: string, m: map<string, Value>, env: Env): Option<Failure> {
    var trimmed := TrimSpace(line);
    if trimmed == "" then None
    else
      var l := TrimSuffix(trimmed, ",");
      match env.parseFragment("{" + l + "}")
      case None => Some(InvalidJsonLine(l))
      case Some(fields) => FieldsFailureAsWritten(fields, m)
  }

  /** A member lookup whose result and expected value the code can compare. */
  predicate Comparable(field: (string, Value), m: map<string, Value>) {
    var r := Walk(Obj(m), Split(field.0, '.'), field.0);
    r.Ok? ==> !BothUncomparable(r.value, field.1)
  }

  /** Where no member pairs two objects or two arrays, the code as written
      and FieldsFailure agree. */
  lemma {:induction false} FieldsAsWrittenAgrees(fields: seq<(string, Value)>, m: map<string, Value>)
    requires forall k :: 0 <= k < |fields| ==> Comparable(fields[k], m)
    ensures FieldsFailureAsWritten(fields, m) == FieldsFailure(fields, m)
    decreases |fields|
  {
    if |fields| > 0 {
      assert Comparable(fields[0], m);
      var r := Walk(Obj(m), Split(fields[0].0, '.'), fields[0].0);
      if r.Ok? {
        AsWrittenAgrees(r.value, fields[0].1);
      }
      assert forall k :: 0 <= k < |fields| - 1 ==> fields[1..][k] == fields[k + 1];
      FieldsAsWrittenAgrees(fields[1..], m);
    }
  }

  /** The line `"a": {"b": 1}` against the response `{"a": {"b": 1}}`:
      the code panics where the intended check holds. */
  lemma {:induction false} PartialObjectPanics(line: string, env: Env)
    requires TrimSpace(line) != ""
    requires env.parseFragment("{" + TrimSuffix(TrimSpace(line), ",") + "}") == Some([("a", Obj(map["b" := Float("1")]))])
    ensures var m := map["a" := Obj(map["b" := Float("1")])];
      LineFailureAsWritten(line, m, env) == Some(Panicked("a")) && LineFailure(line, m, env) == None
  {
    var inner := Obj(map["b" := Float("1")]);
    var m := map["a" := inner];
    var fields := [("a", inner)];
    assert IndexOfChar("a", '.') == None;
    assert Split("a", '.') == ["a"];
    assert Walk(Obj(m), ["a"], "a") == Walk(inner, [], "a") == Ok(inner);
    assert fields[1..] == [];
    assert FieldsFailureAsWritten(fields, m) == Some(Panicked("a"));
    assert FieldsFailure(fields, m) == FieldsFailure([], m) == None;
  }

  /** What `validateAssertion` returns. */
  function Validation(a: Assertion, statusCode: int, body: string, json: Option<map<string, Value>>,
                      duration: int, env: Env): Option<Failure> {
    match a.kind
    case Status => CheckStatus(a.value, statusCode, body)
    case BodyContains => CheckBodyContains(a.field, json, env)
    case FieldEquals => CheckFieldEquals(a.field, a.value, json, env)
    case Duration => CheckDuration(a.value, duration, env)
    case BodyMatchesFile => CheckBodyMatchesFile(a.value, body, env)
    case BodyPartialMatch => CheckPartial(a.value, json, env)
  }

  // ---- the code ----

  /** The loop over the members of one parsed line (http.go:289-297). */
  method CheckFields(fields: seq<(string, Value)>, m: map<string, Value>) returns (failure: Option<Failure>)
    ensures failure == FieldsFailure(fields, m)
  {
    for k := 0 to |fields|
      invariant FieldsFailure(fields[k..], m) == FieldsFailure(fields, m)
    {
      assert fields[k..][1..] == fields[k + 1..];
      var (field, expected) := fields[k];
      var actual := GetJSONField(m, field);
      if actual.Err? {
        return Some(LookupFailed(BodyPartialMatch, actual.error));
      }
      if !ValuesEqual(actual.value, expected) {
        return Some(Mismatch(BodyPartialMatch, field, expected, actual.value, false));
      }
    }
    return None;
  }

  /** One line of a partial match (http.go:273-297). */
  method CheckLine(line: string, m: map<string, Value>, env: Env) returns (failure: Option<Failure>)
    ensures failure == LineFailure(line, m, env)
  {
    var trimmed := TrimSpace(line);
    if trimmed == "" {
      return None;
    }
    trimmed := TrimSuffix(trimmed, ",");
    var parsed := env.parseFragment("{" + trimmed + "}");
    if parsed.None? {
      return Some(InvalidJsonLine(trimmed));
    }
    failure := CheckFields(parsed.value, m);
  }

  /** The loop over the lines of a partial match (http.go:272-298). */
  method PartialMatch(value: string, m: map<string, Value>, env: Env) returns (failure: Option<Failure>)
    ensures failure == LinesFailure(Split(value, '\n'), 0, m, env)
  {
    var lines := Split(value, '\n');
    for i := 0 to |lines|
      invariant LinesFailure(lines, i, m, env) == LinesFailure(lines, 0, m, env)
    {
      failure := CheckLine(lines[i], m, env);
      if failure.Some? {
        return;
      }
    }
    return None;
  }

  method ValidateBodyContains(field: string, m: map<string, Value>, env: Env) returns (failure: Option<Failure>)
    ensures failure == CheckBodyContains(field, Some(m), env)
  {
    var fieldPath, transforms := SplitFieldTransforms(field);
    if |transforms| > 0 {
      var value := GetJSONField(m, fieldPath);
      if value.Err? {
        return Some(MissingField(fieldPath));
      }
      var transformed := ApplyTransforms(Render(value.value), transforms, env);
      if transformed.Err? {
        return Some(TransformFailed(BodyContains, transformed.error));
      }
      if transformed.value == "" {
        return Some(EmptyAfterTransform(fieldPath));
      }
    } else if fieldPath !in m {
      return Some(MissingField(fieldPath));
    }
    return None;
  }

  method ValidateFieldEquals(field: string, value: string, m: map<string, Value>, env: Env) returns (failure: Option<Failure>)
    ensures failure == CheckFieldEquals(field, value, Some(m), env)
  {
    var fieldPath, transforms := SplitFieldTransforms(field);
    var actual := GetJSONField(m, fieldPath);
    if actual.Err? {
      return Some(LookupFailed(FieldEquals, actual.error));
    }
    var expected := ParseExpectedValue(value, env);
    if |transforms| > 0 {
      var transformed := ApplyTransforms(Render(actual.value), transforms, env);
      if transformed.Err? {
        return Some(TransformFailed(FieldEquals, transformed.error));
      }
      if !ValuesEqual(Str(transformed.value), expected) {
        return Some(Mismatch(FieldEquals, field, expected, Str(transformed.value), true));
      }
    } else if !ValuesEqual(actual.value, expected) {
      return Some(Mismatch(FieldEquals, field, expected, actual.value, false));
    }
    return None;
  }

  /** `validateAssertion`. */
  method ValidateAssertion(a: Assertion, statusCode: int, body: string, json: Option<map<string, Value>>,
                           duration: int, env: Env) returns (failure: Option<Failure>)
    ensures failure == Validation(a, statusCode, body, json, duration, env)
  {
    match a.kind {
      case Status =>
        failure := CheckStatus(a.value, statusCode, body);
      case BodyContains =>
        if json.None? {
          return Some(NotJson(BodyContains));
        }
        failure := ValidateBodyContains(a.field, json.value, env);
      case FieldEquals =>
        if json.None? {
          return Some(NotJson(FieldEquals));
        }
        failure := ValidateFieldEquals(a.field, a.value, json.value, env);
      case Duration =>
        failure := CheckDuration(a.value, duration, env);
      case BodyMatchesFile =>
        failure := CheckBodyMatchesFile(a.value, body, env);
      case BodyPartialMatch =>
        if json.None? {
          return Some(NotJson(BodyPartialMatch));
        }
        failure := PartialMatch(a.value, json.value, env);
    }
  }

  // ---- properties ----

  /** A status assertion holds exactly when its value reads as the status
      code; on a mismatch the failure carries the body's preview. */
  lemma {:induction false} StatusHolds(value: string, statusCode: int, body: string)
    ensures CheckStatus(value, statusCode, body).None? <==> ParseInt64(value) == Some(statusCode)
    ensures CheckStatus(value, statusCode, body).Some? && ParseInt64(value).Some? ==>
            CheckStatus(value, statusCode, body) == Some(StatusMismatch(ParseInt64(value).value, statusCode, Preview(body)))
  {
  }

  /** The checks that read the JSON body fail on a response that is not a
      JSON object, whatever the assertion says. */
  lemma {:induction false} NeedsJsonObject(a: Assertion, statusCode: int, body: string, duration: int, env: Env)
    requires a.kind in {BodyContains, FieldEquals, BodyPartialMatch}
    ensures Validation(a, statusCode, body, None, duration, env) == Some(NotJson(a.kind))
  {
  }

  /** Without transforms, `body_contains` asks only for a top-level key,
      dots and all. */
  lemma {:induction false} BodyContainsTopLevel(field: string, m: map<string, Value>, env: Env)
    requires '|' !in field
    ensures CheckBodyContains(field, Some(m), env).None? <==> TrimSpace(field) in m
  {
    NoPipeNoTransforms(field);
  }

  /** So a dotted path to a nested value, which `field_equals` finds, is
      missing for `body_contains` when no transform follows it. */
  lemma {:induction false} BodyContainsDotted(segs: seq<string>, leaf: Value, env: Env)
    requires |segs| >= 2
    requires forall i :: 0 <= i < |segs| ==> Clean(segs[i]) && '.' !in segs[i]
    ensures var path := Join(segs, ".");
      CheckBodyContains(path, Some(Nest(segs, leaf).fields), env) == Some(MissingField(path))
  {
    var path := Join(segs, ".");
    JoinClean(segs);
    NoPipeNoTransforms(path);
    var m := Nest(segs, leaf).fields;
    assert m.Keys == {segs[0]};
    JoinLonger(segs);
  }

  /** With transforms, a path that leads to a value is not reported
      missing. */
  lemma {:induction false} TransformedPathFound(field: string, m: map<string, Value>, env: Env)
    requires |FieldTransforms(field).1| > 0
    requires var path := FieldTransforms(field).0;
      Walk(Obj(m), Split(path, '.'), path).Ok?
    ensures CheckBodyContains(field, Some(m), env) != Some(MissingField(FieldTransforms(field).0))
  {
  }

  /** So with a transform the same dotted path is followed through the
      nested objects, and the field is not reported missing. */
  lemma {:induction false} BodyContainsDottedTransformed(segs: seq<string>, leaf: Value, t: string, env: Env)
    requires |segs| >= 2 && Clean(t)
    requires forall i :: 0 <= i < |segs| ==> Clean(segs[i]) && '.' !in segs[i]
    ensures var path := Join(segs, ".");
      CheckBodyContains(path + "|" + t, Some(Nest(segs, leaf).fields), env) != Some(MissingField(path))
  {
    var path := Join(segs, ".");
    JoinClean(segs);
    GetFieldNest(segs, leaf);
    SplitJoinTransforms(path, [t]);
    var parts := [path] + [t];
    assert parts[0] == path && parts[1..] == [t];
    assert Join(parts, "|") == path + "|" + t;
    assert Obj(Nest(segs, leaf).fields) == Nest(segs, leaf);
    TransformedPathFound(path + "|" + t, Nest(segs, leaf).fields, env);
  }

  /** The dot-joined clean segments are trimmed and free of `|`. */
  lemma {:induction false} JoinClean(segs: seq<string>)
    requires |segs| >= 1
    requires forall i :: 0 <= i < |segs| ==> Clean(segs[i]) && '.' !in segs[i]
    ensures var j := Join(segs, ".");
      '|' !in j && TrimSpace(j) == j
  {
    var j := Join(segs, ".");
    JoinBars(segs);
    var f, l := segs[0], segs[|segs| - 1];
    TrimSpaceShape(f);
    TrimSpaceShape(l);
    JoinEnds(segs);
    TrimSpaceNoop(j);
  }

  lemma {:induction false} JoinBars(segs: seq<string>)
    requires forall i :: 0 <= i < |segs| ==> '|' !in segs[i]
    ensures '|' !in Join(segs, ".")
    decreases |segs|
  {
    if |segs| > 1 {
      JoinBars(segs[1..]);
    }
  }

  /** A join of non-empty pieces starts as the first and ends as the last. */
  lemma {:induction false} JoinEnds(segs: seq<string>)
    requires |segs| >= 1 && forall i :: 0 <= i < |segs| ==> segs[i] != ""
    ensures var j := Join(segs, ".");
      |j| > 0 && j[0] == segs[0][0] && j[|j| - 1] == segs[|segs| - 1][|segs[|segs| - 1]| - 1]
    decreases |segs|
  {
    if |segs| > 1 {
      JoinEnds(segs[1..]);
    }
  }

  lemma {:induction false} JoinLonger(segs: seq<string>)
    requires |segs| >= 2
    ensures Join(segs, ".") != segs[0]
  {
    assert |Join(segs, ".")| >= |segs[0]| + 1;
  }

  /** Without transforms, `field_equals` holds exactly when the dot path
      leads to a value loosely equal to the literal. */
  lemma {:induction false} FieldEqualsHolds(field: string, value: string, m: map<string, Value>, env: Env)
    requires '|' !in field
    ensures var path := TrimSpace(field);
      var r := Walk(Obj(m), Split(path, '.'), path);
      CheckFieldEquals(field, value, Some(m), env).None? <==>
        r.Ok? && ValuesEqual(r.value, ParseExpectedValue(value, env))
  {
    NoPipeNoTransforms(field);
  }

  /** A duration assertion holds exactly when the limit parses and the
      response took no longer. */
  lemma {:induction false} DurationHolds(value: string, duration: int, env: Env)
    ensures CheckDuration(value, duration, env).None? <==>
      env.parseDuration(TrimSpace(value)).Some? && duration <= env.parseDuration(TrimSpace(value)).value
  {
  }

  /** The first reported failure from `i` on. */
  function FirstSome<T>(rs: seq<Option<T>>, i: nat): Option<T>
    requires i <= |rs|
    decreases |rs| - i
  {
    if i == |rs| then None
    else if rs[i].Some? then rs[i]
    else FirstSome(rs, i + 1)
  }

  /** No failure is reported exactly when there is none, and otherwise the
      first one is. */
  lemma {:induction false} FirstSomeIsFirst<T>(rs: seq<Option<T>>, i: nat)
    requires i <= |rs|
    ensures FirstSome(rs, i).None? <==> forall j :: i <= j < |rs| ==> rs[j].None?
    ensures FirstSome(rs, i).Some? ==>
      exists j :: i <= j < |rs| && FirstSome(rs, i) == rs[j]
        && forall l :: i <= l < j ==> rs[l].None?
    decreases |rs| - i
  {
    if i < |rs| {
      FirstSomeIsFirst(rs, i + 1);
    }
  }

  /** What each line of a partial match reports. */
  function LineResults(lines: seq<string>, m: map<string, Value>, env: Env): (rs: seq<Option<Failure>>)
    ensures |rs| == |lines|
  {
    seq(|lines|, j requires 0 <= j < |lines| => LineFailure(lines[j], m, env))
  }

  lemma {:induction false} LinesFailureIsFirst(lines: seq<string>, i: nat, m: map<string, Value>, env: Env)
    requires i <= |lines|
    ensures LinesFailure(lines, i, m, env) == FirstSome(LineResults(lines, m, env), i)
    decreases |lines| - i
  {
    if i < |lines| {
      LinesFailureIsFirst(lines, i + 1, m, env);
      assert LineResults(lines, m, env)[i] == LineFailure(lines[i], m, env);
    }
  }

  /** A partial match holds exactly when every line does, and otherwise
      reports the first line that does not. */
  lemma {:induction false} LinesAllHold(lines: seq<string>, m: map<string, Value>, env: Env)
    ensures var rs := LineResults(lines, m, env);
      && (LinesFailure(lines, 0, m, env).None? <==> forall j :: 0 <= j < |lines| ==> rs[j].None?)
      && (LinesFailure(lines, 0, m, env).Some? ==>
            exists j :: 0 <= j < |lines| && LinesFailure(lines, 0, m, env) == rs[j]
              && forall l :: 0 <= l < j ==> rs[l].None?)
  {
    LinesFailureIsFirst(lines, 0, m, env);
    FirstSomeIsFirst(LineResults(lines, m, env), 0);
  }

  /** A parsed line holds exactly when each of its members is found and
      loosely equal. */
  lemma {:induction false} FieldsAllHold(fields: seq<(string, Value)>, m: map<string, Value>)
    ensures FieldsFailure(fields, m).None? <==>
      forall k :: 0 <= k < |fields| ==>
        var r := Walk(Obj(m), Split(fields[k].0, '.'), fields[k].0);
        r.Ok? && ValuesEqual(r.value, fields[k].1)
    decreases |fields|
  {
    if |fields| > 0 {
      FieldsAllHold(fields[1..], m);
      assert forall k :: 1 <= k < |fields| ==> fields[1..][k - 1] == fields[k];
    }
  }

  /** Blank lines of a partial match are skipped. */
  lemma {:induction false} BlankLineHolds(line: string, m: map<string, Value>, env: Env)
    requires TrimSpace(line) == ""
    ensures LineFailure(line, m, env) == None
  {
  }
}
