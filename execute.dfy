/** One test run against a server (`runTest`, http.go:29-163): the request
    built from the test and the saved variables, the attempt loop with its
    wait conditions, the assertions and the saves. The server, and with it
    the network and the clock, is a function from the request and the
    attempt number to what came back. */
module Execute {
  import opened Wrappers
  import opened Text
  import opened Assoc
  import opened Json
  import opened Types
  import opened Values
  import opened Validate
  import opened Interpolate

  /** What an attempt got: a transport failure, a body that could not be
      read, or a status, a body and the time the exchange took. */
  datatype Response =
    | TransportError
    | ReadError
    | Reply(status: int, body: string, duration: int)

  /** The request sent on every attempt. */
  datatype Request = Request(verb: string, url: string, headers: map<string, string>, body: string)

  /** Why a test failed. */
  datatype RunError =
    | CreateFailed
    | RequestFailed
    | ReadFailed
    | WaitStatusFailed(wanted: int, gotStatus: int, attempts: nat)
    | WaitFieldMissing(field: string, attempts: nat)
    | WaitFieldMismatch(field: string, value: string, got: Value, attempts: nat)
    | AssertionFailed(failure: Failure)
    | SaveFailed(error: FieldError)

  /** The variables after the run, the error if any, and how many attempts
      were made. */
  datatype Outcome = Outcome(vars: Store, error: Option<RunError>, attempts: nat)

  const FormType := "application/x-www-form-urlencoded"
  const DefaultRetryMax := 10
  /** One second, in nanoseconds. */
  const DefaultRetryDelay := 1_000_000_000

  // ---- building the request (http.go:36-97) ----

  /** The form fields of a form-encoded body: one `key=value` per non-blank
      trimmed line, split at the first `=`, a later key replacing an earlier
      one, lines without `=` ignored. */
  function FormFields(lines: seq<string>): map<string, string>
    decreases |lines|
  {
    if |lines| == 0 then map[]
    else
      var n := |lines| - 1;
      var fields := FormFields(lines[..n]);
      var line := TrimSpace(lines[n]);
      if line == "" then fields
      else match Cut(line, '=')
        case None => fields
        case Some((k, v)) => fields[k := v]
  }

  /** What is sent as the body: nothing for an empty body, the encoded form
      for a form-encoded one, the text itself otherwise. */
  function BodyContent(body: string, contentType: string, env: Env): string {
    if body == "" then ""
    else if contentType == FormType then env.encodeForm(FormFields(Split(body, '\n')))
    else body
  }

  /** The test with the saved variables substituted into its URL, body and
      header values, and the retry defaults applied. */
  datatype Prepared = Prepared(test: Test, bodyContent: string, retryDelay: int, retryMax: int)

  function Prepare(test: Test, vars: Store, env: Env): Prepared {
    var t := test.(url := Interpolated(test.url, vars),
                   body := Interpolated(test.body, vars),
                   headers := MapValues(test.headers, (v: string) => Interpolated(v, vars)));
    Prepared(t, BodyContent(t.body, t.contentType, env),
             if test.retryDelay == 0 then DefaultRetryDelay else test.retryDelay,
             if test.retryMax == 0 then DefaultRetryMax else test.retryMax)
  }

  /** The request's headers: those of the test, then its content type over
      them when it has one. */
  function RequestHeaders(headers: Headers, contentType: string): map<string, string> {
    ToMap(headers) + if contentType != "" then map["Content-Type" := contentType] else map[]
  }

  function RequestOf(p: Prepared): Request {
    Request(p.test.verb, p.test.url, RequestHeaders(p.test.headers, p.test.contentType), p.bodyContent)
  }

  // ---- one attempt (http.go:99-150) ----

  /** What an attempt decides before the saves: try again, stop with an
      error, or go on to save from the response's JSON object. */
  datatype Decision = Again | Stop(error: RunError) | Pass(data: map<string, Value>)

  /** The first assertion from `i` on that does not hold. */
  function AssertionsFailure(assertions: seq<Assertion>, i: nat, status: int, body: string,
                             json: Option<map<string, Value>>, duration: int, env: Env): Option<Failure>
    requires i <= |assertions|
    decreases |assertions| - i
  {
    if i == |assertions| then None
    else match Validation(assertions[i], status, body, json, duration, env)
      case Some(f) => Some(f)
      case None => AssertionsFailure(assertions, i + 1, status, body, json, duration, env)
  }

  /** The wait-for-field condition: the field is found (a body that is not a
      JSON object has no fields) and loosely equals the literal. */
  function WaitField(t: Test, data: map<string, Value>, attempt: nat, retryMax: int, env: Env): Decision {
    var actual := Walk(Obj(data), Split(t.waitForField, '.'), t.waitForField);
    if actual.Ok? && ValuesEqual(actual.value, ParseExpectedValue(t.waitForValue, env)) then Pass(data)
    else if attempt < retryMax then Again
    else if actual.Err? then Stop(WaitFieldMissing(t.waitForField, attempt))
    else Stop(WaitFieldMismatch(t.waitForField, t.waitForValue, actual.value, attempt))
  }

  function Decide(p: Prepared, resp: Response, attempt: nat, env: Env): (d: Decision)
    ensures d.Again? ==> attempt < p.retryMax
  {
    match resp
    case TransportError => Stop(RequestFailed)
    case ReadError => Stop(ReadFailed)
    case Reply(status, body, duration) =>
      var t := p.test;
      if t.waitForStatus != 0 && status != t.waitForStatus then
        if attempt >= p.retryMax then Stop(WaitStatusFailed(t.waitForStatus, status, attempt)) else Again
      else
        var json := JsonBody(body, env);
        var data := if json.Some? then json.value else map[];
        var waited := if t.waitForField != "" then WaitField(t, data, attempt, p.retryMax, env) else Pass(data);
        if !waited.Pass? then waited
        else match AssertionsFailure(t.assertions, 0, status, body, json, duration, env)
          case Some(f) => Stop(AssertionFailed(f))
          case None => Pass(data)
  }

  // ---- the saves (http.go:152-159) ----

  /** What a save finds at its field. */
  function Found(data: map<string, Value>, sf: SaveField): Result<Value, FieldError> {
    Walk(Obj(data), Split(sf.field, '.'), sf.field)
  }

  /** The saves applied in order; the first field that cannot be found ends
      them, the variables saved before it staying saved. */
  function SaveAll(vars: Store, data: map<string, Value>, saves: seq<SaveField>): (Store, Option<FieldError>)
    decreases |saves|
  {
    if |saves| == 0 then (vars, None)
    else match Found(data, saves[0])
      case Err(e) => (vars, Some(e))
      case Ok(v) => SaveAll(Put(vars, saves[0].variable, v), data, saves[1..])
  }

  // ---- the run ----

  /** The attempts from `attempt` on: a request that cannot be built ends
      the run at once. */
  function RunFrom(p: Prepared, vars: Store, server: (Request, nat) -> Response, env: Env, attempt: nat): Outcome
    decreases p.retryMax - attempt, 1
  {
    if !env.requestOk(p.test.verb, p.test.url) then Outcome(vars, Some(CreateFailed), attempt)
    else Respond(p, vars, server, env, attempt)
  }

  /** The rest of attempt `attempt`, once its request is sent. */
  function Respond(p: Prepared, vars: Store, server: (Request, nat) -> Response, env: Env, attempt: nat): Outcome
    decreases p.retryMax - attempt, 0
  {
    match Decide(p, server(RequestOf(p), attempt), attempt, env)
    case Again => RunFrom(p, vars, server, env, attempt + 1)
    case Stop(e) => Outcome(vars, Some(e), attempt)
    case Pass(data) =>
      var saved := SaveAll(vars, data, p.test.saveFields);
      Outcome(saved.0, if saved.1.Some? then Some(SaveFailed(saved.1.value)) else None, attempt)
  }

  /** What `runTest` returns, and how many attempts it makes. */
  function Run(test: Test, vars: Store, server: (Request, nat) -> Response, env: Env): Outcome {
    RunFrom(Prepare(test, vars, env), vars, server, env, 1)
  }

  /** `n` sleeps of `d` each. */
  function Sleeps(d: int, n: int): (r: seq<int>)
    ensures |r| == if n <= 0 then 0 else n
    ensures forall i :: 0 <= i < |r| ==> r[i] == d
  {
    if n <= 0 then [] else Sleeps(d, n - 1) + [d]
  }

  // ---- the code ----

  /** The saved variables, shared by the tests of one file. */
  class VariableStore {
    var vars: Store

    constructor()
      ensures vars == []
    {
      vars := [];
    }
  }

  /** `time.Sleep`, recorded. */
  class Clock {
    var slept: seq<int>

    method Sleep(d: int)
      modifies this
      ensures slept == old(slept) + [d]
    {
      slept := slept + [d];
    }
  }

  /** The form loop (http.go:56-67). */
  method BuildForm(body: string) returns (form: map<string, string>)
    ensures form == FormFields(Split(body, '\n'))
  {
    var lines := Split(body, '\n');
    form := map[];
    for k := 0 to |lines|
      invariant form == FormFields(lines[..k])
    {
      assert lines[..k + 1][..k] == lines[..k];
      var line := TrimSpace(lines[k]);
      if line == "" {
        continue;
      }
      var parts := Cut(line, '=');
      if parts.Some? {
        form := form[parts.value.0 := parts.value.1];
      }
    }
    assert lines[..|lines|] == lines;
  }

  /** The header loop (http.go:39-41). */
  method InterpolateHeaders(headers: Headers, vars: Store) returns (r: Headers)
    ensures r == MapValues(headers, (v: string) => Interpolated(v, vars))
  {
    r := [];
    for k := 0 to |headers|
      invariant |r| == k
      invariant forall i :: 0 <= i < k ==> r[i] == (headers[i].0, Interpolated(headers[i].1, vars))
    {
      var value := InterpolateVariables(headers[k].1, vars);
      r := r + [(headers[k].0, value)];
    }
  }

  method PrepareTest(test: Test, vars: Store, env: Env) returns (p: Prepared)
    ensures p == Prepare(test, vars, env)
  {
    var t := test;
    var url := InterpolateVariables(test.url, vars);
    var body := InterpolateVariables(test.body, vars);
    var headers := InterpolateHeaders(test.headers, vars);
    t := t.(url := url, body := body, headers := headers);
    var retryDelay := test.retryDelay;
    if retryDelay == 0 {
      retryDelay := DefaultRetryDelay;
    }
    var retryMax := test.retryMax;
    if retryMax == 0 {
      retryMax := DefaultRetryMax;
    }
    var bodyContent := "";
    if t.body != "" {
      if t.contentType == FormType {
        var form := BuildForm(t.body);
        bodyContent := env.encodeForm(form);
      } else {
        bodyContent := t.body;
      }
    }
    p := Prepared(t, bodyContent, retryDelay, retryMax);
  }

  /** The assertion loop (http.go:146-150). */
  method ValidateAll(assertions: seq<Assertion>, status: int, body: string,
                     json: Option<map<string, Value>>, duration: int, env: Env) returns (failure: Option<Failure>)
    ensures failure == AssertionsFailure(assertions, 0, status, body, json, duration, env)
  {
    for k := 0 to |assertions|
      invariant AssertionsFailure(assertions, k, status, body, json, duration, env) ==
                AssertionsFailure(assertions, 0, status, body, json, duration, env)
    {
      failure := ValidateAssertion(assertions[k], status, body, json, duration, env);
      if failure.Some? {
        return;
      }
    }
    return None;
  }

  /** One attempt's checks on what came back (http.go:102-150). */
  method DecideAttempt(p: Prepared, resp: Response, attempt: nat, env: Env) returns (d: Decision)
    ensures d == Decide(p, resp, attempt, env)
  {
    if resp.TransportError? {
      return Stop(RequestFailed);
    }
    if resp.ReadError? {
      return Stop(ReadFailed);
    }
    var t := p.test;
    if t.waitForStatus != 0 && resp.status != t.waitForStatus {
      if attempt >= p.retryMax {
        return Stop(WaitStatusFailed(t.waitForStatus, resp.status, attempt));
      }
      return Again;
    }
    var json := JsonBody(resp.body, env);
    var data := if json.Some? then json.value else map[];
    if t.waitForField != "" {
      var actual := GetJSONField(data, t.waitForField);
      var expected := ParseExpectedValue(t.waitForValue, env);
      if actual.Err? || !ValuesEqual(actual.value, expected) {
        if attempt >= p.retryMax {
          if actual.Err? {
            return Stop(WaitFieldMissing(t.waitForField, attempt));
          }
          return Stop(WaitFieldMismatch(t.waitForField, t.waitForValue, actual.value, attempt));
        }
        return Again;
      }
    }
    var failure := ValidateAll(t.assertions, resp.status, resp.body, json, resp.duration, env);
    if failure.Some? {
      return Stop(AssertionFailed(failure.value));
    }
    return Pass(data);
  }

  /** The save loop (http.go:153-159): each variable is stored as soon as it
      is found. */
  method SaveFields(store: VariableStore, data: map<string, Value>, saves: seq<SaveField>) returns (err: Option<FieldError>)
    modifies store
    ensures (store.vars, err) == SaveAll(old(store.vars), data, saves)
  {
    for k := 0 to |saves|
      invariant SaveAll(store.vars, data, saves[k..]) == SaveAll(old(store.vars), data, saves)
    {
      assert saves[k..][1..] == saves[k + 1..];
      var value := GetJSONField(data, saves[k].field);
      if value.Err? {
        return Some(value.error);
      }
      store.vars := Put(store.vars, saves[k].variable, value.value);
    }
    return None;
  }

  /** The saves of a passing attempt, their failure wrapped as the test's. */
  method Finish(store: VariableStore, data: map<string, Value>, saves: seq<SaveField>) returns (err: Option<RunError>)
    modifies store
    ensures var saved := SaveAll(old(store.vars), data, saves);
      store.vars == saved.0 && err == if saved.1.Some? then Some(SaveFailed(saved.1.value)) else None
  {
    var saveErr := SaveFields(store, data, saves);
    if saveErr.Some? {
      return Some(SaveFailed(saveErr.value));
    }
    return None;
  }

  /** The attempt loop (http.go:77-162). Only the retries sleep, each for
      the retry delay. */
  method RunAttempts(p: Prepared, store: VariableStore, server: (Request, nat) -> Response, env: Env, clock: Clock)
    returns (err: Option<RunError>)
    modifies store, clock
    ensures var o := RunFrom(p, old(store.vars), server, env, 1);
      && store.vars == o.vars && err == o.error
      && clock.slept == old(clock.slept) + Sleeps(p.retryDelay, o.attempts - 1)
  {
    ghost var vars0 := store.vars;
    ghost var slept0 := clock.slept;
    var attempt := 0;
    while true
      invariant 0 <= attempt && (attempt == 0 || attempt < p.retryMax)
      invariant store.vars == vars0
      invariant RunFrom(p, vars0, server, env, attempt + 1) == RunFrom(p, vars0, server, env, 1)
      invariant clock.slept == slept0 + Sleeps(p.retryDelay, attempt)
      decreases p.retryMax - attempt
    {
      attempt := attempt + 1;
      var again;
      again, err := Attempt(p, store, server, env, clock, attempt);
      if !again {
        return;
      }
    }
  }

  /** One pass of the attempt loop's body (http.go:78-161): either it ends
      the run, or it sleeps once and the run goes on with the next attempt. */
  method Attempt(p: Prepared, store: VariableStore, server: (Request, nat) -> Response, env: Env, clock: Clock, attempt: nat)
    returns (again: bool, err: Option<RunError>)
    modifies store, clock
    ensures again ==> (attempt < p.retryMax && store.vars == old(store.vars) && clock.slept == old(clock.slept) + [p.retryDelay]
      && RunFrom(p, old(store.vars), server, env, attempt) == RunFrom(p, old(store.vars), server, env, attempt + 1))
    ensures !again ==> (RunFrom(p, old(store.vars), server, env, attempt) == Outcome(store.vars, err, attempt)
      && clock.slept == old(clock.slept))
  {
    if !env.requestOk(p.test.verb, p.test.url) {
      return false, Some(CreateFailed);
    }
    assert RunFrom(p, store.vars, server, env, attempt) == Respond(p, store.vars, server, env, attempt);
    var d := DecideAttempt(p, server(RequestOf(p), attempt), attempt, env);
    match d {
      case Again =>
        clock.Sleep(p.retryDelay);
        return true, None;
      case Stop(e) =>
        return false, Some(e);
      case Pass(data) =>
        err := Finish(store, data, p.test.saveFields);
        return false, err;
    }
  }

  /** `runTest`: a nil store is replaced by a new one, a given store is
      updated in place and returned. */
  method RunTest(test: Test, store: VariableStore?, server: (Request, nat) -> Response, env: Env, clock: Clock)
    returns (result: VariableStore, err: Option<RunError>)
    modifies store, clock
    ensures store != null ==> result == store
    ensures store == null ==> fresh(result)
    ensures var vars := old(if store == null then [] else store.vars);
      var o := Run(test, vars, server, env);
      && result.vars == o.vars && err == o.error
      && clock.slept == old(clock.slept) + Sleeps(Prepare(test, vars, env).retryDelay, o.attempts - 1)
  {
    if store == null {
      result := new VariableStore();
    } else {
      result := store;
    }
    var p := PrepareTest(test, result.vars, env);
    err := RunAttempts(p, result, server, env, clock);
  }

  // ---- properties ----

  /** The status a test waits for has not come. */
  predicate StatusUnmet(t: Test, status: int) {
    t.waitForStatus != 0 && status != t.waitForStatus
  }

  /** The field a test waits for is missing or holds another value. */
  predicate FieldUnmet(t: Test, body: string, env: Env) {
    var json := JsonBody(body, env);
    var data := if json.Some? then json.value else map[];
    var actual := Walk(Obj(data), Split(t.waitForField, '.'), t.waitForField);
    t.waitForField != "" && !(actual.Ok? && ValuesEqual(actual.value, ParseExpectedValue(t.waitForValue, env)))
  }

  /** Attempts are counted from the first, and a run goes past attempt
      `attempt` only up to the retry limit. */
  lemma {:induction false} AttemptsBounded(p: Prepared, vars: Store, server: (Request, nat) -> Response, env: Env, attempt: nat)
    ensures var o := RunFrom(p, vars, server, env, attempt);
      attempt <= o.attempts && (o.attempts == attempt || o.attempts <= p.retryMax)
    decreases p.retryMax - attempt
  {
    if env.requestOk(p.test.verb, p.test.url) {
      assert RunFrom(p, vars, server, env, attempt) == Respond(p, vars, server, env, attempt);
      if Decide(p, server(RequestOf(p), attempt), attempt, env).Again? {
        AttemptsBounded(p, vars, server, env, attempt + 1);
      }
    }
  }

  /** `runTest` makes at least one attempt and never more than the retry
      limit, which is 10 when the test gives none. */
  lemma {:induction false} RunAttemptsBounded(test: Test, vars: Store, server: (Request, nat) -> Response, env: Env)
    ensures var o := Run(test, vars, server, env);
      var limit := if test.retryMax == 0 then DefaultRetryMax else test.retryMax;
      1 <= o.attempts && (o.attempts == 1 || o.attempts <= limit)
  {
    AttemptsBounded(Prepare(test, vars, env), vars, server, env, 1);
  }

  /** An attempt is retried exactly when it got a response, a wait
      condition is unmet (the field only once the status is right) and the
      limit is not reached. */
  lemma {:induction false} RetryExactly(p: Prepared, resp: Response, attempt: nat, env: Env)
    ensures Decide(p, resp, attempt, env).Again? <==>
      resp.Reply? && attempt < p.retryMax &&
      (StatusUnmet(p.test, resp.status) || FieldUnmet(p.test, resp.body, env))
  {
  }

  /** At the limit an unmet wait condition ends the test with an error that
      counts the attempts. */
  lemma {:induction false} WaitExhausted(p: Prepared, status: int, body: string, duration: int, attempt: nat, env: Env)
    requires attempt >= p.retryMax
    ensures StatusUnmet(p.test, status) ==>
      Decide(p, Reply(status, body, duration), attempt, env) == Stop(WaitStatusFailed(p.test.waitForStatus, status, attempt))
    ensures !StatusUnmet(p.test, status) && FieldUnmet(p.test, body, env) ==>
      var d := Decide(p, Reply(status, body, duration), attempt, env);
      d.Stop? && (d.error.WaitFieldMissing? || d.error.WaitFieldMismatch?) && d.error.attempts == attempt
  {
  }

  /** Going on to the saves needs a response, both wait conditions met and
      every assertion holding. */
  lemma {:induction false} PassNeedsEverything(p: Prepared, resp: Response, attempt: nat, env: Env)
    requires Decide(p, resp, attempt, env).Pass?
    ensures resp.Reply?
    ensures !StatusUnmet(p.test, resp.status) && !FieldUnmet(p.test, resp.body, env)
    ensures AssertionsFailure(p.test.assertions, 0, resp.status, resp.body, JsonBody(resp.body, env), resp.duration, env).None?
  {
  }

  /** The assertions are checked in order and the first that fails is the
      one reported. */
  lemma {:induction false} AssertionsFailFast(assertions: seq<Assertion>, i: nat, status: int, body: string,
                                              json: Option<map<string, Value>>, duration: int, env: Env)
    requires i <= |assertions|
    ensures AssertionsFailure(assertions, i, status, body, json, duration, env) ==
            FirstSome(seq(|assertions|, j requires 0 <= j < |assertions| => Validation(assertions[j], status, body, json, duration, env)), i)
    decreases |assertions| - i
  {
    if i < |assertions| {
      AssertionsFailFast(assertions, i + 1, status, body, json, duration, env);
    }
  }

  /** A transport failure on the first attempt ends the test at once,
      whatever its wait conditions. */
  lemma {:induction false} TransportErrorNoRetry(test: Test, vars: Store, server: (Request, nat) -> Response, env: Env)
    requires var p := Prepare(test, vars, env);
      env.requestOk(p.test.verb, p.test.url) && server(RequestOf(p), 1) == TransportError
    ensures Run(test, vars, server, env) == Outcome(vars, Some(RequestFailed), 1)
  {
    var p := Prepare(test, vars, env);
    assert RunFrom(p, vars, server, env, 1) == Respond(p, vars, server, env, 1);
  }

  /** A test that fails before its saves leaves the variables as they were. */
  lemma {:induction false} NoSavesOnFailure(p: Prepared, vars: Store, server: (Request, nat) -> Response, env: Env, attempt: nat)
    ensures var o := RunFrom(p, vars, server, env, attempt);
      o.error.Some? && !o.error.value.SaveFailed? ==> o.vars == vars
    decreases p.retryMax - attempt
  {
    if env.requestOk(p.test.verb, p.test.url) {
      assert RunFrom(p, vars, server, env, attempt) == Respond(p, vars, server, env, attempt);
      if Decide(p, server(RequestOf(p), attempt), attempt, env).Again? {
        NoSavesOnFailure(p, vars, server, env, attempt + 1);
      }
    }
  }

  /** The attempt a run ends on decided to save, when the run succeeds or
      fails in its saves. */
  lemma {:induction false} EndsOnPass(p: Prepared, vars: Store, server: (Request, nat) -> Response, env: Env, attempt: nat)
    ensures var o := RunFrom(p, vars, server, env, attempt);
      o.error.None? || o.error.value.SaveFailed? ==>
        var d := Decide(p, server(RequestOf(p), o.attempts), o.attempts, env);
        d.Pass? && (o.vars, if o.error.Some? then Some(o.error.value.error) else None) == SaveAll(vars, d.data, p.test.saveFields)
    decreases p.retryMax - attempt
  {
    if env.requestOk(p.test.verb, p.test.url) {
      assert RunFrom(p, vars, server, env, attempt) == Respond(p, vars, server, env, attempt);
      if Decide(p, server(RequestOf(p), attempt), attempt, env).Again? {
        EndsOnPass(p, vars, server, env, attempt + 1);
      }
    }
  }

  /** Saving in two runs is saving in one, stopping at the first failure. */
  lemma {:induction false} SaveAllAppend(vars: Store, data: map<string, Value>, a: seq<SaveField>, b: seq<SaveField>)
    ensures SaveAll(vars, data, a + b) ==
      var first := SaveAll(vars, data, a);
      if first.1.Some? then first else SaveAll(first.0, data, b)
    decreases |a|
  {
    if |a| == 0 {
      assert a + b == b;
    } else {
      assert (a + b)[0] == a[0];
      assert (a + b)[1..] == a[1..] + b;
      var r := Found(data, a[0]);
      if r.Ok? {
        SaveAllAppend(Put(vars, a[0].variable, r.value), data, a[1..], b);
      }
    }
  }

  /** When save `k` fails, the error is its lookup's and the variables are
      those the saves before it stored. */
  lemma {:induction false} EarlierSavesKept(vars: Store, data: map<string, Value>, saves: seq<SaveField>, k: nat)
    requires k < |saves|
    requires SaveAll(vars, data, saves[..k]).1.None?
    requires Found(data, saves[k]).Err?
    ensures SaveAll(vars, data, saves) == (SaveAll(vars, data, saves[..k]).0, Some(Found(data, saves[k]).error))
  {
    var first := SaveAll(vars, data, saves[..k]);
    var tail := saves[k..];
    assert saves == saves[..k] + tail;
    SaveAllAppend(vars, data, saves[..k], tail);
    assert tail[0] == saves[k];
    assert SaveAll(first.0, data, tail) == (first.0, Some(Found(data, saves[k]).error));
  }

  /** Saving keeps the variable names distinct. */
  lemma {:induction false} SaveAllDistinct(vars: Store, data: map<string, Value>, saves: seq<SaveField>)
    requires Distinct(vars)
    ensures Distinct(SaveAll(vars, data, saves).0)
    decreases |saves|
  {
    if |saves| > 0 && Found(data, saves[0]).Ok? {
      PutDistinct(vars, saves[0].variable, Found(data, saves[0]).value);
      SaveAllDistinct(Put(vars, saves[0].variable, Found(data, saves[0]).value), data, saves[1..]);
    }
  }

  /** A variable no save writes keeps its value. */
  lemma {:induction false} SaveKeepsOthers(vars: Store, data: map<string, Value>, saves: seq<SaveField>, k: string)
    requires Distinct(vars) && k in ToMap(vars)
    requires forall j :: 0 <= j < |saves| ==> saves[j].variable != k
    ensures var r := SaveAll(vars, data, saves).0;
      k in ToMap(r) && ToMap(r)[k] == ToMap(vars)[k]
    decreases |saves|
  {
    if |saves| > 0 && Found(data, saves[0]).Ok? {
      var v := Found(data, saves[0]).value;
      PutDistinct(vars, saves[0].variable, v);
      PutToMap(vars, saves[0].variable, v);
      assert saves[0].variable != k;
      var rest := saves[1..];
      assert forall j :: 0 <= j < |rest| ==> rest[j].variable != k by {
        forall j | 0 <= j < |rest| ensures rest[j].variable != k {
          assert rest[j] == saves[j + 1];
        }
      }
      SaveKeepsOthers(Put(vars, saves[0].variable, v), data, rest, k);
    }
  }

  /** After saves that all succeed, a variable written by save `j` and by
      no later save holds the value found at save `j`'s field. */
  lemma {:induction false} SavedLastWins(vars: Store, data: map<string, Value>, saves: seq<SaveField>, j: nat)
    requires Distinct(vars) && j < |saves|
    requires SaveAll(vars, data, saves).1.None?
    requires forall l :: j < l < |saves| ==> saves[l].variable != saves[j].variable
    ensures var r := SaveAll(vars, data, saves).0;
      Found(data, saves[j]).Ok? && saves[j].variable in ToMap(r) && ToMap(r)[saves[j].variable] == Found(data, saves[j]).value
    decreases |saves|
  {
    var v := Found(data, saves[0]).value;
    var v1 := Put(vars, saves[0].variable, v);
    PutDistinct(vars, saves[0].variable, v);
    PutToMap(vars, saves[0].variable, v);
    var rest := saves[1..];
    if j == 0 {
      assert forall l :: 0 <= l < |rest| ==> rest[l].variable != saves[0].variable by {
        forall l | 0 <= l < |rest| ensures rest[l].variable != saves[0].variable {
          assert rest[l] == saves[l + 1];
        }
      }
      SaveKeepsOthers(v1, data, rest, saves[0].variable);
    } else {
      assert rest[j - 1] == saves[j];
      assert forall l :: j - 1 < l < |rest| ==> rest[l].variable != rest[j - 1].variable by {
        forall l | j - 1 < l < |rest| ensures rest[l].variable != rest[j - 1].variable {
          assert rest[l] == saves[l + 1];
        }
      }
      SavedLastWins(v1, data, rest, j - 1);
    }
  }

  /** The content type goes over a header spelled exactly `Content-Type`;
      a header spelled in another case is kept beside it. */
  lemma {:induction false} ContentTypeSent(headers: Headers, contentType: string)
    ensures contentType != "" ==> RequestHeaders(headers, contentType)["Content-Type"] == contentType
    ensures contentType == "" ==> RequestHeaders(headers, contentType) == ToMap(headers)
  {
  }
}
