/** The records of types.go, with `SaveFields` added (runTest reads it), and
    the environment the model takes as input in place of the file system,
    the clock-free parts of the standard library it does not model, and the
    JSON decoder. */
module Types {
  import opened Wrappers
  import opened Json

  /** A header map in the order its keys were first set (see Assoc). */
  type Headers = seq<(string, string)>

  /** `Assertion.Type`: the six kinds the parser produces. */
  datatype AssertionKind =
    | Status
    | BodyContains
    | FieldEquals
    | Duration
    | BodyMatchesFile
    | BodyPartialMatch

  /** `Assertion`: a kind, a field path (which may carry `| transform`
      suffixes) and the expected value as raw text. */
  datatype Assertion = Assertion(kind: AssertionKind, field: string, value: string)

  /** `SaveField`: store the value at `field` of the response under `variable`. */
  datatype SaveField = SaveField(field: string, variable: string)

  /** `Test` (`verb` is its `Method`). Durations are whole nanoseconds, as `time.Duration` is. */
  datatype Test = Test(
    name: string,
    verb: string,
    url: string,
    headers: Headers,
    body: string,
    contentType: string,
    assertions: seq<Assertion>,
    saveFields: seq<SaveField>,
    waitForStatus: int,
    waitForField: string,
    waitForValue: string,
    retryDelay: int,
    retryMax: int)

  /** `Defaults`: the root URL and default headers of one file. */
  datatype Defaults = Defaults(root: string, headers: Headers)

  /** `TestFile`. */
  datatype TestFile = TestFile(path: string, tests: seq<Test>)

  /** The four decoders of `encoding/base64` the base64 transform tries. */
  datatype Base64Variant = StdEncoding | URLEncoding | RawStdEncoding | RawURLEncoding

  /** What the model is given instead of calling out:
      - `readFile`: `os.ReadFile`, None when the file cannot be read;
      - `joinPath`: `filepath.Join`; `dirName`: `filepath.Dir`;
      - `parseDuration`: `time.ParseDuration`, in nanoseconds;
      - `parseFloat`: `strconv.ParseFloat(s, 64)`, giving the float's `%v` rendering;
      - `parseJson`: `json.Unmarshal` into an `interface{}`;
      - `parseFragment`: `json.Unmarshal` into a `map[string]interface{}`, its
        members listed in the order a `range` over the map visits them;
      - `decodeBase64`: one decoder of `encoding/base64`;
      - `encodeForm`: `url.Values.Encode`;
      - `marshal`: `json.Marshal` of a decoded value;
      - `requestOk`: whether `http.NewRequest` accepts a method and URL. */
  datatype Env = Env(
    readFile: string -> Option<string>,
    joinPath: (string, string) -> string,
    dirName: string -> string,
    parseDuration: string -> Option<int>,
    parseFloat: string -> Option<string>,
    parseJson: string -> Option<Value>,
    parseFragment: string -> Option<seq<(string, Value)>>,
    decodeBase64: (Base64Variant, string) -> Option<string>,
    encodeForm: map<string, string> -> string,
    marshal: Value -> string,
    requestOk: (string, string) -> bool)

  /** `filepath.IsAbs` on a Unix system. */
  predicate IsAbs(path: string) {
    |path| > 0 && path[0] == '/'
  }

  /** A path taken relative to the test file's directory unless it is
      absolute. */
  function ResolvePath(env: Env, baseDir: string, path: string): (r: string)
    ensures IsAbs(path) ==> r == path
  {
    if IsAbs(path) then path else env.joinPath(baseDir, path)
  }
}
