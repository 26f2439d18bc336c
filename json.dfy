/** The values a decoded JSON response (and an expected-value literal) can
    hold, their default `%v` rendering, and dot-path field lookup
    (`getJSONField`, http.go). */
module Json {
  import opened Wrappers
  import opened Text
  import opened Ordering

  /** A Go `interface{}` as produced by `encoding/json` or by
      `parseExpectedValue`. `Int` is the `int64` that only
      `parseExpectedValue` produces; `Float` is a `float64`, held as its own
      `%v` rendering, which the decoder supplies; `Obj` is a
      `map[string]interface{}`. */
  datatype Value =
    | Null
    | Bool(b: bool)
    | Int(i: int)
    | Float(repr: string)
    | Str(s: string)
    | Arr(items: seq<Value>)
    | Obj(fields: map<string, Value>)

  /** `fmt.Sprintf("%v", v)`: `<nil>` for null, slices as `[a b]`, maps as
      `map[k:v ...]` with the keys in ascending order. */
  function Render(v: Value): string
    decreases v, 1
  {
    match v
    case Null => "<nil>"
    case Bool(b) => if b then "true" else "false"
    case Int(i) => FormatInt(i)
    case Float(r) => r
    case Str(s) => s
    case Arr(items) => "[" + RenderItems(v, 0) + "]"
    case Obj(m) => "map[" + RenderFields(v, SortedKeys(m.Keys)) + "]"
  }

  function RenderItems(v: Value, i: nat): string
    requires v.Arr? && i <= |v.items|
    decreases v, 0, |v.items| - i
  {
    if i == |v.items| then ""
    else if i + 1 == |v.items| then Render(v.items[i])
    else Render(v.items[i]) + " " + RenderItems(v, i + 1)
  }

  function RenderFields(v: Value, keys: seq<string>): string
    requires v.Obj? && forall k :: k in keys ==> k in v.fields
    decreases v, 0, |keys|
  {
    if |keys| == 0 then ""
    else
      var entry := keys[0] + ":" + Render(v.fields[keys[0]]);
      if |keys| == 1 then entry else entry + " " + RenderFields(v, keys[1..])
  }

  /** The two errors of `getJSONField`: a missing key (reported with the
      whole path) and a step into something that is not an object
      (reported with the segment). */
  datatype FieldError = NotFound(path: string) | NotAnObject(segment: string)

  /** The outcome of following the remaining `parts` from `current`. */
  function Walk(current: Value, parts: seq<string>, path: string): Result<Value, FieldError>
  {
    if |parts| == 0 then Ok(current)
    else match current
      case Obj(m) =>
        if parts[0] in m then Walk(m[parts[0]], parts[1..], path) else Err(NotFound(path))
      case _ => Err(NotAnObject(parts[0]))
  }

  /** `getJSONField`: splits the path on "." and steps through objects only. */
  method GetJSONField(data: map<string, Value>, path: string) returns (r: Result<Value, FieldError>)
    ensures r == Walk(Obj(data), Split(path, '.'), path)
  {
    var parts := Split(path, '.');
    var current := Obj(data);
    var i := 0;
    while i < |parts|
      invariant 0 <= i <= |parts|
      invariant Walk(current, parts[i..], path) == Walk(Obj(data), parts, path)
    {
      assert parts[i..][1..] == parts[i + 1..];
      match current {
        case Obj(m) =>
          if parts[i] !in m {
            return Err(NotFound(path));
          }
          current := m[parts[i]];
        case _ =>
          return Err(NotAnObject(parts[i]));
      }
      i := i + 1;
    }
    return Ok(current);
  }

  /** Following a path in two pieces is following the first piece and then
      the second from where it ended. */
  lemma {:induction false} WalkAppend(v: Value, p1: seq<string>, p2: seq<string>, path: string)
    ensures Walk(v, p1 + p2, path) ==
            match Walk(v, p1, path)
            case Ok(w) => Walk(w, p2, path)
            case Err(e) => Err(e)
    decreases |p1|
  {
    if |p1| > 0 {
      assert (p1 + p2)[0] == p1[0];
      assert (p1 + p2)[1..] == p1[1..] + p2;
      if v.Obj? && p1[0] in v.fields {
        WalkAppend(v.fields[p1[0]], p1[1..], p2, path);
      }
    } else {
      assert p1 + p2 == p2;
    }
  }

  /** Once a prefix of the path reaches something that is not an object
      (an array included), the lookup fails at the next segment. */
  lemma {:induction false} NonObjectStops(v: Value, parts: seq<string>, i: nat, path: string)
    requires i < |parts|
    requires Walk(v, parts[..i], path).Ok? && !Walk(v, parts[..i], path).value.Obj?
    ensures Walk(v, parts, path) == Err(NotAnObject(parts[i]))
  {
    assert parts == parts[..i] + parts[i..];
    WalkAppend(v, parts[..i], parts[i..], path);
  }

  /** An object nested along `segs` with `leaf` at the bottom. */
  function Nest(segs: seq<string>, leaf: Value): Value {
    if |segs| == 0 then leaf else Obj(map[segs[0] := Nest(segs[1..], leaf)])
  }

  /** Looking up the dotted path of the nesting finds the leaf. */
  lemma {:induction false} WalkNest(segs: seq<string>, leaf: Value, path: string)
    ensures Walk(Nest(segs, leaf), segs, path) == Ok(leaf)
  {
    if |segs| > 0 {
      WalkNest(segs[1..], leaf, path);
    }
  }

  /** `getJSONField` finds a value at the dot-joined path of segments that
      contain no dot, when the data nests objects along those segments. */
  lemma {:induction false} GetFieldNest(segs: seq<string>, leaf: Value)
    requires |segs| >= 1
    requires forall i :: 0 <= i < |segs| ==> '.' !in segs[i]
    ensures Walk(Nest(segs, leaf), Split(Join(segs, "."), '.'), Join(segs, ".")) == Ok(leaf)
  {
    SplitJoin(segs, '.');
    WalkNest(segs, leaf, Join(segs, "."));
  }
}
