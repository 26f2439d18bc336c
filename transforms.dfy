/** Field paths with `| transform` suffixes (`splitFieldTransforms`,
    http.go:304-317) and the transform chain applied to a field's rendering
    (`applyTransforms`, http.go:319-346). */
module Transforms {
  import opened Wrappers
  import opened Text
  import opened Types

  /** The non-empty trimmed pieces, in order. */
  function NonEmptyTrimmed(pieces: seq<string>): (ts: seq<string>)
    ensures |ts| <= |pieces|
    decreases |pieces|
  {
    if |pieces| == 0 then []
    else
      var n := |pieces| - 1;
      var t := TrimSpace(pieces[n]);
      NonEmptyTrimmed(pieces[..n]) + if t != "" then [t] else []
  }

  /** What `splitFieldTransforms` returns: the trimmed text before the
      first `|` and the non-empty trimmed pieces after it. */
  function FieldTransforms(field: string): (string, seq<string>) {
    var parts := Split(field, '|');
    (TrimSpace(parts[0]), NonEmptyTrimmed(parts[1..]))
  }

  /** `splitFieldTransforms`. */
  method SplitFieldTransforms(field: string) returns (path: string, transforms: seq<string>)
    ensures (path, transforms) == FieldTransforms(field)
  {
    var parts := Split(field, '|');
    path := TrimSpace(parts[0]);
    transforms := [];
    var rest := parts[1..];
    for k := 0 to |rest|
      invariant transforms == NonEmptyTrimmed(rest[..k])
    {
      assert rest[..k + 1][..k] == rest[..k];
      var t := TrimSpace(rest[k]);
      if t != "" {
        transforms := transforms + [t];
      }
    }
    assert rest[..|rest|] == rest;
  }

  /** Text already trimmed, non-empty and free of `|`. */
  predicate Clean(t: string) {
    t != "" && TrimSpace(t) == t && '|' !in t
  }

  /** Pieces that are all clean survive the filter unchanged. */
  lemma {:induction false} NonEmptyTrimmedClean(ts: seq<string>)
    requires forall k :: 0 <= k < |ts| ==> Clean(ts[k])
    ensures NonEmptyTrimmed(ts) == ts
    decreases |ts|
  {
    if |ts| > 0 {
      var n := |ts| - 1;
      NonEmptyTrimmedClean(ts[..n]);
    }
  }

  /** Every transform name found is non-empty and trimmed. */
  lemma {:induction false} NonEmptyTrimmedShape(pieces: seq<string>)
    ensures forall k :: 0 <= k < |NonEmptyTrimmed(pieces)| ==>
      NonEmptyTrimmed(pieces)[k] != "" && TrimSpace(NonEmptyTrimmed(pieces)[k]) == NonEmptyTrimmed(pieces)[k]
    decreases |pieces|
  {
    if |pieces| > 0 {
      var n := |pieces| - 1;
      NonEmptyTrimmedShape(pieces[..n]);
      TrimSpaceIdem(pieces[n]);
    }
  }

  /** Writing a path and its transforms with `|` between them and splitting
      again gives them back. */
  lemma {:induction false} SplitJoinTransforms(path: string, ts: seq<string>)
    requires TrimSpace(path) == path && '|' !in path
    requires forall k :: 0 <= k < |ts| ==> Clean(ts[k])
    ensures FieldTransforms(Join([path] + ts, "|")) == (path, ts)
  {
    var parts := [path] + ts;
    assert forall k :: 0 <= k < |parts| ==> '|' !in parts[k] by {
      forall k | 0 <= k < |parts| ensures '|' !in parts[k] {
        if k > 0 {
          assert parts[k] == ts[k - 1];
        }
      }
    }
    SplitJoin(parts, '|');
    assert parts[1..] == ts;
    NonEmptyTrimmedClean(ts);
  }

  /** A field with no `|` has no transforms. */
  lemma {:induction false} NoPipeNoTransforms(field: string)
    requires '|' !in field
    ensures FieldTransforms(field) == (TrimSpace(field), [])
  {
    SplitJoin([field], '|');
  }

  // ---- applyTransforms ----

  datatype TransformError =
    | DecodeFailed(value: string)
    | UnknownTransform(name: string)

  /** The decoders the `base64` transform tries, in order. */
  const Variants: seq<Base64Variant> := [StdEncoding, URLEncoding, RawStdEncoding, RawURLEncoding]

  /** The first of the decoders from `k` on that accepts `value`. */
  function FirstDecode(value: string, k: nat, env: Env): (r: Option<string>)
    requires k <= |Variants|
    ensures r.Some? ==>
      exists j :: k <= j < |Variants| && env.decodeBase64(Variants[j], value) == r
                  && forall l :: k <= l < j ==> env.decodeBase64(Variants[l], value).None?
    ensures r.None? ==> forall j :: k <= j < |Variants| ==> env.decodeBase64(Variants[j], value).None?
    decreases |Variants| - k
  {
    if k == |Variants| then None
    else match env.decodeBase64(Variants[k], value)
      case Some(d) => Some(d)
      case None => FirstDecode(value, k + 1, env)
  }

  /** One transform applied to the value so far. */
  function ApplyOne(value: string, name: string, env: Env): Result<string, TransformError> {
    if name == "base64" then
      match FirstDecode(value, 0, env)
      case Some(d) => Ok(d)
      case None => Err(DecodeFailed(value))
    else Err(UnknownTransform(name))
  }

  /** What `applyTransforms` returns: the transforms applied left to right,
      stopping at the first error. */
  function Transformed(value: string, ts: seq<string>, env: Env): Result<string, TransformError>
    decreases |ts|
  {
    if |ts| == 0 then Ok(value)
    else match ApplyOne(value, ts[0], env)
      case Ok(v) => Transformed(v, ts[1..], env)
      case Err(e) => Err(e)
  }

  /** `applyTransforms`. */
  method ApplyTransforms(value: string, transforms: seq<string>, env: Env) returns (r: Result<string, TransformError>)
    ensures r == Transformed(value, transforms, env)
  {
    var result := value;
    for k := 0 to |transforms|
      invariant Transformed(result, transforms[k..], env) == Transformed(value, transforms, env)
    {
      assert transforms[k..][1..] == transforms[k + 1..];
      var t := transforms[k];
      if t == "base64" {
        var decoded := env.decodeBase64(StdEncoding, result);
        if decoded.None? {
          decoded := env.decodeBase64(URLEncoding, result);
        }
        if decoded.None? {
          decoded := env.decodeBase64(RawStdEncoding, result);
        }
        if decoded.None? {
          decoded := env.decodeBase64(RawURLEncoding, result);
        }
        if decoded.None? {
          return Err(DecodeFailed(result));
        }
        result := decoded.value;
      } else {
        return Err(UnknownTransform(t));
      }
    }
    return Ok(result);
  }

  // ---- properties ----

  /** No transforms leave the value as it is. */
  lemma {:induction false} NoTransformsIdentity(value: string, env: Env)
    ensures Transformed(value, [], env) == Ok(value)
  {
  }

  /** A name other than `base64` fails, whatever follows it. */
  lemma {:induction false} UnknownFails(value: string, name: string, rest: seq<string>, env: Env)
    requires name != "base64"
    ensures Transformed(value, [name] + rest, env) == Err(UnknownTransform(name))
  {
  }

  /** A chain in two pieces is the first piece and then the second on its
      result. */
  lemma {:induction false} TransformedAppend(value: string, a: seq<string>, b: seq<string>, env: Env)
    ensures Transformed(value, a + b, env) ==
            match Transformed(value, a, env)
            case Ok(v) => Transformed(v, b, env)
            case Err(e) => Err(e)
    decreases |a|
  {
    if |a| == 0 {
      assert a + b == b;
    } else {
      assert (a + b)[0] == a[0];
      assert (a + b)[1..] == a[1..] + b;
      match ApplyOne(value, a[0], env)
      case Ok(v) => TransformedAppend(v, a[1..], b, env);
      case Err(e) =>
    }
  }

  /** `base64` takes the result of the first decoder, in the order standard,
      URL-safe, raw standard, raw URL-safe, that accepts the value, and fails
      only when none does. */
  lemma {:induction false} Base64Order(value: string, env: Env)
    ensures (ApplyOne(value, "base64", env) == Err(DecodeFailed(value))) <==>
            forall j :: 0 <= j < |Variants| ==> env.decodeBase64(Variants[j], value).None?
    ensures ApplyOne(value, "base64", env).Ok? ==>
      exists j :: 0 <= j < |Variants| && env.decodeBase64(Variants[j], value) == Some(ApplyOne(value, "base64", env).value)
                  && forall l :: 0 <= l < j ==> env.decodeBase64(Variants[l], value).None?
  {
  }
}
