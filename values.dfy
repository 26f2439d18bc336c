/** The expected-value literal of an assertion (`parseExpectedValue`,
    http.go:375-400) and the loose equality assertions compare with
    (`valuesEqual`, http.go:402-414). */
module Values {
  import opened Wrappers
  import opened Text
  import opened Json
  import opened Types

  /** The value an expected-value literal stands for, the rules tried in
      order: a quoted string (every quote at either end trimmed), a boolean,
      a 64-bit integer, a float, and otherwise the text itself. */
  function ParseExpectedValue(value: string, env: Env): Value {
    if HasPrefix(value, "\"") && HasSuffix(value, "\"") then Str(TrimChar(value, '"'))
    else if value == "true" then Bool(true)
    else if value == "false" then Bool(false)
    else match ParseInt64(value)
      case Some(i) => Int(i)
      case None =>
        match env.parseFloat(value)
        case Some(r) => Float(r)
        case None => Str(value)
  }

  /** The two `%v` renderings of a `float64` zero. Go's `==` holds between
      `0` and `-0`, the only two distinct floats it takes as equal. */
  predicate BothFloatZero(a: Value, e: Value) {
    a.Float? && e.Float? && a.repr in {"0", "-0"} && e.repr in {"0", "-0"}
  }

  /** `valuesEqual`: values equal under Go's `==` (which takes `0` and `-0`
      as equal), or values whose `%v` renderings are equal. Two objects or
      two arrays are not compared directly, where the code panics; see
      ValuesEqualAsWritten. */
  function ValuesEqual(actual: Value, expected: Value): bool {
    actual == expected || BothFloatZero(actual, expected) || Render(actual) == Render(expected)
  }

  // ---- parseExpectedValue ----

  /** A quoted literal stands for the text inside the quotes, when that
      text neither starts nor ends with a quote. */
  lemma {:induction false} ExpectedQuoted(s: string, env: Env)
    requires s == [] || (s[0] != '"' && s[|s| - 1] != '"')
    ensures ParseExpectedValue("\"" + s + "\"", env) == Str(s)
  {
    TrimQuoted(s);
    QuotedLiteral("\"" + s + "\"", s, env);
  }

  /** A literal with a quote at each end stands for what trimming the
      quotes leaves. */
  lemma {:induction false} QuotedLiteral(value: string, s: string, env: Env)
    requires HasPrefix(value, "\"") && HasSuffix(value, "\"") && TrimChar(value, '"') == s
    ensures ParseExpectedValue(value, env) == Str(s)
  {
  }

  /** Trimming quotes from a quoted text that neither starts nor ends with
      a quote gives that text back. */
  lemma {:induction false} TrimQuoted(s: string)
    requires s == [] || (s[0] != '"' && s[|s| - 1] != '"')
    ensures var q := "\"" + s + "\"";
      HasPrefix(q, "\"") && HasSuffix(q, "\"") && TrimChar(q, '"') == s
  {
    var q := "\"" + s + "\"";
    assert q[1..] == s + "\"";
    assert HasPrefix(q, "\"") && HasSuffix(q, "\"");
    var l := TrimCharLeft(q, '"');
    if s == [] {
      assert TrimCharLeft(q[1..], '"') == TrimCharLeft([], '"');
      assert l == [];
    } else {
      assert l == TrimCharLeft(s + "\"", '"') == s + "\"";
      assert l[..|l| - 1] == s;
    }
  }

  /** The words `true` and `false` stand for booleans. */
  lemma {:induction false} ExpectedBool(b: bool, env: Env)
    ensures ParseExpectedValue(if b then "true" else "false", env) == Bool(b)
  {
    var w := if b then "true" else "false";
    assert w[|w| - 1] == 'e';
  }

  /** The decimal rendering of a 64-bit integer stands for that integer. */
  lemma {:induction false} ExpectedInt(i: int, env: Env)
    requires IsInt64(i)
    ensures ParseExpectedValue(FormatInt(i), env) == Int(i)
  {
    FormatIntShape(i);
    ParseFormatInt(i);
  }

  /** Quoting is tried first: a quoted integer is a string. */
  lemma {:induction false} QuotedIntIsString(i: int, env: Env)
    ensures ParseExpectedValue("\"" + FormatInt(i) + "\"", env) == Str(FormatInt(i))
  {
    var f := FormatInt(i);
    FormatIntShape(i);
    if i < 0 {
      assert f[|f| - 1] == FormatNat(-i)[|FormatNat(-i)| - 1];
    }
    ExpectedQuoted(f, env);
  }

  /** A literal with no other reading is the text itself. */
  lemma {:induction false} ExpectedFallback(value: string, env: Env)
    requires !(HasPrefix(value, "\"") && HasSuffix(value, "\""))
    requires value != "true" && value != "false"
    requires ParseInt64(value).None? && env.parseFloat(value).None?
    ensures ParseExpectedValue(value, env) == Str(value)
  {
  }

  // ---- valuesEqual ----

  /** Loose equality is equality of renderings, except that the two float
      zeros are equal though they print differently. */
  lemma {:induction false} ValuesEqualIsRender(a: Value, e: Value)
    ensures ValuesEqual(a, e) <==> Render(a) == Render(e) || BothFloatZero(a, e)
  {
  }

  lemma {:induction false} ValuesEqualReflexive(a: Value)
    ensures ValuesEqual(a, a)
  {
  }

  lemma {:induction false} ValuesEqualSymmetric(a: Value, e: Value)
    ensures ValuesEqual(a, e) == ValuesEqual(e, a)
  {
  }

  /** Loose equality is not transitive: `0` equals `-0` as floats, and the
      float `-0` equals the string "-0" by rendering, but the float `0` does
      not equal that string. */
  lemma {:induction false} ValuesEqualNotTransitive()
    ensures ValuesEqual(Float("0"), Float("-0")) && ValuesEqual(Float("-0"), Str("-0"))
    ensures !ValuesEqual(Float("0"), Str("-0"))
  {
  }

  /** An integer equals the float and the string that print the same, and
      two different strings are not equal. */
  lemma {:induction false} ValuesEqualExamples()
    ensures ValuesEqual(Int(42), Float("42"))
    ensures ValuesEqual(Int(42), Str("42"))
    ensures ValuesEqual(Bool(true), Str("true"))
    ensures !ValuesEqual(Str("test"), Str("other"))
  {
    assert FormatInt(42) == "42" by {
      assert FormatNat(42) == FormatNat(4) + [DigitChar(2)];
    }
  }

  /** An integer expected value matches a response value exactly when the
      latter prints as the integer's decimal rendering. */
  lemma {:induction false} IntMatches(actual: Value, i: int, env: Env)
    requires IsInt64(i)
    ensures ValuesEqual(actual, ParseExpectedValue(FormatInt(i), env)) <==> Render(actual) == FormatInt(i)
  {
    ExpectedInt(i, env);
    EqualsInt(actual, ParseExpectedValue(FormatInt(i), env), i);
  }

  /** A value equals the integer `e` exactly when it prints as `e`. */
  lemma {:induction false} EqualsInt(actual: Value, e: Value, i: int)
    requires e == Int(i)
    ensures ValuesEqual(actual, e) <==> Render(actual) == FormatInt(i)
  {
    assert Render(e) == FormatInt(i);
  }

  // ---- valuesEqual as written ----

  /** Go's `==` on two `interface{}` values panics when both hold the same
      uncomparable type (a map or a slice). */
  predicate BothUncomparable(a: Value, e: Value) {
    (a.Obj? && e.Obj?) || (a.Arr? && e.Arr?)
  }

  /** `valuesEqual` as the code has it: `None` is the runtime panic of the
      direct comparison. */
  function ValuesEqualAsWritten(actual: Value, expected: Value): Option<bool> {
    if BothUncomparable(actual, expected) then None
    else Some(actual == expected || BothFloatZero(actual, expected) || Render(actual) == Render(expected))
  }

  /** A partial-match line whose value is an object, checked against a
      response field holding an object, makes the comparison panic, even
      when the two are the same. */
  lemma {:induction false} AsWrittenPanics(m: map<string, Value>, items: seq<Value>)
    ensures ValuesEqualAsWritten(Obj(m), Obj(m)) == None
    ensures ValuesEqualAsWritten(Arr(items), Arr(items)) == None
  {
  }

  /** Everywhere else the code as written agrees with ValuesEqual, which
      never panics. */
  lemma {:induction false} AsWrittenAgrees(a: Value, e: Value)
    requires !BothUncomparable(a, e)
    ensures ValuesEqualAsWritten(a, e) == Some(ValuesEqual(a, e))
  {
  }

  /** As written, a value equals itself only when it is no object and no
      array. */
  lemma {:induction false} AsWrittenReflexive(a: Value)
    ensures ValuesEqualAsWritten(a, a) == if a.Obj? || a.Arr? then None else Some(true)
  {
  }

  /** The expected values of `field_equals` and the wait condition come
      from a literal, which is never an object or an array, so those
      comparisons never panic. */
  lemma {:induction false} LiteralNeverPanics(actual: Value, value: string, env: Env)
    ensures !BothUncomparable(actual, ParseExpectedValue(value, env))
  {
  }
}
