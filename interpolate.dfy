/** `{{name}}` placeholders replaced by saved values
    (`interpolateVariables`, http.go:16-27). */
module Interpolate {
  import opened Wrappers
  import opened Text
  import opened Assoc
  import opened Json

  /** Saved variables, in the order the substitution visits them. */
  type Store = Entries<Value>

  function Placeholder(name: string): (p: string)
    ensures |p| == |name| + 4
  {
    "{{" + name + "}}"
  }

  /** What `interpolateVariables` returns: each saved variable in turn, its
      placeholder replaced everywhere by its value's `%v` rendering. */
  function Interpolated(s: string, vars: Store): string
    decreases |vars|
  {
    if |vars| == 0 then s
    else
      var n := |vars| - 1;
      ReplaceAll(Interpolated(s, vars[..n]), Placeholder(vars[n].0), Render(vars[n].1))
  }

  /** `interpolateVariables`. A nil store is the empty one. */
  method InterpolateVariables(s: string, vars: Store) returns (result: string)
    ensures result == Interpolated(s, vars)
  {
    result := s;
    for k := 0 to |vars|
      invariant result == Interpolated(s, vars[..k])
    {
      assert vars[..k + 1][..k] == vars[..k];
      var (name, value) := vars[k];
      result := ReplaceAll(result, Placeholder(name), Render(value));
    }
    assert vars[..|vars|] == vars;
  }

  /** The placeholder of no saved variable occurs in `s`. */
  ghost predicate NoPlaceholder(s: string, vars: Store) {
    forall k, j :: 0 <= k < |vars| && 0 <= j ==> !OccursAt(s, Placeholder(vars[k].0), j)
  }

  /** Text containing no saved variable's placeholder is unchanged; so is
      any text under an empty (or nil) store. */
  lemma {:induction false} NoPlaceholderUnchanged(s: string, vars: Store)
    requires NoPlaceholder(s, vars)
    ensures Interpolated(s, vars) == s
    decreases |vars|
  {
    if |vars| > 0 {
      var n := |vars| - 1;
      assert NoPlaceholder(s, vars[..n]) by {
        forall k, j | 0 <= k < n && 0 <= j
          ensures !OccursAt(s, Placeholder(vars[..n][k].0), j)
        {
          assert vars[..n][k] == vars[k];
        }
      }
      NoPlaceholderUnchanged(s, vars[..n]);
      ReplaceAllAbsent(s, Placeholder(vars[n].0), Render(vars[n].1));
    }
  }

  /** One variable: every occurrence of its placeholder gives way to the
      value's rendering. From the first occurrence on, the text before it
      stays as it was and the rest is substituted in turn. */
  lemma {:induction false} SingleSubstitution(x: string, name: string, v: Value, y: string)
    requires forall j :: 0 <= j < |x| ==> !OccursAt(x + Placeholder(name) + y, Placeholder(name), j)
    ensures Interpolated(x + Placeholder(name) + y, [(name, v)]) == x + Render(v) + Interpolated(y, [(name, v)])
  {
    var vars := [(name, v)];
    assert vars[..0] == [];
    ReplaceAllFirst(x, Placeholder(name), y, Render(v));
  }

  // ---- templates: text made of literal pieces and placeholders ----

  /** A piece of a request template: literal text, or a `{{name}}`
      placeholder. */
  datatype Piece = Literal(text: string) | Var(name: string)

  predicate BraceFree(s: string) {
    forall i :: 0 <= i < |s| ==> s[i] != '{' && s[i] != '}'
  }

  /** Literal text and variable names hold no braces, so every `{{`
      in a template opens one of its placeholders. */
  predicate PieceOk(p: Piece) {
    match p
    case Literal(t) => BraceFree(t)
    case Var(n) => BraceFree(n)
  }

  function PieceText(p: Piece): string {
    match p
    case Literal(t) => t
    case Var(n) => Placeholder(n)
  }

  function Join(ps: seq<Piece>): string
    decreases |ps|
  {
    if |ps| == 0 then "" else PieceText(ps[0]) + Join(ps[1..])
  }

  /** The value stored under `name`: that of its first entry, the one the
      substitution reaches first. */
  function ValueOf(vars: Store, name: string): (r: Option<Value>)
    ensures r.None? <==> forall k :: 0 <= k < |vars| ==> vars[k].0 != name
    ensures r.Some? ==> exists k :: 0 <= k < |vars| && vars[k] == (name, r.value)
    decreases |vars|
  {
    if |vars| == 0 then None
    else
      var n := |vars| - 1;
      var first := ValueOf(vars[..n], name);
      assert forall k :: 0 <= k < n ==> vars[..n][k] == vars[k];
      if first.Some? then first
      else if vars[n].0 == name then Some(vars[n].1)
      else None
  }

  /** A piece once the store is applied: a stored variable's placeholder
      becomes its value's rendering, every other piece stays. */
  function Fill(p: Piece, vars: Store): Piece {
    match p
    case Literal(_) => p
    case Var(n) =>
      match ValueOf(vars, n)
      case Some(v) => Literal(Render(v))
      case None => p
  }

  function FillAll(ps: seq<Piece>, vars: Store): seq<Piece> {
    seq(|ps|, i requires 0 <= i < |ps| => Fill(ps[i], vars))
  }

  /** Every placeholder of the template is replaced by its stored value and
      unknown placeholders stay, whatever the number of variables, as long as
      names and rendered values hold no braces (so no substitution makes a
      new placeholder). */
  lemma {:induction false} TemplateSubstitution(ps: seq<Piece>, vars: Store)
    requires forall i :: 0 <= i < |ps| ==> PieceOk(ps[i])
    requires forall k :: 0 <= k < |vars| ==> BraceFree(vars[k].0) && BraceFree(Render(vars[k].1))
    ensures Interpolated(Join(ps), vars) == Join(FillAll(ps, vars))
    decreases |vars|
  {
    if |vars| == 0 {
      assert FillAll(ps, vars) == ps;
    } else {
      var n := |vars| - 1;
      var (name, v) := vars[n];
      var before := FillAll(ps, vars[..n]);
      TemplateSubstitution(ps, vars[..n]);
      forall i | 0 <= i < |before| ensures PieceOk(before[i]) {
        FillOk(ps[i], vars[..n]);
      }
      ReplaceJoin(before, name, Render(v));
      assert SwapAll(before, name, Render(v)) == FillAll(ps, vars);
    }
  }

  lemma {:induction false} FillOk(p: Piece, vars: Store)
    requires PieceOk(p)
    requires forall k :: 0 <= k < |vars| ==> BraceFree(Render(vars[k].1))
    ensures PieceOk(Fill(p, vars))
  {
  }

  function Swap(p: Piece, name: string, rep: string): Piece {
    if p == Var(name) then Literal(rep) else p
  }

  function SwapAll(ps: seq<Piece>, name: string, rep: string): seq<Piece> {
    seq(|ps|, i requires 0 <= i < |ps| => Swap(ps[i], name, rep))
  }

  /** One `strings.ReplaceAll` over a template replaces exactly that name's
      placeholders. */
  lemma {:induction false} ReplaceJoin(ps: seq<Piece>, name: string, rep: string)
    requires forall i :: 0 <= i < |ps| ==> PieceOk(ps[i])
    requires BraceFree(name)
    ensures ReplaceAll(Join(ps), Placeholder(name), rep) == Join(SwapAll(ps, name, rep))
    decreases |ps|
  {
    var pat := Placeholder(name);
    if |ps| > 0 {
      var rest := Join(ps[1..]);
      ReplaceJoin(ps[1..], name, rep);
      assert SwapAll(ps, name, rep)[1..] == SwapAll(ps[1..], name, rep);
      match ps[0]
      case Literal(t) =>
        forall j | 0 <= j < |t| ensures !OccursAt(t + rest, pat, j) {
          assert (t + rest)[j] == t[j];
          OccursFirst(t + rest, pat, j);
        }
        ReplaceAllPrefix(t, pat, rest, rep);
      case Var(m) =>
        if m == name {
          assert "" + pat + rest == pat + rest;
          ReplaceAllFirst("", pat, rest, rep);
        } else {
          forall j | 0 <= j < |Placeholder(m)| ensures !OccursAt(Placeholder(m) + rest, pat, j) {
            OtherPlaceholder(m, name, rest, j);
          }
          ReplaceAllPrefix(Placeholder(m), pat, rest, rep);
        }
    }
  }

  /** An occurrence starts with the pattern's own characters. */
  lemma {:induction false} OccursFirst(s: string, pat: string, j: nat)
    ensures OccursAt(s, pat, j) ==> forall i :: 0 <= i < |pat| ==> s[j + i] == pat[i]
  {
    if OccursAt(s, pat, j) {
      forall i | 0 <= i < |pat| ensures s[j + i] == pat[i] {
        assert s[j..j + |pat|][i] == s[j + i];
      }
    }
  }

  /** No placeholder of `name` starts inside the placeholder of another
      brace-free name. */
  lemma {:induction false} OtherPlaceholder(m: string, name: string, rest: string, j: nat)
    requires BraceFree(m) && BraceFree(name) && m != name
    requires j < |Placeholder(m)|
    ensures !OccursAt(Placeholder(m) + rest, Placeholder(name), j)
  {
    var s := Placeholder(m) + rest;
    var pat := Placeholder(name);
    assert forall i :: 0 <= i < |m| ==> s[2 + i] == m[i];
    assert forall i :: 0 <= i < |name| ==> pat[2 + i] == name[i];
    assert s[2 + |m|] == '}' && pat[2 + |name|] == '}' && pat[0] == '{' && pat[1] == '{';
    var i: nat;
    if j == 0 && |m| == |name| {
      assert exists d :: 0 <= d < |m| && m[d] != name[d];
      var d :| 0 <= d < |m| && m[d] != name[d];
      i := 2 + d;
    } else if j == 0 {
      i := if |m| < |name| then 2 + |m| else 2 + |name|;
    } else if j == 1 {
      i := 1;
    } else {
      i := 0;
      assert s[j] == Placeholder(m)[j];
    }
    assert i < |pat| && (j + i < |s| ==> s[j + i] != pat[i]);
    OccursFirst(s, pat, j);
  }
}
