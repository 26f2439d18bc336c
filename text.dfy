/** The parts of Go's `strings` and `strconv` packages, and the character
    classes of its regular-expression syntax, that the test-language parser
    and the execution engine rely on. Strings are sequences of code points. */
module Text {
  import opened Wrappers

  /** `unicode.IsSpace`: the Unicode White_Space characters. */
  predicate IsSpace(c: char) {
    c == ' ' || c == '\t' || c == '\n' || c == '\U{0B}' || c == '\U{0C}' || c == '\r'
    || c == '\U{85}' || c == '\U{A0}' || c == '\U{1680}'
    || ('\U{2000}' <= c <= '\U{200A}')
    || c == '\U{2028}' || c == '\U{2029}' || c == '\U{202F}' || c == '\U{205F}' || c == '\U{3000}'
  }

  /** `\s` of Go's regular expressions: `[\t\n\f\r ]`. */
  predicate IsRegexSpace(c: char) {
    c == ' ' || c == '\t' || c == '\n' || c == '\U{0C}' || c == '\r'
  }

  /** `\d` of Go's regular expressions: ASCII digits only. */
  predicate IsDigit(c: char) {
    '0' <= c <= '9'
  }

  predicate AllDigits(s: string) {
    forall i :: 0 <= i < |s| ==> IsDigit(s[i])
  }

  predicate AllSpace(s: string) {
    forall i :: 0 <= i < |s| ==> IsSpace(s[i])
  }

  predicate HasPrefix(s: string, p: string) {
    |p| <= |s| && s[..|p|] == p
  }

  predicate HasSuffix(s: string, p: string) {
    |p| <= |s| && s[|s| - |p|..] == p
  }

  function TrimPrefix(s: string, p: string): (r: string)
    ensures HasPrefix(s, p) ==> p + r == s
    ensures !HasPrefix(s, p) ==> r == s
  {
    if HasPrefix(s, p) then s[|p|..] else s
  }

  function TrimSuffix(s: string, p: string): (r: string)
    ensures HasSuffix(s, p) ==> r + p == s
    ensures !HasSuffix(s, p) ==> r == s
  {
    if HasSuffix(s, p) then s[..|s| - |p|] else s
  }

  /** Removes leading white space (TrimLeftShape states it). */
  function TrimLeft(s: string): string {
    if |s| > 0 && IsSpace(s[0]) then TrimLeft(s[1..]) else s
  }

  /** Removes trailing white space (TrimRightShape states it). */
  function TrimRight(s: string): string {
    if |s| > 0 && IsSpace(s[|s| - 1]) then TrimRight(s[..|s| - 1]) else s
  }

  lemma {:induction false} TrimLeftShape(s: string)
    ensures var r := TrimLeft(s);
            |r| <= |s| && r == s[|s| - |r|..] && AllSpace(s[..|s| - |r|])
            && (r == [] || !IsSpace(r[0]))
  {
    if |s| > 0 && IsSpace(s[0]) {
      TrimLeftShape(s[1..]);
      var r := TrimLeft(s[1..]);
      assert s[1..][..|s| - 1 - |r|] == s[1..|s| - |r|];
    }
  }

  lemma {:induction false} TrimRightShape(s: string)
    ensures var r := TrimRight(s);
            |r| <= |s| && r == s[..|r|] && AllSpace(s[|r|..])
            && (r == [] || !IsSpace(r[|r| - 1]))
  {
    if |s| > 0 && IsSpace(s[|s| - 1]) {
      var t := s[..|s| - 1];
      TrimRightShape(t);
      var r := TrimRight(t);
      assert t[|r|..] == s[|r|..|s| - 1];
      assert s[|r|..] == t[|r|..] + [s[|s| - 1]];
      assert AllSpace(s[|r|..]) by {
        forall i | 0 <= i < |s[|r|..]| ensures IsSpace(s[|r|..][i]) {
          if i < |t| - |r| {
            assert s[|r|..][i] == t[|r|..][i];
          }
        }
      }
    }
  }

  /** `strings.TrimSpace`: the text with white space removed at both ends
      (TrimSpaceShape states it). */
  function TrimSpace(s: string): string {
    TrimRight(TrimLeft(s))
  }

  /** What TrimSpace keeps is an infix of its argument, with nothing but
      white space around it and none at either of its ends. */
  lemma {:induction false} TrimSpaceShape(s: string)
    ensures var r := TrimSpace(s);
            exists a :: 0 <= a && a + |r| <= |s| && r == s[a..a + |r|]
                        && AllSpace(s[..a]) && AllSpace(s[a + |r|..])
    ensures var r := TrimSpace(s);
            r == [] || (!IsSpace(r[0]) && !IsSpace(r[|r| - 1]))
  {
    var l := TrimLeft(s);
    TrimLeftShape(s);
    var r := TrimRight(l);
    TrimRightShape(l);
    if r != [] {
      assert r[0] == l[0];
    }
    var a := |s| - |l|;
    assert s[a..a + |r|] == r;
    assert s[a + |r|..] == l[|r|..];
    assert s[..a] == s[..|s| - |l|];
  }

  /** Leading white space does not change what TrimSpace keeps. */
  lemma {:induction false} TrimSpaceSkip(ws: string, x: string)
    requires AllSpace(ws)
    ensures TrimSpace(ws + x) == TrimSpace(x)
  {
    TrimLeftSkip(ws, x);
  }

  lemma {:induction false} TrimLeftSkip(ws: string, x: string)
    requires AllSpace(ws)
    ensures TrimLeft(ws + x) == TrimLeft(x)
    decreases |ws|
  {
    if |ws| > 0 {
      assert (ws + x)[1..] == ws[1..] + x;
      TrimLeftSkip(ws[1..], x);
    } else {
      assert ws + x == x;
    }
  }

  /** The end of the run of `\s` characters that starts at `i`. */
  function SpanSpace(s: string, i: nat): (r: nat)
    requires i <= |s|
    ensures i <= r <= |s|
    ensures forall j :: i <= j < r ==> IsRegexSpace(s[j])
    ensures r == |s| || !IsRegexSpace(s[r])
    decreases |s| - i
  {
    if i < |s| && IsRegexSpace(s[i]) then SpanSpace(s, i + 1) else i
  }

  /** The end of the run of `\S` characters that starts at `i`. */
  function SpanNonSpace(s: string, i: nat): (r: nat)
    requires i <= |s|
    ensures i <= r <= |s|
    ensures forall j :: i <= j < r ==> !IsRegexSpace(s[j])
    ensures r == |s| || IsRegexSpace(s[r])
    decreases |s| - i
  {
    if i < |s| && !IsRegexSpace(s[i]) then SpanNonSpace(s, i + 1) else i
  }

  /** The end of the run of `\d` characters that starts at `i`. */
  function SpanDigits(s: string, i: nat): (r: nat)
    requires i <= |s|
    ensures i <= r <= |s|
    ensures forall j :: i <= j < r ==> IsDigit(s[j])
    ensures r == |s| || !IsDigit(s[r])
    decreases |s| - i
  {
    if i < |s| && IsDigit(s[i]) then SpanDigits(s, i + 1) else i
  }

  lemma {:induction false} SpanSpaceExact(s: string, i: nat, k: nat)
    requires i <= k <= |s|
    requires forall j :: i <= j < k ==> IsRegexSpace(s[j])
    requires k == |s| || !IsRegexSpace(s[k])
    ensures SpanSpace(s, i) == k
    decreases k - i
  {
    if i < k {
      SpanSpaceExact(s, i + 1, k);
    }
  }

  lemma {:induction false} SpanNonSpaceExact(s: string, i: nat, k: nat)
    requires i <= k <= |s|
    requires forall j :: i <= j < k ==> !IsRegexSpace(s[j])
    requires k == |s| || IsRegexSpace(s[k])
    ensures SpanNonSpace(s, i) == k
    decreases k - i
  {
    if i < k {
      SpanNonSpaceExact(s, i + 1, k);
    }
  }

  /** A text that neither starts nor ends with white space is its own
      TrimSpace. */
  lemma {:induction false} TrimSpaceNoop(s: string)
    requires s == [] || (!IsSpace(s[0]) && !IsSpace(s[|s| - 1]))
    ensures TrimSpace(s) == s
  {
  }

  /** Trimming twice is trimming once. */
  lemma {:induction false} TrimSpaceIdem(s: string)
    ensures TrimSpace(TrimSpace(s)) == TrimSpace(s)
  {
    TrimSpaceShape(s);
    TrimSpaceNoop(TrimSpace(s));
  }

  /** Removes every leading copy of `c`. */
  function TrimCharLeft(s: string, c: char): (r: string)
    ensures |r| <= |s| && r == s[|s| - |r|..]
    ensures forall i :: 0 <= i < |s| - |r| ==> s[i] == c
    ensures r == [] || r[0] != c
  {
    if |s| > 0 && s[0] == c then TrimCharLeft(s[1..], c) else s
  }

  /** Removes every trailing copy of `c`. */
  function TrimCharRight(s: string, c: char): (r: string)
    ensures |r| <= |s| && r == s[..|r|]
    ensures forall i :: |r| <= i < |s| ==> s[i] == c
    ensures r == [] || r[|r| - 1] != c
  {
    if |s| > 0 && s[|s| - 1] == c then TrimCharRight(s[..|s| - 1], c) else s
  }

  /** `strings.Trim(s, string(c))`: removes every copy of `c` at both ends. */
  function TrimChar(s: string, c: char): (r: string)
    ensures |r| <= |s|
    ensures r == [] || (r[0] != c && r[|r| - 1] != c)
  {
    TrimCharRight(TrimCharLeft(s, c), c)
  }

  predicate OccursAt(s: string, p: string, j: nat) {
    j + |p| <= |s| && s[j..j + |p|] == p
  }

  lemma {:induction false} OccursAtSuffix(s: string, k: nat, p: string, j: nat)
    requires k <= |s|
    ensures OccursAt(s[k..], p, j) <==> OccursAt(s, p, k + j)
  {
    if k + j + |p| <= |s| {
      assert s[k..][j..j + |p|] == s[k + j..k + j + |p|];
    }
  }

  /** The first position at or after `from` where `p` occurs in `s`. */
  function IndexOf(s: string, p: string, from: nat): (r: Option<nat>)
    ensures r.Some? ==> from <= r.value && OccursAt(s, p, r.value)
    ensures r.Some? ==> forall j :: from <= j < r.value ==> !OccursAt(s, p, j)
    ensures r.None? ==> forall j :: from <= j ==> !OccursAt(s, p, j)
    decreases |s| - from
  {
    if from + |p| > |s| then None
    else if s[from..from + |p|] == p then Some(from)
    else IndexOf(s, p, from + 1)
  }

  /** `strings.Contains`. */
  predicate Contains(s: string, p: string) {
    IndexOf(s, p, 0).Some?
  }

  /** The first position of `c` in `s`. */
  function IndexOfChar(s: string, c: char): (r: Option<nat>)
    ensures r.Some? ==> r.value < |s| && s[r.value] == c
    ensures r.Some? ==> forall j :: 0 <= j < r.value ==> s[j] != c
    ensures r.None? ==> c !in s
  {
    if |s| == 0 then None
    else if s[0] == c then Some(0)
    else match IndexOfChar(s[1..], c)
      case None => None
      case Some(i) => Some(i + 1)
  }

  /** `strings.Split` with a one-character separator. */
  function Split(s: string, c: char): (r: seq<string>)
    ensures |r| >= 1
    ensures forall i :: 0 <= i < |r| ==> c !in r[i]
    decreases |s|
  {
    match IndexOfChar(s, c)
    case None => [s]
    case Some(i) => [s[..i]] + Split(s[i + 1..], c)
  }

  /** `strings.Join`. */
  function Join(parts: seq<string>, sep: string): string
  {
    if |parts| == 0 then ""
    else if |parts| == 1 then parts[0]
    else parts[0] + sep + Join(parts[1..], sep)
  }

  /** Splitting and joining again on the same character gives back the text. */
  lemma {:induction false} JoinSplit(s: string, c: char)
    ensures Join(Split(s, c), [c]) == s
    decreases |s|
  {
    match IndexOfChar(s, c)
    case None =>
    case Some(i) =>
      var rest := Split(s[i + 1..], c);
      var parts := [s[..i]] + rest;
      assert Split(s, c) == parts;
      assert parts[1..] == rest;
      assert Join(parts, [c]) == s[..i] + [c] + Join(rest, [c]);
      JoinSplit(s[i + 1..], c);
      assert s == s[..i] + [c] + s[i + 1..];
  }

  /** Joining pieces that do not contain the separator and splitting again
      gives back the pieces. */
  lemma {:induction false} SplitJoin(parts: seq<string>, c: char)
    requires |parts| >= 1
    requires forall i :: 0 <= i < |parts| ==> c !in parts[i]
    ensures Split(Join(parts, [c]), c) == parts
  {
    var s := Join(parts, [c]);
    if |parts| == 1 {
      assert IndexOfChar(s, c).None?;
    } else {
      var rest := Join(parts[1..], [c]);
      assert s == parts[0] + [c] + rest;
      var k := |parts[0]|;
      assert s[k] == c;
      assert forall j :: 0 <= j < k ==> s[j] == parts[0][j];
      assert IndexOfChar(s, c) == Some(k);
      assert s[..|parts[0]|] == parts[0];
      assert s[|parts[0]| + 1..] == rest;
      SplitJoin(parts[1..], c);
    }
  }

  /** `strings.Cut` with a one-character separator: the text before and after
      the first `c`. */
  function Cut(s: string, c: char): (r: Option<(string, string)>)
    ensures r.None? <==> c !in s
    ensures r.Some? ==> s == r.value.0 + [c] + r.value.1 && c !in r.value.0
  {
    match IndexOfChar(s, c)
    case None => None
    case Some(i) =>
      assert s == s[..i] + [c] + s[i + 1..];
      assert forall j :: 0 <= j < i ==> s[..i][j] == s[j];
      Some((s[..i], s[i + 1..]))
  }

  /** `strings.ReplaceAll`: every non-overlapping occurrence of `pat`, scanned
      from the left, replaced by `rep`. */
  function ReplaceAll(s: string, pat: string, rep: string): string
    requires |pat| > 0
    decreases |s|
  {
    if |s| < |pat| then s
    else if s[..|pat|] == pat then rep + ReplaceAll(s[|pat|..], pat, rep)
    else [s[0]] + ReplaceAll(s[1..], pat, rep)
  }

  lemma {:induction false} OccursShift(s: string, p: string, j: nat)
    requires |s| > 0
    ensures OccursAt(s[1..], p, j) <==> OccursAt(s, p, j + 1)
  {
    if j + |p| <= |s| - 1 {
      assert s[1..][j..j + |p|] == s[j + 1..j + 1 + |p|];
    }
  }

  /** Text in which the pattern never occurs is left unchanged. */
  lemma {:induction false} ReplaceAllAbsent(s: string, pat: string, rep: string)
    requires |pat| > 0
    requires forall j :: 0 <= j ==> !OccursAt(s, pat, j)
    ensures ReplaceAll(s, pat, rep) == s
    decreases |s|
  {
    if |s| >= |pat| {
      assert !OccursAt(s, pat, 0);
      forall j | 0 <= j ensures !OccursAt(s[1..], pat, j) {
        assert !OccursAt(s, pat, j + 1);
        OccursShift(s, pat, j);
      }
      ReplaceAllAbsent(s[1..], pat, rep);
    }
  }

  /** Replacing leaves alone a prefix in which no occurrence starts, and
      carries on after it. */
  lemma {:induction false} ReplaceAllPrefix(x: string, pat: string, y: string, rep: string)
    requires |pat| > 0
    requires forall j :: 0 <= j < |x| ==> !OccursAt(x + y, pat, j)
    ensures ReplaceAll(x + y, pat, rep) == x + ReplaceAll(y, pat, rep)
    decreases |x|
  {
    var s := x + y;
    if |x| == 0 {
      assert s == y;
    } else {
      var t := x[1..] + y;
      assert s[1..] == t;
      assert !OccursAt(s, pat, 0);
      assert ReplaceAll(s, pat, rep) == [x[0]] + ReplaceAll(t, pat, rep);
      forall j | 0 <= j < |x| - 1 ensures !OccursAt(t, pat, j) {
        assert !OccursAt(s, pat, j + 1);
        OccursShift(s, pat, j);
      }
      ReplaceAllPrefix(x[1..], pat, y, rep);
      assert [x[0]] + x[1..] == x;
    }
  }

  /** Replacing leaves the text before the first occurrence alone, puts the
      replacement in place of that occurrence and carries on after it. */
  lemma {:induction false} ReplaceAllFirst(x: string, pat: string, y: string, rep: string)
    requires |pat| > 0
    requires forall j :: 0 <= j < |x| ==> !OccursAt(x + pat + y, pat, j)
    ensures ReplaceAll(x + pat + y, pat, rep) == x + rep + ReplaceAll(y, pat, rep)
  {
    assert x + pat + y == x + (pat + y);
    ReplaceAllPrefix(x, pat, pat + y, rep);
    var s := pat + y;
    assert s[..|pat|] == pat && s[|pat|..] == y;
  }

  function LowerAscii(c: char): char {
    if 'A' <= c <= 'Z' then (c as int + 32) as char else c
  }

  predicate IsAsciiLetter(c: char) {
    ('A' <= c <= 'Z') || ('a' <= c <= 'z')
  }

  /** Case-insensitive match of a character against an ASCII literal
      character under Go's simple case folding: the ASCII case pair, and
      also U+017F for `s` and U+212A (Kelvin sign) for `k`. */
  predicate FoldMatch(c: char, lit: char) {
    c == lit
    || (IsAsciiLetter(lit)
        && (LowerAscii(c) == LowerAscii(lit)
            || (LowerAscii(lit) == 's' && c == '\U{017F}')
            || (LowerAscii(lit) == 'k' && c == '\U{212A}')))
  }

  /** `s` begins with the ASCII literal `lit`, ignoring case. */
  predicate HasPrefixFold(s: string, lit: string) {
    |lit| <= |s| && forall i :: 0 <= i < |lit| ==> FoldMatch(s[i], lit[i])
  }

  /** `strings.EqualFold(s, lit)` for an ASCII literal `lit`. */
  predicate EqualFold(s: string, lit: string) {
    |s| == |lit| && HasPrefixFold(s, lit)
  }

  // ---- integers ----

  const MinInt64: int := -0x8000_0000_0000_0000
  const MaxInt64: int := 0x7FFF_FFFF_FFFF_FFFF

  predicate IsInt64(i: int) {
    MinInt64 <= i <= MaxInt64
  }

  function DigitValue(c: char): nat
    requires IsDigit(c)
  {
    c as int - '0' as int
  }

  function DigitChar(d: nat): (c: char)
    requires d < 10
    ensures IsDigit(c) && DigitValue(c) == d
  {
    ('0' as int + d) as char
  }

  /** The number a run of decimal digits denotes. */
  function DigitsValue(ds: string): nat
    requires AllDigits(ds)
  {
    if |ds| == 0 then 0 else DigitsValue(ds[..|ds| - 1]) * 10 + DigitValue(ds[|ds| - 1])
  }

  /** `strconv.ParseInt(s, 10, 64)` (and `strconv.Atoi` on a 64-bit
      platform): an optional sign, one or more ASCII digits, and a value that
      fits in 64 bits. */
  function ParseInt64(s: string): (r: Option<int>)
    ensures r.Some? ==> IsInt64(r.value)
    ensures r.Some? ==> |s| > 0 && AllDigits(if s[0] == '+' || s[0] == '-' then s[1..] else s)
  {
    if |s| == 0 then None
    else
      var digits := if s[0] == '+' || s[0] == '-' then s[1..] else s;
      if |digits| == 0 || !AllDigits(digits) then None
      else
        var n: int := if s[0] == '-' then -(DigitsValue(digits) as int) else DigitsValue(digits);
        if IsInt64(n) then Some(n) else None
  }

  /** Decimal digits of a natural number, without leading zeros. */
  function FormatNat(n: nat): (r: string)
    ensures |r| >= 1 && AllDigits(r)
  {
    if n < 10 then [DigitChar(n)] else FormatNat(n / 10) + [DigitChar(n % 10)]
  }

  /** `strconv.FormatInt(i, 10)`, which is also what `%v` prints for an integer. */
  function FormatInt(i: int): (r: string)
    ensures |r| >= 1
  {
    if i < 0 then "-" + FormatNat(-i) else FormatNat(i)
  }

  lemma {:induction false} DigitsOfFormatNat(n: nat)
    ensures DigitsValue(FormatNat(n)) == n
  {
    if n >= 10 {
      var f := FormatNat(n / 10) + [DigitChar(n % 10)];
      assert f[..|f| - 1] == FormatNat(n / 10);
      DigitsOfFormatNat(n / 10);
    }
  }

  /** Parsing the decimal rendering of a 64-bit integer gives it back. */
  lemma {:induction false} ParseFormatInt(i: int)
    requires IsInt64(i)
    ensures ParseInt64(FormatInt(i)) == Some(i)
  {
    var s := FormatInt(i);
    if i < 0 {
      assert s[1..] == FormatNat(-i);
      DigitsOfFormatNat(-i);
    } else {
      DigitsOfFormatNat(i);
    }
  }

  /** The decimal rendering of an integer is never a word like `true`, and
      never starts with a quote. */
  lemma {:induction false} FormatIntShape(i: int)
    ensures |FormatInt(i)| > 0 && FormatInt(i)[0] != '"'
    ensures FormatInt(i) != "true" && FormatInt(i) != "false"
  {
    var s := FormatInt(i);
    if i >= 0 {
      assert IsDigit(s[0]);
    } else {
      assert s[0] == '-';
    }
  }
}
