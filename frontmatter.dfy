/** `parseFrontmatter` (parser.go): the leading `---` block of a test file,
    which may set `root:` and a `headers:` section of indented `Name: value`
    lines, and the text that follows it. */
module Frontmatter {
  import opened Wrappers
  import opened Text
  import opened Assoc
  import opened Types

  const NoDefaults: Defaults := Defaults("", [])

  /** The scanner's variables while it walks the block: the root so far,
      the headers so far and whether it is inside the `headers:` section. */
  datatype ScanState = ScanState(root: string, headers: Headers, inHeaders: bool)

  const Start: ScanState := ScanState("", [], false)

  predicate Indented(line: string) {
    HasPrefix(line, "  ") || HasPrefix(line, "\t")
  }

  predicate IsRootLine(line: string) {
    HasPrefix(TrimSpace(line), "root:")
  }

  /** The root a `root:` line sets: its value trimmed, less one trailing "/". */
  function RootValue(line: string): string
    requires IsRootLine(line)
  {
    TrimSuffix(TrimSpace(TrimSpace(line)[5..]), "/")
  }

  /** A line that the scanner reads as a header entry when it is inside the
      headers section. */
  predicate IsEntryLine(line: string) {
    var t := TrimSpace(line);
    t != "" && !HasPrefix(t, "root:") && t != "headers:" && Indented(line) && ':' in t
  }

  function EntryKey(line: string): string
    requires IsEntryLine(line)
  {
    TrimSpace(Cut(TrimSpace(line), ':').value.0)
  }

  function EntryValue(line: string): string
    requires IsEntryLine(line)
  {
    TrimSpace(Cut(TrimSpace(line), ':').value.1)
  }

  /** One turn of the loop at parser.go:79-114. */
  function Step(st: ScanState, line: string): ScanState {
    var trimmed := TrimSpace(line);
    if trimmed == "" then st
    else if HasPrefix(trimmed, "root:") then
      st.(root := TrimSuffix(TrimSpace(TrimPrefix(trimmed, "root:")), "/"), inHeaders := false)
    else if trimmed == "headers:" then st.(inHeaders := true)
    else if st.inHeaders && Indented(line) then
      match Cut(trimmed, ':')
      case Some((k, v)) => st.(headers := Put(st.headers, TrimSpace(k), TrimSpace(v)))
      case None => st
    else st.(inHeaders := false)
  }

  /** The scanner's state after the lines `lo .. hi-1`. */
  function Scan(lines: seq<string>, lo: nat, hi: nat): ScanState
    requires lo <= hi <= |lines|
    decreases hi - lo
  {
    if hi == lo then Start else Step(Scan(lines, lo, hi - 1), lines[hi - 1])
  }

  predicate IsDelimiter(line: string) {
    TrimSpace(line) == "---"
  }

  /** The first delimiter line at or after `from`. */
  function ClosingLine(lines: seq<string>, from: nat): (r: Option<nat>)
    requires from <= |lines|
    ensures r.Some? ==> from <= r.value < |lines| && IsDelimiter(lines[r.value])
    ensures r.Some? ==> forall j {:trigger IsDelimiter(lines[j])} :: from <= j < r.value ==> !IsDelimiter(lines[j])
    ensures r.None? ==> forall j {:trigger IsDelimiter(lines[j])} :: from <= j < |lines| ==> !IsDelimiter(lines[j])
    decreases |lines| - from
  {
    if from == |lines| then None
    else if IsDelimiter(lines[from]) then Some(from)
    else ClosingLine(lines, from + 1)
  }

  /** What `parseFrontmatter` returns for `content`. */
  function Frontmatter(content: string): (r: (Defaults, string))
    ensures !HasPrefix(TrimSpace(content), "---") ==> r == (NoDefaults, content)
    ensures HasPrefix(TrimSpace(content), "---") && !Wellformed(content) ==>
              r.0 == NoDefaults && r.1 == TrimSpace(content)
    ensures Wellformed(content) ==>
              var lines := Split(TrimSpace(content), '\n');
              var e := ClosingLine(lines, 1).value;
              r.1 == Join(lines[e + 1..], "\n")
  {
    if !HasPrefix(TrimSpace(content), "---") then (NoDefaults, content)
    else
      var text := TrimSpace(content);
      var lines := Split(text, '\n');
      if |lines| < 2 || !IsDelimiter(lines[0]) then (NoDefaults, text)
      else match ClosingLine(lines, 1)
        case None => (NoDefaults, text)
        case Some(e) =>
          var st := Scan(lines, 1, e);
          (Defaults(st.root, st.headers), Join(lines[e + 1..], "\n"))
  }

  /** An opening line that is exactly `---` and a closing one later. */
  predicate Wellformed(content: string) {
    var lines := Split(TrimSpace(content), '\n');
    HasPrefix(TrimSpace(content), "---") && |lines| >= 2 && IsDelimiter(lines[0])
    && ClosingLine(lines, 1).Some?
  }

  /** `parseFrontmatter`. */
  method ParseFrontmatter(content: string) returns (defaults: Defaults, remaining: string)
    ensures (defaults, remaining) == Frontmatter(content)
  {
    defaults := NoDefaults;
    if !HasPrefix(TrimSpace(content), "---") {
      return defaults, content;
    }
    var text := TrimSpace(content);
    var lines := Split(text, '\n');
    if |lines| < 2 || TrimSpace(lines[0]) != "---" {
      return defaults, text;
    }

    var endIdx := FindClosing(lines);
    if endIdx == -1 {
      return defaults, text;
    }

    var root, headers, inHeaders := "", [], false;
    var i := 1;
    while i < endIdx
      invariant 1 <= i <= endIdx
      invariant ScanState(root, headers, inHeaders) == Scan(lines, 1, i)
    {
      root, headers, inHeaders := ScanLine(root, headers, inHeaders, lines[i]);
      i := i + 1;
    }
    remaining := Join(lines[endIdx + 1..], "\n");
    defaults := Defaults(root, headers);
  }

  /** The search for the closing `---` (parser.go:64-71): its index, or -1. */
  method FindClosing(lines: seq<string>) returns (endIdx: int)
    requires |lines| >= 1
    ensures ClosingLine(lines, 1).None? ==> endIdx == -1
    ensures ClosingLine(lines, 1).Some? ==> endIdx == ClosingLine(lines, 1).value
  {
    endIdx := -1;
    var i := 1;
    while i < |lines|
      invariant 1 <= i <= |lines|
      invariant endIdx == -1 && ClosingLine(lines, i) == ClosingLine(lines, 1)
    {
      if TrimSpace(lines[i]) == "---" {
        endIdx := i;
        break;
      }
      i := i + 1;
    }
  }

  /** One turn of the scanning loop (parser.go:79-114). */
  method ScanLine(root: string, headers: Headers, inHeaders: bool, line: string)
    returns (root': string, headers': Headers, inHeaders': bool)
    ensures ScanState(root', headers', inHeaders') == Step(ScanState(root, headers, inHeaders), line)
  {
    root', headers', inHeaders' := root, headers, inHeaders;
    var trimmed := TrimSpace(line);
    if trimmed == "" {
      return;
    }
    if HasPrefix(trimmed, "root:") {
      root' := TrimSpace(TrimPrefix(trimmed, "root:"));
      root' := TrimSuffix(root', "/");
      inHeaders' := false;
      return;
    }
    if trimmed == "headers:" {
      inHeaders' := true;
      return;
    }
    if inHeaders && (HasPrefix(line, "  ") || HasPrefix(line, "\t")) {
      match Cut(trimmed, ':') {
        case Some((k, v)) =>
          headers' := Put(headers, TrimSpace(k), TrimSpace(v));
        case None =>
      }
    } else {
      inHeaders' := false;
    }
  }

  // ---- what the scan computes, stated without the scan ----

  /** A `root:` line sets the root and closes the headers section; no
      other line touches the root. */
  lemma {:induction false} StepRoot(st: ScanState, line: string)
    ensures IsRootLine(line) ==> Step(st, line).root == RootValue(line) && !Step(st, line).inHeaders
    ensures !IsRootLine(line) ==> Step(st, line).root == st.root
  {
  }

  /** Without a `root:` line the root stays empty. */
  lemma {:induction false} RootWithoutRootLine(lines: seq<string>, lo: nat, hi: nat)
    requires lo <= hi <= |lines|
    requires forall j {:trigger IsRootLine(lines[j])} :: lo <= j < hi ==> !IsRootLine(lines[j])
    ensures Scan(lines, lo, hi).root == ""
    decreases hi - lo
  {
    if hi > lo {
      RootWithoutRootLine(lines, lo, hi - 1);
      StepRoot(Scan(lines, lo, hi - 1), lines[hi - 1]);
    }
  }

  /** The root is the value of the last `root:` line. */
  lemma {:induction false} RootIsLastRootLine(lines: seq<string>, lo: nat, hi: nat, j: nat)
    requires lo <= j < hi <= |lines|
    requires IsRootLine(lines[j])
    requires forall m {:trigger IsRootLine(lines[m])} :: j < m < hi ==> !IsRootLine(lines[m])
    ensures Scan(lines, lo, hi).root == RootValue(lines[j])
    decreases hi - lo
  {
    StepRoot(Scan(lines, lo, hi - 1), lines[hi - 1]);
    if j < hi - 1 {
      RootIsLastRootLine(lines, lo, hi - 1, j);
    }
  }

  /** A line that neither ends nor restarts the headers section. */
  predicate Continues(line: string) {
    var t := TrimSpace(line);
    t == "" || t == "headers:" || (!HasPrefix(t, "root:") && Indented(line))
  }

  /** Line `j` lies inside a headers section: some earlier line is exactly
      `headers:` and every line between the two keeps the section open. */
  predicate InHeadersBefore(lines: seq<string>, lo: nat, j: nat)
    requires lo <= j <= |lines|
  {
    exists h {:trigger TrimSpace(lines[h])} :: lo <= h < j && TrimSpace(lines[h]) == "headers:"
                && forall m {:trigger Continues(lines[m])} :: h < m < j ==> Continues(lines[m])
  }

  /** How one line moves the `inHeaders` flag. */
  lemma {:induction false} StepFlag(st: ScanState, line: string)
    ensures TrimSpace(line) == "headers:" ==> Step(st, line).inHeaders
    ensures !Continues(line) ==> !Step(st, line).inHeaders
    ensures Continues(line) && TrimSpace(line) != "headers:" ==> Step(st, line).inHeaders == st.inHeaders
  {
    var t := TrimSpace(line);
    if t == "headers:" {
      assert t[0] == 'h' && t != "";
      assert !HasPrefix(t, "root:");
    }
  }

  /** The same, line by line: the line before `j` is `headers:`, or keeps
      the section open and the section was open before it. */
  predicate InSection(lines: seq<string>, lo: nat, j: nat)
    requires lo <= j <= |lines|
    decreases j - lo
  {
    j > lo && (TrimSpace(lines[j - 1]) == "headers:" || (Continues(lines[j - 1]) && InSection(lines, lo, j - 1)))
  }

  /** The two readings agree. */
  lemma {:induction false} InSectionBefore(lines: seq<string>, lo: nat, j: nat)
    requires lo <= j <= |lines|
    ensures InSection(lines, lo, j) <==> InHeadersBefore(lines, lo, j)
    decreases j - lo
  {
    if j > lo {
      InSectionBefore(lines, lo, j - 1);
      if TrimSpace(lines[j - 1]) == "headers:" {
        assert InHeadersBefore(lines, lo, j);
      } else if Continues(lines[j - 1]) {
        InHeadersCarry(lines, lo, j);
      } else {
        InHeadersBroken(lines, lo, j);
      }
    }
  }

  /** The scanner's `inHeaders` flag says exactly that. */
  lemma {:induction false} InHeadersExact(lines: seq<string>, lo: nat, j: nat)
    requires lo <= j <= |lines|
    ensures Scan(lines, lo, j).inHeaders <==> InSection(lines, lo, j)
    ensures Scan(lines, lo, j).inHeaders <==> InHeadersBefore(lines, lo, j)
    decreases j - lo
  {
    InSectionBefore(lines, lo, j);
    if j > lo {
      InHeadersExact(lines, lo, j - 1);
      StepFlag(Scan(lines, lo, j - 1), lines[j - 1]);
    }
  }

  /** A line that keeps the section open, and is not `headers:` itself,
      leaves the predicate as it was. */
  lemma {:induction false} InHeadersCarry(lines: seq<string>, lo: nat, j: nat)
    requires lo < j <= |lines|
    requires Continues(lines[j - 1]) && TrimSpace(lines[j - 1]) != "headers:"
    ensures InHeadersBefore(lines, lo, j) <==> InHeadersBefore(lines, lo, j - 1)
  {
    InHeadersExtend(lines, lo, j);
    InHeadersShrink(lines, lo, j);
  }

  /** A line that keeps the section open extends it. */
  lemma {:induction false} InHeadersExtend(lines: seq<string>, lo: nat, j: nat)
    requires lo < j <= |lines| && Continues(lines[j - 1])
    ensures InHeadersBefore(lines, lo, j - 1) ==> InHeadersBefore(lines, lo, j)
  {
    if InHeadersBefore(lines, lo, j - 1) {
      var h {:trigger TrimSpace(lines[h])} :| lo <= h < j - 1 && TrimSpace(lines[h]) == "headers:"
               && forall m {:trigger Continues(lines[m])} :: h < m < j - 1 ==> Continues(lines[m]);
      assert forall m {:trigger Continues(lines[m])} :: h < m < j ==> Continues(lines[m]);
    }
  }

  /** A section open after a line other than `headers:` was open before it. */
  lemma {:induction false} InHeadersShrink(lines: seq<string>, lo: nat, j: nat)
    requires lo < j <= |lines| && TrimSpace(lines[j - 1]) != "headers:"
    ensures InHeadersBefore(lines, lo, j) ==> InHeadersBefore(lines, lo, j - 1)
  {
    if InHeadersBefore(lines, lo, j) {
      var h {:trigger TrimSpace(lines[h])} :| lo <= h < j && TrimSpace(lines[h]) == "headers:"
               && forall m {:trigger Continues(lines[m])} :: h < m < j ==> Continues(lines[m]);
      assert h < j - 1;
      assert forall m {:trigger Continues(lines[m])} :: h < m < j - 1 ==> Continues(lines[m]);
    }
  }

  /** A line that closes the section makes the predicate false. */
  lemma {:induction false} InHeadersBroken(lines: seq<string>, lo: nat, j: nat)
    requires lo < j <= |lines|
    requires !Continues(lines[j - 1])
    ensures !InHeadersBefore(lines, lo, j)
  {
  }

  /** Line `j` sets a header. */
  predicate EntryAt(lines: seq<string>, lo: nat, j: nat)
    requires lo <= j < |lines|
  {
    InSection(lines, lo, j) && IsEntryLine(lines[j])
  }

  /** One line's effect on the headers: an entry line inside a headers
      section sets its key, any other line leaves them alone. */
  lemma {:induction false} HeadersStep(lines: seq<string>, lo: nat, hi: nat)
    requires lo < hi <= |lines| && Distinct(Scan(lines, lo, hi - 1).headers)
    ensures Distinct(Scan(lines, lo, hi).headers)
    ensures ToMap(Scan(lines, lo, hi).headers) ==
      if EntryAt(lines, lo, hi - 1) then ToMap(Scan(lines, lo, hi - 1).headers)[EntryKey(lines[hi - 1]) := EntryValue(lines[hi - 1])]
      else ToMap(Scan(lines, lo, hi - 1).headers)
  {
    var j := hi - 1;
    InHeadersExact(lines, lo, j);
    var before := Scan(lines, lo, j);
    var line := lines[j];
    if EntryAt(lines, lo, j) {
      var t := TrimSpace(line);
      var kv := Cut(t, ':').value;
      assert Scan(lines, lo, hi).headers == Put(before.headers, TrimSpace(kv.0), TrimSpace(kv.1));
      PutDistinct(before.headers, EntryKey(line), EntryValue(line));
      PutToMap(before.headers, EntryKey(line), EntryValue(line));
    } else {
      assert Scan(lines, lo, hi).headers == before.headers;
    }
  }

  /** The headers the entry lines among lines `lo .. hi-1` give, each
      setting its key in turn. */
  function HeaderMap(lines: seq<string>, lo: nat, hi: nat): map<string, string>
    requires lo <= hi <= |lines|
    decreases hi - lo
  {
    if hi == lo then map[]
    else
      var m := HeaderMap(lines, lo, hi - 1);
      if EntryAt(lines, lo, hi - 1) then m[EntryKey(lines[hi - 1]) := EntryValue(lines[hi - 1])] else m
  }

  /** The scanner's headers never repeat a key and hold that map. */
  lemma {:induction false} ScanHeaderMap(lines: seq<string>, lo: nat, hi: nat)
    requires lo <= hi <= |lines|
    ensures Distinct(Scan(lines, lo, hi).headers)
    ensures ToMap(Scan(lines, lo, hi).headers) == HeaderMap(lines, lo, hi)
    decreases hi - lo
  {
    if hi > lo {
      ScanHeaderMap(lines, lo, hi - 1);
      HeadersStep(lines, lo, hi);
    }
  }

  /** A key that is set comes from some entry line. */
  lemma {:induction false} HeaderMapHas(lines: seq<string>, lo: nat, hi: nat, k: string)
    requires lo <= hi <= |lines| && k in HeaderMap(lines, lo, hi)
    ensures exists j {:trigger EntryAt(lines, lo, j)} :: lo <= j < hi && EntryAt(lines, lo, j) && EntryKey(lines[j]) == k
    decreases hi - lo
  {
    var last := hi - 1;
    HeaderMapStep(lines, lo, hi, k);
    if EntryAt(lines, lo, last) && EntryKey(lines[last]) == k {
      assert lo <= last < hi && EntryAt(lines, lo, last) && EntryKey(lines[last]) == k;
    } else {
      HeaderMapHas(lines, lo, last, k);
      var j {:trigger EntryAt(lines, lo, j)} :| lo <= j < last && EntryAt(lines, lo, j) && EntryKey(lines[j]) == k;
      assert lo <= j < hi;
    }
  }

  /** A key no entry line has is not set. */
  lemma {:induction false} HeaderMapLacks(lines: seq<string>, lo: nat, hi: nat, k: string)
    requires lo <= hi <= |lines| && k !in HeaderMap(lines, lo, hi)
    ensures forall j {:trigger EntryAt(lines, lo, j)} :: lo <= j < hi && EntryAt(lines, lo, j) ==> EntryKey(lines[j]) != k
    decreases hi - lo
  {
    if hi > lo {
      var last := hi - 1;
      HeaderMapStep(lines, lo, hi, k);
      HeaderMapLacks(lines, lo, last, k);
      forall j {:trigger EntryAt(lines, lo, j)} | lo <= j < hi && EntryAt(lines, lo, j)
        ensures EntryKey(lines[j]) != k
      {
        if j == last {
          assert !(EntryAt(lines, lo, last) && EntryKey(lines[last]) == k);
        }
      }
    }
  }

  /** One line more sets a key when it is an entry line with that key. */
  lemma {:induction false} HeaderMapStep(lines: seq<string>, lo: nat, hi: nat, k: string)
    requires lo < hi <= |lines|
    ensures k in HeaderMap(lines, lo, hi) <==>
              k in HeaderMap(lines, lo, hi - 1) || (EntryAt(lines, lo, hi - 1) && EntryKey(lines[hi - 1]) == k)
  {
  }

  /** One line more that does not set `key` keeps its value. */
  lemma {:induction false} HeaderMapKeep(lines: seq<string>, lo: nat, hi: nat, key: string)
    requires lo < hi <= |lines| && key in HeaderMap(lines, lo, hi - 1)
    requires EntryAt(lines, lo, hi - 1) ==> EntryKey(lines[hi - 1]) != key
    ensures key in HeaderMap(lines, lo, hi) && HeaderMap(lines, lo, hi)[key] == HeaderMap(lines, lo, hi - 1)[key]
  {
  }

  /** An entry line that no later entry line overrides gives its key its
      value. */
  lemma {:induction false} HeaderMapLast(lines: seq<string>, lo: nat, hi: nat, j: nat)
    requires lo <= j < hi <= |lines| && EntryAt(lines, lo, j)
    requires forall m {:trigger EntryAt(lines, lo, m)} :: j < m < hi && EntryAt(lines, lo, m) ==> EntryKey(lines[m]) != EntryKey(lines[j])
    ensures EntryKey(lines[j]) in HeaderMap(lines, lo, hi)
    ensures HeaderMap(lines, lo, hi)[EntryKey(lines[j])] == EntryValue(lines[j])
    decreases hi - lo
  {
    var last := hi - 1;
    if last > j {
      HeaderMapLast(lines, lo, last, j);
      assert EntryAt(lines, lo, last) ==> EntryKey(lines[last]) != EntryKey(lines[j]);
      HeaderMapKeep(lines, lo, hi, EntryKey(lines[j]));
    }
  }

  /** The headers are exactly the entry lines inside headers sections, each
      key holding the value of its last entry line. */
  lemma {:induction false} HeadersFromEntries(lines: seq<string>, lo: nat, hi: nat)
    requires lo <= hi <= |lines|
    ensures Distinct(Scan(lines, lo, hi).headers)
    ensures forall k :: k in ToMap(Scan(lines, lo, hi).headers) <==>
              exists j {:trigger EntryAt(lines, lo, j)} :: lo <= j < hi && EntryAt(lines, lo, j) && EntryKey(lines[j]) == k
    ensures forall j {:trigger EntryAt(lines, lo, j)} :: lo <= j < hi && EntryAt(lines, lo, j)
              && (forall m {:trigger EntryAt(lines, lo, m)} :: j < m < hi && EntryAt(lines, lo, m) ==> EntryKey(lines[m]) != EntryKey(lines[j]))
              ==> ToMap(Scan(lines, lo, hi).headers)[EntryKey(lines[j])] == EntryValue(lines[j])
  {
    ScanHeaderMap(lines, lo, hi);
    forall k
      ensures k in HeaderMap(lines, lo, hi) <==>
              exists j {:trigger EntryAt(lines, lo, j)} :: lo <= j < hi && EntryAt(lines, lo, j) && EntryKey(lines[j]) == k
    {
      if k in HeaderMap(lines, lo, hi) {
        HeaderMapHas(lines, lo, hi, k);
      } else {
        HeaderMapLacks(lines, lo, hi, k);
      }
    }
    forall j {:trigger EntryAt(lines, lo, j)} | lo <= j < hi && EntryAt(lines, lo, j)
               && (forall m {:trigger EntryAt(lines, lo, m)} :: j < m < hi && EntryAt(lines, lo, m) ==> EntryKey(lines[m]) != EntryKey(lines[j]))
      ensures HeaderMap(lines, lo, hi)[EntryKey(lines[j])] == EntryValue(lines[j])
    {
      HeaderMapLast(lines, lo, hi, j);
    }
  }
}
