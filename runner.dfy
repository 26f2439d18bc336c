/** The runner (runner.go): the sequential loop, the flat job list of the
    parallel mode with its result slots, counts and per-file durations, and
    the gathering and sorting of test files. Running one test is a function
    from its position (file index, test index) to whether it passed and how
    long it took. */
module Runner {
  import opened Wrappers
  import opened Text
  import opened Types
  import opened Ordering
  import opened Parser

  /** What running one test gave: whether `runTest` returned no error, and
      the time it took in nanoseconds. */
  datatype RunResult = RunResult(ok: bool, duration: int)

  type Runs = (nat, nat) -> RunResult

  // ---- the job list (runner.go:82-92) ----

  /** `testJob`. */
  datatype Job = Job(filePath: string, fileIndex: nat, testIndex: nat, test: Test)

  function FileJobs(files: seq<TestFile>, fi: nat): (js: seq<Job>)
    requires fi < |files|
    ensures |js| == |files[fi].tests|
  {
    seq(|files[fi].tests|, ti requires 0 <= ti < |files[fi].tests| => Job(files[fi].path, fi, ti, files[fi].tests[ti]))
  }

  /** The jobs of the first `n` files. */
  function JobsUpTo(files: seq<TestFile>, n: nat): seq<Job>
    requires n <= |files|
  {
    if n == 0 then [] else JobsUpTo(files, n - 1) + FileJobs(files, n - 1)
  }

  function Jobs(files: seq<TestFile>): seq<Job> {
    JobsUpTo(files, |files|)
  }

  /** The number of tests in the first `n` files. */
  function TestCount(files: seq<TestFile>, n: nat): nat
    requires n <= |files|
  {
    if n == 0 then 0 else TestCount(files, n - 1) + |files[n - 1].tests|
  }

  /** The job loop. */
  method BuildJobs(files: seq<TestFile>) returns (jobs: seq<Job>)
    ensures jobs == Jobs(files)
  {
    jobs := [];
    for fi := 0 to |files|
      invariant jobs == JobsUpTo(files, fi)
    {
      var tf := files[fi];
      for ti := 0 to |tf.tests|
        invariant jobs == JobsUpTo(files, fi) + FileJobs(files, fi)[..ti]
      {
        assert FileJobs(files, fi)[..ti + 1] == FileJobs(files, fi)[..ti] + [Job(tf.path, fi, ti, tf.tests[ti])];
        jobs := jobs + [Job(tf.path, fi, ti, tf.tests[ti])];
      }
      assert FileJobs(files, fi)[..|tf.tests|] == FileJobs(files, fi);
    }
  }

  lemma {:induction false} TestCountMono(files: seq<TestFile>, a: nat, b: nat)
    requires a <= b <= |files|
    ensures TestCount(files, a) <= TestCount(files, b)
    decreases b
  {
    if a < b {
      TestCountMono(files, a, b - 1);
    }
  }

  /** Job `j` at position `k` of the first `n` files' jobs is test
      `j.testIndex` of file `j.fileIndex`, after the tests of the files
      before it. */
  predicate JobPlaced(files: seq<TestFile>, n: nat, k: nat, j: Job)
    requires n <= |files|
  {
    && j.fileIndex < n && j.testIndex < |files[j.fileIndex].tests|
    && k == TestCount(files, j.fileIndex) + j.testIndex
    && j == Job(files[j.fileIndex].path, j.fileIndex, j.testIndex, files[j.fileIndex].tests[j.testIndex])
  }

  /** There are as many jobs as tests, and job `k` is test `ti` of file `fi`
      exactly when `k` counts the tests of the files before `fi` and then
      `ti`: the list is the tests of the files in order. */
  lemma {:induction false} JobsLayout(files: seq<TestFile>, n: nat)
    requires n <= |files|
    ensures |JobsUpTo(files, n)| == TestCount(files, n)
    ensures forall k :: 0 <= k < |JobsUpTo(files, n)| ==> JobPlaced(files, n, k, JobsUpTo(files, n)[k])
    decreases n
  {
    if n > 0 {
      JobsLayout(files, n - 1);
      var pre, last := JobsUpTo(files, n - 1), FileJobs(files, n - 1);
      forall k | 0 <= k < |pre + last|
        ensures JobPlaced(files, n, k, (pre + last)[k])
      {
        if k < |pre| {
          assert (pre + last)[k] == pre[k];
        } else {
          assert (pre + last)[k] == last[k - |pre|];
        }
      }
    }
  }

  /** Every test of every file has its job, at the position JobsLayout
      gives. */
  lemma {:induction false} EveryTestHasJob(files: seq<TestFile>, n: nat, fi: nat, ti: nat)
    requires fi < n <= |files| && ti < |files[fi].tests|
    ensures TestCount(files, fi) + ti < |JobsUpTo(files, n)|
    ensures JobsUpTo(files, n)[TestCount(files, fi) + ti] == Job(files[fi].path, fi, ti, files[fi].tests[ti])
    decreases n
  {
    JobsLayout(files, n);
    var pre := JobsUpTo(files, n - 1);
    JobsLayout(files, n - 1);
    if fi < n - 1 {
      EveryTestHasJob(files, n - 1, fi, ti);
      assert JobsUpTo(files, n)[TestCount(files, fi) + ti] == pre[TestCount(files, fi) + ti];
    } else {
      assert JobsUpTo(files, n)[TestCount(files, fi) + ti] == FileJobs(files, fi)[ti];
    }
  }

  // ---- counting ----

  /** How many of the jobs passed. */
  function Passed(jobs: seq<Job>, runs: Runs): (n: nat)
    ensures n <= |jobs|
  {
    if |jobs| == 0 then 0
    else Passed(jobs[..|jobs| - 1], runs) + if Ran(jobs[|jobs| - 1], runs).ok then 1 else 0
  }

  function Ran(j: Job, runs: Runs): RunResult {
    runs(j.fileIndex, j.testIndex)
  }

  /** `runTestsSequential` (runner.go:33-66): every test of every file, in
      order, counted as passed or failed; a failure does not stop the
      others. `ran` lists the tests in the order they were run. */
  method RunTestsSequential(files: seq<TestFile>, runs: Runs) returns (passed: nat, failed: nat, ran: seq<Job>)
    ensures ran == Jobs(files)
    ensures passed == Passed(Jobs(files), runs)
    ensures passed + failed == |Jobs(files)|
  {
    passed, failed, ran := 0, 0, [];
    for fi := 0 to |files|
      invariant ran == JobsUpTo(files, fi)
      invariant passed == Passed(ran, runs) && passed + failed == |ran|
    {
      var p, f, r := RunFile(files, fi, runs);
      PassedAppend(ran, r, runs);
      passed, failed, ran := passed + p, failed + f, ran + r;
    }
  }

  /** The tests of one file, in order. */
  method RunFile(files: seq<TestFile>, fi: nat, runs: Runs) returns (passed: nat, failed: nat, ran: seq<Job>)
    requires fi < |files|
    ensures ran == FileJobs(files, fi)
    ensures passed == Passed(ran, runs) && passed + failed == |ran|
  {
    passed, failed, ran := 0, 0, [];
    var tf := files[fi];
    for ti := 0 to |tf.tests|
      invariant ran == FileJobs(files, fi)[..ti]
      invariant passed == Passed(ran, runs) && passed + failed == |ran|
    {
      var job := Job(tf.path, fi, ti, tf.tests[ti]);
      assert FileJobs(files, fi)[..ti + 1] == FileJobs(files, fi)[..ti] + [job];
      assert (ran + [job])[..|ran|] == ran;
      if runs(fi, ti).ok {
        passed := passed + 1;
      } else {
        failed := failed + 1;
      }
      ran := ran + [job];
    }
    assert FileJobs(files, fi)[..|tf.tests|] == FileJobs(files, fi);
  }

  /** Counts add up over consecutive runs. */
  lemma {:induction false} PassedAppend(a: seq<Job>, b: seq<Job>, runs: Runs)
    ensures Passed(a + b, runs) == Passed(a, runs) + Passed(b, runs)
    decreases |b|
  {
    if |b| == 0 {
      assert a + b == a;
    } else {
      var n := |b| - 1;
      assert (a + b)[..|a + b| - 1] == a + b[..n];
      PassedAppend(a, b[..n], runs);
    }
  }

  // ---- the parallel mode (runner.go:69-162) ----

  /** `TestResult`. */
  datatype TestResult = TestResult(filePath: string, fileIndex: nat, test: Test, index: nat, ok: bool, duration: int)

  /** What job `idx` writes into its slot. */
  function ResultOf(j: Job, idx: nat, runs: Runs): TestResult {
    var r := Ran(j, runs);
    TestResult(j.filePath, j.fileIndex, j.test, idx, r.ok, r.duration)
  }

  /** The job goroutines, one after another: job `i` writes slot `i` and no
      other. */
  method RunJobs(jobs: seq<Job>, runs: Runs) returns (results: array<TestResult>)
    ensures fresh(results) && results.Length == |jobs|
    ensures forall k :: 0 <= k < |jobs| ==> results[k] == ResultOf(jobs[k], k, runs)
  {
    results := new TestResult[|jobs|](_ => TestResult("", 0, Test("", "", "", [], "", "", [], [], 0, "", "", 0, 0), 0, false, 0));
    for i := 0 to |jobs|
      invariant forall k :: 0 <= k < i ==> results[k] == ResultOf(jobs[k], k, runs)
    {
      WriteSlot(results, i, jobs[i], runs);
    }
  }

  /** One job's write. */
  method WriteSlot(results: array<TestResult>, idx: nat, job: Job, runs: Runs)
    requires idx < results.Length
    modifies results
    ensures results[idx] == ResultOf(job, idx, runs)
    ensures forall k :: 0 <= k < results.Length && k != idx ==> results[k] == old(results[k])
  {
    var r := runs(job.fileIndex, job.testIndex);
    results[idx] := TestResult(job.filePath, job.fileIndex, job.test, idx, r.ok, r.duration);
  }

  /** A missing key of a Go map reads as zero. */
  function Lookup(m: map<nat, int>, k: nat): int {
    if k in m then m[k] else 0
  }

  /** `fileDurations` after the first `n` results. */
  function MaxDurations(rs: seq<TestResult>): map<nat, int> {
    if |rs| == 0 then map[]
    else
      var m := MaxDurations(rs[..|rs| - 1]);
      var r := rs[|rs| - 1];
      if r.duration > Lookup(m, r.fileIndex) then m[r.fileIndex := r.duration] else m
  }

  /** The duration loop (runner.go:121-126). */
  method FileDurations(results: array<TestResult>) returns (fd: map<nat, int>)
    ensures fd == MaxDurations(results[..])
  {
    fd := map[];
    for i := 0 to results.Length
      invariant fd == MaxDurations(results[..i])
    {
      assert results[..i + 1][..i] == results[..i];
      var r := results[i];
      if r.duration > Lookup(fd, r.fileIndex) {
        fd := fd[r.fileIndex := r.duration];
      }
    }
    assert results[..results.Length] == results[..];
  }

  /** How many results are passes. */
  function PassedResults(rs: seq<TestResult>): (n: nat)
    ensures n <= |rs|
  {
    if |rs| == 0 then 0
    else PassedResults(rs[..|rs| - 1]) + if rs[|rs| - 1].ok then 1 else 0
  }

  /** The reporting loop (runner.go:131-151): the results in slot order.
      `reported` lists them in the order they are printed. */
  method Report(results: array<TestResult>) returns (passed: nat, failed: nat, reported: seq<TestResult>)
    ensures reported == results[..]
    ensures passed == PassedResults(results[..]) && passed + failed == results.Length
  {
    passed, failed, reported := 0, 0, [];
    for i := 0 to results.Length
      invariant reported == results[..i]
      invariant passed == PassedResults(reported) && passed + failed == i
    {
      assert results[..i + 1] == results[..i] + [results[i]];
      if results[i].ok {
        passed := passed + 1;
      } else {
        failed := failed + 1;
      }
      reported := reported + [results[i]];
    }
    assert results[..results.Length] == results[..];
  }

  /** `runTestsParallel`, with the goroutines run one after another (each
      writes only its own slot, so the order does not matter). */
  method RunTestsParallel(files: seq<TestFile>, runs: Runs)
    returns (passed: nat, failed: nat, fileDurations: map<nat, int>, reported: seq<TestResult>)
    ensures var jobs := Jobs(files);
      && reported == seq(|jobs|, k requires 0 <= k < |jobs| => ResultOf(jobs[k], k, runs))
      && passed == PassedResults(reported) && passed + failed == |jobs|
      && fileDurations == MaxDurations(reported)
  {
    var jobs := BuildJobs(files);
    var results := RunJobs(jobs, runs);
    fileDurations := FileDurations(results);
    passed, failed, reported := Report(results);
  }

  // ---- properties of the runs ----

  /** The parallel mode counts what the sequential mode counts. */
  lemma {:induction false} SameCounts(jobs: seq<Job>, runs: Runs)
    ensures PassedResults(seq(|jobs|, k requires 0 <= k < |jobs| => ResultOf(jobs[k], k, runs))) == Passed(jobs, runs)
    decreases |jobs|
  {
    if |jobs| > 0 {
      var n := |jobs| - 1;
      var rs := seq(|jobs|, k requires 0 <= k < |jobs| => ResultOf(jobs[k], k, runs));
      var rs' := seq(n, k requires 0 <= k < n => ResultOf(jobs[..n][k], k, runs));
      assert rs[..n] == rs';
      SameCounts(jobs[..n], runs);
    }
  }

  /** Every result lasts no longer than its file's duration, and each
      file's duration is that of one of its results: the maximum, where no
      result of the file made it zero. */
  lemma {:induction false} MaxDurationIsMax(rs: seq<TestResult>)
    ensures forall k :: 0 <= k < |rs| ==> rs[k].duration <= Lookup(MaxDurations(rs), rs[k].fileIndex)
    ensures forall fi :: fi in MaxDurations(rs) ==>
      MaxDurations(rs)[fi] > 0 && exists k :: 0 <= k < |rs| && rs[k].fileIndex == fi && rs[k].duration == MaxDurations(rs)[fi]
    decreases |rs|
  {
    if |rs| > 0 {
      var n := |rs| - 1;
      var pre := rs[..n];
      MaxDurationIsMax(pre);
      var m, m' := MaxDurations(pre), MaxDurations(rs);
      forall k | 0 <= k < |rs|
        ensures rs[k].duration <= Lookup(m', rs[k].fileIndex)
      {
        if k < n {
          assert pre[k] == rs[k];
        }
      }
      forall fi | fi in m'
        ensures m'[fi] > 0 && exists k :: 0 <= k < |rs| && rs[k].fileIndex == fi && rs[k].duration == m'[fi]
      {
        if fi == rs[n].fileIndex && rs[n].duration > Lookup(m, fi) {
          assert rs[n].fileIndex == fi && rs[n].duration == m'[fi];
        } else {
          var k :| 0 <= k < |pre| && pre[k].fileIndex == fi && pre[k].duration == m[fi];
          assert rs[k] == pre[k];
        }
      }
    }
  }

  // ---- collecting the test files (runner.go:164-213) ----

  /** One call of the walk function: a path, whether it is a directory, and
      whether the walk could read it (the `err` it is handed). */
  datatype Entry = Entry(path: string, isDir: bool, ok: bool)

  datatype CollectError = StatFailed | WalkFailed | ReadFailed(path: string)

  /** The file of a path's tests, kept only when it has some. */
  function Kept(path: string, tests: seq<Test>): seq<TestFile> {
    if |tests| > 0 then [TestFile(path, tests)] else []
  }

  /** The walk from entry `i` on, the files found so far in `acc`. */
  function Gather(entries: seq<Entry>, i: nat, acc: seq<TestFile>, env: Env): Result<seq<TestFile>, CollectError>
    requires i <= |entries|
    decreases |entries| - i
  {
    if i == |entries| then Ok(acc)
    else
      var e := entries[i];
      match Visited(entries[i], env)
      case Err(x) => Err(x)
      case Ok(fs) => Gather(entries, i + 1, acc + fs, env)
  }

  /** What the walk function does with one entry: a walk error ends the
      walk, a `.md` file is read (a read error ends the walk) and parsed,
      everything else is passed over. */
  function Visited(e: Entry, env: Env): Result<seq<TestFile>, CollectError> {
    if !e.ok then Err(WalkFailed)
    else if !e.isDir && HasSuffix(e.path, ".md") then
      match env.readFile(e.path)
      case None => Err(ReadFailed(e.path))
      case Some(content) => Ok(Kept(e.path, TestsOf(content, env.dirName(e.path), env)))
    else Ok([])
  }

  /** The single-file case. */
  function SingleFile(path: string, env: Env): Result<seq<TestFile>, CollectError> {
    match env.readFile(path)
    case None => Err(ReadFailed(path))
    case Some(content) => Ok(Kept(path, TestsOf(content, env.dirName(path), env)))
  }

  predicate PathsSorted(fs: seq<TestFile>) {
    forall i, j :: 0 <= i < j < |fs| ==> Le(fs[i].path, fs[j].path)
  }

  /** The walk function's work on one entry. */
  method VisitEntry(e: Entry, env: Env) returns (r: Result<seq<TestFile>, CollectError>)
    ensures r == Visited(e, env)
  {
    if !e.ok {
      return Err(WalkFailed);
    }
    if !e.isDir && HasSuffix(e.path, ".md") {
      var content := env.readFile(e.path);
      if content.None? {
        return Err(ReadFailed(e.path));
      }
      var tests := ParseTests(content.value, env.dirName(e.path), env);
      if |tests| > 0 {
        return Ok([TestFile(e.path, tests)]);
      }
    }
    return Ok([]);
  }

  /** The directory walk (runner.go:175-194). */
  method WalkFiles(entries: seq<Entry>, env: Env) returns (r: Result<seq<TestFile>, CollectError>)
    ensures r == Gather(entries, 0, [], env)
  {
    var testFiles := [];
    for i := 0 to |entries|
      invariant Gather(entries, i, testFiles, env) == Gather(entries, 0, [], env)
    {
      var found := VisitEntry(entries[i], env);
      if found.Err? {
        return Err(found.error);
      }
      testFiles := testFiles + found.value;
    }
    return Ok(testFiles);
  }

  /** `sort.Slice` by path (runner.go:196-198), as an insertion sort. */
  method SortByPath(a: array<TestFile>)
    modifies a
    ensures PathsSorted(a[..])
    ensures multiset(a[..]) == old(multiset(a[..]))
  {
    for i := 0 to a.Length
      invariant PathsSorted(a[..i])
      invariant multiset(a[..]) == old(multiset(a[..]))
    {
      InsertLast(a, i);
    }
  }

  /** Moves `a[i]` down into the sorted `a[..i]`. */
  method InsertLast(a: array<TestFile>, i: nat)
    requires i < a.Length && PathsSorted(a[..i])
    modifies a
    ensures PathsSorted(a[..i + 1])
    ensures a[i + 1..] == old(a[i + 1..])
    ensures multiset(a[..]) == old(multiset(a[..]))
  {
    var j := i;
    while j > 0 && !Le(a[j - 1].path, a[j].path)
      invariant 0 <= j <= i
      invariant forall m, n :: 0 <= m < n <= i && m != j && n != j ==> Le(a[m].path, a[n].path)
      invariant forall n :: j < n <= i ==> Le(a[j].path, a[n].path)
      invariant a[i + 1..] == old(a[i + 1..])
      invariant multiset(a[..]) == old(multiset(a[..]))
    {
      LeTotal(a[j - 1].path, a[j].path);
      Swap(a, j - 1, j);
      j := j - 1;
    }
    forall m, n | 0 <= m < n <= i
      ensures Le(a[m].path, a[n].path)
    {
      if n == j && m < j - 1 {
        LeTransitive(a[m].path, a[j - 1].path, a[j].path);
      }
    }
  }

  /** Exchanges two adjacent files. */
  method Swap(a: array<TestFile>, i: nat, j: nat)
    requires i < j < a.Length
    modifies a
    ensures a[i] == old(a[j]) && a[j] == old(a[i])
    ensures forall k :: 0 <= k < a.Length && k != i && k != j ==> a[k] == old(a[k])
    ensures multiset(a[..]) == old(multiset(a[..]))
  {
    a[i], a[j] := a[j], a[i];
  }

  /** `collectTestFiles`. `stat` is what `os.Stat` says of the path: None
      when it fails, otherwise whether it is a directory; `entries` is what
      the walk of a directory visits, in its order. */
  method CollectTestFiles(path: string, stat: Option<bool>, entries: seq<Entry>, env: Env)
    returns (r: Result<seq<TestFile>, CollectError>)
    ensures stat.None? ==> r == Err(StatFailed)
    ensures stat == Some(false) ==> r == SingleFile(path, env)
    ensures stat == Some(true) ==>
      && (r.Ok? <==> Gather(entries, 0, [], env).Ok?)
      && (r.Err? ==> r == Gather(entries, 0, [], env))
      && (r.Ok? ==> PathsSorted(r.value) && multiset(r.value) == multiset(Gather(entries, 0, [], env).value))
  {
    if stat.None? {
      return Err(StatFailed);
    }
    if stat.value {
      var walked := WalkFiles(entries, env);
      if walked.Err? {
        return walked;
      }
      var a := new TestFile[|walked.value|](k requires 0 <= k < |walked.value| => walked.value[k]);
      assert a[..] == walked.value;
      SortByPath(a);
      return Ok(a[..]);
    }
    var content := env.readFile(path);
    if content.None? {
      return Err(ReadFailed(path));
    }
    var tests := ParseTests(content.value, env.dirName(path), env);
    if |tests| > 0 {
      return Ok([TestFile(path, tests)]);
    }
    return Ok([]);
  }

  // ---- properties of the files collected ----

  /** The files a walk keeps: `.md` files the walk could read, each with
      the tests parsed from its content and at least one test. */
  predicate GoodFile(f: TestFile, entries: seq<Entry>, env: Env) {
    && |f.tests| > 0
    && HasSuffix(f.path, ".md")
    && env.readFile(f.path).Some?
    && f.tests == TestsOf(env.readFile(f.path).value, env.dirName(f.path), env)
    && exists k :: 0 <= k < |entries| && entries[k] == Entry(f.path, false, true)
  }

  lemma {:induction false} GatherGood(entries: seq<Entry>, i: nat, acc: seq<TestFile>, env: Env)
    requires i <= |entries|
    requires forall f :: f in acc ==> GoodFile(f, entries, env)
    ensures var r := Gather(entries, i, acc, env);
      r.Ok? ==> forall f :: f in r.value ==> GoodFile(f, entries, env)
    decreases |entries| - i
  {
    if i < |entries| {
      var e := entries[i];
      match Visited(e, env)
      case Err(_) =>
      case Ok(kept) =>
        forall f | f in acc + kept
          ensures GoodFile(f, entries, env)
        {
          if f in kept {
            assert entries[i] == Entry(f.path, false, true);
          }
        }
        GatherGood(entries, i + 1, acc + kept, env);
    }
  }

  /** `collectTestFiles` of a directory returns only files with tests,
      parsed from `.md` files the walk visited, sorted by path. */
  lemma {:induction false} CollectedFilesGood(entries: seq<Entry>, env: Env, r: seq<TestFile>)
    requires Gather(entries, 0, [], env).Ok?
    requires multiset(r) == multiset(Gather(entries, 0, [], env).value)
    ensures forall f :: f in r ==> GoodFile(f, entries, env)
  {
    GatherGood(entries, 0, [], env);
    forall f | f in r
      ensures GoodFile(f, entries, env)
    {
      assert f in multiset(r);
    }
  }

  /** Files found before entry `i` stay found. */
  lemma {:induction false} GatherKeeps(entries: seq<Entry>, i: nat, acc: seq<TestFile>, env: Env, f: TestFile)
    requires i <= |entries| && f in acc
    requires Gather(entries, i, acc, env).Ok?
    ensures f in Gather(entries, i, acc, env).value
    decreases |entries| - i
  {
    if i < |entries| {
      var kept := Visited(entries[i], env).value;
      GatherKeeps(entries, i + 1, acc + kept, env, f);
    }
  }

  /** A walk that succeeds has read every `.md` file it visited from entry
      `i` on, and keeps each one that has tests. */
  lemma {:induction false} GatherFinds(entries: seq<Entry>, i: nat, acc: seq<TestFile>, env: Env, k: nat)
    requires i <= k < |entries|
    requires Gather(entries, i, acc, env).Ok?
    requires entries[k].ok && !entries[k].isDir && HasSuffix(entries[k].path, ".md")
    ensures env.readFile(entries[k].path).Some?
    ensures var p := entries[k].path;
      var tests := TestsOf(env.readFile(p).value, env.dirName(p), env);
      |tests| > 0 ==> TestFile(p, tests) in Gather(entries, i, acc, env).value
    decreases k - i
  {
    var kept := Visited(entries[i], env).value;
    if i < k {
      GatherFinds(entries, i + 1, acc + kept, env, k);
    } else {
      var p := entries[k].path;
      var tests := TestsOf(env.readFile(p).value, env.dirName(p), env);
      if |tests| > 0 {
        assert kept == [TestFile(p, tests)];
        GatherKeeps(entries, i + 1, acc + kept, env, TestFile(p, tests));
      }
    }
  }

  /** Conversely, `collectTestFiles` of a directory, when it succeeds,
      returns every `.md` file the walk visited that has tests, with those
      tests. */
  lemma {:induction false} CollectedFilesComplete(entries: seq<Entry>, env: Env, r: seq<TestFile>, k: nat)
    requires Gather(entries, 0, [], env).Ok?
    requires multiset(r) == multiset(Gather(entries, 0, [], env).value)
    requires k < |entries| && entries[k].ok && !entries[k].isDir && HasSuffix(entries[k].path, ".md")
    ensures env.readFile(entries[k].path).Some?
    ensures var p := entries[k].path;
      var tests := TestsOf(env.readFile(p).value, env.dirName(p), env);
      |tests| > 0 ==> TestFile(p, tests) in r
  {
    GatherFinds(entries, 0, [], env, k);
    var p := entries[k].path;
    var tests := TestsOf(env.readFile(p).value, env.dirName(p), env);
    if |tests| > 0 {
      assert TestFile(p, tests) in multiset(r);
    }
  }
}
