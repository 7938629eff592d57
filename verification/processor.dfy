/**
 * The data processor: resolves a request to a file name, loads the table
 * (through the memo when caching is on), consolidates its time columns,
 * sanitises its magnitude columns, and returns the requested variables. Also
 * the enumeration of a simulation's run numbers.
 *
 * Directory listings and parsed files are inputs (a FileSystem value); paths
 * are compared as strings.
 */
module Processor {
  import opened Wrappers
  import opened Errors
  import opened Paths
  import opened Patterns
  import opened Options
  import opened Tables
  import opened Cache

  /** One name in a directory listing, in os.listdir order, with whether
      os.walk lists it among the subdirectories. */
  datatype DirEntry = DirEntry(name: string, isDir: bool)

  /** What the processor sees of the machine. */
  datatype FileSystem = FileSystem(
    listings: map<string, seq<DirEntry>>,  // directory path -> its entries
    tables: map<string, Table>,            // file path, `~` expanded -> the table read_data parses from it
    cwd: string,                           // os.getcwd()
    homes: map<string, string>)            // user name -> home directory ("" is $HOME)

  predicate IsDirEntry(e: DirEntry) {
    e.isDir
  }

  /** next(os.walk(p))[1]: the names of the subdirectories, all of them. */
  function SubdirNames(es: seq<DirEntry>): (r: seq<string>)
    ensures |r| <= |es|
    ensures forall k :: 0 <= k < |r| ==> DirEntry(r[k], true) in es
    ensures forall e :: e in es && e.isDir ==> e.name in r
  {
    if es == [] then []
    else (if es[0].isDir then [es[0].name] else []) + SubdirNames(es[1..])
  }

  /** os.listdir(p) */
  function EntryNames(es: seq<DirEntry>): (r: seq<string>)
    ensures |r| == |es|
    ensures forall k :: 0 <= k < |es| ==> r[k] == es[k].name
  {
    seq(|es|, k requires 0 <= k < |es| => es[k].name)
  }

  /** The subdirectory names are the names of the directory entries, kept in
      listing order. */
  lemma {:induction false} SubdirNamesInOrder(es: seq<DirEntry>)
    ensures SubdirNames(es) == EntryNames(Filter(es, IsDirEntry))
  {
    if es != [] {
      SubdirNamesInOrder(es[1..]);
      var rest := Filter(es[1..], IsDirEntry);
      var head := if es[0].isDir then [es[0]] else [];
      assert Filter(es, IsDirEntry) == head + rest;
      EntryNamesAppend(head, rest);
    }
  }

  lemma EntryNamesAppend(a: seq<DirEntry>, b: seq<DirEntry>)
    ensures EntryNames(a + b) == EntryNames(a) + EntryNames(b)
  {
  }

  // ------------------------------------------------------------ file names

  /** The instrument source of an observation: "earth" is observed by OMNI. */
  function ObsSource(opts: Options): string {
    var location := Lookup(opts, "location", Str("earth"));
    if location == Str("earth") then "omni" else Render(location)
  }

  /** get_obs_filename: `join(dir, "obsdata", f"{source}_{time}.out")`, the
      working directory standing in for a missing dir. */
  function ObsFilename(opts: Options, dir: Option<string>, cwd: string): string {
    var d := if dir.None? then cwd else dir.value;
    var rel := ObsSource(opts) + "_" + Render(Lookup(opts, "time", Str("2012_05_11T20_00_00"))) + ".out";
    Join(Join(d, "obsdata"), rel)
  }

  /** The observation file lies in the `obsdata` subdirectory of the data
      directory and is named `{source}_{time}.out`. */
  lemma ObsFilenameLayout(opts: Options, dir: Option<string>, cwd: string)
    requires var d := if dir.None? then cwd else dir.value; d != "" && d[|d| - 1] != '/'
    requires !IsAbsolute(ObsSource(opts))
    ensures ObsFilename(opts, dir, cwd) ==
      (if dir.None? then cwd else dir.value) + "/" + "obsdata" + "/" + ObsSource(opts) + "_"
        + Render(Lookup(opts, "time", Str("2012_05_11T20_00_00"))) + ".out"
  {
    var d := if dir.None? then cwd else dir.value;
    var source := ObsSource(opts);
    var time := Render(Lookup(opts, "time", Str("2012_05_11T20_00_00")));
    var rel := source + "_" + time + ".out";
    assert !IsAbsolute(rel) by {
      if source == "" { assert rel[0] == '_'; } else { assert rel[0] == source[0]; }
    }
    JoinTwice(d, "obsdata", rel);
    var x := d + "/" + "obsdata" + "/";
    assert x + ((source + "_" + time) + ".out") == (x + (source + "_" + time)) + ".out";
    assert x + ((source + "_") + time) == (x + (source + "_")) + time;
    assert x + (source + "_") == (x + source) + "_";
  }

  lemma JoinTwice(d: string, sub: string, rel: string)
    requires d != "" && d[|d| - 1] != '/'
    requires sub != "" && sub[|sub| - 1] != '/' && !IsAbsolute(sub)
    requires !IsAbsolute(rel)
    ensures Join(Join(d, sub), rel) == d + "/" + sub + "/" + rel
  {
    var j := d + "/" + sub;
    assert j[|j| - 1] == sub[|sub| - 1];
  }

  /** The run-directory pattern for the selectors in opts, with
      _get_sim_dir's defaults. */
  function SimDirPattern(opts: Options): seq<Atom> {
    Compile(DirBody(
      Render(Lookup(opts, "model", Str("AWSoMR"))),
      Render(Lookup(opts, "mag_method", Str("HARMONICS_adapt"))),
      Render(Lookup(opts, "time", Str("201205162000"))),
      Render(Lookup(opts, "param_name", Str("MapTime_PoyntingFluxPerBSi"))),
      Render(Lookup(opts, "param", Str("0.35e6")))))
  }

  /** _get_sim_dir: the first subdirectory of the (user-expanded) data
      directory whose name matches the pattern. */
  function SimDir(dir: Option<string>, opts: Options, fs: FileSystem): Result<string, Error> {
    if dir.None? then Err(NoDirectory)
    else
      var root := ExpandUser(dir.value, fs.homes);
      if root !in fs.listings then Err(MissingDirectory(root))
      else
        var pat := SimDirPattern(opts);
        match Head(Filter(SubdirNames(fs.listings[root]), (d: string) => DirNameMatches(pat, d)))
        case None => Err(NoMatch)
        case Some(name) => Ok(ExpandUser(Join(dir.value, name), fs.homes))
  }

  /** The simulation directory is the first listed subdirectory whose name
      matches; the lookup fails with NoMatch exactly when none does. */
  lemma SimDirFirstMatch(dir: Option<string>, opts: Options, fs: FileSystem)
    ensures SimDir(dir, opts, fs) == Err(NoMatch) <==>
      && dir.Some?
      && ExpandUser(dir.value, fs.homes) in fs.listings
      && var names := SubdirNames(fs.listings[ExpandUser(dir.value, fs.homes)]);
         forall k :: 0 <= k < |names| ==> !DirNameMatches(SimDirPattern(opts), names[k])
    ensures SimDir(dir, opts, fs).Ok? ==>
      && dir.Some?
      && ExpandUser(dir.value, fs.homes) in fs.listings
      && var names := SubdirNames(fs.listings[ExpandUser(dir.value, fs.homes)]);
         exists i :: 0 <= i < |names| && DirNameMatches(SimDirPattern(opts), names[i])
           && (forall j :: 0 <= j < i ==> !DirNameMatches(SimDirPattern(opts), names[j]))
           && SimDir(dir, opts, fs).value == ExpandUser(Join(dir.value, names[i]), fs.homes)
  {
    if dir.Some? && ExpandUser(dir.value, fs.homes) in fs.listings {
      var pat := SimDirPattern(opts);
      var names := SubdirNames(fs.listings[ExpandUser(dir.value, fs.homes)]);
      var test := (d: string) => DirNameMatches(pat, d);
      var first := Head(Filter(names, test));
      assert SimDir(dir, opts, fs) ==
        if first.None? then Err(NoMatch) else Ok(ExpandUser(Join(dir.value, first.value), fs.homes));
      FirstOf(names, test);
    }
  }

  /** The run subdirectory name `run{run_num:02}`. */
  function RunDirName(runNum: Value): string {
    "run" + FormatRunNum(runNum)
  }

  /** The directory get_sim_filename lists: `{sim_dir}/run{NN}/IH`. */
  function RunDir(simDir: string, opts: Options): string {
    Join(Join(simDir, RunDirName(Lookup(opts, "run_num", Int(1)))), "IH")
  }

  /** The file-name pattern `{type}_{location}_.*\.{ext}$` for opts. */
  predicate SimFileMatches(opts: Options, name: string) {
    FileNameMatches(
      Compile(FilePrefix(Render(Lookup(opts, "type", Str("trj"))), Render(Lookup(opts, "location", Str("earth"))))),
      Compile(Render(Lookup(opts, "ext", Str("sat")))),
      name)
  }

  /** get_sim_filename: the first entry of the run directory matching the
      file-name pattern. */
  function SimFilename(dir: Option<string>, opts: Options, fs: FileSystem): Result<string, Error> {
    var simDir :- SimDir(dir, opts, fs);
    RunFile(RunDir(simDir, opts), opts, fs)
  }

  /** The file SimFilename picks inside the run directory `runDir`. */
  function RunFile(runDir: string, opts: Options, fs: FileSystem): Result<string, Error> {
    if runDir !in fs.listings then Err(MissingDirectory(runDir))
    else
      match Head(Filter(EntryNames(fs.listings[runDir]), (f: string) => SimFileMatches(opts, f)))
      case None => Err(NoMatch)
      case Some(f) => Ok(Join(runDir, f))
  }

  /** The simulation file is the first entry of `{sim_dir}/run{NN}/IH` whose
      name matches the file pattern; with a resolved run directory, the lookup
      fails with NoMatch exactly when no entry matches. */
  lemma SimFilenameFirstMatch(dir: Option<string>, opts: Options, fs: FileSystem, simDir: string)
    requires SimDir(dir, opts, fs) == Ok(simDir)
    requires RunDir(simDir, opts) in fs.listings
    ensures var names := EntryNames(fs.listings[RunDir(simDir, opts)]);
      && (SimFilename(dir, opts, fs) == Err(NoMatch) <==> forall k :: 0 <= k < |names| ==> !SimFileMatches(opts, names[k]))
      && (SimFilename(dir, opts, fs).Ok? ==>
            exists i :: 0 <= i < |names| && SimFileMatches(opts, names[i])
              && (forall j :: 0 <= j < i ==> !SimFileMatches(opts, names[j]))
              && SimFilename(dir, opts, fs).value == Join(RunDir(simDir, opts), names[i]))
  {
    assert SimFilename(dir, opts, fs) == RunFile(RunDir(simDir, opts), opts, fs);
    RunFileFirstMatch(RunDir(simDir, opts), opts, fs);
  }

  lemma RunFileFirstMatch(runDir: string, opts: Options, fs: FileSystem)
    requires runDir in fs.listings
    ensures var names := EntryNames(fs.listings[runDir]);
      && (RunFile(runDir, opts, fs) == Err(NoMatch) <==> forall k :: 0 <= k < |names| ==> !SimFileMatches(opts, names[k]))
      && (RunFile(runDir, opts, fs).Ok? ==>
            exists i :: 0 <= i < |names| && SimFileMatches(opts, names[i])
              && (forall j :: 0 <= j < i ==> !SimFileMatches(opts, names[j]))
              && RunFile(runDir, opts, fs).value == Join(runDir, names[i]))
  {
    FirstOf(EntryNames(fs.listings[runDir]), (f: string) => SimFileMatches(opts, f));
  }

  /** The run subdirectory of run number n is named `run` and n padded to two
      digits, and get_run_nums reads n back from that name. */
  lemma RunDirNameRoundTrip(n: nat)
    ensures |RunDirName(Int(n))| >= 5
    ensures RunNumberOf(RunDirName(Int(n))) == Some(n)
    ensures n < 10 ==> RunDirName(Int(n)) == "run0" + [DigitChar(n)]
  {
    RunNumberOfRun(FormatRunNum(Int(n)));
  }

  // ---------------------------------------------------------- run numbers

  /** `[parse(f) for f in names]`, failing at the first name parse rejects. */
  function ParseEach(names: seq<string>, parse: string -> Option<nat>): (r: Result<seq<int>, Error>)
    ensures r.Ok? ==> |r.value| == |names|
  {
    if names == [] then Ok([])
    else match parse(names[0])
      case None => Err(NoRunNumber(names[0]))
      case Some(n) =>
        match ParseEach(names[1..], parse)
        case Err(e) => Err(e)
        case Ok(rest) => Ok([n as int] + rest)
  }

  /** Parsing succeeds exactly when parse accepts every name, and then gives
      each name's number in order; otherwise it reports a name parse rejects. */
  lemma {:induction false} ParseEachMeaning(names: seq<string>, parse: string -> Option<nat>)
    ensures ParseEach(names, parse).Ok? <==> forall k :: 0 <= k < |names| ==> parse(names[k]).Some?
    ensures ParseEach(names, parse).Ok? ==> forall k :: 0 <= k < |names| ==>
      ParseEach(names, parse).value[k] >= 0 && parse(names[k]) == Some(ParseEach(names, parse).value[k] as nat)
    ensures ParseEach(names, parse).Err? ==>
      exists k :: 0 <= k < |names| && ParseEach(names, parse).error == NoRunNumber(names[k]) && parse(names[k]).None?
  {
    if names != [] {
      ParseEachMeaning(names[1..], parse);
      assert forall k :: 1 <= k < |names| ==> names[k] == names[1..][k - 1];
      if ParseEach(names[1..], parse).Err? && parse(names[0]).Some? {
        var k :| 0 <= k < |names[1..]| && ParseEach(names[1..], parse).error == NoRunNumber(names[1..][k])
          && parse(names[1..][k]).None?;
        assert names[k + 1] == names[1..][k];
      }
    }
  }

  /** `[get_run_num(f) for f in run_files]` */
  function ParseRunNums(names: seq<string>): Result<seq<int>, Error> {
    ParseEach(names, RunNumberOf)
  }

  /** The run numbers before sorting: the parsed names of the subdirectories
      of the simulation directory selected by param and kwargs. */
  function RunNumsUnsorted(dir: Option<string>, param: Value, kwargs: Options, fs: FileSystem): Result<seq<int>, Error> {
    if "param" in kwargs then Err(DuplicateKeyword("param"))
    else
      var simDir :- SimDir(dir, kwargs["param" := param], fs);
      if simDir !in fs.listings then Err(MissingDirectory(simDir))
      else ParseRunNums(SubdirNames(fs.listings[simDir]))
  }

  predicate Sorted(s: seq<int>) {
    forall i, j :: 0 <= i < j < |s| ==> s[i] <= s[j]
  }

  predicate StrictlyAscending(s: seq<int>) {
    forall i, j :: 0 <= i < j < |s| ==> s[i] < s[j]
  }

  predicate Distinct(s: seq<int>) {
    forall i, j :: 0 <= i < j < |s| ==> s[i] != s[j]
  }

  lemma {:induction false} DistinctCounts(s: seq<int>, x: int)
    requires Distinct(s)
    ensures multiset(s)[x] <= 1
  {
    if s != [] {
      assert s == [s[0]] + s[1..];
      assert Distinct(s[1..]);
      DistinctCounts(s[1..], x);
      if s[0] == x {
        assert x !in s[1..];
      }
    }
  }

  lemma TwoCopies(s: seq<int>, i: nat, j: nat)
    requires i < j < |s| && s[i] == s[j]
    ensures multiset(s)[s[i]] >= 2
  {
    assert s == s[..j] + [s[j]] + s[j + 1..];
    assert s[i] in s[..j];
  }

  /** A sorted permutation of distinct numbers ascends strictly; the
      enumeration ascends strictly exactly when no two run names carry the
      same number. */
  lemma SortedDistinctIsStrict(sorted: seq<int>, parsed: seq<int>)
    requires Sorted(sorted) && multiset(sorted) == multiset(parsed)
    requires Distinct(parsed)
    ensures StrictlyAscending(sorted)
  {
    forall i, j | 0 <= i < j < |sorted| ensures sorted[i] < sorted[j] {
      if sorted[i] == sorted[j] {
        TwoCopies(sorted, i, j);
        DistinctCounts(parsed, sorted[i]);
        assert false;
      }
    }
  }

  /** Distinct run directory names need not give distinct numbers: `runN`
      and `run0N` both give N, so the sorted enumeration may repeat a number. */
  lemma RunNumbersMayRepeat(n: nat)
    ensures var d := NatToDecimal(n);
      "run" + d != "run" + ("0" + d) && ParseRunNums(["run" + d, "run" + ("0" + d)]) == Ok([n as int, n as int])
  {
    var d := NatToDecimal(n);
    RunNamesOf(d, n);
    ParseTwo("run" + d, "run" + ("0" + d), RunNumberOf, n);
  }

  lemma RunNamesOf(d: string, n: nat)
    requires d == NatToDecimal(n)
    ensures |"run" + d| < |"run" + ("0" + d)|
    ensures RunNumberOf("run" + d) == Some(n) && RunNumberOf("run" + ("0" + d)) == Some(n)
  {
    LeadingZero(d);
    RunNumberOfRun(d);
    RunNumberOfRun("0" + d);
  }

  lemma ParseTwo(a: string, b: string, parse: string -> Option<nat>, n: nat)
    requires parse(a) == Some(n) && parse(b) == Some(n)
    ensures ParseEach([a, b], parse) == Ok([n as int, n as int])
  {
    assert [b] + [] == [b] && [n as int] + [] == [n as int];
    ParseCons(b, [], parse, n, []);
    assert [a] + [b] == [a, b] && [n as int] + [n as int] == [n as int, n as int];
    ParseCons(a, [b], parse, n, [n as int]);
  }

  lemma ParseCons(x: string, rest: seq<string>, parse: string -> Option<nat>, n: nat, v: seq<int>)
    requires parse(x) == Some(n) && ParseEach(rest, parse) == Ok(v)
    ensures ParseEach([x] + rest, parse) == Ok([n as int] + v)
  {
    assert ([x] + rest)[0] == x && ([x] + rest)[1..] == rest;
  }

  lemma RunNumberOfRun(digits: string)
    requires |digits| > 0 && AllDigits(digits)
    ensures RunNumberOf("run" + digits) == Some(DecimalValue(digits))
  {
    RunNumberOfRunDigits("", digits);
    assert "" + "run" == "run";
  }

  /** `list.sort()` on the run numbers, in place. */
  method SortInPlace(a: array<int>)
    modifies a
    ensures Sorted(a[..])
    ensures multiset(a[..]) == multiset(old(a[..]))
  {
    for i := 0 to a.Length
      invariant Sorted(a[..i])
      invariant multiset(a[..]) == multiset(old(a[..]))
    {
      InsertLast(a, i);
    }
    assert a[..a.Length] == a[..];
  }

  /** s with s[i] moved down to position j and s[j..i] shifted up by one;
      position j still holds its old value (the hole being filled). */
  ghost function Shifted(s: seq<int>, j: nat, i: nat): (r: seq<int>)
    requires j <= i < |s|
    ensures |r| == |s|
  {
    s[..j + 1] + s[j..i] + s[i + 1..]
  }

  /** One insertion step: a[i] moves down past the larger elements of the
      sorted prefix a[..i]. */
  method InsertLast(a: array<int>, i: nat)
    requires i < a.Length
    requires Sorted(a[..i])
    modifies a
    ensures Sorted(a[..i + 1])
    ensures multiset(a[..]) == multiset(old(a[..]))
    ensures a[i + 1..] == old(a[i + 1..])
  {
    ghost var s := a[..];
    var key := a[i];
    var j := i;
    assert Shifted(s, i, i) == s;
    while j > 0 && a[j - 1] > key
      invariant 0 <= j <= i
      invariant a[..] == Shifted(s, j, i)
      invariant forall k :: j <= k < i ==> s[k] > key
    {
      ShiftStep(s, j, i);
      a[j] := a[j - 1];
      j := j - 1;
    }
    ShiftIndex(s, j, i);
    a[j] := key;
    Inserted(s, j, i);
  }

  lemma ShiftIndex(s: seq<int>, j: nat, i: nat)
    requires j <= i < |s|
    ensures j > 0 ==> Shifted(s, j, i)[j - 1] == s[j - 1]
  {
  }

  lemma ShiftStep(s: seq<int>, j: nat, i: nat)
    requires 0 < j <= i < |s|
    ensures Shifted(s, j, i)[j - 1] == s[j - 1]
    ensures Shifted(s, j, i)[j := s[j - 1]] == Shifted(s, j - 1, i)
  {
  }

  /** Filling the hole at j with s[i] sorts s[..i + 1] and permutes s. */
  lemma Inserted(s: seq<int>, j: nat, i: nat)
    requires j <= i < |s|
    requires Sorted(s[..i])
    requires j > 0 ==> s[j - 1] <= s[i]
    requires forall k :: j <= k < i ==> s[k] > s[i]
    ensures var t := Shifted(s, j, i)[j := s[i]];
      Sorted(t[..i + 1]) && multiset(t) == multiset(s) && t[i + 1..] == s[i + 1..]
  {
    var t := Shifted(s, j, i)[j := s[i]];
    assert t == s[..j] + [s[i]] + s[j..i] + s[i + 1..];
    assert t[i + 1..] == s[i + 1..];
    InsertedSorted(s, j, i, t[..i + 1]);
    InsertedMultiset(s, j, i, t);
  }

  lemma InsertedSorted(s: seq<int>, j: nat, i: nat, u: seq<int>)
    requires j <= i < |s| && |u| == i + 1
    requires Sorted(s[..i])
    requires j > 0 ==> s[j - 1] <= s[i]
    requires forall k :: j <= k < i ==> s[k] > s[i]
    requires forall k :: 0 <= k < j ==> u[k] == s[k]
    requires u[j] == s[i]
    requires forall k :: j < k <= i ==> u[k] == s[k - 1]
    ensures Sorted(u)
  {
    forall k, l | 0 <= k < l < |u|
      ensures u[k] <= u[l]
    {
      assert forall m, n :: 0 <= m < n < i ==> s[m] <= s[n] by {
        assert forall m :: 0 <= m < i ==> s[..i][m] == s[m];
      }
    }
  }

  lemma InsertedMultiset(s: seq<int>, j: nat, i: nat, t: seq<int>)
    requires j <= i < |s|
    requires t == s[..j] + [s[i]] + s[j..i] + s[i + 1..]
    ensures multiset(t) == multiset(s)
  {
    assert s == s[..j] + s[j..i] + [s[i]] + s[i + 1..];
  }

  // --------------------------------------------------------- the processor

  /** The data processor: a kind ("obs" or "sim"), a data directory, default
      selector options, and the caching and verbosity flags. */
  class DataProcessor {
    const kind: string
    const dir: Option<string>
    const kwargs: Options
    const cached: bool
    const verbose: bool
    /** The memo of get_cached_data. */
    const cache: LruCache

    constructor (kind: string, dir: Option<string>, cached: bool, verbose: bool, kwargs: Options)
      ensures this.kind == kind && this.dir == dir && this.cached == cached
      ensures this.verbose == verbose && this.kwargs == kwargs
      ensures fresh(cache) && cache.Valid() && cache.capacity == Capacity && cache.entries == []
    {
      this.kind := kind;
      this.dir := dir;
      this.cached := cached;
      this.verbose := verbose;
      this.kwargs := kwargs;
      cache := new LruCache(Capacity);
    }

    /** The file name __call__ resolves from the stored and per-call options;
        `dir` may not be passed per call, since it is passed explicitly. */
    function Filename(perCall: Options, fs: FileSystem): Result<string, Error> {
      var opts := Merge(kwargs, perCall);
      if kind != "obs" && kind != "sim" then Err(UnknownKind)
      else if "dir" in opts then Err(DuplicateKeyword("dir"))
      else if kind == "obs" then Ok(ObsFilename(opts, dir, fs.cwd))
      else SimFilename(dir, opts, fs)
    }

    /** read_data, format_time and process_data in sequence. */
    function Load(fs: FileSystem, filename: string): Result<Table, Error> {
      if kind != "obs" && kind != "sim" then Err(UnknownKind)
      else if ExpandUser(filename, fs.homes) !in fs.tables then Err(FileNotFound(filename))
      else
        var formatted :- FormatTimeSpec(fs.tables[ExpandUser(filename, fs.homes)], kind);
        var processed :- ProcessSpec(formatted, kind);
        Ok(processed.0)
    }

    /** What __call__ returns. */
    function CallSpec(vars: Vars, perCall: Options, fs: FileSystem): Result<Table, Error> {
      var filename :- Filename(perCall, fs);
      var data :- Load(fs, filename);
      Select(data, vars)
    }

    /** Every remembered table is what loading its file gives now. */
    predicate CacheAgrees(es: seq<Entry>, fs: FileSystem) {
      forall e :: e in es ==> Load(fs, e.key) == Ok(e.value)
    }

    /** While the files do not change, the memo answers as a fresh load would,
        and keeps doing so after a hit or after storing a fresh load. */
    lemma CacheTransparent(es: seq<Entry>, fs: FileSystem, key: string, value: Table)
      requires DistinctKeys(es) && |es| <= Capacity
      requires CacheAgrees(es, fs)
      ensures Find(es, key).Some? ==> Load(fs, key) == Ok(Find(es, key).value)
      ensures key in Keys(es) ==> CacheAgrees(Touch(es, key), fs)
      ensures Load(fs, key) == Ok(value) ==> CacheAgrees(Admit(es, key, value, Capacity), fs)
    {
      if key in Keys(es) {
        forall e | e in Touch(es, key) ensures Load(fs, e.key) == Ok(e.value) {
          if e !in Remove(es, key) {
            assert e == Entry(key, Find(es, key).value);
          }
        }
      }
      if Load(fs, key) == Ok(value) {
        forall e | e in Admit(es, key, value, Capacity) ensures Load(fs, e.key) == Ok(e.value) {
          if e != Entry(key, value) {
            assert e in es;
          }
        }
      }
    }

    /** read_data: the table parsed from the file, as a new frame. pandas
        expands a leading `~` in the file name itself. A kind other than
        "obs" and "sim" leaves the result unbound. */
    method ReadData(filename: string, fs: FileSystem) returns (r: Result<Frame, Error>)
      ensures r.Ok? <==> (kind == "obs" || kind == "sim") && ExpandUser(filename, fs.homes) in fs.tables
      ensures r.Ok? ==> fresh(r.value) && r.value.Value() == fs.tables[ExpandUser(filename, fs.homes)]
      ensures kind != "obs" && kind != "sim" ==> r == Err(UnknownKind)
      ensures (kind == "obs" || kind == "sim") && ExpandUser(filename, fs.homes) !in fs.tables ==>
        r == Err(FileNotFound(filename))
    {
      if kind != "obs" && kind != "sim" {
        return Err(UnknownKind);
      }
      var path := ExpandUser(filename, fs.homes);
      if path !in fs.tables {
        return Err(FileNotFound(filename));
      }
      var f := new Frame(fs.tables[path]);
      return Ok(f);
    }

    /** format_time on a frame, in place unless copy is set. On failure an
        in-place call leaves the columns renamed. */
    method FormatTime(data: Frame, copy: bool) returns (r: Result<Frame, Error>)
      modifies data
      ensures copy ==> unchanged(data)
      ensures r.Ok? ==> (if copy then fresh(r.value) else r.value == data)
      ensures r.Ok? <==> FormatTimeSpec(old(data.Value()), kind).Ok?
      ensures r.Ok? ==> r.value.Value() == FormatTimeSpec(old(data.Value()), kind).value
      ensures r.Err? ==> FormatTimeSpec(old(data.Value()), kind) == Err(r.error)
      ensures !copy && r.Err? ==>
        data.Value() == Table(RenameTimeColumns(old(data.columns), kind), old(data.index))
    {
      var data_ := data;
      if copy {
        data_ := data.Copy();
      }
      var cols := data_.columns;
      data_.columns := RenameTimeColumns(cols, kind);
      if !TimeColumnsPresent(cols, kind) {
        if !data_.index.Times? {
          return Err(TimesMissing);
        }
        return Ok(data_);
      }
      if TimeColumnsRepeated(cols, kind) {
        return Err(DuplicateTimeKeys);
      }
      var stamps := Stamps(data_.columns, kind, data_.index.Rows());
      // the stamps become column `time`, which set_index moves into the index
      data_.columns := Drop(data_.columns, ["time"]);
      data_.index := Times(stamps);
      data_.columns := Drop(data_.columns, CanonicalTimeNames(kind));
      return Ok(data_);
    }

    /** The counts process_data prints in verbose mode: one per magnitude
        column with a negative entry. */
    function Reports(names: seq<string>, counts: seq<nat>): seq<(string, nat)>
      requires |names| == |counts|
    {
      if names == [] then []
      else
        Reports(names[..|names| - 1], counts[..|counts| - 1])
          + (if verbose && counts[|counts| - 1] > 0 then [(names[|names| - 1], counts[|counts| - 1])] else [])
    }

    lemma ReportsStep(names: seq<string>, counts: seq<nat>, name: string, n: nat)
      requires |names| == |counts|
      ensures Reports(names + [name], counts + [n]) ==
        Reports(names, counts) + (if verbose && n > 0 then [(name, n)] else [])
    {
      assert (names + [name])[..|names|] == names;
      assert (counts + [n])[..|counts|] == counts;
    }

    /** process_data on a frame, in place unless copy is set; `reported` holds
        the counts printed in verbose mode. */
    method ProcessData(data: Frame, copy: bool) returns (r: Result<Frame, Error>, reported: seq<(string, nat)>)
      modifies data
      ensures copy ==> unchanged(data)
      ensures r.Ok? ==> (if copy then fresh(r.value) else r.value == data)
      ensures r.Ok? <==> ProcessSpec(old(data.Value()), kind).Ok?
      ensures r.Err? ==> ProcessSpec(old(data.Value()), kind) == Err(r.error)
      ensures r.Ok? ==>
        var spec := ProcessSpec(old(data.Value()), kind).value;
        r.value.Value() == spec.0 && |spec.1| == |Magnitudes| && reported == Reports(Magnitudes, spec.1)
    {
      ghost var t0 := data.Value();
      var data_ := data;
      if copy {
        data_ := data.Copy();
      }
      if kind == "sim" && "it" in Names(data_.columns) {
        data_.columns := Drop(data_.columns, ["it"]);
      }
      ghost var start := data_.columns;
      assert start == if kind == "sim" then Drop(t0.columns, ["it"]) else t0.columns by {
        if kind == "sim" && "it" !in Names(t0.columns) {
          DropNothing(t0.columns, ["it"]);
        }
      }
      var missing;
      missing, reported := SanitizeMagnitudes(data_);
      if missing.Some? {
        return Err(MissingColumn(Magnitudes[missing.value])), reported;
      }
      return Ok(data_), reported;
    }

    /** The loop of process_data over the magnitude columns, sanitising each
        in turn. It stops at the first magnitude with no column (the KeyError),
        leaving the earlier ones sanitised; `reported` holds the counts printed
        in verbose mode. */
    method SanitizeMagnitudes(f: Frame) returns (missing: Option<nat>, reported: seq<(string, nat)>)
      modifies f
      ensures f.index == old(f.index)
      ensures missing.None? <==> FirstMissing(old(f.columns), Magnitudes).None?
      ensures missing.Some? ==>
        && missing.value < |Magnitudes|
        && FirstMissing(old(f.columns), Magnitudes) == Some(Magnitudes[missing.value])
        && f.columns == SanitizeNames(old(f.columns), Magnitudes[..missing.value])
      ensures missing.None? ==>
        && f.columns == SanitizeNames(old(f.columns), Magnitudes)
        && reported == Reports(Magnitudes, CountsOf(old(f.columns), Magnitudes))
    {
      ghost var start := f.columns;
      reported := [];
      for i := 0 to |Magnitudes|
        invariant f.columns == SanitizeNames(start, Magnitudes[..i])
        invariant f.index == old(f.index)
        invariant forall k :: 0 <= k < i ==> Magnitudes[k] in Names(start)
        invariant reported == Reports(Magnitudes[..i], CountsOf(start, Magnitudes[..i]))
      {
        var name := Magnitudes[i];
        SanitizeStep(start, i);
        if name !in Names(f.columns) {
          FirstMissingAt(start, Magnitudes, i);
          return Some(i), reported;
        }
        var n := NegativeCountNamed(f.columns, name);
        f.columns := SanitizeColumn(f.columns, name);
        ReportsStep(Magnitudes[..i], CountsOf(start, Magnitudes[..i]), name, n);
        PrefixStep(Magnitudes, i);
        CountsSnoc(start, Magnitudes[..i], name);
        if verbose && n > 0 {
          reported := reported + [(name, n)];
        }
      }
      PrefixStep(Magnitudes, |Magnitudes|);
      AllPresent(start, Magnitudes);
      return None, reported;
    }

    /** get_cached_data: a hit returns the remembered table without reading
        the file; a miss loads it and remembers a successful result. */
    method GetCachedData(filename: string, fs: FileSystem) returns (r: Result<Table, Error>)
      requires cache.Valid()
      modifies cache
      ensures cache.Valid()
      ensures Find(old(cache.entries), filename).Some? ==>
        r == Ok(Find(old(cache.entries), filename).value) && cache.entries == Touch(old(cache.entries), filename)
      ensures Find(old(cache.entries), filename).None? ==>
        r == Load(fs, filename) &&
        cache.entries == if r.Ok? then Admit(old(cache.entries), filename, r.value, cache.capacity) else old(cache.entries)
      ensures CacheAgrees(old(cache.entries), fs) && cache.capacity == Capacity ==>
        r == Load(fs, filename) && CacheAgrees(cache.entries, fs)
    {
      var hit := cache.Lookup(filename);
      if hit.Some? {
        if CacheAgrees(old(cache.entries), fs) && cache.capacity == Capacity {
          CacheTransparent(old(cache.entries), fs, filename, hit.value);
        }
        return Ok(hit.value);
      }
      var read := ReadData(filename, fs);
      if read.Err? {
        return Err(read.error);
      }
      var formatted := FormatTime(read.value, true);
      if formatted.Err? {
        return Err(formatted.error);
      }
      var processed, _ := ProcessData(formatted.value, true);
      if processed.Err? {
        return Err(processed.error);
      }
      var t := processed.value.Value();
      if CacheAgrees(old(cache.entries), fs) && cache.capacity == Capacity {
        CacheTransparent(old(cache.entries), fs, filename, t);
      }
      cache.Insert(filename, t);
      return Ok(t);
    }

    /** __call__: merge the options, resolve the file name, load the table
        (through the memo when caching is on) and select the variables. The
        stored options are never changed. */
    method Call(vars: Vars, perCall: Options, fs: FileSystem) returns (r: Result<Table, Error>)
      requires cache.Valid()
      modifies cache
      ensures cache.Valid()
      ensures !cached ==> r == CallSpec(vars, perCall, fs) && cache.entries == old(cache.entries)
      ensures cached && CacheAgrees(old(cache.entries), fs) && cache.capacity == Capacity ==>
        r == CallSpec(vars, perCall, fs) && CacheAgrees(cache.entries, fs)
      ensures cached && Filename(perCall, fs).Err? ==>
        r == Err(Filename(perCall, fs).error) && cache.entries == old(cache.entries)
      ensures cached && Filename(perCall, fs).Ok? ==>
        var f := Filename(perCall, fs).value;
        var t := if Find(old(cache.entries), f).Some? then Ok(Find(old(cache.entries), f).value) else Load(fs, f);
        && r == (if t.Err? then Err(t.error) else Select(t.value, vars))
        && cache.entries ==
          if Find(old(cache.entries), f).Some? then Touch(old(cache.entries), f)
          else if t.Ok? then Admit(old(cache.entries), f, t.value, cache.capacity)
          else old(cache.entries)
    {
      var filename := Filename(perCall, fs);
      if filename.Err? {
        return Err(filename.error);
      }
      var data: Table;
      if cached {
        var loaded := GetCachedData(filename.value, fs);
        if loaded.Err? {
          return Err(loaded.error);
        }
        data := loaded.value;
      } else {
        var read := ReadData(filename.value, fs);
        if read.Err? {
          return Err(read.error);
        }
        var frame := read.value;
        var formatted := FormatTime(frame, false);
        if formatted.Err? {
          return Err(formatted.error);
        }
        var processed, _ := ProcessData(frame, false);
        if processed.Err? {
          return Err(processed.error);
        }
        data := frame.Value();
      }
      r := Select(data, vars);
    }

    /** get_run_nums: the run numbers of the selected simulation directory's
        subdirectories, sorted ascending. The result is a sorted permutation of
        the parsed numbers, one per subdirectory. */
    method GetRunNums(param: Value, kwargs: Options, fs: FileSystem) returns (r: Result<seq<int>, Error>)
      ensures r.Ok? <==> RunNumsUnsorted(dir, param, kwargs, fs).Ok?
      ensures r.Err? ==> r == RunNumsUnsorted(dir, param, kwargs, fs)
      ensures r.Ok? ==>
        && Sorted(r.value)
        && multiset(r.value) == multiset(RunNumsUnsorted(dir, param, kwargs, fs).value)
        && |r.value| == |SubdirNames(fs.listings[SimDir(dir, kwargs["param" := param], fs).value])|
    {
      if "param" in kwargs {
        return Err(DuplicateKeyword("param"));
      }
      var simDir := SimDir(dir, kwargs["param" := param], fs);
      if simDir.Err? {
        return Err(simDir.error);
      }
      if simDir.value !in fs.listings {
        return Err(MissingDirectory(simDir.value));
      }
      var parsed := ParseRunNums(SubdirNames(fs.listings[simDir.value]));
      assert RunNumsUnsorted(dir, param, kwargs, fs) == parsed;
      if parsed.Err? {
        return Err(parsed.error);
      }
      var nums := parsed.value;
      var a := new int[|nums|](k requires 0 <= k < |nums| => nums[k]);
      assert a[..] == nums;
      SortInPlace(a);
      assert |a[..]| == |multiset(a[..])| == |multiset(nums)| == |nums|;
      return Ok(a[..]);
    }
  }

  lemma PrefixStep<T>(xs: seq<T>, i: nat)
    requires i <= |xs|
    ensures i < |xs| ==> xs[..i + 1] == xs[..i] + [xs[i]]
    ensures i == |xs| ==> xs[..i] == xs
  {
  }

  /** One turn of process_data's loop: sanitising the next magnitude keeps
      the names and extends the sanitised prefix, and the count it reports is
      the count in the table the loop started from. */
  lemma SanitizeStep(start: seq<Column>, i: nat)
    requires i < |Magnitudes|
    ensures Names(SanitizeNames(start, Magnitudes[..i])) == Names(start)
    ensures SanitizeColumn(SanitizeNames(start, Magnitudes[..i]), Magnitudes[i]) == SanitizeNames(start, Magnitudes[..i + 1])
    ensures NegativeCountNamed(SanitizeNames(start, Magnitudes[..i]), Magnitudes[i]) == NegativeCountNamed(start, Magnitudes[i])
  {
    SanitizeNamesMeaning(start, Magnitudes[..i]);
    MagnitudesDistinct(i);
    CountUnaffected(start, Magnitudes[..i], Magnitudes[i]);
    PrefixStep(Magnitudes, i);
    var prefix := Magnitudes[..i + 1];
    assert prefix[..|prefix| - 1] == Magnitudes[..i];
  }

  lemma MagnitudesDistinct(i: nat)
    requires i < |Magnitudes|
    ensures Magnitudes[i] !in Magnitudes[..i]
  {
    assert Magnitudes[..i] == Magnitudes[..i];
  }

  lemma {:induction false} DropNothing(cols: seq<Column>, names: seq<string>)
    requires forall c :: c in cols ==> c.name !in names
    ensures Drop(cols, names) == cols
  {
    if cols != [] {
      DropNothing(cols[1..], names);
      assert cols == [cols[0]] + cols[1..];
    }
  }

  lemma AllPresent(cols: seq<Column>, vars: seq<string>)
    requires forall k :: 0 <= k < |vars| ==> vars[k] in Names(cols)
    ensures FirstMissing(cols, vars).None?
  {
    forall v | v in vars ensures v in Names(cols) {
      var k :| 0 <= k < |vars| && vars[k] == v;
    }
  }

  lemma CountsSnoc(cols: seq<Column>, names: seq<string>, name: string)
    ensures CountsOf(cols, names + [name]) == CountsOf(cols, names) + [NegativeCountNamed(cols, name)]
  {
  }

  lemma {:induction false} FirstMissingAt(cols: seq<Column>, vars: seq<string>, i: nat)
    requires i < |vars|
    requires forall k :: 0 <= k < i ==> vars[k] in Names(cols)
    requires vars[i] !in Names(cols)
    ensures FirstMissing(cols, vars) == Some(vars[i])
  {
    if i > 0 {
      FirstMissingAt(cols, vars[1..], i - 1);
    }
  }
}
