/** One run of the `ahash` command: default the flags, glob the input
    directory, hash every match, name the report after today's date and
    write it. The working directory, the glob's matches, the files' bytes,
    the clock and the creation of the report are inputs; the SHA-256
    function is a parameter. */
module Hasher {
  import opened Wrappers
  import Hex
  import Paths
  import Settings
  import Stamp
  import opened Records
  import opened Report

  /** What a run reads from its surroundings. */
  datatype Environment = Environment(
    cwd: string,                     // the working directory; "" when it could not be obtained
    listing: Option<seq<Entry>>,     // the glob's matches with their contents; None: bad pattern
    year: int, month: int, day: int, // the local date of the clock
    canCreate: bool)                 // whether the report file can be created

  /** A run either stops at a fatal error or leaves a report file and
      console output behind. */
  datatype Outcome =
    | Aborted(error: RunError)
    | Completed(outputPath: string, fileLines: seq<string>, console: seq<string>)

  /** The report's path: the output directory joined with the dated name. */
  function OutputPath(outputDir: string, year: int, month: int, day: int): (path: string)
    ensures var name := Stamp.FileName(Stamp.DateStamp(year, month, day));
            |path| >= |name| && path[|path| - |name|..] == name
    ensures outputDir == [] ==> path == Stamp.FileName(Stamp.DateStamp(year, month, day))
  {
    Paths.Join(outputDir, Stamp.FileName(Stamp.DateStamp(year, month, day)))
  }

  /** The closing message on the console. */
  function Confirmation(path: string): (line: string)
    ensures |line| == |path| + 18
    ensures line[..17] == "\nHashes saved to " && line[17..|line| - 1] == path && line[|line| - 1] == '\n'
  {
    "\nHashes saved to " + path + "\n"
  }

  /** The outcome of a run whose write loop visits the records in the
      order `visited`. Each fatal error belongs to one stage: a rejected
      pattern, an unreadable match, or a report that cannot be created. */
  function Expected(flags: Settings.Flags, env: Environment, sha: seq<Hex.byte> -> Digest,
                    visited: seq<Record>): (out: Outcome)
    ensures out.Completed? <==> Collected(env, sha).Some? && env.canCreate
    ensures out.Aborted? && out.error.BadPattern? <==> env.listing.None?
    ensures out.Aborted? && out.error.ReadFailed? <==> env.listing.Some? && Collected(env, sha).None?
    ensures out.Aborted? && out.error.CreateFailed? <==> Collected(env, sha).Some? && !env.canCreate
  {
    var c := Settings.Resolve(flags, env.cwd);
    match env.listing
    case None => Aborted(BadPattern(Settings.GlobPattern(c)))
    case Some(files) =>
      match Collect(files, sha, Paths.Base)
      case Err(e) => Aborted(e)
      case Ok(_) => Finish(c, env, visited)
  }

  /** The second half of a run, once the records are collected: name the
      report after the date, create it, write the records in the order
      `visited` and confirm on the console. The only failure is the
      creation of the report, and it names the report's path. */
  function Finish(c: Settings.Flags, env: Environment, visited: seq<Record>): (out: Outcome)
    ensures out.Completed? <==> env.canCreate
    ensures out.Aborted? ==> out.error == CreateFailed(OutputPath(c.output, env.year, env.month, env.day))
  {
    var path := OutputPath(c.output, env.year, env.month, env.day);
    if !env.canCreate then Aborted(CreateFailed(path))
    else Completed(path,
                   Written(visited, ReportFile(c.clean, c.verbose)),
                   ["\n"] + Written(visited, Console(c.verbose)) + [Confirmation(path)])
  }

  /** The records a run collects, when it gets that far. */
  function Collected(env: Environment, sha: seq<Hex.byte> -> Digest): Option<map<string, string>>
  {
    match env.listing
    case None => None
    case Some(files) => if Collect(files, sha, Paths.Base).Ok? then Some(Collect(files, sha, Paths.Base).value) else None
  }

  /** What a completed run leaves behind for the records `m`, whatever
      order the write loop took: the report at the dated path in the output
      directory holding the records' lines; on the console a blank line,
      the records' echoes in verbose mode, and the confirmation. */
  ghost predicate Promised(out: Outcome, m: map<string, string>, c: Settings.Flags, env: Environment)
  {
    && out.Completed?
    && out.outputPath == OutputPath(c.output, env.year, env.month, env.day)
    && HoldsFileLines(out.fileLines, m, c.clean, c.verbose)
    && |out.console| >= 2 && out.console[0] == "\n"
    && HoldsEcho(out.console[1..|out.console| - 1], m, c.verbose)
    && out.console[|out.console| - 1] == Confirmation(out.outputPath)
  }

  /** The second half of the run: `records` are the collected records and
      `c` the resolved flags. `visited` is the order in which the write loop
      happened to visit the records. */
  method Publish(c: Settings.Flags, env: Environment, records: map<string, string>)
    returns (out: Outcome, ghost visited: seq<Record>)
    ensures out == Finish(c, env, visited)
    ensures out.Completed? <==> env.canCreate
    ensures out.Completed? ==> Enumerates(records, visited) && Promised(out, records, c, env)
  {
    visited := [];
    var stamp := Stamp.DateStamp(env.year, env.month, env.day);
    var outputFile := Paths.Join(c.output, Stamp.FileName(stamp));
    if !env.canCreate {
      return Aborted(CreateFailed(outputFile)), visited;
    }
    var fileLines, echo;
    fileLines, echo, visited := WriteReport(records, c.clean, c.verbose);
    out := Completed(outputFile, fileLines, ["\n"] + echo + [Confirmation(outputFile)]);
    FinishPromised(c, env, records, visited);
  }

  /** Whatever order the write loop takes, a report that can be created
      ends up as `Promised`. */
  lemma FinishPromised(c: Settings.Flags, env: Environment, records: map<string, string>, visited: seq<Record>)
    requires env.canCreate && Enumerates(records, visited)
    ensures Promised(Finish(c, env, visited), records, c, env)
  {
    var path := OutputPath(c.output, env.year, env.month, env.day);
    var lines, echo := Written(visited, ReportFile(c.clean, c.verbose)), Written(visited, Console(c.verbose));
    FileContents(records, visited, c.clean, c.verbose);
    EchoContents(records, visited, c.verbose);
    CompletedIsPromised(path, lines, echo, records, c, env);
  }

  /** A step of `FinishPromised`, split off to keep each proof small: a
      completed outcome at the dated path whose parts hold the records is
      `Promised`. */
  lemma CompletedIsPromised(path: string, lines: seq<string>, echo: seq<string>,
                            m: map<string, string>, c: Settings.Flags, env: Environment)
    requires path == OutputPath(c.output, env.year, env.month, env.day)
    requires HoldsFileLines(lines, m, c.clean, c.verbose) && HoldsEcho(echo, m, c.verbose)
    ensures Promised(Completed(path, lines, ["\n"] + echo + [Confirmation(path)]), m, c, env)
  {
    var console := ["\n"] + echo + [Confirmation(path)];
    assert console[1..|console| - 1] == echo;
  }

  /** The run. `visited` is the order in which the write loop happened to
      visit the records; any enumeration of the records is possible. */
  method Run(flags: Settings.Flags, env: Environment, sha: seq<Hex.byte> -> Digest)
    returns (out: Outcome, ghost visited: seq<Record>)
    ensures out == Expected(flags, env, sha, visited)
    ensures out.Completed? ==> Collected(env, sha).Some? && Enumerates(Collected(env, sha).value, visited)
    ensures out.Completed? <==>
              && env.listing.Some?
              && (forall i :: 0 <= i < |env.listing.value| ==> env.listing.value[i].contents.Some?)
              && env.canCreate
    ensures out.Completed? ==> Promised(out, Collected(env, sha).value, Settings.Resolve(flags, env.cwd), env)
  {
    visited := [];
    var c := Settings.Resolve(flags, env.cwd);
    if env.listing.None? {
      return Aborted(BadPattern(Settings.GlobPattern(c))), visited;
    }
    var hashes := CollectRecords(env.listing.value, sha, Paths.Base);
    CollectOk(env.listing.value, sha, Paths.Base);
    if hashes.Err? {
      return Aborted(hashes.error), visited;
    }
    out, visited := Publish(c, env, hashes.value);
  }

  /** The parts of a completed run's outcome. */
  lemma CompletedParts(flags: Settings.Flags, env: Environment, sha: seq<Hex.byte> -> Digest,
                       visited: seq<Record>)
    requires Collected(env, sha).Some? && env.canCreate
    ensures var c := Settings.Resolve(flags, env.cwd);
            var path := OutputPath(c.output, env.year, env.month, env.day);
            Expected(flags, env, sha, visited)
            == Completed(path, Written(visited, ReportFile(c.clean, c.verbose)),
                         ["\n"] + Written(visited, Console(c.verbose)) + [Confirmation(path)])
  {
  }

  /** A run completes exactly when the glob pattern is accepted, every
      matched file can be read and the report file can be created. */
  lemma RunCompletes(flags: Settings.Flags, env: Environment, sha: seq<Hex.byte> -> Digest,
                     visited: seq<Record>)
    ensures Expected(flags, env, sha, visited).Completed? <==>
              && env.listing.Some?
              && (forall i :: 0 <= i < |env.listing.value| ==> env.listing.value[i].contents.Some?)
              && env.canCreate
  {
    if env.listing.Some? {
      CollectOk(env.listing.value, sha, Paths.Base);
    }
  }

  /** One unreadable file aborts the whole run before the report file is
      created: the error names the first unreadable file. */
  lemma RunAbortsOnUnreadable(flags: Settings.Flags, env: Environment, sha: seq<Hex.byte> -> Digest,
                              visited: seq<Record>, k: nat)
    requires env.listing.Some? && k < |env.listing.value|
    requires env.listing.value[k].contents.None?
    requires forall j :: 0 <= j < k ==> env.listing.value[j].contents.Some?
    ensures Expected(flags, env, sha, visited) == Aborted(ReadFailed(env.listing.value[k].path))
  {
    CollectFirstFailure(env.listing.value, sha, Paths.Base, k);
  }

  /** A completed run's report sits in the output directory under the
      dated file name, which is also the report path's base name. */
  lemma RunOutputPath(flags: Settings.Flags, env: Environment, sha: seq<Hex.byte> -> Digest,
                      visited: seq<Record>)
    requires Expected(flags, env, sha, visited).Completed?
    ensures var name := Stamp.FileName(Stamp.DateStamp(env.year, env.month, env.day));
            && Expected(flags, env, sha, visited).outputPath
               == Paths.Join(Settings.Resolve(flags, env.cwd).output, name)
            && Paths.Base(Expected(flags, env, sha, visited).outputPath) == name
  {
    var c := Settings.Resolve(flags, env.cwd);
    var name := Stamp.FileName(Stamp.DateStamp(env.year, env.month, env.day));
    assert Collected(env, sha).Some? && env.canCreate;
    CompletedParts(flags, env, sha, visited);
    assert Expected(flags, env, sha, visited).outputPath == Paths.Join(c.output, name);
    Stamp.FileNameIsElement(env.year, env.month, env.day);
    Paths.BaseOfJoin(c.output, name);
  }

  /** A completed run's report file holds one line per record, or two
      identical ones in verbose mode, each shaped by `clean` alone: verbose
      mode does not make the file clean. */
  lemma RunFileLines(flags: Settings.Flags, env: Environment, sha: seq<Hex.byte> -> Digest,
                     visited: seq<Record>)
    requires Expected(flags, env, sha, visited).Completed?
    requires Enumerates(Collected(env, sha).value, visited)
    ensures |visited| == |Collected(env, sha).value|
    ensures var c := Settings.Resolve(flags, env.cwd);
            IsFileReport(Expected(flags, env, sha, visited).fileLines, visited, c.clean, c.verbose)
  {
    var c := Settings.Resolve(flags, env.cwd);
    assert Collected(env, sha).Some? && env.canCreate;
    CompletedParts(flags, env, sha, visited);
    EnumerationSize(Collected(env, sha).value, visited);
    WrittenShape(visited, c.clean, c.verbose);
  }

  /** A completed run's console output after the hashing: a blank line,
      one "name: digest" echo per record in verbose mode whatever `clean`
      says, and the confirmation naming the report. */
  lemma RunConsole(flags: Settings.Flags, env: Environment, sha: seq<Hex.byte> -> Digest,
                   visited: seq<Record>)
    requires Expected(flags, env, sha, visited).Completed?
    requires Enumerates(Collected(env, sha).value, visited)
    ensures |visited| == |Collected(env, sha).value|
    ensures var c := Settings.Resolve(flags, env.cwd);
            var out := Expected(flags, env, sha, visited);
            && |out.console| >= 2
            && out.console[0] == "\n"
            && IsEcho(out.console[1..|out.console| - 1], visited, c.verbose)
            && out.console[|out.console| - 1] == Confirmation(out.outputPath)
  {
    var c := Settings.Resolve(flags, env.cwd);
    var out := Expected(flags, env, sha, visited);
    var e := Written(visited, Console(c.verbose));
    assert Collected(env, sha).Some? && env.canCreate;
    CompletedParts(flags, env, sha, visited);
    assert out.console[1..|out.console| - 1] == e;
    EnumerationSize(Collected(env, sha).value, visited);
    WrittenShape(visited, c.clean, c.verbose);
  }

  /** Every record the report shows holds the lower-case hex SHA-256 of a
      matched file with that base name, and every matched file's base name
      is shown. */
  lemma RunDigestsMatch(flags: Settings.Flags, env: Environment, sha: seq<Hex.byte> -> Digest,
                        visited: seq<Record>)
    requires Expected(flags, env, sha, visited).Completed?
    requires Enumerates(Collected(env, sha).value, visited)
    ensures forall j :: 0 <= j < |visited| ==>
              DigestOfSome(env.listing.value, sha, Paths.Base, visited[j].name, visited[j].hash)
    ensures forall i :: 0 <= i < |env.listing.value| ==>
              exists j :: 0 <= j < |visited| && visited[j].name == Paths.Base(env.listing.value[i].path)
  {
    var files := env.listing.value;
    CollectValues(files, sha, Paths.Base);
    CollectKeys(files, sha, Paths.Base);
    forall i | 0 <= i < |files|
      ensures exists j :: 0 <= j < |visited| && visited[j].name == Paths.Base(files[i].path)
    {
      NamesWitness(visited, Paths.Base(files[i].path));
    }
  }

  /** Whatever order the map is visited in, the report file and the console
      receive the same lines, up to their order. */
  lemma RunOrderIrrelevant(flags: Settings.Flags, env: Environment, sha: seq<Hex.byte> -> Digest,
                           a: seq<Record>, b: seq<Record>)
    requires Expected(flags, env, sha, a).Completed?
    requires Enumerates(Collected(env, sha).value, a) && Enumerates(Collected(env, sha).value, b)
    ensures Expected(flags, env, sha, b).Completed?
    ensures multiset(Expected(flags, env, sha, a).fileLines) == multiset(Expected(flags, env, sha, b).fileLines)
    ensures multiset(Expected(flags, env, sha, a).console) == multiset(Expected(flags, env, sha, b).console)
  {
    var c := Settings.Resolve(flags, env.cwd);
    var m := Collected(env, sha).value;
    ReportOrderIrrelevant(m, a, b, ReportFile(c.clean, c.verbose));
    ReportOrderIrrelevant(m, a, b, Console(c.verbose));
  }

  /** The bytes of "hello". */
  const Hello: seq<Hex.byte> := [0x68, 0x65, 0x6c, 0x6c, 0x6f]

  lemma ExampleStamp()
    ensures Stamp.DateStamp(2026, 10, 17) == "261017"
  {
    assert Stamp.Pad2(26) == "26";
    assert Stamp.Pad2(10) == "10";
    assert Stamp.Pad2(17) == "17";
  }

  /** A step of `ExamplePath`, split off to keep each proof small. */
  lemma ExampleFileName()
    ensures OutputPath("/home/u", 2026, 10, 17) == Paths.Join("/home/u", "hashes-output-261017.txt")
  {
    ExampleStamp();
  }

  /** A step of `ExamplePath`, split off to keep each proof small. */
  lemma ExampleJoin()
    ensures Paths.Join("/home/u", "hashes-output-261017.txt") == "/home/u/hashes-output-261017.txt"
  {
    Paths.JoinShape("/home/u", "hashes-output-261017.txt");
  }

  lemma ExamplePath()
    ensures OutputPath("/home/u", 2026, 10, 17) == "/home/u/hashes-output-261017.txt"
  {
    ExampleFileName();
    ExampleJoin();
  }

  lemma ExampleRecords(sha: seq<Hex.byte> -> Digest)
    ensures Collect([Entry("/data/a.txt", Some(Hello))], sha, Paths.Base) == Ok(map["a.txt" := Hex.Encode(sha(Hello))])
  {
    assert Paths.Join("/data", "a.txt") == "/data/a.txt";
    Paths.BaseOfJoin("/data", "a.txt");
    assert [Entry("/data/a.txt", Some(Hello))][..0] == [];
  }

  /** What the write loop emits for one record without verbose; a step of
      `QuietSingleRecord`, split off to keep each proof small. */
  lemma ExampleLines(r: Record, clean: bool)
    ensures Written([r], ReportFile(clean, false)) == [FileLine(r, clean)]
    ensures Written([r], Console(false)) == []
  {
    assert [r][..0] == [];
  }

  /** The console of a run that echoes nothing; a step of
      `QuietSingleRecord`, split off to keep each proof small. */
  lemma QuietConsole(path: string)
    ensures ["\n"] + [] + [Confirmation(path)] == ["\n", Confirmation(path)]
  {
  }

  /** Without verbose, a completed run visiting the one record `r` writes
      `r`'s line to the report and only the blank line and the confirmation
      to the console. */
  lemma QuietSingleRecord(flags: Settings.Flags, env: Environment, sha: seq<Hex.byte> -> Digest, r: Record)
    requires Collected(env, sha).Some? && env.canCreate && !flags.verbose
    ensures var c := Settings.Resolve(flags, env.cwd);
            var path := OutputPath(c.output, env.year, env.month, env.day);
            Expected(flags, env, sha, [r]) == Completed(path, [FileLine(r, flags.clean)], ["\n", Confirmation(path)])
  {
    var c := Settings.Resolve(flags, env.cwd);
    var path := OutputPath(c.output, env.year, env.month, env.day);
    CompletedParts(flags, env, sha, [r]);
    ExampleLines(r, c.clean);
    QuietConsole(path);
  }

  /** The worked run below gets past the record loop; a step of
      `HelloExample`, split off to keep each proof small. */
  lemma ExampleCollected(sha: seq<Hex.byte> -> Digest, env: Environment)
    requires env.listing == Some([Entry("/data/a.txt", Some(Hello))])
    ensures Collected(env, sha).Some?
  {
    ExampleRecords(sha);
  }

  /** The report line of the worked run's record; a step of
      `HelloExample`, split off to keep each proof small. */
  lemma ExampleLine(digest: string, clean: bool)
    ensures FileLine(Record("a.txt", digest), clean) == if clean then digest + "\n" else "a.txt: " + digest + "\n"
  {
    assert "a.txt" + ": " == "a.txt: ";
  }

  /** A worked run: "/data/a.txt" holds "hello", the extension is "txt",
      no output directory is given and the date is 2026-10-17. The report
      "/home/u/hashes-output-261017.txt" gets the one line "a.txt: <hex>",
      or "<hex>" alone when clean, where <hex> is the digest of "hello". */
  lemma HelloExample(sha: seq<Hex.byte> -> Digest, flags: Settings.Flags, env: Environment)
    requires env == Environment("/home/u", Some([Entry("/data/a.txt", Some(Hello))]), 2026, 10, 17, true)
    requires flags.input == "/data" && flags.output == "" && flags.ext == "txt" && !flags.verbose
    ensures var digest := Hex.Encode(sha(Hello));
            Expected(flags, env, sha, [Record("a.txt", digest)])
            == Completed("/home/u/hashes-output-261017.txt",
                         [if flags.clean then digest + "\n" else "a.txt: " + digest + "\n"],
                         ["\n", Confirmation("/home/u/hashes-output-261017.txt")])
  {
    var digest := Hex.Encode(sha(Hello));
    ExampleCollected(sha, env);
    QuietSingleRecord(flags, env, sha, Record("a.txt", digest));
    assert Settings.Resolve(flags, env.cwd).output == "/home/u";
    ExamplePath();
    ExampleLine(digest, flags.clean);
  }

  /** The same run, with the glob pattern it uses. */
  lemma ExamplePattern()
    ensures Settings.GlobPattern(Settings.Resolve(Settings.Flags("/data", "", "txt", false, false), "/home/u"))
            == "/data/*.txt"
  {
  }
}
