/** The write loop of a run: every record goes to the report file, and in
    verbose mode to the console as well. Go visits the records of its map
    in no fixed order, so the model is stated for whatever order the loop
    happens to take. */
module Report {

  /** One entry of the record map: a base name and its hex digest. */
  datatype Record = Record(name: string, hash: string)

  /** The two destinations of the loop: the report file, whose lines follow
      `clean`, and the console, which echoes only in verbose mode. */
  datatype Stream = ReportFile(clean: bool, verbose: bool) | Console(verbose: bool)

  /** The report file's line for a record: the digest alone when clean,
      "name: digest" otherwise. */
  function FileLine(r: Record, clean: bool): string
  {
    if clean then r.hash + "\n" else r.name + ": " + r.hash + "\n"
  }

  /** The console echo of a record: always "name: digest" and a blank line. */
  function EchoLine(r: Record): string
  {
    r.name + ": " + r.hash + "\n\n"
  }

  /** A report line ends in the digest and a newline; it is nothing more
      exactly when clean, and otherwise starts with the name and ": ". */
  lemma FileLineShape(r: Record, clean: bool)
    ensures var line := FileLine(r, clean);
            && |line| > |r.hash| && line[|line| - |r.hash| - 1..] == r.hash + "\n"
            && (clean <==> |line| == |r.hash| + 1)
            && (!clean ==> |line| == |r.name| + |r.hash| + 3 && line[..|r.name| + 2] == r.name + ": ")
  {
    var line := FileLine(r, clean);
    if !clean {
      assert line == (r.name + ": ") + (r.hash + "\n");
    }
  }

  /** An echo starts with the name and ": " and ends in the digest and a
      blank line, whatever clean says. */
  lemma EchoLineShape(r: Record)
    ensures var line := EchoLine(r);
            && |line| == |r.name| + |r.hash| + 4
            && line[..|r.name| + 2] == r.name + ": "
            && line[|line| - |r.hash| - 2..] == r.hash + "\n\n"
  {
    assert EchoLine(r) == (r.name + ": ") + (r.hash + "\n\n");
  }

  /** What one turn of the loop writes to a stream. In verbose mode the file
      line is written twice: once inside the verbose block and once after
      it. */
  function Writes(r: Record, s: Stream): seq<string>
  {
    match s
    case ReportFile(clean, verbose) =>
      if verbose then [FileLine(r, clean), FileLine(r, clean)] else [FileLine(r, clean)]
    case Console(verbose) =>
      if verbose then [EchoLine(r)] else []
  }

  /** Everything the loop writes to a stream when it visits `rs` in order. */
  function Written(rs: seq<Record>, s: Stream): seq<string>
  {
    if rs == [] then [] else Written(rs[..|rs| - 1], s) + Writes(rs[|rs| - 1], s)
  }

  /** The names of the visited records. */
  function Names(rs: seq<Record>): set<string>
  {
    if rs == [] then {} else Names(rs[..|rs| - 1]) + {rs[|rs| - 1].name}
  }

  /** `rs` visits every record of `m` exactly once: a possible iteration
      order of Go's `range` over the map. */
  ghost predicate Enumerates(m: map<string, string>, rs: seq<Record>)
  {
    && (forall i :: 0 <= i < |rs| ==> rs[i].name in m && m[rs[i].name] == rs[i].hash)
    && (forall i, j :: 0 <= i < j < |rs| ==> rs[i].name != rs[j].name)
    && Names(rs) == m.Keys
  }

  /** The write loop: visits the records in an unspecified order and
      returns what it wrote to the report file and to the console, and
      (as a ghost) the order it took. */
  method WriteReport(records: map<string, string>, clean: bool, verbose: bool)
    returns (fileLines: seq<string>, echo: seq<string>, ghost visited: seq<Record>)
    ensures Enumerates(records, visited)
    ensures fileLines == Written(visited, ReportFile(clean, verbose))
    ensures echo == Written(visited, Console(verbose))
  {
    fileLines, echo, visited := [], [], [];
    var remaining := records.Keys;
    while remaining != {}
      invariant Visiting(records, visited, remaining)
      invariant fileLines == Written(visited, ReportFile(clean, verbose))
      invariant echo == Written(visited, Console(verbose))
      decreases remaining
    {
      var name :| name in remaining;
      var hash := records[name];
      ghost var r, linesBefore, echoBefore := Record(name, hash), fileLines, echo;
      if verbose {
        echo := echo + [name + ": " + hash + "\n\n"];
        if clean {
          fileLines := fileLines + [hash + "\n"];
        } else {
          fileLines := fileLines + [name + ": " + hash + "\n"];
        }
      }
      if clean {
        fileLines := fileLines + [hash + "\n"];
      } else {
        fileLines := fileLines + [name + ": " + hash + "\n"];
      }
      assert fileLines == linesBefore + Writes(r, ReportFile(clean, verbose));
      assert echo == echoBefore + Writes(r, Console(verbose));
      WrittenSnoc(visited, r, ReportFile(clean, verbose));
      WrittenSnoc(visited, r, Console(verbose));
      VisitOne(records, visited, remaining, name);
      visited := visited + [r];
      remaining := remaining - {name};
    }
  }

  /** The loop's bookkeeping: `visited` holds distinct records of `m`,
      and the names not yet visited are `remaining`. */
  ghost predicate Visiting(m: map<string, string>, visited: seq<Record>, remaining: set<string>)
  {
    && (forall i :: 0 <= i < |visited| ==> visited[i].name in m && m[visited[i].name] == visited[i].hash)
    && (forall i, j :: 0 <= i < j < |visited| ==> visited[i].name != visited[j].name)
    && Names(visited) + remaining == m.Keys && Names(visited) !! remaining
  }

  /** One turn of the loop keeps its bookkeeping. */
  lemma VisitOne(m: map<string, string>, visited: seq<Record>, remaining: set<string>, name: string)
    requires Visiting(m, visited, remaining) && name in remaining
    ensures Visiting(m, visited + [Record(name, m[name])], remaining - {name})
  {
    var next := visited + [Record(name, m[name])];
    NamesContain(visited);
    assert next[..|visited|] == visited;
  }

  /** Visiting one more record appends what that record writes. */
  lemma WrittenSnoc(rs: seq<Record>, r: Record, s: Stream)
    ensures Written(rs + [r], s) == Written(rs, s) + Writes(r, s)
  {
    assert (rs + [r])[..|rs|] == rs;
  }

  lemma {:induction false} NamesContain(rs: seq<Record>)
    ensures forall i :: 0 <= i < |rs| ==> rs[i].name in Names(rs)
  {
    if rs != [] {
      var front := rs[..|rs| - 1];
      NamesContain(front);
      assert forall i :: 0 <= i < |front| ==> front[i] == rs[i];
    }
  }

  lemma {:induction false} NamesWitness(rs: seq<Record>, k: string)
    requires k in Names(rs)
    ensures exists i :: 0 <= i < |rs| && rs[i].name == k
  {
    var front := rs[..|rs| - 1];
    if k != rs[|rs| - 1].name {
      NamesWitness(front, k);
      var i :| 0 <= i < |front| && front[i].name == k;
      assert rs[i] == front[i];
    }
  }

  lemma {:induction false} NamesSize(rs: seq<Record>)
    requires forall i, j :: 0 <= i < j < |rs| ==> rs[i].name != rs[j].name
    ensures |Names(rs)| == |rs|
  {
    if rs != [] {
      var front := rs[..|rs| - 1];
      assert forall i :: 0 <= i < |front| ==> front[i] == rs[i];
      NamesSize(front);
      NamesContain(front);
      if rs[|rs| - 1].name in Names(front) {
        NamesWitness(front, rs[|rs| - 1].name);
      }
    }
  }

  /** An enumeration of a map has exactly one element per record. */
  lemma EnumerationSize(m: map<string, string>, rs: seq<Record>)
    requires Enumerates(m, rs)
    ensures |rs| == |m|
  {
    NamesSize(rs);
    assert |m| == |m.Keys|;
  }

  /** The report file holds two lines per visited record in verbose mode
      and one otherwise, in visiting order, each shaped by `clean`. */
  lemma {:induction false} FileLinesAt(rs: seq<Record>, clean: bool, verbose: bool)
    ensures |Written(rs, ReportFile(clean, verbose))| == if verbose then 2 * |rs| else |rs|
    ensures forall i :: 0 <= i < |Written(rs, ReportFile(clean, verbose))| ==>
              Written(rs, ReportFile(clean, verbose))[i] == FileLine(rs[if verbose then i / 2 else i], clean)
  {
    if rs != [] {
      var front := rs[..|rs| - 1];
      FileLinesAt(front, clean, verbose);
      assert forall i :: 0 <= i < |front| ==> front[i] == rs[i];
    }
  }

  /** The console gets one "name: digest" echo per visited record in
      verbose mode, in visiting order, and nothing otherwise. */
  lemma {:induction false} EchoLinesAt(rs: seq<Record>, verbose: bool)
    ensures |Written(rs, Console(verbose))| == if verbose then |rs| else 0
    ensures forall i :: 0 <= i < |Written(rs, Console(verbose))| ==>
              Written(rs, Console(verbose))[i] == EchoLine(rs[i])
  {
    if rs != [] {
      var front := rs[..|rs| - 1];
      EchoLinesAt(front, verbose);
      assert forall i :: 0 <= i < |front| ==> front[i] == rs[i];
    }
  }

  /** `lines` is the report file for the visiting order `rs`: each
      record's line twice in verbose mode and once otherwise, in order. */
  ghost predicate IsFileReport(lines: seq<string>, rs: seq<Record>, clean: bool, verbose: bool)
  {
    && |lines| == (if verbose then 2 * |rs| else |rs|)
    && (verbose ==> forall j :: 0 <= j < |rs| ==>
          lines[2 * j] == FileLine(rs[j], clean) && lines[2 * j + 1] == FileLine(rs[j], clean))
    && (!verbose ==> forall j :: 0 <= j < |rs| ==> lines[j] == FileLine(rs[j], clean))
  }

  /** `echo` is the console echo for the visiting order `rs`: one echo per
      record in verbose mode, in order, and nothing otherwise. */
  ghost predicate IsEcho(echo: seq<string>, rs: seq<Record>, verbose: bool)
  {
    && |echo| == (if verbose then |rs| else 0)
    && forall j :: 0 <= j < |echo| ==> echo[j] == EchoLine(rs[j])
  }

  /** `lines` is a report file for the records of `m`, in any order: one
      line per record, or two in verbose mode; every line is the line of
      some record, and every record's line is there; indeed it is the report
      for some visiting order of `m`, with each record's line written once,
      or twice in a row in verbose mode. */
  ghost predicate HoldsFileLines(lines: seq<string>, m: map<string, string>, clean: bool, verbose: bool)
  {
    && |lines| == (if verbose then 2 * |m| else |m|)
    && (forall i :: 0 <= i < |lines| ==> exists k :: k in m && lines[i] == FileLine(Record(k, m[k]), clean))
    && (forall k :: k in m ==> FileLine(Record(k, m[k]), clean) in lines)
    && FileReportOfSomeOrder(lines, m, clean, verbose)
  }

  /** `lines` is the report file for some visiting order of `m`. */
  ghost predicate FileReportOfSomeOrder(lines: seq<string>, m: map<string, string>, clean: bool, verbose: bool)
  {
    exists rs :: Enumerates(m, rs) && IsFileReport(lines, rs, clean, verbose)
  }

  /** `echo` is a console echo of the records of `m`, in any order: in
      verbose mode one echo per record, every record's echo among them,
      in some visiting order of `m`; nothing otherwise. */
  ghost predicate HoldsEcho(echo: seq<string>, m: map<string, string>, verbose: bool)
  {
    && |echo| == (if verbose then |m| else 0)
    && (forall i :: 0 <= i < |echo| ==> exists k :: k in m && echo[i] == EchoLine(Record(k, m[k])))
    && (verbose ==> forall k :: k in m ==> EchoLine(Record(k, m[k])) in echo)
    && EchoOfSomeOrder(echo, m, verbose)
  }

  /** `echo` is the console echo for some visiting order of `m`. */
  ghost predicate EchoOfSomeOrder(echo: seq<string>, m: map<string, string>, verbose: bool)
  {
    exists rs :: Enumerates(m, rs) && IsEcho(echo, rs, verbose)
  }

  /** Every line of the report file is the line of some record. */
  lemma FileLinesFromRecords(m: map<string, string>, rs: seq<Record>, clean: bool, verbose: bool)
    requires Enumerates(m, rs)
    ensures forall i :: 0 <= i < |Written(rs, ReportFile(clean, verbose))| ==>
              exists k :: k in m && Written(rs, ReportFile(clean, verbose))[i] == FileLine(Record(k, m[k]), clean)
  {
    var lines := Written(rs, ReportFile(clean, verbose));
    FileLinesAt(rs, clean, verbose);
    forall i | 0 <= i < |lines| ensures exists k :: k in m && lines[i] == FileLine(Record(k, m[k]), clean) {
      var j := if verbose then i / 2 else i;
      assert rs[j] == Record(rs[j].name, m[rs[j].name]);
    }
  }

  /** Every record's line is in the report file. */
  lemma RecordsInFileLines(m: map<string, string>, rs: seq<Record>, clean: bool, verbose: bool)
    requires Enumerates(m, rs)
    ensures forall k :: k in m ==> FileLine(Record(k, m[k]), clean) in Written(rs, ReportFile(clean, verbose))
  {
    var lines := Written(rs, ReportFile(clean, verbose));
    FileLinesAt(rs, clean, verbose);
    forall k | k in m ensures FileLine(Record(k, m[k]), clean) in lines {
      NamesWitness(rs, k);
      var j :| 0 <= j < |rs| && rs[j].name == k;
      var i := if verbose then 2 * j else j;
      assert (if verbose then i / 2 else i) == j;
      assert lines[i] == FileLine(rs[j], clean);
    }
  }

  /** Whatever the visiting order, the report file holds the records' lines. */
  lemma FileContents(m: map<string, string>, rs: seq<Record>, clean: bool, verbose: bool)
    requires Enumerates(m, rs)
    ensures HoldsFileLines(Written(rs, ReportFile(clean, verbose)), m, clean, verbose)
  {
    EnumerationSize(m, rs);
    FileLinesAt(rs, clean, verbose);
    FileLinesFromRecords(m, rs, clean, verbose);
    RecordsInFileLines(m, rs, clean, verbose);
    WrittenShape(rs, clean, verbose);
  }

  /** Whatever the visiting order, the console holds the records' echoes. */
  lemma EchoContents(m: map<string, string>, rs: seq<Record>, verbose: bool)
    requires Enumerates(m, rs)
    ensures HoldsEcho(Written(rs, Console(verbose)), m, verbose)
  {
    var echo := Written(rs, Console(verbose));
    EnumerationSize(m, rs);
    EchoLinesAt(rs, verbose);
    WrittenShape(rs, false, verbose);
    forall i | 0 <= i < |echo| ensures exists k :: k in m && echo[i] == EchoLine(Record(k, m[k])) {
      assert rs[i] == Record(rs[i].name, m[rs[i].name]);
    }
    if verbose {
      forall k | k in m ensures EchoLine(Record(k, m[k])) in echo {
        NamesWitness(rs, k);
        var j :| 0 <= j < |rs| && rs[j].name == k;
        assert echo[j] == EchoLine(rs[j]);
      }
    }
  }

  /** What the loop writes has those shapes. */
  lemma WrittenShape(rs: seq<Record>, clean: bool, verbose: bool)
    ensures IsFileReport(Written(rs, ReportFile(clean, verbose)), rs, clean, verbose)
    ensures IsEcho(Written(rs, Console(verbose)), rs, verbose)
  {
    var w := Written(rs, ReportFile(clean, verbose));
    FileLinesAt(rs, clean, verbose);
    EchoLinesAt(rs, verbose);
    if verbose {
      forall j | 0 <= j < |rs|
        ensures w[2 * j] == FileLine(rs[j], clean) && w[2 * j + 1] == FileLine(rs[j], clean)
      {
        assert (2 * j) / 2 == j && (2 * j + 1) / 2 == j;
      }
    }
  }

  /** Visiting `a` and then `b` writes what visiting each writes, in turn. */
  lemma {:induction false} WrittenConcat(a: seq<Record>, b: seq<Record>, s: Stream)
    ensures Written(a + b, s) == Written(a, s) + Written(b, s)
  {
    if b == [] {
      assert a + b == a;
    } else {
      var front, last := b[..|b| - 1], b[|b| - 1];
      ConcatFront(a, b);
      WrittenConcat(a, front, s);
      assert Written(a + b, s) == Written(a + front, s) + Writes(last, s);
    }
  }

  /** Dropping the last element of `a + b`, for a non-empty `b`, drops the
      last element of `b`. */
  lemma ConcatFront(a: seq<Record>, b: seq<Record>)
    requires b != []
    ensures (a + b)[..|a + b| - 1] == a + b[..|b| - 1]
    ensures (a + b)[|a + b| - 1] == b[|b| - 1]
  {
  }

  lemma RemoveAt(b: seq<Record>, i: nat)
    requires i < |b|
    ensures b == b[..i] + ([b[i]] + b[i + 1..])
    ensures multiset(b) == multiset(b[..i] + b[i + 1..]) + multiset{b[i]}
  {
    var p, q := b[..i], b[i + 1..];
    assert b == p + ([b[i]] + q);
    calc {
      multiset(b);
      multiset(p) + (multiset([b[i]]) + multiset(q));
      (multiset(p) + multiset(q)) + multiset{b[i]};
      multiset(p + q) + multiset{b[i]};
    }
  }

  /** Writing around a removed element: what `b` writes is what `b` without
      its i-th element writes, plus that element's writes. */
  lemma WrittenRemoveAt(b: seq<Record>, i: nat, s: Stream)
    requires i < |b|
    ensures multiset(Written(b, s)) == multiset(Written(b[..i] + b[i + 1..], s)) + multiset(Writes(b[i], s))
  {
    var p, x, q := b[..i], b[i], b[i + 1..];
    RemoveAt(b, i);
    WrittenConcat(p, [x] + q, s);
    WrittenConcat([x], q, s);
    WrittenConcat(p, q, s);
    assert [x][..0] == [];
    assert Written([x], s) == Writes(x, s);
    var wp, wx, wq := Written(p, s), Writes(x, s), Written(q, s);
    assert Written(b, s) == wp + (wx + wq);
    assert Written(p + q, s) == wp + wq;
    calc {
      multiset(Written(b, s));
      multiset(wp) + (multiset(wx) + multiset(wq));
      (multiset(wp) + multiset(wq)) + multiset(wx);
    }
  }

  /** Dropping the same element from two permutations of each other
      leaves two permutations of each other. */
  lemma PermutationRemove(a: seq<Record>, b: seq<Record>, i: nat)
    requires multiset(a) == multiset(b) && a != [] && i < |b| && b[i] == a[|a| - 1]
    ensures multiset(a[..|a| - 1]) == multiset(b[..i] + b[i + 1..])
  {
    var front, x, rest := a[..|a| - 1], a[|a| - 1], b[..i] + b[i + 1..];
    assert a == front + [x];
    RemoveAt(b, i);
    assert multiset(front) + multiset{x} == multiset(rest) + multiset{x};
    forall y ensures multiset(front)[y] == multiset(rest)[y] {
      assert (multiset(front) + multiset{x})[y] == (multiset(rest) + multiset{x})[y];
    }
  }

  /** Two visiting orders of the same records write the same lines, up to
      their order. */
  lemma {:induction false} WrittenPermutation(a: seq<Record>, b: seq<Record>, s: Stream)
    requires multiset(a) == multiset(b)
    ensures multiset(Written(a, s)) == multiset(Written(b, s))
  {
    if a != [] {
      var front, x := a[..|a| - 1], a[|a| - 1];
      assert x in multiset(b);
      var i :| 0 <= i < |b| && b[i] == x;
      PermutationRemove(a, b, i);
      WrittenPermutation(front, b[..i] + b[i + 1..], s);
      WrittenRemoveAt(b, i, s);
    }
  }

  lemma {:induction false} DistinctCount(rs: seq<Record>, x: Record)
    requires forall i, j :: 0 <= i < j < |rs| ==> rs[i] != rs[j]
    ensures multiset(rs)[x] == if x in rs then 1 else 0
  {
    if rs != [] {
      var front := rs[..|rs| - 1];
      assert rs == front + [rs[|rs| - 1]];
      DistinctCount(front, x);
    }
  }

  /** Two enumerations of the same map are permutations of each other. */
  lemma EnumerationsArePermutations(m: map<string, string>, a: seq<Record>, b: seq<Record>)
    requires Enumerates(m, a) && Enumerates(m, b)
    ensures multiset(a) == multiset(b)
  {
    forall x: Record ensures multiset(a)[x] == multiset(b)[x] {
      DistinctCount(a, x);
      DistinctCount(b, x);
      if x in a {
        NamesWitness(b, x.name);
      }
      if x in b {
        NamesWitness(a, x.name);
      }
    }
  }

  /** Whatever order the map is visited in, the report file and the console
      receive the same lines, up to their order. */
  lemma ReportOrderIrrelevant(m: map<string, string>, a: seq<Record>, b: seq<Record>, s: Stream)
    requires Enumerates(m, a) && Enumerates(m, b)
    ensures multiset(Written(a, s)) == multiset(Written(b, s))
  {
    EnumerationsArePermutations(m, a, b);
    WrittenPermutation(a, b, s);
  }
}
