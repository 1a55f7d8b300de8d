# axle-hasher, modelled in Dafny

`ahash` hashes every file of a directory whose name matches `*.<ext>`,
and writes a dated report. This project models the core of one run of that
command. It takes a run configuration and the matched files with their
contents, and produces three things:

- the report's path, `<output>/hashes-output-YYMMDD.txt`;
- the lines written to the report;
- the console output that follows the hashing.

SHA-256 is a parameter of type `seq<byte> -> Digest`, where a `Digest` is
32 bytes. The working directory, the glob's matches, the files' bytes, the
date and whether the report file can be created are all inputs.

Modules (one file each):

- `Wrappers` (wrappers.dfy): `Option` and `Result`.
- `Hex` (hex.dfy): lower-case base16 encoding (section 8 of RFC 4648), as
  `hex.EncodeToString` produces it, and its inverse.
- `Paths` (paths.dfy): `filepath.Base` and two-argument `filepath.Join`
  with the Unix separator.
- `Settings` (settings.dfy): flag defaulting and the glob pattern.
- `Stamp` (stamp.dfy): Go's truncating `%`, `%02d` formatting, the
  `YYMMDD` stamp and the report's file name.
- `Records` (records.dfy): `hashFile`, and the loop that fills the map
  from key to hex digest. The loop stops at the first file that cannot be
  read. The key function is a parameter. The run passes `Paths.Base`, the
  model of `filepath.Base`. The lemmas hold for any key function.
- `Report` (report.dfy): the loop that writes the report file and echoes
  to the console. Go visits its map in no fixed order. `WriteReport`
  therefore picks each key nondeterministically, and returns as a ghost
  the order it took. Every lemma holds for any such order.
- `Hasher` (hasher.dfy): the whole run (`Run`), its second half once
  the records are collected (`Publish`), their specifications `Expected`
  and `Finish`, and properties of a complete run.

Points where the model follows the code rather than the documented intent:

- In verbose mode every record is written to the report file twice
  (main.go:118-125, then again at main.go:126-130). `RunFileLines` states
  this.
- The `--verbose` help text (main.go:139) says verbose "will always use
  clean", but the code does not do that. The report file follows `clean`
  alone. The console echo is always `name: digest`.
- One might expect one record per matched file. The code keys records by
  base name (main.go:99), so a later file with the same base name replaces
  an earlier one (`CollectLastWins`). The count is at most the
  number of matches (`Collect`), and equals it when base names are
  distinct (`CollectDistinctSize`).
- An empty working directory (when `os.Getwd` fails, an error the code
  ignores) is used as is.

## Model

| member | source | states |
|---|---|---|
| `Settings.Resolve` | main.go:34-45 | an empty input or output directory becomes the working directory and a given one is kept; an empty extension becomes "*" and a given one is kept; clean and verbose are unchanged; both directories are non-empty when the working directory is |
| `Settings.ResolveIdempotent` | main.go:34-42 | defaulting twice changes nothing once the working directory is known |
| `Settings.GlobPattern` | main.go:47 | the pattern ends in "*." + ext, and is exactly input + "/*." + ext when the input directory does not end in a separator |
| `Settings.DefaultPattern` | main.go:40-47 | with no extension given, the pattern ends in "*.*" |
| `Paths.TrimTrailingSlashes` | main.go:99 | the result is the longest prefix of the path that does not end in a separator; only separators are dropped |
| `Paths.LastElement` | main.go:99 | the result is the suffix after the last separator: it holds no separator and is preceded by one |
| `Paths.Base` | main.go:99 | the base name is "." for the empty path and "/" for a path of separators only; otherwise it is the last element of the path once trailing separators are dropped: a non-empty suffix of the trimmed path, without separators, preceded by a separator unless it is the whole trimmed path |
| `Paths.Join` | main.go:110 | (also used for the pattern of main.go:47) the joined path ends in the name; with an empty directory it is the name alone; otherwise the directory with its trailing separators dropped, then exactly one separator, then the name |
| `Paths.JoinShape` | main.go:47 | the joined path is dir + "/" + name when dir is non-empty and does not end in a separator |
| `Paths.BaseOfJoin` | main.go:110 | the base name of dir joined with a single element is that element |
| `Stamp.GoRem` | main.go:105 | Go's remainder lies strictly between -b and b, equals the Euclidean one for a non-negative dividend, and is not positive for a negative one |
| `Stamp.Decimal` | main.go:108 | the decimal digits of n are non-empty, have no leading zero, read back as n, and number one for n < 10 and two for 10 <= n < 100 |
| `Stamp.Pad2` | main.go:108 | "%02d" gives at least two characters; for n >= 0 they are digits that read back as n, exactly two when n < 100, with no leading zero from 10 on; for n < 0 a minus sign followed by the digits of -n, with no leading zero |
| `Stamp.FileName` | main.go:110 | the name is "hashes-output-", then the stamp, then ".txt": prefix, middle and suffix are each pinned by position |
| `Stamp.StampRoundTrip` | main.go:104-108 | for a year >= 0 and a month and day below 100, the stamp is six digits that read back as year % 100, month and day |
| `Stamp.StampInjective` | main.go:104-108 | two such dates with the same stamp agree on year % 100, month and day |
| `Stamp.DateStamp` | main.go:104-108 | for any date the stamp has at least six characters and holds no separator |
| `Stamp.FileNameOfElement` | main.go:110 | a stamp without separators gives a file name without separators |
| `Stamp.FileNameIsElement` | main.go:104-110 | for any date the file name holds no separator |
| `Hex.Encode` | main.go:156 | the encoding has two characters per byte, all from "0123456789abcdef" |
| `Hex.Decode` | main.go:156 | the inverse of the encoding, used for the round trips below (not Go's `hex.DecodeString`, which also accepts upper-case digits): decoding succeeds exactly on even-length lower-case hex, and gives half as many bytes |
| `Hex.DecodeEncode` | main.go:156 | decoding an encoding gives back the bytes |
| `Hex.EncodeDecode` | main.go:156 | encoding a successful decoding gives back the string |
| `Hex.EncodeInjective` | main.go:156 | distinct byte strings have distinct encodings |
| `Records.HashFile` | main.go:148-159 | a read failure is the error, naming the path; otherwise the hash is 64 lower-case hex characters that decode to the file's SHA-256 digest |
| `Records.Collect` | main.go:92-102 | the records after the loop: a failure names an unreadable matched file, and a success has at most as many records as matched files |
| `Records.CollectRecords` | main.go:92-102 | the loop returns the record map that `Collect` specifies, or the error of the first unreadable file |
| `Records.CollectOk` | main.go:94-98 | the loop finishes exactly when every matched file can be read |
| `Records.CollectFirstFailure` | main.go:94-98 | a failed loop reports the first unreadable file |
| `Records.CollectKeys` | main.go:99 | every matched file's key (its base name in the run) has a record |
| `Records.CollectValues` | main.go:94-99 | every record is keyed by the key of a matched file, and holds the hex digest of a matched file with that key |
| `Records.CollectLastWins` | main.go:99 | a key's record holds the digest of the last matched file with that key |
| `Records.CollectDistinctSize` | main.go:94-99 | with distinct keys there is one record per matched file |
| `Report.FileLineShape` | main.go:120-130 | a report line ends in the digest and a newline; it is nothing more exactly when clean, and otherwise is the name, ": ", the digest and a newline |
| `Report.EchoLineShape` | main.go:119 | a console echo is the name, ": ", the digest and a blank line, whatever clean says |
| `Report.WriteReport` | main.go:117-131 | the loop visits every record once in some order; the file receives the record writes and the console the echoes, in that order |
| `Report.FileLinesAt` | main.go:120-130 | the file gets 2 lines per visited record in verbose mode and 1 otherwise; line i is the line of record i/2 (verbose) or i |
| `Report.EchoLinesAt` | main.go:118-119 | the console gets one "name: digest" echo per visited record in verbose mode and none otherwise, in order |
| `Report.FileLinesFromRecords` | main.go:117-131 | whatever the order, every line of the report file is the line of some record |
| `Report.RecordsInFileLines` | main.go:117-131 | whatever the order, every record's line is in the report file |
| `Report.FileContents` | main.go:117-131 | whatever the order, the report file holds one line per record (two in verbose mode), each the line of some record, with every record's line present; it is the report for some visiting order, each record's line written once, or twice in a row in verbose mode |
| `Report.EchoContents` | main.go:117-119 | whatever the order, the console holds one echo per record in verbose mode (every record's echo among them), in some visiting order, and none otherwise |
| `Report.WrittenShape` | main.go:117-131 | what the loop writes has those shapes: each record's file line twice in verbose mode, once otherwise; one echo per record in verbose mode |
| `Report.EnumerationSize` | main.go:117 | an iteration order of the map has exactly one element per record |
| `Report.EnumerationsArePermutations` | main.go:117 | two iteration orders of the same map are permutations of each other |
| `Report.WrittenPermutation` | main.go:117-131 | visiting the same records in two orders writes the same multiset of lines |
| `Report.ReportOrderIrrelevant` | main.go:117-131 | whatever the iteration order, the file and the console receive the same multiset of lines |
| `Hasher.OutputPath` | main.go:104-110 | the report path ends in the dated file name, and is that name alone when the output directory is empty |
| `Hasher.Confirmation` | main.go:133 | the confirmation is a blank line, "Hashes saved to ", the report path and a newline |
| `Hasher.Expected` | main.go:34-133 | the run's outcome: it completes exactly when the records are collected and the report can be created; it aborts with a bad pattern exactly when the glob rejects the pattern, with a read failure exactly when the glob succeeds but a match cannot be read, and with a creation failure exactly when the records are collected but the report cannot be created |
| `Hasher.Finish` | main.go:104-133 | after the records are collected the run completes exactly when the report can be created, and otherwise aborts naming the report's path |
| `Hasher.FinishPromised` | main.go:104-133 | whatever order the write loop takes, a report that can be created holds every record's line and nothing else, each written once, or twice in a row in verbose mode, in some visiting order, at the dated path, and the console gets a blank line, every record's echo in verbose mode, and the confirmation |
| `Hasher.Publish` | main.go:104-133 | the report is created exactly when creation succeeds; a completed report sits at the dated path in the output directory and holds the records' lines in some order; the console gets a blank line, the records' echoes in verbose mode, and the confirmation |
| `Hasher.Run` | main.go:34-133 | the outcome is the one `Expected` gives for the order the write loop took, and that order enumerates the collected records; the run completes exactly when the pattern is accepted, every match is readable and the report can be created; a completed run leaves the report and console output that `Publish` promises |
| `Hasher.RunCompletes` | main.go:47-114 | a run completes exactly when the pattern is accepted, every matched file is readable and the report can be created |
| `Hasher.RunAbortsOnUnreadable` | main.go:94-98 | one unreadable file aborts the run before the report is created, with the first unreadable file's error |
| `Hasher.RunOutputPath` | main.go:104-110 | the report is the output directory joined with "hashes-output-YYMMDD.txt", and that name is the report path's base name |
| `Hasher.RunFileLines` | main.go:117-131 | the report holds one line per record, or two identical ones in verbose mode; each line is the digest alone when clean and "name: digest" otherwise, whatever verbose says |
| `Hasher.RunConsole` | main.go:103-133 | after the hashing the console gets a blank line, one "name: digest" echo per record in verbose mode (whatever clean says), and the confirmation with the report path |
| `Hasher.RunDigestsMatch` | main.go:94-99 | every reported record holds the hex SHA-256 digest of a matched file with its base name, and every matched file's base name is reported |
| `Hasher.QuietSingleRecord` | main.go:117-133 | without verbose, a completed run that visits one record writes that record's one line to the report, and only the blank line and the confirmation to the console |
| `Hasher.RunOrderIrrelevant` | main.go:117-131 | two runs that differ only in map iteration order write the same multiset of report lines and console lines |
| `Hasher.ExampleStamp` | main.go:104-108 | the stamp of 2026-10-17 is "261017" |
| `Hasher.ExamplePath` | main.go:110 | that date's report in "/home/u" is "/home/u/hashes-output-261017.txt" |
| `Hasher.ExampleRecords` | main.go:94-99 | a single match "/data/a.txt" holding "hello" gives the single record "a.txt" with the hex digest of "hello" |
| `Hasher.HelloExample` | main.go:34-133 | that run, without verbose and with either value of clean, writes the one line "a.txt: <digest>", or "<digest>" alone when clean; the console gets a blank line and the confirmation |
| `Hasher.ExamplePattern` | main.go:47 | that run globs "/data/*.txt" |

## Left out

- Flag parsing and registration with cobra (main.go:24-32, 137-145). The flags are a plain `Flags` value, where an empty string means "not given".
- The banner, the colours and the progress bar (main.go:51-91, 100). They are console decoration only. The modelled console output of a completed run starts at the blank line of main.go:103.
- `os.Getwd`, the directory listing of `filepath.Glob`, `ioutil.ReadFile`, `os.Create` and `Close`. These are inputs: the working directory string; the list of matches with the bytes read (or a read failure) for each; and whether the report can be created.
- The pattern check of `filepath.Glob`. A bad pattern is an input (`listing == None`); which patterns Go rejects is not modelled.
- The cleaning that `filepath.Join` applies to the whole joined path: removing "." and ".." elements, doubled separators and trailing separators, in the directory and in the joined name alike. `Paths.Join` only handles an empty directory and the directory's trailing separators. For example, the extension "txt/" gives the pattern "/data/*.txt" in the program but "/data/*.txt/" in the model.
- The SHA-256 compression function (FIPS 180-4, section 6.2). It is a parameter that returns 32 bytes.
- `time.Now()`. Year, month and day are inputs.
- `log.Fatal` ending the process. It is the `Aborted` outcome, carrying the error.
- Console output of an aborted run. `Aborted` carries no console lines. The program prints things the model drops: the error message that `log.Fatal` writes, and, when `os.Create` fails (main.go:111-113), the blank line of main.go:103 printed before it.
- Stamp.GoRem: for a negative dividend it states only the sign and the bound, not divisibility by b. Clocks give non-negative years.
- The file is a list of written strings. The console is a list of printed strings. Byte-level output, flushing and the deferred `Close` are not modelled.
