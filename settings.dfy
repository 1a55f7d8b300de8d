/** The run configuration: the five flags after defaulting, and the glob
    pattern built from them. */
module Settings {
  import Paths

  /** The flags as parsed: an empty string means the flag was not given. */
  datatype Flags = Flags(input: string, output: string, ext: string, clean: bool, verbose: bool)

  /** The extension that stands for "every extension". */
  const AllExtensions: string := "*"

  /** Defaulting: an empty input or output directory becomes the working
      directory `cwd` (itself empty when the program could not obtain it,
      an error the program ignores), and an empty extension becomes "*".
      Everything else is kept. */
  function Resolve(f: Flags, cwd: string): (c: Flags)
    ensures c.clean == f.clean && c.verbose == f.verbose
    ensures f.input != "" ==> c.input == f.input
    ensures f.input == "" ==> c.input == cwd
    ensures f.output != "" ==> c.output == f.output
    ensures f.output == "" ==> c.output == cwd
    ensures f.ext != "" ==> c.ext == f.ext
    ensures f.ext == "" ==> c.ext == AllExtensions
    ensures c.ext != ""
    ensures cwd != "" ==> c.input != "" && c.output != ""
  {
    Flags(if f.input == "" then cwd else f.input,
          if f.output == "" then cwd else f.output,
          if f.ext == "" then AllExtensions else f.ext,
          f.clean,
          f.verbose)
  }

  /** Defaulting a second time changes nothing once the working directory
      is known. */
  lemma ResolveIdempotent(f: Flags, cwd: string, cwd': string)
    requires cwd != ""
    ensures Resolve(Resolve(f, cwd), cwd') == Resolve(f, cwd)
  {
  }

  /** The non-recursive glob: the input directory joined with "*." + ext. */
  function GlobPattern(c: Flags): (p: string)
    ensures |p| >= |"*." + c.ext| && p[|p| - |"*." + c.ext|..] == "*." + c.ext
    ensures c.input != [] && c.input[|c.input| - 1] != Paths.Separator ==>
              p == c.input + "/*." + c.ext
  {
    // Both branches give the same pattern; the first only brings in the
    // exact form that the second ensures clause needs.
    if c.input != [] && c.input[|c.input| - 1] != Paths.Separator then
      Paths.JoinShape(c.input, "*." + c.ext);
      Paths.Join(c.input, "*." + c.ext)
    else Paths.Join(c.input, "*." + c.ext)
  }

  /** With no extension given, the pattern matches every name with a dot:
      it ends in "*.*". */
  lemma DefaultPattern(f: Flags, cwd: string)
    requires f.ext == ""
    ensures var p := GlobPattern(Resolve(f, cwd));
            |p| >= 3 && p[|p| - 3..] == "*.*"
  {
    var c := Resolve(f, cwd);
    assert "*." + c.ext == "*.*";
  }
}
