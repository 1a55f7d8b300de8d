/** Hashing the matched files (`hashFile` and the record loop of the
    program's run): a map from each file's key, its base name in the run,
    to the lower-case hex of its SHA-256 digest. */
module Records {
  import opened Wrappers
  import Hex

  /** A SHA-256 digest. The hash function itself is a parameter of the
      model; its type promises 32 bytes and nothing else. */
  type Digest = s: seq<Hex.byte> | |s| == 32 witness seq(32, _ => 0)

  /** A matched path and the outcome of reading it: its bytes, or None when
      the read failed. */
  datatype Entry = Entry(path: string, contents: Option<seq<Hex.byte>>)

  /** The three fatal errors of a run. */
  datatype RunError =
    | BadPattern(pattern: string)
    | ReadFailed(path: string)
    | CreateFailed(path: string)

  /** `hashFile`: read the file, hash its bytes, hex-encode the digest. */
  function HashFile(e: Entry, sha: seq<Hex.byte> -> Digest): (r: Result<string, RunError>)
    ensures r.Err? <==> e.contents.None?
    ensures r.Err? ==> r.error == ReadFailed(e.path)
    ensures r.Ok? ==> |r.value| == 64 && Hex.IsHex(r.value)
    ensures r.Ok? ==> Hex.Decode(r.value) == Some(sha(e.contents.value))
  {
    match e.contents
    case None => Err(ReadFailed(e.path))
    case Some(data) =>
      Hex.DecodeEncode(sha(data));
      Ok(Hex.Encode(sha(data)))
  }

  /** The records once the loop has gone through `es` in order: the first
      read failure aborts the run, and the error names an unreadable file;
      otherwise every file sets the record of its key `base(path)`, so a
      later file with the same key replaces the digest of an earlier one,
      and there are at most as many records as files. The run passes `filepath.Base` as `base`
      (`Paths.Base`); the lemmas below hold for any key function. */
  function Collect(es: seq<Entry>, sha: seq<Hex.byte> -> Digest, base: string -> string)
    : (r: Result<map<string, string>, RunError>)
    ensures r.Ok? ==> |r.value| <= |es|
    ensures r.Err? ==> exists k :: 0 <= k < |es| && es[k].contents.None? && r.error == ReadFailed(es[k].path)
  {
    if es == [] then Ok(map[])
    else
      match Collect(es[..|es| - 1], sha, base)
      case Err(e) => Err(e)
      case Ok(m) =>
        var last := es[|es| - 1];
        match HashFile(last, sha)
        case Err(e) => Err(e)
        case Ok(h) => Ok(m[base(last.path) := h])
  }

  /** The record loop: stops at the first file that cannot be read. */
  method CollectRecords(files: seq<Entry>, sha: seq<Hex.byte> -> Digest, base: string -> string)
    returns (r: Result<map<string, string>, RunError>)
    ensures r == Collect(files, sha, base)
  {
    var hashes: map<string, string> := map[];
    var i := 0;
    while i < |files|
      invariant 0 <= i <= |files|
      invariant Collect(files[..i], sha, base) == Ok(hashes)
    {
      var hash := HashFile(files[i], sha);
      CollectStep(files, i, sha, base);
      if hash.Err? {
        CollectOk(files[..i], sha, base);
        assert forall j :: 0 <= j < i ==> files[..i][j] == files[j];
        CollectFirstFailure(files, sha, base, i);
        return Err(hash.error);
      }
      hashes := hashes[base(files[i].path) := hash.value];
      i := i + 1;
    }
    assert files[..i] == files;
    return Ok(hashes);
  }

  lemma CollectStep(es: seq<Entry>, i: nat, sha: seq<Hex.byte> -> Digest, base: string -> string)
    requires i < |es| && Collect(es[..i], sha, base).Ok?
    ensures HashFile(es[i], sha).Err? ==> Collect(es[..i + 1], sha, base) == Err(HashFile(es[i], sha).error)
    ensures HashFile(es[i], sha).Ok? ==>
              Collect(es[..i + 1], sha, base)
              == Ok(Collect(es[..i], sha, base).value[base(es[i].path) := HashFile(es[i], sha).value])
  {
    assert es[..i + 1][..i] == es[..i];
  }

  /** One more file either aborts or adds or replaces one record. */
  lemma CollectLast(es: seq<Entry>, sha: seq<Hex.byte> -> Digest, base: string -> string)
    requires es != [] && Collect(es, sha, base).Ok?
    ensures Collect(es[..|es| - 1], sha, base).Ok? && HashFile(es[|es| - 1], sha).Ok?
    ensures Collect(es, sha, base).value
            == Collect(es[..|es| - 1], sha, base).value[base(es[|es| - 1].path) := HashFile(es[|es| - 1], sha).value]
  {
  }

  /** The run gets past the loop exactly when every file can be read. */
  lemma {:induction false} CollectOk(es: seq<Entry>, sha: seq<Hex.byte> -> Digest, base: string -> string)
    ensures Collect(es, sha, base).Ok? <==> forall i :: 0 <= i < |es| ==> es[i].contents.Some?
  {
    if es != [] {
      var front := es[..|es| - 1];
      var last := es[|es| - 1];
      CollectOk(front, sha, base);
      assert forall i :: 0 <= i < |front| ==> front[i] == es[i];
      assert Collect(es, sha, base).Ok? <==> Collect(front, sha, base).Ok? && HashFile(last, sha).Ok?;
      assert (forall i :: 0 <= i < |es| ==> es[i].contents.Some?)
             <==> (forall i :: 0 <= i < |front| ==> front[i].contents.Some?) && last.contents.Some?;
    }
  }

  /** The error of a failed loop names the first file that cannot be read. */
  lemma {:induction false} CollectFirstFailure(es: seq<Entry>, sha: seq<Hex.byte> -> Digest, base: string -> string, k: nat)
    requires k < |es| && es[k].contents.None?
    requires forall j :: 0 <= j < k ==> es[j].contents.Some?
    ensures Collect(es, sha, base) == Err(ReadFailed(es[k].path))
  {
    var front := es[..|es| - 1];
    if k == |es| - 1 {
      CollectOk(front, sha, base);
    } else {
      CollectFirstFailure(front, sha, base, k);
    }
  }

  /** Every matched file's base name has a record. */
  lemma {:induction false} CollectKeys(es: seq<Entry>, sha: seq<Hex.byte> -> Digest, base: string -> string)
    requires Collect(es, sha, base).Ok?
    ensures forall i :: 0 <= i < |es| ==> base(es[i].path) in Collect(es, sha, base).value
  {
    if es != [] {
      var front := es[..|es| - 1];
      var last := es[|es| - 1];
      CollectLast(es, sha, base);
      CollectKeys(front, sha, base);
      var m0 := Collect(front, sha, base).value;
      var m := Collect(es, sha, base).value;
      assert m == m0[base(last.path) := HashFile(last, sha).value];
      forall i | 0 <= i < |es| ensures base(es[i].path) in m {
        if i < |front| {
          assert front[i] == es[i];
          assert base(front[i].path) in m0;
        }
      }
    }
  }

  /** The digest of some matched file whose base name is `name`. */
  ghost predicate DigestOfSome(es: seq<Entry>, sha: seq<Hex.byte> -> Digest, base: string -> string, name: string, hash: string)
  {
    exists i :: 0 <= i < |es| && base(es[i].path) == name && es[i].contents.Some?
                && hash == Hex.Encode(sha(es[i].contents.value))
  }

  /** Every record is keyed by the base name of a matched file and holds
      the hex digest of a matched file with that base name. */
  lemma {:induction false} CollectValues(es: seq<Entry>, sha: seq<Hex.byte> -> Digest, base: string -> string)
    requires Collect(es, sha, base).Ok?
    ensures forall name :: name in Collect(es, sha, base).value ==>
              DigestOfSome(es, sha, base, name, Collect(es, sha, base).value[name])
  {
    if es != [] {
      var front := es[..|es| - 1];
      var last := es[|es| - 1];
      CollectValues(front, sha, base);
      var m0 := Collect(front, sha, base).value;
      var m := Collect(es, sha, base).value;
      forall name | name in m ensures DigestOfSome(es, sha, base, name, m[name]) {
        if name == base(last.path) {
          assert base(es[|es| - 1].path) == name;
        } else {
          assert DigestOfSome(front, sha, base, name, m0[name]);
          var i :| 0 <= i < |front| && base(front[i].path) == name && front[i].contents.Some?
                   && m0[name] == Hex.Encode(sha(front[i].contents.value));
          assert front[i] == es[i];
        }
      }
    }
  }

  /** A later file with the same base name overwrites: the record of a base
      name holds the digest of the last file that has it. */
  lemma {:induction false} CollectLastWins(es: seq<Entry>, sha: seq<Hex.byte> -> Digest, base: string -> string, i: nat)
    requires Collect(es, sha, base).Ok?
    requires i < |es|
    requires forall j :: i < j < |es| ==> base(es[j].path) != base(es[i].path)
    ensures es[i].contents.Some?
    ensures base(es[i].path) in Collect(es, sha, base).value
    ensures Collect(es, sha, base).value[base(es[i].path)] == Hex.Encode(sha(es[i].contents.value))
  {
    CollectOk(es, sha, base);
    var front := es[..|es| - 1];
    CollectOk(front, sha, base);
    if i < |es| - 1 {
      assert front[i] == es[i];
      CollectLastWins(front, sha, base, i);
    }
  }

  /** Files with pairwise distinct base names give one record each. */
  lemma {:induction false} CollectDistinctSize(es: seq<Entry>, sha: seq<Hex.byte> -> Digest, base: string -> string)
    requires Collect(es, sha, base).Ok?
    requires forall i, j :: 0 <= i < j < |es| ==> base(es[i].path) != base(es[j].path)
    ensures |Collect(es, sha, base).value| == |es|
  {
    if es != [] {
      var front := es[..|es| - 1];
      var last := es[|es| - 1];
      CollectOk(es, sha, base);
      CollectOk(front, sha, base);
      CollectDistinctSize(front, sha, base);
      CollectValues(front, sha, base);
      var m0 := Collect(front, sha, base).value;
      assert forall i :: 0 <= i < |front| ==> front[i] == es[i];
      assert base(last.path) !in m0;
    }
  }
}
