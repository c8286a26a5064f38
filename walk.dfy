/**
 * The directory walk of `parse_dirs`, as the sequence of `parse_key_file`
 * calls it makes, and the accumulation of `self.keys` over such a sequence.
 */
module Walk {
  import opened Optional
  import opened Paths
  import opened KeyData

  /** One step of `os.walk`: a directory and the names of the files in it. */
  datatype WalkDir = WalkDir(root: string, files: seq<string>)

  /** One call `parse_key_file(key_file, path)`. */
  datatype KeyFileCall = KeyFileCall(file: string, path: string)

  /** `parse_dirs`: a falsy `path` argument means the base directory. */
  function StartDir(path: Option<string>, baseDir: string): (top: string)
    ensures path.Some? && path.value != "" ==> top == path.value
    ensures path.None? || path.value == "" ==> top == baseDir
  {
    if path.None? || path.value == "" then baseDir else path.value
  }

  /** The calls for `files` in directory `root`, all with the logical path `path`. */
  function FileCalls(root: string, files: seq<string>, path: string): seq<KeyFileCall> {
    if files == [] then []
    else FileCalls(root, files[..|files| - 1], path) + [KeyFileCall(PathJoin(root, files[|files| - 1]), path)]
  }

  /** The files of one walked directory, each with the directory's logical path. */
  function DirCalls(d: WalkDir, baseDir: string): seq<KeyFileCall> {
    FileCalls(d.root, d.files, RemovePrefix(d.root, baseDir))
  }

  /**
   * One call per file, in file order, each reading `join(root, file)` with the
   * directory's logical path; so a call is made exactly for the files listed.
   */
  lemma {:induction false} FileCallsMembers(root: string, files: seq<string>, path: string, c: KeyFileCall)
    ensures |FileCalls(root, files, path)| == |files|
    ensures forall i | 0 <= i < |files| :: FileCalls(root, files, path)[i] == KeyFileCall(PathJoin(root, files[i]), path)
    ensures c in FileCalls(root, files, path) <==> exists f :: f in files && c == KeyFileCall(PathJoin(root, f), path)
  {
    if files != [] {
      var init := files[..|files| - 1];
      FileCallsMembers(root, init, path, c);
      assert files == init + [files[|files| - 1]];
      forall i | 0 <= i < |init| ensures init[i] == files[i] {}
    }
  }

  /** The `parse_key_file` calls of a whole walk, in walk order. */
  function WalkCalls(dirs: seq<WalkDir>, baseDir: string): seq<KeyFileCall> {
    if dirs == [] then []
    else WalkCalls(dirs[..|dirs| - 1], baseDir) + DirCalls(dirs[|dirs| - 1], baseDir)
  }

  /**
   * Every file of the walk is parsed, with the logical path
   * `remove_prefix(root, base_dir)` of its directory, and nothing else is:
   * a directory without files contributes no call.
   */
  lemma {:induction false} WalkCallsMembers(dirs: seq<WalkDir>, baseDir: string, c: KeyFileCall)
    ensures c in WalkCalls(dirs, baseDir) <==>
      exists d, f :: d in dirs && f in d.files && c == KeyFileCall(PathJoin(d.root, f), RemovePrefix(d.root, baseDir))
  {
    if c in WalkCalls(dirs, baseDir) {
      WalkCallsSound(dirs, baseDir, c);
    }
    if exists d, f :: d in dirs && f in d.files && c == KeyFileCall(PathJoin(d.root, f), RemovePrefix(d.root, baseDir)) {
      var d, f :| d in dirs && f in d.files && c == KeyFileCall(PathJoin(d.root, f), RemovePrefix(d.root, baseDir));
      WalkCallsComplete(dirs, baseDir, d, f);
    }
  }

  /** Every call of the walk comes from a file of one of its directories. */
  lemma {:induction false} WalkCallsSound(dirs: seq<WalkDir>, baseDir: string, c: KeyFileCall)
    requires c in WalkCalls(dirs, baseDir)
    ensures exists d, f :: d in dirs && f in d.files && c == KeyFileCall(PathJoin(d.root, f), RemovePrefix(d.root, baseDir))
  {
    var init, last := dirs[..|dirs| - 1], dirs[|dirs| - 1];
    assert last in dirs;
    if c in WalkCalls(init, baseDir) {
      WalkCallsSound(init, baseDir, c);
      var d, f :| d in init && f in d.files && c == KeyFileCall(PathJoin(d.root, f), RemovePrefix(d.root, baseDir));
      assert d in dirs;
    } else {
      FileCallsMembers(last.root, last.files, RemovePrefix(last.root, baseDir), c);
    }
  }

  /** Every file of every directory of the walk is called. */
  lemma {:induction false} WalkCallsComplete(dirs: seq<WalkDir>, baseDir: string, d: WalkDir, f: string)
    requires d in dirs && f in d.files
    ensures KeyFileCall(PathJoin(d.root, f), RemovePrefix(d.root, baseDir)) in WalkCalls(dirs, baseDir)
  {
    var init, last := dirs[..|dirs| - 1], dirs[|dirs| - 1];
    var c := KeyFileCall(PathJoin(d.root, f), RemovePrefix(d.root, baseDir));
    if d == last {
      FileCallsMembers(last.root, last.files, RemovePrefix(last.root, baseDir), c);
    } else {
      assert dirs == init + [last];
      assert d in init;
      WalkCallsComplete(init, baseDir, d, f);
    }
  }


  /** The calls of two consecutive parts of a walk are those of the parts, in order. */
  lemma {:induction false} WalkCallsAppend(a: seq<WalkDir>, b: seq<WalkDir>, baseDir: string)
    ensures WalkCalls(a + b, baseDir) == WalkCalls(a, baseDir) + WalkCalls(b, baseDir)
    decreases |b|
  {
    if b == [] {
      assert a + b == a;
    } else {
      var init, last := b[..|b| - 1], b[|b| - 1];
      WalkCallsAppend(a, init, baseDir);
      WalkCallsLastOfAppend(a, b, baseDir);
      WalkCallsLast(b, baseDir);
      ConcatAssoc(WalkCalls(a, baseDir), WalkCalls(init, baseDir), DirCalls(last, baseDir));
    }
  }

  /** The last directory of `a + b`, for a non-empty `b`, is that of `b`. */
  lemma WalkCallsLastOfAppend(a: seq<WalkDir>, b: seq<WalkDir>, baseDir: string)
    requires b != []
    ensures WalkCalls(a + b, baseDir) == WalkCalls(a + b[..|b| - 1], baseDir) + DirCalls(b[|b| - 1], baseDir)
  {
    var ab := a + b;
    assert ab[..|ab| - 1] == a + b[..|b| - 1];
    WalkCallsLast(ab, baseDir);
  }

  lemma ConcatAssoc<T>(x: seq<T>, y: seq<T>, z: seq<T>)
    ensures (x + y) + z == x + (y + z)
  {
  }

  /** How a non-empty walk ends: the calls of the last directory come last. */
  lemma WalkCallsLast(dirs: seq<WalkDir>, baseDir: string)
    requires dirs != []
    ensures WalkCalls(dirs, baseDir) == WalkCalls(dirs[..|dirs| - 1], baseDir) + DirCalls(dirs[|dirs| - 1], baseDir)
  {
  }

  /** Directories without files, such as those above the key files, make no call. */
  lemma {:induction false} WalkCallsOfEmptyDirs(dirs: seq<WalkDir>, baseDir: string)
    requires forall i | 0 <= i < |dirs| :: dirs[i].files == []
    ensures WalkCalls(dirs, baseDir) == []
  {
    if dirs != [] {
      var init := dirs[..|dirs| - 1];
      assert forall i | 0 <= i < |init| :: init[i] == dirs[i];
      WalkCallsOfEmptyDirs(init, baseDir);
    }
  }

  /** A walk that finds one file in one directory makes one call. */
  lemma WalkOfOneFile(root: string, file: string, baseDir: string)
    ensures WalkCalls([WalkDir(root, [file])], baseDir) == [KeyFileCall(PathJoin(root, file), RemovePrefix(root, baseDir))]
  {
    var d := WalkDir(root, [file]);
    assert [d][..0] == [];
    assert [file][..0] == [];
    assert WalkCalls([d], baseDir) == WalkCalls([], baseDir) + DirCalls(d, baseDir);
    assert DirCalls(d, baseDir) == FileCalls(root, [], RemovePrefix(root, baseDir))
      + [KeyFileCall(PathJoin(root, file), RemovePrefix(root, baseDir))];
  }

  /** One file read as the tree parser sees it: the entries it adds, or the exception it raises. */
  type Reader = KeyFileCall -> Result<seq<Entry>>

  /** `self.keys = self.keys + read(...)` over a sequence of calls, stopping at the first exception. */
  function ParseAll(read: Reader, calls: seq<KeyFileCall>): Parsed {
    if calls == [] then Parsed([], Pass)
    else Accumulate(ParseAll(read, calls[..|calls| - 1]), read(calls[|calls| - 1]))
  }

  /** A single call adds what its file yields. */
  lemma ParseAllOne(read: Reader, c: KeyFileCall)
    ensures ParseAll(read, [c]) == Accumulate(Parsed([], Pass), read(c))
  {
    assert [c][..0] == [];
  }

  /** Once a call has raised, later calls add nothing. */
  lemma {:induction false} ParseAllFailureSticks(read: Reader, calls: seq<KeyFileCall>, all: seq<KeyFileCall>)
    requires calls <= all && ParseAll(read, calls).outcome.Fail?
    ensures ParseAll(read, all) == ParseAll(read, calls)
    decreases |all|
  {
    if |all| > |calls| {
      var init := all[..|all| - 1];
      assert calls <= init;
      ParseAllFailureSticks(read, calls, init);
    } else {
      assert calls == all;
    }
  }

  /** One more call, seen from a `keys` list that already held `prefix` before the walk. */
  lemma ParseAllSnoc(read: Reader, done: seq<KeyFileCall>, c: KeyFileCall, prefix: seq<Entry>)
    requires ParseAll(read, done).outcome == Pass
    ensures var p := Accumulate(Parsed(prefix + ParseAll(read, done).entries, Pass), read(c));
      p.entries == prefix + ParseAll(read, done + [c]).entries && p.outcome == ParseAll(read, done + [c]).outcome
  {
    assert (done + [c])[..|done|] == done;
    var r := read(c);
    if r.Success? {
      assert prefix + ParseAll(read, done).entries + r.value == prefix + (ParseAll(read, done).entries + r.value);
    }
  }

  /** The calls of a prefix of a directory's files come first among its calls. */
  lemma {:induction false} FileCallsPrefix(root: string, files: seq<string>, n: nat, path: string)
    requires n <= |files|
    ensures FileCalls(root, files[..n], path) <= FileCalls(root, files, path)
    decreases |files| - n
  {
    if n < |files| {
      var init := files[..|files| - 1];
      assert init[..n] == files[..n];
      FileCallsPrefix(root, init, n, path);
    } else {
      assert files[..n] == files;
    }
  }

  /** The calls of a prefix of the walk come first among the calls of the whole walk. */
  lemma {:induction false} WalkCallsPrefix(dirs: seq<WalkDir>, n: nat, baseDir: string)
    requires n <= |dirs|
    ensures WalkCalls(dirs[..n], baseDir) <= WalkCalls(dirs, baseDir)
    decreases |dirs| - n
  {
    if n < |dirs| {
      var init := dirs[..|dirs| - 1];
      assert init[..n] == dirs[..n];
      WalkCallsPrefix(init, n, baseDir);
    } else {
      assert dirs[..n] == dirs;
    }
  }

  /** The calls of the first `j + 1` files extend those of the first `j` by one. */
  lemma FileCallsSnoc(root: string, files: seq<string>, j: nat, path: string)
    requires j < |files|
    ensures FileCalls(root, files[..j + 1], path) == FileCalls(root, files[..j], path) + [KeyFileCall(PathJoin(root, files[j]), path)]
  {
    assert files[..j + 1][..j] == files[..j];
  }

  /** The calls of the first `i + 1` directories extend those of the first `i` by the next directory's. */
  lemma WalkCallsSnoc(dirs: seq<WalkDir>, i: nat, baseDir: string)
    requires i < |dirs|
    ensures WalkCalls(dirs[..i + 1], baseDir) == WalkCalls(dirs[..i], baseDir) + DirCalls(dirs[i], baseDir)
  {
    assert dirs[..i + 1][..i] == dirs[..i];
  }

  /** Reading the next file of a directory extends the parse of the files before it. */
  lemma ParseFileStep(read: Reader, calls: seq<KeyFileCall>, root: string, files: seq<string>, j: nat, path: string, prefix: seq<Entry>)
    requires j < |files|
    requires ParseAll(read, calls + FileCalls(root, files[..j], path)).outcome == Pass
    ensures var p := Accumulate(Parsed(prefix + ParseAll(read, calls + FileCalls(root, files[..j], path)).entries, Pass),
                                read(KeyFileCall(PathJoin(root, files[j]), path)));
      var q := ParseAll(read, calls + FileCalls(root, files[..j + 1], path));
      p.entries == prefix + q.entries && p.outcome == q.outcome
  {
    var before := FileCalls(root, files[..j], path);
    var c := KeyFileCall(PathJoin(root, files[j]), path);
    FileCallsSnoc(root, files, j, path);
    assert calls + before + [c] == calls + (before + [c]);
    ParseAllSnoc(read, calls + before, c, prefix);
  }

  /** A failure on one file of a directory is the outcome of the whole directory. */
  lemma ParseFileFailure(read: Reader, calls: seq<KeyFileCall>, root: string, files: seq<string>, n: nat, path: string)
    requires n <= |files|
    requires ParseAll(read, calls + FileCalls(root, files[..n], path)).outcome.Fail?
    ensures ParseAll(read, calls + FileCalls(root, files, path)) == ParseAll(read, calls + FileCalls(root, files[..n], path))
  {
    FileCallsPrefix(root, files, n, path);
    ParseAllFailureSticks(read, calls + FileCalls(root, files[..n], path), calls + FileCalls(root, files, path));
  }

  /** A failure in one directory of the walk is the outcome of the whole walk. */
  lemma ParseWalkFailure(read: Reader, dirs: seq<WalkDir>, n: nat, baseDir: string)
    requires n <= |dirs|
    requires ParseAll(read, WalkCalls(dirs[..n], baseDir)).outcome.Fail?
    ensures ParseAll(read, WalkCalls(dirs, baseDir)) == ParseAll(read, WalkCalls(dirs[..n], baseDir))
  {
    WalkCallsPrefix(dirs, n, baseDir);
    ParseAllFailureSticks(read, WalkCalls(dirs[..n], baseDir), WalkCalls(dirs, baseDir));
  }
}
