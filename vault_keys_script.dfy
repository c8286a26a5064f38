/**
 * The older single-file version of the tool (`vault_keys.py`).  Its tree
 * parser reads only files named exactly `__ALL__` and reads each of them as a
 * manifest; `main` either dumps the parsed keys or syncs them into the store.
 */
module VaultKeysScript {
  import opened Optional
  import opened Strings
  import opened Paths
  import opened KeyData
  import opened Walk
  import opened SecretStore
  import opened Sync
  import opened Runs
  import VaultParser

  /** The calls the older `parse_dirs` makes for one directory: one per file named `__ALL__`. */
  function ManifestCalls(root: string, files: seq<string>, path: string): seq<KeyFileCall> {
    if files == [] then []
    else
      var prior := ManifestCalls(root, files[..|files| - 1], path);
      if files[|files| - 1] == ManifestName then prior + [KeyFileCall(PathJoin(root, ManifestName), path)] else prior
  }

  /** The calls of a whole walk of the older `parse_dirs`, in walk order. */
  function LegacyWalkCalls(dirs: seq<WalkDir>, baseDir: string): seq<KeyFileCall> {
    if dirs == [] then []
    else
      var d := dirs[|dirs| - 1];
      LegacyWalkCalls(dirs[..|dirs| - 1], baseDir) + ManifestCalls(d.root, d.files, RemovePrefix(d.root, baseDir))
  }

  /** Every call reads a manifest. */
  function ManifestReader(load: Loader): Reader {
    (c: KeyFileCall) => ManifestFileEntries(load, c.file, c.path)
  }

  lemma {:induction false} ManifestCallsMembers(root: string, files: seq<string>, path: string, c: KeyFileCall)
    ensures c in ManifestCalls(root, files, path) <==> ManifestName in files && c == KeyFileCall(PathJoin(root, ManifestName), path)
  {
    if files != [] {
      var init := files[..|files| - 1];
      ManifestCallsMembers(root, init, path, c);
      assert files == init + [files[|files| - 1]];
    }
  }

  /**
   * The older walk reads the manifest of each directory that has one, with
   * the directory's logical path, and no other file.
   */
  lemma {:induction false} LegacyWalkCallsMembers(dirs: seq<WalkDir>, baseDir: string, c: KeyFileCall)
    ensures c in LegacyWalkCalls(dirs, baseDir) <==>
      exists d :: d in dirs && ManifestName in d.files && c == KeyFileCall(PathJoin(d.root, ManifestName), RemovePrefix(d.root, baseDir))
  {
    if dirs != [] {
      var init, last := dirs[..|dirs| - 1], dirs[|dirs| - 1];
      LegacyWalkCallsMembers(init, baseDir, c);
      ManifestCallsMembers(last.root, last.files, RemovePrefix(last.root, baseDir), c);
      assert dirs == init + [last];
      if exists d :: d in dirs && ManifestName in d.files && c == KeyFileCall(PathJoin(d.root, ManifestName), RemovePrefix(d.root, baseDir)) {
        var d :| d in dirs && ManifestName in d.files && c == KeyFileCall(PathJoin(d.root, ManifestName), RemovePrefix(d.root, baseDir));
        if d != last {
          assert d in init;
        }
      }
    }
  }

  /** A tree without manifests gives the older parser nothing to read. */
  lemma {:induction false} LegacyIgnoresKeyFiles(load: Loader, dirs: seq<WalkDir>, baseDir: string)
    requires forall i | 0 <= i < |dirs| :: ManifestName !in dirs[i].files
    ensures LegacyWalkCalls(dirs, baseDir) == []
    ensures ParseAll(ManifestReader(load), LegacyWalkCalls(dirs, baseDir)) == Parsed([], Pass)
  {
    if dirs != [] {
      var init, last := dirs[..|dirs| - 1], dirs[|dirs| - 1];
      LegacyIgnoresKeyFiles(load, init, baseDir);
      if ManifestCalls(last.root, last.files, RemovePrefix(last.root, baseDir)) != [] {
        var c := ManifestCalls(last.root, last.files, RemovePrefix(last.root, baseDir))[0];
        ManifestCallsMembers(last.root, last.files, RemovePrefix(last.root, baseDir), c);
      }
    }
  }

  /** In a directory whose files are all manifests, the two parsers make the same calls. */
  lemma {:induction false} ManifestCallsAgree(root: string, files: seq<string>, path: string)
    requires forall i | 0 <= i < |files| :: files[i] == ManifestName
    ensures ManifestCalls(root, files, path) == FileCalls(root, files, path)
  {
    if files != [] {
      ManifestCallsAgree(root, files[..|files| - 1], path);
    }
  }

  lemma {:induction false} LegacyWalkCallsAgree(dirs: seq<WalkDir>, baseDir: string)
    requires forall i, j | 0 <= i < |dirs| && 0 <= j < |dirs[i].files| :: dirs[i].files[j] == ManifestName
    ensures LegacyWalkCalls(dirs, baseDir) == WalkCalls(dirs, baseDir)
  {
    if dirs != [] {
      var last := dirs[|dirs| - 1];
      LegacyWalkCallsAgree(dirs[..|dirs| - 1], baseDir);
      ManifestCallsAgree(last.root, last.files, RemovePrefix(last.root, baseDir));
    }
  }

  /** On calls that all name a manifest, the newer dispatch reads each as a manifest too. */
  lemma {:induction false} ReadersAgree(load: Loader, calls: seq<KeyFileCall>)
    requires forall i | 0 <= i < |calls| :: Contains(calls[i].file, ManifestName)
    ensures ParseAll(ManifestReader(load), calls) == ParseAll(VaultParser.KeyFileReader(load), calls)
  {
    if calls != [] {
      ReadersAgree(load, calls[..|calls| - 1]);
      var c := calls[|calls| - 1];
      assert ManifestReader(load)(c) == VaultParser.KeyFileReader(load)(c);
    }
  }

  /** Every call of the older walk names a file that ends in `__ALL__`. */
  lemma LegacyCallsAreManifests(dirs: seq<WalkDir>, baseDir: string)
    ensures forall i | 0 <= i < |LegacyWalkCalls(dirs, baseDir)| :: Contains(LegacyWalkCalls(dirs, baseDir)[i].file, ManifestName)
  {
    var calls := LegacyWalkCalls(dirs, baseDir);
    forall i | 0 <= i < |calls| ensures Contains(calls[i].file, ManifestName) {
      LegacyWalkCallsMembers(dirs, baseDir, calls[i]);
      var d :| d in dirs && ManifestName in d.files && calls[i] == KeyFileCall(PathJoin(d.root, ManifestName), RemovePrefix(d.root, baseDir));
      PathJoinSpec(d.root, ManifestName);
      EndsWithContains(calls[i].file, ManifestName);
    }
  }

  /** Over a tree whose every file is a manifest, the older and the newer parser accumulate the same keys. */
  lemma ParsersAgreeOnManifestTrees(load: Loader, dirs: seq<WalkDir>, baseDir: string)
    requires forall i, j | 0 <= i < |dirs| && 0 <= j < |dirs[i].files| :: dirs[i].files[j] == ManifestName
    ensures ParseAll(ManifestReader(load), LegacyWalkCalls(dirs, baseDir))
      == ParseAll(VaultParser.KeyFileReader(load), WalkCalls(dirs, baseDir))
  {
    LegacyWalkCallsAgree(dirs, baseDir);
    LegacyCallsAreManifests(dirs, baseDir);
    ReadersAgree(load, LegacyWalkCalls(dirs, baseDir));
  }

  /** A directory holding one single-key file: the newer parser reads one entry from it, the older one nothing. */
  lemma ParsersDifferOnKeyFiles(load: Loader, root: string, file: string, baseDir: string, key: Record)
    requires file != ManifestName && !Contains(PathJoin(root, file), ManifestName)
    requires load(PathJoin(root, file)) == Some(Mapping(key))
    ensures ParseAll(ManifestReader(load), LegacyWalkCalls([WalkDir(root, [file])], baseDir)) == Parsed([], Pass)
    ensures ParseAll(VaultParser.KeyFileReader(load), WalkCalls([WalkDir(root, [file])], baseDir))
      == Parsed([Entry(RemovePrefix(root, baseDir), ReadKeyData(key))], Pass)
  {
    LegacyIgnoresKeyFiles(load, [WalkDir(root, [file])], baseDir);
    VaultParser.SingleKeyFileEntry(load, root, file, baseDir, key);
  }

  /** The calls of a prefix of a directory's files come first among its calls. */
  lemma {:induction false} ManifestCallsPrefix(root: string, files: seq<string>, n: nat, path: string)
    requires n <= |files|
    ensures ManifestCalls(root, files[..n], path) <= ManifestCalls(root, files, path)
    decreases |files| - n
  {
    if n < |files| {
      var init := files[..|files| - 1];
      assert init[..n] == files[..n];
      ManifestCallsPrefix(root, init, n, path);
    } else {
      assert files[..n] == files;
    }
  }

  lemma {:induction false} LegacyWalkCallsPrefix(dirs: seq<WalkDir>, n: nat, baseDir: string)
    requires n <= |dirs|
    ensures LegacyWalkCalls(dirs[..n], baseDir) <= LegacyWalkCalls(dirs, baseDir)
    decreases |dirs| - n
  {
    if n < |dirs| {
      var init := dirs[..|dirs| - 1];
      assert init[..n] == dirs[..n];
      LegacyWalkCallsPrefix(init, n, baseDir);
    } else {
      assert dirs[..n] == dirs;
    }
  }

  /** A file of a directory that is not named `__ALL__` is skipped. */
  lemma ManifestSkip(read: Reader, calls: seq<KeyFileCall>, root: string, files: seq<string>, j: nat, path: string)
    requires j < |files| && files[j] != ManifestName
    ensures ParseAll(read, calls + ManifestCalls(root, files[..j + 1], path)) == ParseAll(read, calls + ManifestCalls(root, files[..j], path))
  {
    assert files[..j + 1][..j] == files[..j];
  }

  /** A file of a directory named `__ALL__` is read, and what it yields extends the parse of the files before it. */
  lemma ManifestRead(read: Reader, calls: seq<KeyFileCall>, root: string, files: seq<string>, j: nat, path: string, prefix: seq<Entry>)
    requires j < |files| && files[j] == ManifestName
    requires ParseAll(read, calls + ManifestCalls(root, files[..j], path)).outcome == Pass
    ensures var p := Accumulate(Parsed(prefix + ParseAll(read, calls + ManifestCalls(root, files[..j], path)).entries, Pass),
                                read(KeyFileCall(PathJoin(root, files[j]), path)));
      var q := ParseAll(read, calls + ManifestCalls(root, files[..j + 1], path));
      p.entries == prefix + q.entries && p.outcome == q.outcome
  {
    var before := ManifestCalls(root, files[..j], path);
    assert files[..j + 1][..j] == files[..j];
    var c := KeyFileCall(PathJoin(root, ManifestName), path);
    assert ManifestCalls(root, files[..j + 1], path) == before + [c];
    assert calls + before + [c] == calls + (before + [c]);
    ParseAllSnoc(read, calls + before, c, prefix);
  }

  /** A failure on one manifest of a directory is the outcome of the whole directory. */
  lemma ManifestFailure(read: Reader, calls: seq<KeyFileCall>, root: string, files: seq<string>, n: nat, path: string)
    requires n <= |files|
    requires ParseAll(read, calls + ManifestCalls(root, files[..n], path)).outcome.Fail?
    ensures ParseAll(read, calls + ManifestCalls(root, files, path)) == ParseAll(read, calls + ManifestCalls(root, files[..n], path))
  {
    ManifestCallsPrefix(root, files, n, path);
    ParseAllFailureSticks(read, calls + ManifestCalls(root, files[..n], path), calls + ManifestCalls(root, files, path));
  }

  lemma LegacyWalkCallsSnoc(dirs: seq<WalkDir>, i: nat, baseDir: string)
    requires i < |dirs|
    ensures LegacyWalkCalls(dirs[..i + 1], baseDir)
      == LegacyWalkCalls(dirs[..i], baseDir) + ManifestCalls(dirs[i].root, dirs[i].files, RemovePrefix(dirs[i].root, baseDir))
  {
    assert dirs[..i + 1][..i] == dirs[..i];
  }

  /** A failure in one directory of the older walk is the outcome of the whole walk. */
  lemma LegacyWalkFailure(read: Reader, dirs: seq<WalkDir>, n: nat, baseDir: string)
    requires n <= |dirs|
    requires ParseAll(read, LegacyWalkCalls(dirs[..n], baseDir)).outcome.Fail?
    ensures ParseAll(read, LegacyWalkCalls(dirs, baseDir)) == ParseAll(read, LegacyWalkCalls(dirs[..n], baseDir))
  {
    LegacyWalkCallsPrefix(dirs, n, baseDir);
    ParseAllFailureSticks(read, LegacyWalkCalls(dirs[..n], baseDir), LegacyWalkCalls(dirs, baseDir));
  }

  class VaultTreeParser {
    const load: Loader
    const vault: KvStore?
    const baseDir: string
    var keys: seq<Entry>

    constructor (load: Loader, vault: KvStore?, baseDir: string)
      ensures this.load == load && this.vault == vault && this.baseDir == baseDir
      ensures keys == []
    {
      this.load := load;
      this.vault := vault;
      this.baseDir := baseDir;
      keys := [];
    }

    /** `self.keys = self.keys + self.read_all_keys(...)`: an exception leaves `keys` as it was. */
    method AddManifest(keysFile: string, path: string) returns (outcome: Outcome)
      modifies this
      ensures old(keys) <= keys
      ensures var p := Accumulate(Parsed(old(keys), Pass), ManifestFileEntries(load, keysFile, path));
        keys == p.entries && outcome == p.outcome
    {
      var r := ReadAllKeys(load, keysFile, path);
      match r
      case Success(es) =>
        keys := keys + es;
        outcome := Pass;
      case Failure(e) =>
        outcome := Fail(e);
    }

    /** The inner loop of `parse_dirs`: each file of one directory named `__ALL__` is read as a manifest. */
    method ParseDirManifests(d: WalkDir, ghost calls: seq<KeyFileCall>, ghost prefix: seq<Entry>) returns (outcome: Outcome)
      requires keys == prefix + ParseAll(ManifestReader(load), calls).entries
      requires ParseAll(ManifestReader(load), calls).outcome == Pass
      modifies this
      ensures var p := ParseAll(ManifestReader(load), calls + ManifestCalls(d.root, d.files, RemovePrefix(d.root, baseDir)));
        keys == prefix + p.entries && outcome == p.outcome
    {
      if |d.files| > 0 {
        var logical := RemovePrefix(d.root, baseDir);
        outcome := Pass;
        var j := 0;
        assert d.files[..0] == [];
        assert calls + [] == calls;
        while j < |d.files|
          invariant 0 <= j <= |d.files|
          invariant keys == prefix + ParseAll(ManifestReader(load), calls + ManifestCalls(d.root, d.files[..j], logical)).entries
          invariant ParseAll(ManifestReader(load), calls + ManifestCalls(d.root, d.files[..j], logical)).outcome == Pass
          invariant outcome == Pass
        {
          if d.files[j] == ManifestName {
            ManifestRead(ManifestReader(load), calls, d.root, d.files, j, logical, prefix);
            outcome := AddManifest(PathJoin(d.root, d.files[j]), logical);
            if outcome.Fail? {
              ManifestFailure(ManifestReader(load), calls, d.root, d.files, j + 1, logical);
              return;
            }
          } else {
            ManifestSkip(ManifestReader(load), calls, d.root, d.files, j, logical);
          }
          j := j + 1;
        }
        assert d.files[..j] == d.files;
      } else {
        assert d.files[..0] == d.files;
        assert calls + [] == calls;
        outcome := Pass;
      }
    }

    /**
     * `parse_dirs`: the manifest of every walked directory is read in walk
     * order, with the directory's path relative to the base directory; the
     * first exception stops the walk.
     */
    method ParseDirs(path: Option<string>, walk: string -> seq<WalkDir>) returns (outcome: Outcome)
      modifies this
      ensures old(keys) <= keys
      ensures var p := ParseAll(ManifestReader(load), LegacyWalkCalls(walk(StartDir(path, baseDir)), baseDir));
        keys == old(keys) + p.entries && outcome == p.outcome
    {
      var top := if path.None? || path.value == "" then baseDir else path.value;
      var dirs := walk(top);
      outcome := Pass;
      var i := 0;
      assert dirs[..0] == [];
      while i < |dirs|
        invariant 0 <= i <= |dirs|
        invariant keys == old(keys) + ParseAll(ManifestReader(load), LegacyWalkCalls(dirs[..i], baseDir)).entries
        invariant ParseAll(ManifestReader(load), LegacyWalkCalls(dirs[..i], baseDir)).outcome == Pass && outcome == Pass
      {
        ghost var before := LegacyWalkCalls(dirs[..i], baseDir);
        outcome := ParseDirManifests(dirs[i], before, old(keys));
        LegacyWalkCallsSnoc(dirs, i, baseDir);
        if outcome.Fail? {
          LegacyWalkFailure(ManifestReader(load), dirs, i + 1, baseDir);
          return;
        }
        assert outcome == Pass;
        i := i + 1;
      }
      assert dirs[..i] == dirs;
    }

    /**
     * `apply_keys`, with the store calls made in place: the store ends as the
     * sync rule prescribes, and one status is logged per entry.
     */
    method ApplyKeys() returns (log: seq<Status>)
      requires vault != null
      modifies vault
      ensures vault.data == Applied(old(vault.data), vault.accepts, keys)
      ensures log == ApplyLog(old(vault.data), vault.accepts, keys)
    {
      log := [];
      var i := 0;
      while i < |keys|
        invariant 0 <= i <= |keys|
        invariant vault.data == Applied(old(vault.data), vault.accepts, keys[..i])
        invariant log == ApplyLog(old(vault.data), vault.accepts, keys[..i])
      {
        var keyPath, value := keys[i].name, keys[i].payload;
        var (kvName, kvKeyPath) := SplitMount(keyPath);
        ApplyOneMore(old(vault.data), vault.accepts, keys, i);
        assert (kvName, kvKeyPath) == LocationOf(keys[i]);
        var oldKeyValue := vault.ReadSecretVersion(kvName, kvKeyPath);
        assert oldKeyValue == Lookup(vault.data, LocationOf(keys[i]));
        if UpToDate(oldKeyValue, value) {
          log := log + [AlreadyExists];
        } else {
          var accepted := vault.CreateOrUpdateSecret(kvKeyPath, value, kvName);
          log := log + [if accepted then Written else Rejected];
        }
        i := i + 1;
      }
      assert keys[..i] == keys;
    }

    /** `dump_keys`: one `name=json` line per entry, in `keys` order. */
    method DumpKeys(encode: Option<Payload> -> string) returns (lines: seq<string>)
      ensures |lines| == |keys|
      ensures forall i | 0 <= i < |keys| :: lines[i] == keys[i].name + "=" + encode(keys[i].payload)
      ensures lines == DumpLines(keys, encode)
    {
      lines := [];
      var i := 0;
      while i < |keys|
        invariant 0 <= i <= |keys|
        invariant |lines| == i
        invariant forall k | 0 <= k < i :: lines[k] == DumpLine(keys[k], encode)
      {
        lines := lines + [DumpLine(keys[i], encode)];
        i := i + 1;
      }
    }
  }

  /** What `parse_dirs()` from the base directory accumulates. */
  function ScriptParse(load: Loader, walk: string -> seq<WalkDir>): Parsed {
    ParseAll(ManifestReader(load), LegacyWalkCalls(walk(KvBaseDir), KvBaseDir))
  }

  /**
   * `main`: with `DRY_RUN` set no store client is made and the parsed keys
   * are dumped; otherwise a client is made (which raises `Unauthorized` unless
   * the store accepts the credentials) and the keys are synced.  `connected`
   * says whether a client was made.
   */
  method RunScript(env: Environment, load: Loader, walk: string -> seq<WalkDir>, store: KvStore, authenticated: bool,
                   encode: Option<Payload> -> string)
    returns (connected: bool, result: RunResult)
    modifies store
    ensures connected <==> !Truthy(env, "DRY_RUN")
    ensures connected && !authenticated ==> result == Aborted(Unauthorized)
    ensures (!connected || authenticated) && ScriptParse(load, walk).outcome.Fail? ==>
      result == Aborted(ScriptParse(load, walk).outcome.error)
    ensures !connected && ScriptParse(load, walk).outcome.Pass? ==> result == Dumped(DumpLines(ScriptParse(load, walk).entries, encode))
    ensures connected && authenticated && ScriptParse(load, walk).outcome.Pass? ==>
      store.data == Applied(old(store.data), store.accepts, ScriptParse(load, walk).entries) &&
      result == Synced(ApplyLog(old(store.data), store.accepts, ScriptParse(load, walk).entries))
    ensures !(connected && authenticated && ScriptParse(load, walk).outcome.Pass?) ==> store.data == old(store.data)
  {
    var dryRun := false;
    if "DRY_RUN" in env && env["DRY_RUN"] != "" {
      dryRun := true;
    }
    var vault: KvStore? := null;
    connected := false;
    if !dryRun {
      connected := true;
      if !authenticated {
        return connected, Aborted(Unauthorized);
      }
      vault := store;
    }
    var vtp := new VaultTreeParser(load, vault, KvBaseDir);
    var outcome := vtp.ParseDirs(None, walk);
    ghost var p := ScriptParse(load, walk);
    assert vtp.keys == p.entries && outcome == p.outcome;
    if outcome.Fail? {
      return connected, Aborted(outcome.error);
    }
    if dryRun {
      var lines := vtp.DumpKeys(encode);
      result := Dumped(lines);
    } else {
      var log := vtp.ApplyKeys();
      result := Synced(log);
    }
  }
}
