/**
 * `VaultTreeParser` of the package: walks the key directory, reads every file
 * (a manifest when its path mentions `__ALL__`, a single key otherwise),
 * accumulates entries in `keys`, and either syncs them into the store or dumps
 * them.
 */
module VaultParser {
  import opened Optional
  import opened Strings
  import opened Paths
  import opened KeyData
  import opened Walk
  import opened SecretStore
  import opened Sync

  /**
   * `read_one_key`: the whole file is the key data of one entry, keyed by the
   * directory's logical path; the file name is not part of it.  A list
   * document has no `value`, `token` or TLS key (membership on a list of
   * mappings is false), so it gives an entry without payload; `None` raises.
   */
  function ReadOneKey(load: Loader, keyFile: string, path: string): (r: Result<seq<Entry>>)
    ensures r.Success? ==> |r.value| == 1 && r.value[0].name == path
    ensures r.Failure? <==> load(keyFile).None? || load(keyFile) == Some(Null)
    ensures load(keyFile).Some? && load(keyFile).value.Mapping? ==>
      r == Success([Entry(path, ReadKeyData(load(keyFile).value.record))])
    ensures load(keyFile).Some? && load(keyFile).value.Sequence? ==> r == Success([Entry(path, None)])
  {
    match load(keyFile)
    case None => Failure(LoadError(keyFile))
    case Some(Null) => Failure(TypeError)
    case Some(Mapping(key)) => Success([Entry(path, ReadKeyData(key))])
    case Some(Sequence(_)) => Success([Entry(path, None)])
  }

  /**
   * What `parse_key_file` adds: a file whose full path contains `__ALL__`
   * anywhere is read as a manifest, any other file as a single key.
   */
  function KeyFileEntries(load: Loader, keyFile: string, path: string): (r: Result<seq<Entry>>)
    ensures Contains(keyFile, ManifestName) ==> r == ManifestFileEntries(load, keyFile, path)
    ensures !Contains(keyFile, ManifestName) ==> r == ReadOneKey(load, keyFile, path)
    ensures !Contains(keyFile, ManifestName) && r.Success? ==> |r.value| == 1 && r.value[0].name == path
  {
    if Contains(keyFile, ManifestName) then ManifestFileEntries(load, keyFile, path)
    else ReadOneKey(load, keyFile, path)
  }

  /** The reader `parse_key_file` applies to each call of a walk. */
  function KeyFileReader(load: Loader): Reader {
    (c: KeyFileCall) => KeyFileEntries(load, c.file, c.path)
  }

  /** A file directly in a directory of the walk that is not a manifest adds exactly one entry, keyed by the directory. */
  lemma SingleKeyFileEntry(load: Loader, root: string, file: string, baseDir: string, key: Record)
    requires !Contains(PathJoin(root, file), ManifestName)
    requires load(PathJoin(root, file)) == Some(Mapping(key))
    ensures ParseAll(KeyFileReader(load), WalkCalls([WalkDir(root, [file])], baseDir))
      == Parsed([Entry(RemovePrefix(root, baseDir), ReadKeyData(key))], Pass)
  {
    WalkOfOneFile(root, file, baseDir);
    ParseAllOne(KeyFileReader(load), KeyFileCall(PathJoin(root, file), RemovePrefix(root, baseDir)));
  }

  class VaultTreeParser {
    const load: Loader
    const vault: KvStore?
    const baseDir: string
    var keys: seq<Entry>

    constructor (load: Loader, vault: KvStore?, baseDir: string)
      ensures this.load == load && this.vault == vault && this.baseDir == baseDir
      ensures keys == []
    {
      this.load := load;
      this.vault := vault;
      this.baseDir := baseDir;
      keys := [];
    }

    /** `parse_key_file`: entries are only ever appended; an exception leaves `keys` as it was. */
    method ParseKeyFile(keyFile: string, path: string) returns (outcome: Outcome)
      modifies this
      ensures old(keys) <= keys
      ensures var p := Accumulate(Parsed(old(keys), Pass), KeyFileEntries(load, keyFile, path));
        keys == p.entries && outcome == p.outcome
    {
      var r: Result<seq<Entry>>;
      if Contains(keyFile, ManifestName) {
        r := ReadAllKeys(load, keyFile, path);
      } else {
        r := ReadOneKey(load, keyFile, path);
      }
      match r
      case Success(es) =>
        keys := keys + es;
        outcome := Pass;
      case Failure(e) =>
        outcome := Fail(e);
    }

    /** The inner loop of `parse_dirs`: the files of one walked directory, in order. */
    method ParseDirFiles(d: WalkDir, ghost calls: seq<KeyFileCall>, ghost prefix: seq<Entry>) returns (outcome: Outcome)
      requires keys == prefix + ParseAll(KeyFileReader(load), calls).entries && ParseAll(KeyFileReader(load), calls).outcome == Pass
      modifies this
      ensures keys == prefix + ParseAll(KeyFileReader(load), calls + DirCalls(d, baseDir)).entries
      ensures outcome == ParseAll(KeyFileReader(load), calls + DirCalls(d, baseDir)).outcome
    {
      if |d.files| > 0 {
        var logical := RemovePrefix(d.root, baseDir);
        outcome := Pass;
        var j := 0;
        assert d.files[..0] == [];
        assert calls + [] == calls;
        while j < |d.files|
          invariant 0 <= j <= |d.files|
          invariant keys == prefix + ParseAll(KeyFileReader(load), calls + FileCalls(d.root, d.files[..j], logical)).entries
          invariant ParseAll(KeyFileReader(load), calls + FileCalls(d.root, d.files[..j], logical)).outcome == Pass && outcome == Pass
        {
          ParseFileStep(KeyFileReader(load), calls, d.root, d.files, j, logical, prefix);
          outcome := ParseKeyFile(PathJoin(d.root, d.files[j]), logical);
          if outcome.Fail? {
            ParseFileFailure(KeyFileReader(load), calls, d.root, d.files, j + 1, logical);
            return;
          }
          j := j + 1;
        }
        assert d.files[..j] == d.files;
      } else {
        assert d.files[..0] == d.files;
        assert calls + [] == calls;
        outcome := Pass;
      }
    }

    /**
     * `parse_dirs`: every file of every walked directory is parsed in walk
     * order, each with the directory's path relative to the base directory;
     * the first exception stops the walk.
     */
    method ParseDirs(path: Option<string>, walk: string -> seq<WalkDir>) returns (outcome: Outcome)
      modifies this
      ensures old(keys) <= keys
      ensures var p := ParseAll(KeyFileReader(load), WalkCalls(walk(StartDir(path, baseDir)), baseDir));
        keys == old(keys) + p.entries && outcome == p.outcome
    {
      var top := if path.None? || path.value == "" then baseDir else path.value;
      var dirs := walk(top);
      outcome := Pass;
      var i := 0;
      assert dirs[..0] == [];
      while i < |dirs|
        invariant 0 <= i <= |dirs|
        invariant keys == old(keys) + ParseAll(KeyFileReader(load), WalkCalls(dirs[..i], baseDir)).entries
        invariant ParseAll(KeyFileReader(load), WalkCalls(dirs[..i], baseDir)).outcome == Pass && outcome == Pass
      {
        ghost var before := WalkCalls(dirs[..i], baseDir);
        outcome := ParseDirFiles(dirs[i], before, old(keys));
        WalkCallsSnoc(dirs, i, baseDir);
        if outcome.Fail? {
          ParseWalkFailure(KeyFileReader(load), dirs, i + 1, baseDir);
          return;
        }
        assert outcome == Pass;
        i := i + 1;
      }
      assert dirs[..i] == dirs;
    }

    /** `vault_read_secret`: the stored secret, or `None` where the store raises `InvalidPath`. */
    method VaultReadSecret(key: string, mountPoint: string) returns (data: Option<Secret>)
      requires vault != null
      ensures data == Lookup(vault.data, (mountPoint, key))
    {
      data := vault.ReadSecretVersion(mountPoint, key);
    }

    /** `vault_update_secret`: a rejected write is logged and changes nothing. */
    method VaultUpdateSecret(key: string, value: Option<Payload>, mountPoint: string) returns (status: Status)
      requires vault != null
      modifies vault
      ensures status == if vault.accepts((mountPoint, key), value) then Written else Rejected
      ensures vault.data == if status == Written then old(vault.data)[(mountPoint, key) := Body(value)] else old(vault.data)
    {
      var accepted := vault.CreateOrUpdateSecret(key, value, mountPoint);
      status := if accepted then Written else Rejected;
    }

    /** `apply_keys`: the store ends as the sync rule prescribes, and one status is logged per entry. */
    method ApplyKeys() returns (log: seq<Status>)
      requires vault != null
      modifies vault
      ensures vault.data == Applied(old(vault.data), vault.accepts, keys)
      ensures log == ApplyLog(old(vault.data), vault.accepts, keys)
    {
      log := [];
      var i := 0;
      while i < |keys|
        invariant 0 <= i <= |keys|
        invariant vault.data == Applied(old(vault.data), vault.accepts, keys[..i])
        invariant log == ApplyLog(old(vault.data), vault.accepts, keys[..i])
      {
        var keyPath, value := keys[i].name, keys[i].payload;
        var (kvName, kvKeyPath) := SplitMount(keyPath);
        ApplyOneMore(old(vault.data), vault.accepts, keys, i);
        assert (kvName, kvKeyPath) == LocationOf(keys[i]);
        var oldKeyValue := VaultReadSecret(kvKeyPath, kvName);
        if UpToDate(oldKeyValue, value) {
          log := log + [AlreadyExists];
        } else {
          var status := VaultUpdateSecret(kvKeyPath, value, kvName);
          log := log + [status];
        }
        i := i + 1;
      }
      assert keys[..i] == keys;
    }

    /** `dump_keys`: one `name=json` line per entry, in `keys` order. */
    method DumpKeys(encode: Option<Payload> -> string) returns (lines: seq<string>)
      ensures |lines| == |keys|
      ensures forall i | 0 <= i < |keys| :: lines[i] == keys[i].name + "=" + encode(keys[i].payload)
      ensures lines == DumpLines(keys, encode)
    {
      lines := [];
      var i := 0;
      while i < |keys|
        invariant 0 <= i <= |keys|
        invariant |lines| == i
        invariant forall k | 0 <= k < i :: lines[k] == DumpLine(keys[k], encode)
      {
        lines := lines + [DumpLine(keys[i], encode)];
        i := i + 1;
      }
    }
  }
}
