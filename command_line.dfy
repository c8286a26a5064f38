/**
 * `CliRunner` of the package: the flags and environment variables it
 * resolves, the logical path it derives for a single key file, and the
 * dispatch of `run` between one key file and a directory walk, and between a
 * dump and a sync.
 */
module CommandLine {
  import opened Optional
  import opened Strings
  import opened Paths
  import opened KeyData
  import opened Walk
  import opened SecretStore
  import opened Sync
  import opened Runs
  import opened VaultParser

  /** What `argparse` hands to `parse_args`; an option not given is `None`. */
  datatype Arguments = Arguments(verbose: bool, dryRun: bool, keyFile: Option<string>, keyDir: Option<string>)

  /** Python truthiness of an optional string. */
  predicate Given(o: Option<string>) {
    o.Some? && o.value != ""
  }

  /** What `run` removes from the logical path of a manifest named with `-k`. */
  const ManifestSuffix := "/__ALL__"

  /** The `key_path` that `run` derives from `-k`. */
  function KeyPath(keyFile: string): string {
    var p := ReplaceAll(keyFile, KvBaseDir, "");
    if Contains(p, ManifestName) then ReplaceAll(p, ManifestSuffix, "") else p
  }

  /** `/__ALL__` can only occur in `d + "/__ALL__"` at its end when it does not occur in `d`. */
  lemma SuffixOnlyAtEnd(d: string)
    requires !Contains(d, ManifestSuffix)
    ensures forall i | 0 <= i < |d| :: !OccursAt(d + ManifestSuffix, ManifestSuffix, i)
  {
    var s := d + ManifestSuffix;
    forall i | 0 <= i < |d| ensures !OccursAt(s, ManifestSuffix, i) {
      if i + |ManifestSuffix| <= |d| {
        assert s[i..i + |ManifestSuffix|] == d[i..i + |ManifestSuffix|];
        assert !OccursAt(d, ManifestSuffix, i);
      } else if i + |ManifestSuffix| <= |s| {
        var k := |d| - i;
        assert s[i..i + |ManifestSuffix|][k] == s[|d|] == '/';
        assert ManifestSuffix[k] != '/';
      }
    }
  }

  /** Removing the base directory from a path that starts with it and has it nowhere else. */
  lemma DropBaseDir(rest: string)
    requires !Contains(rest, KvBaseDir)
    ensures ReplaceAll(KvBaseDir + rest, KvBaseDir, "") == rest
  {
    ReplaceAllHead(rest, KvBaseDir, "");
    ReplaceAllAbsent(rest, KvBaseDir, "");
  }

  /** Removing `/__ALL__` from a manifest path that has it only at its end. */
  lemma DropManifestSuffix(d: string)
    requires !Contains(d, ManifestSuffix)
    ensures ReplaceAll(d + ManifestSuffix, ManifestSuffix, "") == d
  {
    SuffixOnlyAtEnd(d);
    ReplaceAllSkips(d, ManifestSuffix, ManifestSuffix, "");
    ReplaceAllHead([], ManifestSuffix, "");
    assert ManifestSuffix + [] == ManifestSuffix;
  }

  /**
   * A manifest below the base directory gets the logical path of its
   * directory, as the walk would give it.
   */
  lemma KeyPathOfManifest(d: string)
    requires !Contains(d + ManifestSuffix, KvBaseDir) && !Contains(d, ManifestSuffix)
    ensures KeyPath(KvBaseDir + d + ManifestSuffix) == d
  {
    var rest := d + ManifestSuffix;
    assert KvBaseDir + d + ManifestSuffix == KvBaseDir + rest;
    DropBaseDir(rest);
    assert rest[|rest| - |ManifestName|..] == ManifestName;
    EndsWithContains(rest, ManifestName);
    DropManifestSuffix(d);
  }

  /** `run -k ./kv/secret/db/__ALL__` reads its manifest under `secret/db`. */
  lemma KeyPathExample()
    ensures KeyPath("./kv/secret/db/__ALL__") == "secret/db"
  {
    ExampleSpelling();
    ExampleConditions();
    KeyPathOfManifest("secret/db");
  }

  lemma ExampleSpelling()
    ensures KvBaseDir + "secret/db" + ManifestSuffix == "./kv/secret/db/__ALL__"
  {
  }

  lemma ExampleConditions()
    ensures !Contains("secret/db" + ManifestSuffix, KvBaseDir) && !Contains("secret/db", ManifestSuffix)
  {
    var d := "secret/db";
    assert '.' !in d + ManifestSuffix;
    MissingCharNotContains(d + ManifestSuffix, KvBaseDir, '.');
    assert '_' !in d;
    MissingCharNotContains(d, ManifestSuffix, '_');
  }

  /**
   * A single-key file named with `-k` keeps its file name in the logical
   * path, unlike the same file met in a directory walk.
   */
  lemma KeyPathOfKeyFile(rel: string)
    requires !Contains(rel, KvBaseDir) && !Contains(rel, ManifestName)
    ensures KeyPath(KvBaseDir + rel) == rel
  {
    ReplaceAllHead(rel, KvBaseDir, "");
    ReplaceAllAbsent(rel, KvBaseDir, "");
    assert "" + rel == rel;
  }

  /** Rewriting `-k` only removes text: the key path is never longer than the key file. */
  lemma KeyPathNoLonger(keyFile: string)
    ensures |KeyPath(keyFile)| <= |keyFile|
  {
    var p := ReplaceAll(keyFile, KvBaseDir, "");
    ReplaceAllShrinks(keyFile, KvBaseDir);
    ReplaceAllShrinks(p, ManifestSuffix);
  }

  /** What `run` accumulates: one key file when `-k` is given, the walk from `-K` or the base directory otherwise. */
  function CliParse(load: Loader, walk: string -> seq<WalkDir>, keyFile: Option<string>, keyDir: Option<string>): Parsed {
    if Given(keyFile) then Accumulate(Parsed([], Pass), KeyFileEntries(load, keyFile.value, KeyPath(keyFile.value)))
    else ParseAll(KeyFileReader(load), WalkCalls(walk(StartDir(keyDir, KvBaseDir)), KvBaseDir))
  }

  /** `-k` takes precedence: `-K` is ignored whenever a key file is given. */
  lemma KeyFileTakesPrecedence(load: Loader, walk: string -> seq<WalkDir>, keyFile: string, dir1: Option<string>, dir2: Option<string>)
    requires keyFile != ""
    ensures CliParse(load, walk, Some(keyFile), dir1) == CliParse(load, walk, Some(keyFile), dir2)
    ensures CliParse(load, walk, Some(keyFile), dir1).entries == KeyFileEntriesOrNone(load, keyFile)
  {
  }

  /** The entries one `-k` file yields, or none when it raises. */
  function KeyFileEntriesOrNone(load: Loader, keyFile: string): seq<Entry> {
    var r := KeyFileEntries(load, keyFile, KeyPath(keyFile));
    if r.Success? then r.value else []
  }

  /**
   * `-k ./kv/D/__ALL__` and a walk of `./kv/` whose only file is that
   * manifest accumulate the same keys.  The walk may pass through any number
   * of directories without files first (`./kv/` itself and those between it
   * and `./kv/D`).
   */
  lemma ManifestFileMatchesWalk(load: Loader, walk: string -> seq<WalkDir>, d: string, above: seq<WalkDir>)
    requires d != "" && !EndsWith(d, "/") && !StartsWith(d, "/")
    requires !Contains(d + ManifestSuffix, KvBaseDir) && !Contains(d, ManifestSuffix)
    requires forall i | 0 <= i < |above| :: above[i].files == []
    requires walk(KvBaseDir) == above + [WalkDir(KvBaseDir + d, [ManifestName])]
    ensures CliParse(load, walk, Some(KvBaseDir + d + ManifestSuffix), None) == CliParse(load, walk, None, None)
  {
    WalkCallsAppend(above, [WalkDir(KvBaseDir + d, [ManifestName])], KvBaseDir);
    WalkCallsOfEmptyDirs(above, KvBaseDir);
    assert WalkCalls(walk(KvBaseDir), KvBaseDir) == WalkCalls([WalkDir(KvBaseDir + d, [ManifestName])], KvBaseDir);
    ManifestFileMatchesOneDir(load, d);
  }

  /** `-k ./kv/D/__ALL__` and the walk of the one directory `./kv/D` holding it accumulate the same keys. */
  lemma ManifestFileMatchesOneDir(load: Loader, d: string)
    requires d != "" && !EndsWith(d, "/") && !StartsWith(d, "/")
    requires !Contains(d + ManifestSuffix, KvBaseDir) && !Contains(d, ManifestSuffix)
    ensures Accumulate(Parsed([], Pass), KeyFileEntries(load, KvBaseDir + d + ManifestSuffix, KeyPath(KvBaseDir + d + ManifestSuffix)))
      == ParseAll(KeyFileReader(load), WalkCalls([WalkDir(KvBaseDir + d, [ManifestName])], KvBaseDir))
  {
    var root := KvBaseDir + d;
    var file := KvBaseDir + d + ManifestSuffix;
    KeyPathOfManifest(d);
    PathJoinSpec(root, ManifestName);
    assert !StartsWith(ManifestName, "/");
    assert root[|root| - 1] == d[|d| - 1];
    assert !EndsWith(root, "/") by {
      assert root[|root| - 1..] == d[|d| - 1..];
    }
    assert PathJoin(root, ManifestName) == file;
    assert root[..|KvBaseDir|] == KvBaseDir;
    assert RemovePrefix(root, KvBaseDir) == d;
    WalkOfOneFile(root, ManifestName, KvBaseDir);
    ParseAllOne(KeyFileReader(load), KeyFileCall(file, d));
  }

  class CliRunner {
    var verbose: bool
    var dryRun: bool
    var keyFile: Option<string>
    var keyDir: Option<string>

    /** `__init__`: every setting starts off, then `parse_args` resolves them. */
    constructor (args: Arguments, env: Environment)
      ensures verbose <==> args.verbose || Truthy(env, "VERBOSE")
      ensures dryRun <==> args.dryRun || Truthy(env, "DRY_RUN")
      ensures keyFile == if Given(args.keyFile) then args.keyFile else None
      ensures keyDir == if Given(args.keyDir) then args.keyDir else None
    {
      verbose := false;
      dryRun := false;
      keyFile := None;
      keyDir := None;
      new;
      ParseArgs(args, env);
    }

    /** `parse_args` after `argparse`: a flag or a truthy variable switches a setting on; an option is taken only when given. */
    method ParseArgs(args: Arguments, env: Environment)
      modifies this
      ensures verbose == (old(verbose) || args.verbose || Truthy(env, "VERBOSE"))
      ensures dryRun == (old(dryRun) || args.dryRun || Truthy(env, "DRY_RUN"))
      ensures keyDir == if Given(args.keyDir) then args.keyDir else old(keyDir)
      ensures keyFile == if Given(args.keyFile) then args.keyFile else old(keyFile)
    {
      if args.verbose || ("VERBOSE" in env && env["VERBOSE"] != "") {
        verbose := true;
      }
      if args.dryRun || ("DRY_RUN" in env && env["DRY_RUN"] != "") {
        dryRun := true;
      }
      if args.keyDir.Some? && args.keyDir.value != "" {
        keyDir := args.keyDir;
      }
      if args.keyFile.Some? && args.keyFile.value != "" {
        keyFile := args.keyFile;
      }
    }

    /**
     * `run`: a dry run makes no store client and dumps the keys; otherwise a
     * client is made (which raises `Unauthorized` unless the store accepts
     * the credentials) and the keys are synced.  `-k` parses one key file
     * under its derived logical path, and only without it is the tree walked.
     */
    method Run(load: Loader, walk: string -> seq<WalkDir>, store: KvStore, authenticated: bool,
               encode: Option<Payload> -> string)
      returns (connected: bool, result: RunResult)
      modifies store
      ensures connected <==> !dryRun
      ensures connected && !authenticated ==> result == Aborted(Unauthorized)
      ensures (!connected || authenticated) && CliParse(load, walk, keyFile, keyDir).outcome.Fail? ==>
        result == Aborted(CliParse(load, walk, keyFile, keyDir).outcome.error)
      ensures !connected && CliParse(load, walk, keyFile, keyDir).outcome.Pass? ==>
        result == Dumped(DumpLines(CliParse(load, walk, keyFile, keyDir).entries, encode))
      ensures connected && authenticated && CliParse(load, walk, keyFile, keyDir).outcome.Pass? ==>
        store.data == Applied(old(store.data), store.accepts, CliParse(load, walk, keyFile, keyDir).entries) &&
        result == Synced(ApplyLog(old(store.data), store.accepts, CliParse(load, walk, keyFile, keyDir).entries))
      ensures !(connected && authenticated && CliParse(load, walk, keyFile, keyDir).outcome.Pass?) ==> store.data == old(store.data)
    {
      var vault: KvStore? := null;
      connected := false;
      if !dryRun {
        connected := true;
        if !authenticated {
          return connected, Aborted(Unauthorized);
        }
        vault := store;
      }
      var vtp := new VaultTreeParser(load, vault, KvBaseDir);
      var outcome: Outcome;
      if keyFile.Some? && keyFile.value != "" {
        var keyPath := ReplaceAll(keyFile.value, KvBaseDir, "");
        if Contains(keyPath, ManifestName) {
          keyPath := ReplaceAll(keyPath, ManifestSuffix, "");
        }
        outcome := vtp.ParseKeyFile(keyFile.value, keyPath);
      } else {
        outcome := vtp.ParseDirs(keyDir, walk);
      }
      ghost var p := CliParse(load, walk, keyFile, keyDir);
      assert vtp.keys == p.entries && outcome == p.outcome;
      if outcome.Fail? {
        return connected, Aborted(outcome.error);
      }
      if dryRun {
        var lines := vtp.DumpKeys(encode);
        result := Dumped(lines);
      } else {
        var log := vtp.ApplyKeys();
        result := Synced(log);
      }
    }
  }
}
