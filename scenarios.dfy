/**
 * Concrete runs of the newer parser and of the sync rule on small key trees,
 * below the base directory `./kv/`.
 */
module Scenarios {
  import opened Optional
  import opened Strings
  import opened Paths
  import opened KeyData
  import opened Walk
  import opened SecretStore
  import opened Sync
  import opened Runs
  import opened VaultParser

  /** A relative name joined onto a directory path that does not end in `/`. */
  lemma JoinPlain(a: string, f: string)
    requires a != "" && a[|a| - 1] != '/' && f != "" && f[0] != '/'
    ensures PathJoin(a, f) == a + "/" + f
  {
    assert a[|a| - 1..] == [a[|a| - 1]];
    assert f[..1] == [f[0]];
    PathJoinSpec(a, f);
  }

  /** A directory below the base directory, and a relative file name joined onto it. */
  lemma UnderBase(d: string, f: string)
    requires d != "" && d[|d| - 1] != '/' && f != "" && f[0] != '/'
    ensures RemovePrefix(KvBaseDir + d, KvBaseDir) == d
    ensures PathJoin(KvBaseDir + d, f) == KvBaseDir + d + "/" + f
  {
    var root := KvBaseDir + d;
    assert root[..|KvBaseDir|] == KvBaseDir && root[|KvBaseDir|..] == d;
    JoinPlain(root, f);
  }

  /** Where the walk finds the manifest of `secret/db`, and what it calls with. */
  lemma ManifestFileOfDb()
    ensures PathJoin("./kv/secret/db", ManifestName) == "./kv/secret/db/__ALL__"
    ensures RemovePrefix("./kv/secret/db", KvBaseDir) == "secret/db"
    ensures Contains("./kv/secret/db/__ALL__", ManifestName)
  {
    var d := "secret/db";
    assert KvBaseDir + d == "./kv/secret/db" && KvBaseDir + d + "/" + ManifestName == "./kv/secret/db/__ALL__";
    UnderBase(d, ManifestName);
    var file := "./kv/secret/db/__ALL__";
    assert file[|file| - |ManifestName|..] == ManifestName;
    EndsWithContains(file, ManifestName);
  }

  /** The entry of the `user` record of the `secret/db` manifest. */
  lemma UserRecordOfDb()
    ensures RecordEntry(map["path" := "user", "value" := "alice"], "secret/db") == Entry("secret/db/user", Some(Value("alice")))
  {
    JoinPlain("secret/db", "user");
    assert "secret/db" + "/" + "user" == "secret/db/user";
  }

  /** The entry of the `pass` record of the `secret/db` manifest. */
  lemma PassRecordOfDb()
    ensures RecordEntry(map["path" := "pass", "value" := "s3cr3t"], "secret/db") == Entry("secret/db/pass", Some(Value("s3cr3t")))
  {
    JoinPlain("secret/db", "pass");
    assert "secret/db" + "/" + "pass" == "secret/db/pass";
  }

  /** The two records of the `secret/db` manifest give their entries in order. */
  lemma RecordsOfDb()
    ensures RecordEntries([map["path" := "user", "value" := "alice"], map["path" := "pass", "value" := "s3cr3t"]], "secret/db")
      == Success([Entry("secret/db/user", Some(Value("alice"))), Entry("secret/db/pass", Some(Value("s3cr3t")))])
  {
    var r1, r2 := map["path" := "user", "value" := "alice"], map["path" := "pass", "value" := "s3cr3t"];
    UserRecordOfDb();
    PassRecordOfDb();
    var d := "secret/db";
    assert "path" in r1 && "path" in r2;
    RecordEntriesShape([r1, r2], d);
    var es := RecordEntries([r1, r2], d);
    assert es.Success?;
    assert es.value[0] == RecordEntry(r1, d);
    assert es.value[1] == RecordEntry(r2, d);
    assert es.value == [RecordEntry(r1, d), RecordEntry(r2, d)];
  }

  /**
   * `./kv/secret/db/__ALL__` listing `user` and `pass` gives two entries,
   * `secret/db/user` and `secret/db/pass`, in record order.
   */
  lemma ManifestTree(load: Loader)
    requires load("./kv/secret/db/__ALL__") == Some(Sequence([
      map["path" := "user", "value" := "alice"],
      map["path" := "pass", "value" := "s3cr3t"]]))
    ensures ParseAll(KeyFileReader(load), WalkCalls([WalkDir("./kv/secret/db", ["__ALL__"])], KvBaseDir))
      == Parsed([Entry("secret/db/user", Some(Value("alice"))), Entry("secret/db/pass", Some(Value("s3cr3t")))], Pass)
  {
    ManifestFileOfDb();
    WalkOfOneFile("./kv/secret/db", ManifestName, KvBaseDir);
    ParseAllOne(KeyFileReader(load), KeyFileCall("./kv/secret/db/__ALL__", "secret/db"));
    RecordsOfDb();
  }

  /** Where the walk finds the key file `token` of `secret/api`, and what it calls with. */
  lemma KeyFileOfApi()
    ensures PathJoin("./kv/secret/api", "token") == "./kv/secret/api/token"
    ensures RemovePrefix("./kv/secret/api", KvBaseDir) == "secret/api"
    ensures !Contains("./kv/secret/api/token", ManifestName)
  {
    var d := "secret/api";
    assert KvBaseDir + d == "./kv/secret/api" && KvBaseDir + d + "/" + "token" == "./kv/secret/api/token";
    UnderBase(d, "token");
    assert '_' !in "./kv/secret/api/token";
    MissingCharNotContains("./kv/secret/api/token", ManifestName, '_');
  }

  /**
   * `./kv/secret/api/token` holding only a token gives one entry keyed by its
   * directory, `secret/api`; the file name is dropped.
   */
  lemma SingleKeyTree(load: Loader)
    requires load("./kv/secret/api/token") == Some(Mapping(map["token" := "tok123"]))
    ensures ParseAll(KeyFileReader(load), WalkCalls([WalkDir("./kv/secret/api", ["token"])], KvBaseDir))
      == Parsed([Entry("secret/api", Some(Token("tok123")))], Pass)
  {
    KeyFileOfApi();
    SingleKeyFileEntry(load, "./kv/secret/api", "token", KvBaseDir, map["token" := "tok123"]);
  }

  /** `secret/db/user` is stored at mount `secret`, path `db/user`. */
  lemma UserLocation()
    ensures SplitMount("secret/db/user") == ("secret", "db/user")
  {
    assert "secret" + "/" + "db/user" == "secret/db/user";
    SplitMountOf("secret", "db/user");
  }

  /** `secret/bad` is stored at mount `secret`, path `bad`. */
  lemma BadLocation()
    ensures SplitMount("secret/bad") == ("secret", "bad")
  {
    assert "secret" + "/" + "bad" == "secret/bad";
    SplitMountOf("secret", "bad");
  }

  /** `secret/good` is stored at mount `secret`, path `good`. */
  lemma GoodLocation()
    ensures SplitMount("secret/good") == ("secret", "good")
  {
    assert "secret" + "/" + "good" == "secret/good";
    SplitMountOf("secret", "good");
  }

  /** What an accepted write of a `value` payload stores. */
  lemma ValueBody(v: string)
    ensures Body(Some(Value(v))) == map["value" := v]
  {
  }

  /** One entry whose location already holds its payload: no write, no change. */
  lemma OneUpToDate(data: map<Location, Secret>, accepts: Verdict, e: Entry)
    requires UpToDate(Lookup(data, LocationOf(e)), e.payload)
    ensures ApplyLog(data, accepts, [e]) == [AlreadyExists]
    ensures Applied(data, accepts, [e]) == data
  {
    assert [e][..0] == [];
  }

  /** `{"value": "alice"}` at `secret`, `db/user` is what `secret/db/user` would write. */
  lemma UserUpToDate(data: map<Location, Secret>)
    requires ("secret", "db/user") in data && data[("secret", "db/user")] == map["value" := "alice"]
    ensures UpToDate(Lookup(data, LocationOf(Entry("secret/db/user", Some(Value("alice"))))), Some(Value("alice")))
  {
    UserLocation();
    ValueBody("alice");
    assert "value" in data[("secret", "db/user")];
  }

  /** A store that already holds `{"value": "alice"}` at `secret`, `db/user` gets no write. */
  lemma AlreadyStored(data: map<Location, Secret>, accepts: Verdict)
    requires ("secret", "db/user") in data && data[("secret", "db/user")] == map["value" := "alice"]
    ensures ApplyLog(data, accepts, [Entry("secret/db/user", Some(Value("alice")))]) == [AlreadyExists]
    ensures Applied(data, accepts, [Entry("secret/db/user", Some(Value("alice")))]) == data
  {
    UserUpToDate(data);
    OneUpToDate(data, accepts, Entry("secret/db/user", Some(Value("alice"))));
  }

  /** The write of `secret/bad` is rejected and leaves the empty store empty. */
  lemma BadRejected(accepts: Verdict)
    requires !accepts(("secret", "bad"), Some(Value("x")))
    ensures StepStatus(map[], accepts, Entry("secret/bad", Some(Value("x")))) == Rejected
    ensures Step(map[], accepts, Entry("secret/bad", Some(Value("x")))) == map[]
  {
    BadLocation();
  }

  /** The write of `secret/good` into the empty store is accepted. */
  lemma GoodWritten(accepts: Verdict)
    requires accepts(("secret", "good"), Some(Value("y")))
    ensures StepStatus(map[], accepts, Entry("secret/good", Some(Value("y")))) == Written
  {
    GoodLocation();
  }

  /** Two entries into the empty store, the first rejected and the second accepted. */
  lemma RejectedThenWritten(accepts: Verdict, e1: Entry, e2: Entry)
    requires StepStatus(map[], accepts, e1) == Rejected && StepStatus(map[], accepts, e2) == Written
    ensures ApplyLog(map[], accepts, [e1, e2]) == [Rejected, Written]
    ensures Applied(map[], accepts, [e1, e2]) == map[LocationOf(e2) := Body(e2.payload)]
  {
    var es := [e1, e2];
    assert es[..1] == [e1] && [e1][..0] == [];
    assert Applied(map[], accepts, [e1]) == map[];
  }

  /**
   * A rejected first write is logged and the second entry is still written:
   * the store ends with only the second payload.
   */
  lemma RejectedWriteContinues(accepts: Verdict)
    requires !accepts(("secret", "bad"), Some(Value("x")))
    requires accepts(("secret", "good"), Some(Value("y")))
    ensures var es := [Entry("secret/bad", Some(Value("x"))), Entry("secret/good", Some(Value("y")))];
      ApplyLog(map[], accepts, es) == [Rejected, Written] &&
      Applied(map[], accepts, es) == map[("secret", "good") := map["value" := "y"]]
  {
    var e1, e2 := Entry("secret/bad", Some(Value("x"))), Entry("secret/good", Some(Value("y")));
    BadRejected(accepts);
    GoodWritten(accepts);
    RejectedThenWritten(accepts, e1, e2);
    GoodLocation();
    ValueBody("y");
  }
}
