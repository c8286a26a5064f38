/**
 * Key definitions: the records a decrypted file holds, the payload read from
 * each record, the entries the tree parser accumulates and the manifest
 * reading.  Everything here is shared by both versions of the parser.
 */
module KeyData {
  import opened Optional
  import opened Strings
  import opened Paths

  /**
   * A decrypted YAML mapping.  The loader is abstract, and its scalars are
   * taken in the form `str()` gives them.
   */
  type Record = map<string, string>

  /** The three shapes of key data, one field set each. */
  datatype Payload = Value(value: string) | Token(token: string) | Tls(crt: string, key: string)

  /** The dictionary `read_key_data` builds for a payload; this is what is written to the store. */
  function Fields(p: Payload): (m: map<string, string>)
    ensures m != map[]
  {
    match p
    case Value(v) => var m := map["value" := v]; assert "value" in m; m
    case Token(t) => var m := map["token" := t]; assert "token" in m; m
    case Tls(crt, key) => var m := map["tls.crt" := crt, "tls.key" := key]; assert "tls.crt" in m; m
  }

  /** Distinct payloads are written as distinct dictionaries. */
  lemma FieldsInjective(p: Payload, q: Payload)
    requires Fields(p) == Fields(q)
    ensures p == q
  {
    match p
    case Value(_) => assert "value" in Fields(q);
    case Token(_) => assert "token" in Fields(q);
    case Tls(_, _) =>
      assert "tls.crt" in Fields(q);
      assert Fields(p)["tls.crt"] == Fields(q)["tls.crt"];
      assert Fields(p)["tls.key"] == Fields(q)["tls.key"];
  }

  /** `read_key_data` */
  function ReadKeyData(key: Record): Option<Payload> {
    if "value" in key then Some(Value(key["value"]))
    else if "token" in key then Some(Token(key["token"]))
    else if "tls.key" in key && "tls.crt" in key then Some(Tls(key["tls.crt"], key["tls.key"]))
    else None
  }

  /**
   * The first of `value`, `token`, or the pair `tls.crt` and `tls.key` that
   * the record has decides the payload, and the payload's fields are copied
   * from the record; a record with none of them gives `None`.
   */
  lemma ReadKeyDataSpec(key: Record)
    ensures var r := ReadKeyData(key);
      r.Some? ==> forall f | f in Fields(r.value) :: f in key && key[f] == Fields(r.value)[f]
    ensures ReadKeyData(key).None? <==> "value" !in key && "token" !in key && !("tls.crt" in key && "tls.key" in key)
    ensures "value" in key ==> ReadKeyData(key) == Some(Value(key["value"]))
    ensures "value" !in key && "token" in key ==> ReadKeyData(key) == Some(Token(key["token"]))
  {
  }

  /** What `yaml_load` returns for a file: nothing, one mapping, or a list of mappings. */
  datatype Document = Null | Mapping(record: Record) | Sequence(records: seq<Record>)

  /** Decrypting and loading one file; `None` stands for a failed decryption or parse. */
  type Loader = string -> Option<Document>

  /** One single-key dictionary of `self.keys`: a logical path and its payload. */
  datatype Entry = Entry(name: string, payload: Option<Payload>)

  /** The exceptions that end a run. */
  datatype Error = LoadError(file: string) | MissingPath | TypeError | Unauthorized

  datatype Result<T> = Success(value: T) | Failure(error: Error)

  datatype Outcome = Pass | Fail(error: Error)

  /** The entries accumulated so far, and whether an exception stopped the accumulation. */
  datatype Parsed = Parsed(entries: seq<Entry>, outcome: Outcome)

  /** `self.keys = self.keys + ...` for one more file, unless an earlier file already failed. */
  function Accumulate(prior: Parsed, r: Result<seq<Entry>>): (p: Parsed)
    ensures prior.outcome.Fail? ==> p == prior
    ensures prior.entries <= p.entries
    ensures prior.outcome.Pass? && r.Success? ==> p == Parsed(prior.entries + r.value, Pass)
    ensures prior.outcome.Pass? && r.Failure? ==> p == Parsed(prior.entries, Fail(r.error))
  {
    if prior.outcome.Fail? then prior
    else match r
      case Success(es) => Parsed(prior.entries + es, Pass)
      case Failure(e) => Parsed(prior.entries, Fail(e))
  }

  /** The reserved name of a manifest file. */
  const ManifestName := "__ALL__"

  /** The entry of one manifest record: its `path` joined onto the directory's logical path. */
  function RecordEntry(key: Record, path: string): Entry
    requires "path" in key
  {
    Entry(PathJoin(path, key["path"]), ReadKeyData(key))
  }

  /** The loop of `read_all_keys` over a list of records, as a function; a record without `path` raises `KeyError` (`MissingPath`). */
  function RecordEntries(records: seq<Record>, path: string): Result<seq<Entry>> {
    if records == [] then Success([])
    else
      var prior := RecordEntries(records[..|records| - 1], path);
      var last := records[|records| - 1];
      if prior.Failure? then prior
      else if "path" in last then Success(prior.value + [RecordEntry(last, path)])
      else Failure(MissingPath)
  }

  /** Once a prefix of the records raised, so does the whole list. */
  lemma {:induction false} RecordEntriesFailureSticks(records: seq<Record>, n: nat, path: string)
    requires n <= |records| && RecordEntries(records[..n], path).Failure?
    ensures RecordEntries(records, path) == RecordEntries(records[..n], path)
    decreases |records| - n
  {
    if n < |records| {
      var m := |records| - 1;
      assert records[..m][..n] == records[..n];
      RecordEntriesFailureSticks(records[..m], n, path);
    } else {
      assert records[..n] == records;
    }
  }

  /**
   * A manifest of N records gives exactly N entries, in record order, each
   * keyed by the directory path joined with the record's `path`; it raises
   * `KeyError` exactly when some record has no `path`.
   */
  lemma RecordEntriesShape(records: seq<Record>, path: string)
    ensures RecordEntries(records, path).Success? <==> forall i | 0 <= i < |records| :: "path" in records[i]
    ensures RecordEntries(records, path).Failure? ==> RecordEntries(records, path).error == MissingPath
    ensures RecordEntries(records, path).Success? ==>
      |RecordEntries(records, path).value| == |records| &&
      forall i | 0 <= i < |records| ::
        RecordEntries(records, path).value[i] == Entry(PathJoin(path, records[i]["path"]), ReadKeyData(records[i]))
  {
    RecordEntriesFails(records, path);
    if RecordEntries(records, path).Success? {
      RecordEntriesValues(records, path);
    }
  }

  lemma {:induction false} RecordEntriesFails(records: seq<Record>, path: string)
    ensures RecordEntries(records, path).Success? <==> forall i | 0 <= i < |records| :: "path" in records[i]
    ensures RecordEntries(records, path).Failure? ==> RecordEntries(records, path).error == MissingPath
  {
    if records != [] {
      var init := records[..|records| - 1];
      RecordEntriesFails(init, path);
      assert forall i | 0 <= i < |init| :: init[i] == records[i];
    }
  }

  lemma {:induction false} RecordEntriesValues(records: seq<Record>, path: string)
    requires RecordEntries(records, path).Success?
    ensures |RecordEntries(records, path).value| == |records|
    ensures forall i | 0 <= i < |records| ::
      "path" in records[i] && RecordEntries(records, path).value[i] == RecordEntry(records[i], path)
  {
    if records != [] {
      var init, last := records[..|records| - 1], records[|records| - 1];
      RecordEntriesValues(init, path);
      var es := RecordEntries(init, path).value;
      assert RecordEntries(records, path).value == es + [RecordEntry(last, path)];
      forall i | 0 <= i < |records|
        ensures "path" in records[i] && RecordEntries(records, path).value[i] == RecordEntry(records[i], path)
      {
        if i < |init| {
          assert records[i] == init[i];
        }
      }
    }
  }

  /** `read_all_keys` on a loaded document: iterating `None` or a non-empty mapping raises `TypeError`. */
  function ManifestEntries(doc: Document, path: string): Result<seq<Entry>> {
    match doc
    case Null => Failure(TypeError)
    case Mapping(m) => if m == map[] then Success([]) else Failure(TypeError)
    case Sequence(records) => RecordEntries(records, path)
  }

  /** `read_all_keys(crypter, keys_file, path)` as a function of the loader. */
  function ManifestFileEntries(load: Loader, keysFile: string, path: string): Result<seq<Entry>> {
    match load(keysFile)
    case None => Failure(LoadError(keysFile))
    case Some(doc) => ManifestEntries(doc, path)
  }

  /** `read_all_keys`: load the manifest and append one entry per record to a local list. */
  method ReadAllKeys(load: Loader, keysFile: string, path: string) returns (r: Result<seq<Entry>>)
    ensures r == ManifestFileEntries(load, keysFile, path)
  {
    var loaded := load(keysFile);
    if loaded.None? {
      return Failure(LoadError(keysFile));
    }
    match loaded.value
    case Null =>
      r := Failure(TypeError);
    case Mapping(m) =>
      r := if m == map[] then Success([]) else Failure(TypeError);
    case Sequence(records) =>
      var keys: seq<Entry> := [];
      var i := 0;
      while i < |records|
        invariant 0 <= i <= |records|
        invariant RecordEntries(records[..i], path) == Success(keys)
      {
        var key := records[i];
        assert records[..i + 1][..i] == records[..i];
        if "path" !in key {
          RecordEntriesFailureSticks(records, i + 1, path);
          return Failure(MissingPath);
        }
        keys := keys + [Entry(PathJoin(path, key["path"]), ReadKeyData(key))];
        i := i + 1;
      }
      assert records[..i] == records;
      r := Success(keys);
  }

  /** One line of `dump_keys`: `name=json(payload)`, for an abstract JSON encoder. */
  function DumpLine(e: Entry, encode: Option<Payload> -> string): string {
    e.name + "=" + encode(e.payload)
  }

  /** The whole output of `dump_keys`. */
  function DumpLines(es: seq<Entry>, encode: Option<Payload> -> string): seq<string> {
    seq(|es|, i requires 0 <= i < |es| => DumpLine(es[i], encode))
  }

  ghost predicate Injective(encode: Option<Payload> -> string) {
    forall a, b :: encode(a) == encode(b) ==> a == b
  }

  /**
   * With an injective encoder, a dumped line gives back the entry it came from,
   * as long as the entry's path has no `=` in it.
   */
  lemma DumpLineDecodes(e1: Entry, e2: Entry, encode: Option<Payload> -> string)
    requires Injective(encode) && '=' !in e1.name && '=' !in e2.name
    requires DumpLine(e1, encode) == DumpLine(e2, encode)
    ensures e1 == e2
  {
    FirstSeparatorUnique(e1.name, encode(e1.payload), e2.name, encode(e2.payload), '=');
  }
}
