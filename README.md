# vault-keys in Dafny

vault-keys copies a tree of encrypted key definitions into a HashiCorp Vault
key-value (version 2) store. A walk of the base directory `./kv/` finds the
files. A file whose path mentions `__ALL__` is a manifest: a list of records,
each with its own `path`. Any other file holds the key data of one key. Every
record becomes an entry of the parser's `keys` list. The entry's logical path
is the directory's path below the base directory, joined with the record's
`path` for manifest records. Its payload is the first of `value`, `token` or
the `tls.crt`/`tls.key` pair present in the record.

A real run splits each logical path at its first `/` into a mount and an
in-mount path. It reads the stored secret there and writes the payload unless
the stored value is already non-empty and equal to it. A dry run makes no
store client and prints one `name=json` line per entry.

This project models that core and proves properties of the model:

- the newer parser class `VaultTreeParser` of the package, with its command-line runner `CliRunner`;
- the older single-file script `vault_keys.py`, whose parser reads only files named exactly `__ALL__`;
- the requirements filter of `setup.py`.

The modules follow the program's structure:

| module | models |
|---|---|
| `Strings` | the Python `str` operations used: `startswith`, `endswith`, `in`, `replace`, `strip` (with `isspace`) |
| `Paths` | `remove_prefix`, POSIX `os.path.join`, and the `split('/')` / `pop(0)` / `'/'.join` mount split |
| `KeyData` | records, payloads, entries, errors, `read_key_data`, `read_all_keys` (textually identical in both parsers) and the dump line |
| `Walk` | `os.walk` as a given sequence of directories, the `parse_key_file` calls of a walk, and `self.keys` accumulated over them |
| `SecretStore` | the two store calls, over a map from (mount, path) to secret, with an abstract verdict on each write |
| `Sync` | the sync rule of `apply_keys` as functions of the store contents: the store after a run, the per-entry log, idempotence |
| `VaultParser` | the package's `VaultTreeParser` class |
| `VaultKeysScript` | the older script's `VaultTreeParser` class and its `main` |
| `Runs` | the environment, the base directory and the end of a run (dumped lines, a sync log, or the exception) |
| `CommandLine` | `CliRunner`: flag resolution, the `-k` key-path rewriting, and the dispatch of `run` |
| `Requirements` | `parse_requirements` of `setup.py`, over a sequence of lines |
| `Scenarios` | small concrete trees and stores, worked through the model |

Two behaviours of the code are easy to miss:

- The package's parser treats a file as a manifest when `__ALL__` occurs anywhere in its full path. It does not check the file name itself (`vault_keys/vault_parser.py:71`). Only the older script compares the file name (`vault_keys.py:117`).
- A single-key file named with `-k` keeps its file name in the logical path. The walk drops it (`KeyPathOfKeyFile`).

Other behaviour the model makes explicit:

- A record with no recognised field gives an entry without payload. Such an entry is never up to date in the store, so every run sends it again (`AbsentPayloadAlwaysWritten`).
- A manifest record without `path` raises `KeyError` (`MissingPath`).
- A file that loads as nothing raises `TypeError`.

## Model

| member | source | states |
|---|---|---|
| Paths.RemovePrefix | vault_keys/vault_parser.py:26-29 | when `text` starts with `prefix`, `prefix + r == text`; otherwise `r` is `text` unchanged (the copy at vault_keys.py:82-85 is identical) |
| KeyData.ReadKeyDataSpec | vault_keys/vault_parser.py:32-38 | `value` wins over everything; `token` only without `value`; `None` exactly when none of `value`, `token` or the TLS pair is present; the payload's fields are copied from the record (the copy at vault_keys.py:88-94 is identical) |
| KeyData.Fields | vault_keys/vault_parser.py:34-38 | every payload dictionary is non-empty, so a stored payload reads back truthy |
| KeyData.FieldsInjective | vault_keys/vault_parser.py:34-38 | distinct payloads are written as distinct dictionaries |
| Paths.PathJoinSpec | vault_keys/vault_parser.py:47 | `os.path.join(a, b)`: an absolute `b` replaces `a`; otherwise `a + b` when `a` is empty or ends in `/`, else `a + "/" + b`; the result always ends with `b` |
| KeyData.RecordEntriesShape | vault_keys/vault_parser.py:41-49 | a manifest of N records gives exactly N entries in record order, entry `i` keyed by `join(path, records[i].path)` with `read_key_data(records[i])`; it raises `KeyError` exactly when some record has no `path` |
| KeyData.RecordEntriesFailureSticks | vault_keys/vault_parser.py:46-47 | once some record has raised, the rest of the list does not change the result |
| KeyData.ReadAllKeys | vault_keys/vault_parser.py:41-49 | the loop over the loaded list yields exactly the manifest's entries; an unloadable file, a `None` document or a non-empty mapping raises (the copy at vault_keys.py:97-105 is identical) |
| KeyData.Accumulate | vault_keys/vault_parser.py:72-74 | `self.keys = self.keys + ...`: a successful read appends its entries, an exception keeps the old list and becomes the outcome, and after an exception nothing more is added |
| VaultParser.ReadOneKey | vault_keys/vault_parser.py:52-54 | exactly one entry, keyed by the directory's `path` and not by the file name; it raises exactly when the file does not load or loads as nothing; a mapping document gives the entry whose payload is `read_key_data` of that mapping; a list document gives an entry without payload |
| VaultParser.KeyFileEntries | vault_keys/vault_parser.py:69-74 | a file whose full path contains `__ALL__` anywhere is read as a manifest; any other file gives exactly what `read_one_key` gives, one entry keyed by `path` |
| VaultParser.VaultTreeParser.constructor | vault_keys/vault_parser.py:18-24 | the parser keeps its loader, store and base directory and starts with no keys |
| VaultParser.VaultTreeParser.ParseKeyFile | vault_keys/vault_parser.py:69-74 | the old `keys` is a prefix of the new one; the new `keys` and the outcome are those of accumulating the file's entries |
| Walk.StartDir | vault_keys/vault_parser.py:59-60 | a missing or empty `path` argument means the base directory |
| Walk.FileCallsMembers | vault_keys/vault_parser.py:65-66 | the calls for a directory are one per file, in file order: the i-th reads `join(root, files[i])` with the directory's logical path; so a call is made exactly for the files listed |
| Walk.WalkCallsMembers | vault_keys/vault_parser.py:62-66 | a call is made if and only if it reads some file `f` of some walked directory `d`, with logical path `remove_prefix(d.root, base_dir)`; a directory without files adds nothing |
| Walk.WalkCallsSound | vault_keys/vault_parser.py:62-66 | every call of the walk comes from a file of a walked directory |
| Walk.WalkCallsComplete | vault_keys/vault_parser.py:62-66 | every file of every walked directory is read |
| Walk.WalkOfOneFile | vault_keys/vault_parser.py:62-66 | a walk that finds one file in one directory makes exactly one call |
| Walk.WalkCallsAppend | vault_keys/vault_parser.py:62-66 | the calls of a walk are the calls of its directories, in walk order, so a walk split in two makes the calls of the first part and then of the second |
| Walk.WalkCallsOfEmptyDirs | vault_keys/vault_parser.py:62-66 | directories without files make no call |
| Walk.ParseAllFailureSticks | vault_keys/vault_parser.py:62-66 | after the first exception of a walk, later files add nothing |
| VaultParser.VaultTreeParser.ParseDirFiles | vault_keys/vault_parser.py:63-66 | the inner loop appends the entries of the directory's files, in order, to `keys`, and stops at the first exception |
| VaultParser.VaultTreeParser.ParseDirs | vault_keys/vault_parser.py:57-66 | `keys` grows only by appending, and ends as the old `keys` followed by the accumulation over every file of the walk, in walk order; the outcome is the first exception or success |
| VaultParser.SingleKeyFileEntry | vault_keys/vault_parser.py:52-74 | a walked directory holding one non-manifest file that loads to a mapping gives exactly one entry, keyed by the directory's logical path |
| SecretStore.KvStore.ReadSecretVersion | vault_keys/vault_parser.py:81-87 | returns the stored secret, or `None` exactly when the location is absent (`InvalidPath`) |
| SecretStore.KvStore.CreateOrUpdateSecret | vault_keys/vault_parser.py:95-102 | an accepted write stores the payload at the location and changes nothing else; a rejected one (`InvalidRequest`) changes nothing |
| VaultParser.VaultTreeParser.VaultReadSecret | vault_keys/vault_parser.py:77-89 | the stored secret at (mount, key), or `None` where the store raises `InvalidPath` |
| VaultParser.VaultTreeParser.VaultUpdateSecret | vault_keys/vault_parser.py:92-104 | the status is `Written` exactly when the store accepts; the store then holds the payload at (mount, key) and is otherwise unchanged; a rejection changes nothing |
| Paths.SplitMount | vault_keys/vault_parser.py:111-113 | the mount contains no `/`; with a `/` in `key_path`, `mount + "/" + rest == key_path`; without one, the mount is the whole path and the rest is `""` |
| Paths.SplitHead | vault_keys/vault_parser.py:111-113 | `split('/')` gives at least two pieces exactly when the path has a `/`, and the path is the first piece, `/`, and the rest joined back |
| Paths.JoinSplit | vault_keys/vault_parser.py:111-113 | `'/'.join(s.split('/')) == s` |
| Paths.SplitMountOf | vault_keys/vault_parser.py:111-113 | the split cuts at the first `/` and nowhere else |
| Paths.SplitMountJoin | vault_keys/vault_parser.py:47 | a record path joined onto a directory path lands under the directory's mount, with the record's path appended to the in-mount path |
| Sync.Step | vault_keys/vault_parser.py:115-120 | one entry: an accepted write puts the payload at the entry's location; a skipped or rejected entry leaves the store as it was; no other location changes |
| Sync.ApplyLogAt | vault_keys/vault_parser.py:109-120 | every entry is processed, whatever happened to earlier ones: entry `i` is judged against the store the first `i` entries left |
| Sync.AppliedFrame | vault_keys/vault_parser.py:109-120 | a location no entry names keeps its contents |
| Sync.AppliedAllCurrent | vault_keys/vault_parser.py:117-118 | entries whose stored value is already truthy and equal issue no write and change nothing |
| Sync.AppliedEstablishes | vault_keys/vault_parser.py:109-120 | when every write is accepted and no two entries disagree about a location, every entry is up to date after the run |
| Sync.ApplyIdempotent | vault_keys/vault_parser.py:115-120 | a second run over the store the first one left issues no write and changes nothing |
| Sync.ApplyTwiceWritesOnce | vault_keys/vault_parser.py:115-120 | applying one entry twice sends at most one write, and sends it exactly when the store did not already hold it |
| Sync.AbsentPayloadAlwaysWritten | vault_keys/vault_parser.py:117 | an entry without payload is never considered up to date, so a write is sent for it on every run |
| VaultParser.VaultTreeParser.ApplyKeys | vault_keys/vault_parser.py:107-120 | the store ends as the sync rule over `keys` prescribes, and the log holds one status per entry in order |
| VaultParser.VaultTreeParser.DumpKeys | vault_keys/vault_parser.py:123-127 | exactly one `name=json(payload)` line per entry, in `keys` order |
| KeyData.DumpLineDecodes | vault_keys/vault_parser.py:127 | with an injective JSON encoder and no `=` in logical paths, a dumped line determines its entry |
| VaultKeysScript.ManifestCallsMembers | vault_keys.py:116-118 | the older loop reads a directory's file exactly when it is named `__ALL__`, as `join(root, "__ALL__")` with the directory's logical path |
| VaultKeysScript.LegacyWalkCallsMembers | vault_keys.py:113-118 | the older walk reads a manifest if and only if some walked directory holds a file named `__ALL__`, and reads nothing else |
| VaultKeysScript.LegacyIgnoresKeyFiles | vault_keys.py:117 | a tree without files named `__ALL__` gives the older parser no calls and no entries |
| VaultKeysScript.LegacyCallsAreManifests | vault_keys.py:118 | every file the older walk reads has `__ALL__` in its path, so the newer dispatch would read it as a manifest too |
| VaultKeysScript.ManifestCallsAgree | vault_keys.py:116-118 | in a directory whose files are all `__ALL__`, both parsers make the same calls |
| VaultKeysScript.LegacyWalkCallsAgree | vault_keys.py:113-118 | over a tree whose files are all `__ALL__`, both walks make the same calls |
| VaultKeysScript.ReadersAgree | vault_keys.py:118 | on calls that all name a manifest, reading each as a manifest and the newer `parse_key_file` dispatch accumulate the same |
| VaultKeysScript.ParsersAgreeOnManifestTrees | vault_keys.py:108-118 | over a tree whose every file is `__ALL__`, the older and the newer parser accumulate the same keys and outcome |
| VaultKeysScript.ParsersDifferOnKeyFiles | vault_keys.py:117 | a directory holding one single-key file: the older parser reads nothing, the newer reads one entry keyed by the directory |
| VaultKeysScript.VaultTreeParser.constructor | vault_keys.py:74-80 | the older parser keeps its loader, store and base directory and starts with no keys |
| VaultKeysScript.VaultTreeParser.AddManifest | vault_keys.py:118 | `self.keys = self.keys + self.read_all_keys(...)`: the manifest's entries are appended, an exception leaves `keys` as it was |
| VaultKeysScript.VaultTreeParser.ParseDirManifests | vault_keys.py:114-118 | the inner loop appends the entries of the directory's `__ALL__` files, skips every other file, and stops at the first exception |
| VaultKeysScript.VaultTreeParser.ParseDirs | vault_keys.py:108-118 | `keys` grows only by concatenation and ends as the old `keys` followed by the manifests of the walk, in walk order; a falsy `path` means the base directory |
| VaultKeysScript.VaultTreeParser.ApplyKeys | vault_keys.py:121-150 | the inlined store calls give the same sync: `InvalidPath` reads as absent, an equal truthy value is skipped, a rejected write is logged and later entries are still processed |
| VaultKeysScript.VaultTreeParser.DumpKeys | vault_keys.py:153-157 | exactly one `name=json(payload)` line per entry, in `keys` order |
| VaultKeysScript.RunScript | vault_keys.py:162-197 | a client is made exactly when `DRY_RUN` is not truthy; a dry run dumps the keys parsed from `./kv/` and leaves the store alone; a real run raises `Unauthorized` before parsing when authentication fails, and otherwise syncs the keys into the store; a parse exception ends the run with the store unchanged |
| CommandLine.CliRunner.constructor | vault_keys/command_line.py:23-31 | every setting starts off; afterwards `verbose` holds exactly when `-v` is given or `VERBOSE` is truthy, `dry_run` likewise, and `key_file`/`key_dir` are set only when given |
| CommandLine.CliRunner.ParseArgs | vault_keys/command_line.py:67-75 | a flag or a truthy variable switches `verbose`/`dry_run` on and never off; `key_dir`/`key_file` change only when the option is given |
| CommandLine.DropBaseDir | vault_keys/command_line.py:98 | removing `./kv/` from a path that starts with it and has it nowhere else leaves the rest |
| CommandLine.DropManifestSuffix | vault_keys/command_line.py:100 | removing `/__ALL__` from a path that ends with it and has it nowhere else leaves the directory |
| CommandLine.KeyPathOfManifest | vault_keys/command_line.py:97-101 | `-k ./kv/D/__ALL__` is read under the logical path `D`, as the walk would give it |
| CommandLine.KeyPathExample | vault_keys/command_line.py:97-101 | `./kv/secret/db/__ALL__` becomes `secret/db` |
| CommandLine.KeyPathOfKeyFile | vault_keys/command_line.py:97-101 | a single-key file `-k ./kv/R` keeps its whole relative path `R`, file name included |
| CommandLine.KeyFileTakesPrecedence | vault_keys/command_line.py:97-103 | with `-k` given, `-K` has no influence, and the keys are those of the one key file |
| CommandLine.ManifestFileMatchesWalk | vault_keys/command_line.py:97-103 | `-k ./kv/D/__ALL__` accumulates the same keys as a walk of `./kv/` whose only file is that manifest, after any number of directories without files (`./kv/` and those above `./kv/D`) |
| CommandLine.ManifestFileMatchesOneDir | vault_keys/command_line.py:97-101 | `-k ./kv/D/__ALL__` accumulates the same keys as the walk of the single directory `./kv/D` holding it |
| CommandLine.KeyPathNoLonger | vault_keys/command_line.py:97-101 | the key path made from `-k` is never longer than the key file |
| CommandLine.CliRunner.Run | vault_keys/command_line.py:79-108 | a client is made exactly when `dry_run` is off; `-k` parses one file under its rewritten key path, otherwise the tree from `-K` or `./kv/` is walked; a dry run dumps, a real run raises `Unauthorized` when authentication fails and otherwise syncs; a parse exception ends the run and the store is changed only by a completed sync |
| Strings.ReplaceAllShrinks | vault_keys/command_line.py:98 | removing every occurrence of a pattern never lengthens a string |
| Strings.ReplaceAllSkips | vault_keys/command_line.py:98-100 | `str.replace` copies unchanged a prefix where no occurrence starts |
| Strings.ReplaceAllAbsent | vault_keys/command_line.py:98-100 | `str.replace` leaves a string without the pattern unchanged |
| Strings.ReplaceAllHead | vault_keys/command_line.py:98-100 | an occurrence at the front is replaced and the scan resumes after it |
| Strings.TrimLeftSpec | setup.py:6 | `lstrip` cuts only leading whitespace and keeps a suffix that does not start with whitespace |
| Strings.TrimRightSpec | setup.py:6 | `rstrip` cuts only trailing whitespace and keeps a prefix that does not end with whitespace |
| Strings.StripSpec | setup.py:6 | `strip` gives a slice of the line with only whitespace cut on either side, neither starting nor ending with whitespace |
| Requirements.ParseRequirementsAppend | setup.py:6-7 | the filter works line by line: the requirements of two parts of a file are those of the parts, in order |
| Requirements.RequirementsWellFormed | setup.py:7 | never more requirements than lines; each is non-empty, not a comment, and has no whitespace at either end |
| Requirements.KeptIndicesSpec | setup.py:7 | the kept positions are exactly the lines whose stripped form is non-empty and not a comment, in increasing order |
| Requirements.RequirementsAtKept | setup.py:6-7 | the `k`-th requirement is the stripped `k`-th kept line |
| Requirements.RequirementsInOrder | setup.py:6-7 | each requirement is the stripped form of a kept input line, in strictly increasing input order, and every kept line appears |
| Requirements.AllKeptIff | setup.py:7 | the output is as long as the input if and only if every line is kept |
| Scenarios.ManifestTree | vault_keys/vault_parser.py:41-74 | `./kv/secret/db/__ALL__` with records `user=alice` and `pass=s3cr3t` gives the entries `secret/db/user` and `secret/db/pass`, in that order |
| Scenarios.SingleKeyTree | vault_keys/vault_parser.py:52-74 | `./kv/secret/api/token` holding a token gives the one entry `secret/api` |
| Scenarios.AlreadyStored | vault_keys/vault_parser.py:115-118 | a store already holding `{"value": "alice"}` at `secret`, `db/user` gets no write for `secret/db/user` |
| Scenarios.RejectedWriteContinues | vault_keys/vault_parser.py:101-120 | a rejected write is logged and the next entry is still written |

## Left out

- Ansible Vault decryption and YAML loading: the loader is an abstract function from file to document, or `None` for a failed decryption of one file.
- The passphrase and the crypter: both parsers build the crypter before the client and before reading any file (`vault_keys.py:53-54`, `vault_keys.py:181-182`, `vault_keys/command_line.py:84-85`). The model does not have this step. A missing or unreadable passphrase file therefore aborts a real run even on an empty tree and before authentication, and the model does not capture that abort.
- Non-string YAML scalars: records are maps from string to string. The field values are passed through `str()`. The manifest's `path` is not (`vault_keys/vault_parser.py:46`), so a non-string `path` raises `TypeError` in `os.path.join`. The model does not capture that error.
- The hvac client, its construction, TLS and authentication: authentication is a boolean parameter, and the store is a map from (mount, path) to secret.
- Remote failures other than `InvalidPath` on read and `InvalidRequest` on write: these would propagate as exceptions and are not modelled.
- SecretStore.Body: a write of a `None` payload is stored as an empty secret. The store would hold a null body, which reads back just as falsy.
- `os.walk` and the filesystem: a walk is a given function from start directory to directories with their files, in walk order. The `dirs` part and the order `os.walk` chooses are not modelled.
- Logging, the logger configuration, `CustomLogger` and the effect of `verbose`: the log of a sync is a sequence of per-entry statuses, and messages are not modelled.
- The exact text of `json.dumps`: the encoder is an abstract function, assumed injective where a round trip is stated.
- argparse, `--version`, the `infile` argument and reading `argv`: `CliRunner` receives the parsed options as a value.
- `setup()` and reading `requirements.txt`/`README.md`: `parse_requirements` works on the file's lines, already split.
- CommandLine.KeyPathOfManifest, CommandLine.KeyPathOfKeyFile CommandLine.ManifestFileMatchesWalk and CommandLine.ManifestFileMatchesOneDir state the key path only for paths with `./kv/` once at the front and no other `__ALL__`/`/__ALL__`. The general behaviour is `KeyPath`, two left-to-right `str.replace` passes.
