/** What one run of the tool reads from its environment, and how it ends. */
module Runs {
  import opened KeyData
  import opened Sync

  /** The process environment: `os.getenv(name)` is `env[name]` when `name` is set. */
  type Environment = map<string, string>

  /** `os.getenv(name)` is truthy: the variable is set and not empty. */
  predicate Truthy(env: Environment, name: string) {
    name in env && env[name] != ""
  }

  /** `KV_BASE_DIR`: where both entry points start the walk. */
  const KvBaseDir := "./kv/"

  /** A dry run prints lines, a real run logs one status per entry, and an exception ends either. */
  datatype RunResult = Dumped(lines: seq<string>) | Synced(log: seq<Status>) | Aborted(error: Error)
}
