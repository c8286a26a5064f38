/**
 * The key-value store behind the hvac client, reduced to the two calls the
 * tool makes: read the current version of a secret, and create or update one.
 */
module SecretStore {
  import opened Optional
  import opened KeyData

  /** A mount point and a path inside it. */
  type Location = (string, string)

  /** The `data` dictionary of a stored secret version. */
  type Secret = map<string, string>

  /** The secret at a location; an absent location is what the store reports as `InvalidPath`. */
  function Lookup(data: map<Location, Secret>, loc: Location): Option<Secret> {
    if loc in data then Some(data[loc]) else None
  }

  /**
   * What an accepted write stores.  A `None` payload is sent as a null body;
   * the model stores it as an empty secret, which reads back as falsy just as
   * a null one would.
   */
  function Body(v: Option<Payload>): Secret {
    if v.Some? then Fields(v.value) else map[]
  }

  /** The store's verdict on a write; `false` is `InvalidRequest`. */
  type Verdict = (Location, Option<Payload>) -> bool

  class KvStore {
    var data: map<Location, Secret>
    const accepts: Verdict

    constructor (initial: map<Location, Secret>, accepts: Verdict)
      ensures data == initial && this.accepts == accepts
    {
      data := initial;
      this.accepts := accepts;
    }

    /** `secrets.kv.v2.read_secret_version`; `None` is a raised `InvalidPath`. */
    method ReadSecretVersion(mountPoint: string, path: string) returns (r: Option<Secret>)
      ensures r.Some? <==> (mountPoint, path) in data
      ensures r.Some? ==> r.value == data[(mountPoint, path)]
    {
      r := Lookup(data, (mountPoint, path));
    }

    /** `secrets.kv.v2.create_or_update_secret`; `false` is a raised `InvalidRequest`, which changes nothing. */
    method CreateOrUpdateSecret(path: string, secret: Option<Payload>, mountPoint: string) returns (accepted: bool)
      modifies this
      ensures accepted == accepts((mountPoint, path), secret)
      ensures data == if accepted then old(data)[(mountPoint, path) := Body(secret)] else old(data)
    {
      accepted := accepts((mountPoint, path), secret);
      if accepted {
        data := data[(mountPoint, path) := Body(secret)];
      }
    }
  }
}
