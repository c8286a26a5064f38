/** Path manipulation used by the tree parser: prefix removal, `os.path.join`, and the mount split. */
module Paths {
  import opened Strings

  /** `VaultTreeParser.remove_prefix`: drop `prefix` from the front of `text` when it is there. */
  function RemovePrefix(text: string, prefix: string): (r: string)
    ensures StartsWith(text, prefix) ==> prefix + r == text
    ensures !StartsWith(text, prefix) ==> r == text
  {
    if StartsWith(text, prefix) then text[|prefix|..] else text
  }

  /** `os.path.join(a, b)` on POSIX. */
  function PathJoin(a: string, b: string): string {
    if StartsWith(b, "/") then b
    else if a == "" || EndsWith(a, "/") then a + b
    else a + "/" + b
  }

  /**
   * An absolute `b` replaces `a`; otherwise `b` is appended, with a `/` in
   * between unless `a` is empty or already ends in one.  Either way the
   * result ends with `b`.
   */
  lemma PathJoinSpec(a: string, b: string)
    ensures EndsWith(PathJoin(a, b), b)
    ensures StartsWith(b, "/") ==> PathJoin(a, b) == b
    ensures !StartsWith(b, "/") ==> StartsWith(PathJoin(a, b), a)
    ensures !StartsWith(b, "/") && (a == "" || EndsWith(a, "/")) ==> PathJoin(a, b) == a + b
    ensures !StartsWith(b, "/") && a != "" && !EndsWith(a, "/") ==> PathJoin(a, b) == a + "/" + b
  {
    var r := PathJoin(a, b);
    if !StartsWith(b, "/") {
      assert r[..|a|] == a;
    }
    assert r[|r| - |b|..] == b;
  }

  /** `s.split(sep)`: the pieces between separators, at least one. */
  function SplitOn(s: string, sep: char): (parts: seq<string>)
    ensures |parts| >= 1
  {
    if s == [] then [[]]
    else
      var rest := SplitOn(s[1..], sep);
      if s[0] == sep then [[]] + rest
      else [[s[0]] + rest[0]] + rest[1..]
  }

  /** `sep.join(parts)` */
  function JoinWith(parts: seq<string>, sep: char): string {
    if parts == [] then []
    else if |parts| == 1 then parts[0]
    else parts[0] + [sep] + JoinWith(parts[1..], sep)
  }

  /**
   * The first piece of a split carries no separator; a string without the
   * separator splits into itself alone; a string with one is the first piece,
   * the separator, and the rest joined back.
   */
  lemma {:induction false} SplitHead(s: string, sep: char)
    ensures sep !in SplitOn(s, sep)[0]
    ensures sep !in s ==> SplitOn(s, sep) == [s]
    ensures sep in s ==> |SplitOn(s, sep)| >= 2
    ensures sep in s ==> s == SplitOn(s, sep)[0] + [sep] + JoinWith(SplitOn(s, sep)[1..], sep)
  {
    if s != [] {
      var rest := SplitOn(s[1..], sep);
      SplitHead(s[1..], sep);
      JoinSplit(s[1..], sep);
      if s[0] == sep {
        assert SplitOn(s, sep)[1..] == rest;
        assert s == [] + [sep] + s[1..];
      } else {
        assert s == [s[0]] + s[1..];
        if sep in s[1..] {
          assert SplitOn(s, sep)[1..] == rest[1..];
        } else {
          assert sep !in s;
        }
      }
    }
  }

  /** Joining the pieces of a split gives the original string back. */
  lemma {:induction false} JoinSplit(s: string, sep: char)
    ensures JoinWith(SplitOn(s, sep), sep) == s
  {
    if s != [] {
      var rest := SplitOn(s[1..], sep);
      JoinSplit(s[1..], sep);
      if s[0] == sep {
        assert [[]] + rest == [[]] + rest;
        assert s == [] + [sep] + s[1..];
      } else {
        var parts := [[s[0]] + rest[0]] + rest[1..];
        assert parts[1..] == rest[1..];
        if |rest| == 1 {
          assert s == [s[0]] + rest[0];
        } else {
          assert JoinWith(rest, sep) == rest[0] + [sep] + JoinWith(rest[1..], sep);
          assert s == [s[0]] + s[1..];
        }
      }
    }
  }

  /**
   * The split in `apply_keys`: `key_path.split('/')`, the first piece popped
   * off as the mount, and the rest joined back with `/` as the in-mount path.
   */
  function SplitMount(keyPath: string): (r: (string, string))
    ensures '/' !in r.0
    ensures '/' in keyPath ==> r.0 + "/" + r.1 == keyPath
    ensures '/' !in keyPath ==> r == (keyPath, "")
  {
    var parts := SplitOn(keyPath, '/');
    SplitHead(keyPath, '/');
    (parts[0], JoinWith(parts[1..], '/'))
  }

  /** `SplitMount` cuts at the first `/` and nowhere else. */
  lemma SplitMountOf(mount: string, rest: string)
    requires '/' !in mount
    ensures SplitMount(mount + "/" + rest) == (mount, rest)
  {
    var s := mount + "/" + rest;
    assert s[|mount|] == '/';
    var r := SplitMount(s);
    FirstSeparatorUnique(r.0, r.1, mount, rest, '/');
  }

  /**
   * The store location of a joined path: a relative name appended to a
   * directory path lands under the directory's mount, and a directory path
   * without a `/` is the mount itself.
   */
  lemma SplitMountJoin(dir: string, name: string)
    requires dir != "" && !EndsWith(dir, "/") && !StartsWith(name, "/")
    ensures '/' in dir ==> SplitMount(PathJoin(dir, name)) == (SplitMount(dir).0, SplitMount(dir).1 + "/" + name)
    ensures '/' !in dir ==> SplitMount(PathJoin(dir, name)) == (dir, name)
  {
    PathJoinSpec(dir, name);
    assert PathJoin(dir, name) == dir + "/" + name;
    if '/' in dir {
      var d := SplitMount(dir);
      assert dir + "/" + name == d.0 + "/" + (d.1 + "/" + name);
      SplitMountOf(d.0, d.1 + "/" + name);
    } else {
      SplitMountOf(dir, name);
    }
  }
}
