/**
 * `parse_requirements` of `setup.py`: the lines of a pip requirements file,
 * stripped, without blank lines and without comment lines.
 */
module Requirements {
  import opened Strings

  /** A line survives when its stripped form is non-empty and not a comment. */
  predicate Kept(line: string) {
    var s := Strip(line);
    s != "" && !StartsWith(s, "#")
  }

  /** `[line for line in (l.strip() for l in lines) if line and not line.startswith("#")]` */
  function ParseRequirements(lines: seq<string>): seq<string> {
    if lines == [] then []
    else
      var last := lines[|lines| - 1];
      ParseRequirements(lines[..|lines| - 1]) + if Kept(last) then [Strip(last)] else []
  }

  /** The filter works line by line: the requirements of two parts of a file are those of the parts, in order. */
  lemma {:induction false} ParseRequirementsAppend(a: seq<string>, b: seq<string>)
    ensures ParseRequirements(a + b) == ParseRequirements(a) + ParseRequirements(b)
    decreases |b|
  {
    if b == [] {
      assert a + b == a;
    } else {
      var init := b[..|b| - 1];
      assert (a + b)[..|a + b| - 1] == a + init;
      ParseRequirementsAppend(a, init);
    }
  }

  /**
   * Every returned requirement is non-empty, is not a comment and carries no
   * surrounding whitespace, and there are never more of them than lines.
   */
  lemma {:induction false} RequirementsWellFormed(lines: seq<string>)
    ensures |ParseRequirements(lines)| <= |lines|
    ensures forall k | 0 <= k < |ParseRequirements(lines)| ::
      var r := ParseRequirements(lines)[k];
      r != "" && !StartsWith(r, "#") && !IsSpace(r[0]) && !IsSpace(r[|r| - 1])
  {
    if lines != [] {
      var last := lines[|lines| - 1];
      RequirementsWellFormed(lines[..|lines| - 1]);
      StripSpec(last);
    }
  }

  /** The positions of the kept lines, in increasing order. */
  function KeptIndices(lines: seq<string>): seq<nat> {
    if lines == [] then []
    else KeptIndices(lines[..|lines| - 1]) + if Kept(lines[|lines| - 1]) then [|lines| - 1] else []
  }

  /** `KeptIndices` lists exactly the kept lines, each once, in increasing order. */
  lemma {:induction false} KeptIndicesSpec(lines: seq<string>)
    ensures forall k | 0 <= k < |KeptIndices(lines)| :: KeptIndices(lines)[k] < |lines| && Kept(lines[KeptIndices(lines)[k]])
    ensures forall k, m | 0 <= k < m < |KeptIndices(lines)| :: KeptIndices(lines)[k] < KeptIndices(lines)[m]
    ensures forall i | 0 <= i < |lines| && Kept(lines[i]) :: i in KeptIndices(lines)
  {
    if lines != [] {
      var n := |lines| - 1;
      var init := lines[..n];
      KeptIndicesSpec(init);
      forall i | 0 <= i < n ensures init[i] == lines[i] {}
    }
  }

  /** The `k`-th requirement is the stripped `k`-th kept line. */
  lemma {:induction false} RequirementsAtKept(lines: seq<string>)
    ensures |ParseRequirements(lines)| == |KeptIndices(lines)|
    ensures forall k | 0 <= k < |KeptIndices(lines)| ::
      KeptIndices(lines)[k] < |lines| && ParseRequirements(lines)[k] == Strip(lines[KeptIndices(lines)[k]])
  {
    if lines != [] {
      var n := |lines| - 1;
      var init := lines[..n];
      RequirementsAtKept(init);
      forall i | 0 <= i < n ensures init[i] == lines[i] {}
    }
  }

  /**
   * The output lists the kept lines in input order: `idx` gives, for each
   * requirement, the strictly increasing position of the line it came from,
   * and every kept line appears there.
   */
  lemma RequirementsInOrder(lines: seq<string>) returns (idx: seq<nat>)
    ensures |idx| == |ParseRequirements(lines)|
    ensures forall k | 0 <= k < |idx| :: idx[k] < |lines| && Kept(lines[idx[k]]) && ParseRequirements(lines)[k] == Strip(lines[idx[k]])
    ensures forall k, m | 0 <= k < m < |idx| :: idx[k] < idx[m]
    ensures forall i | 0 <= i < |lines| && Kept(lines[i]) :: i in idx
  {
    idx := KeptIndices(lines);
    KeptIndicesSpec(lines);
    RequirementsAtKept(lines);
  }

  /** A file whose every line is kept loses none of them; otherwise at least one is dropped. */
  lemma AllKeptIff(lines: seq<string>)
    ensures |ParseRequirements(lines)| == |lines| <==> forall i | 0 <= i < |lines| :: Kept(lines[i])
  {
    if forall i | 0 <= i < |lines| :: Kept(lines[i]) {
      AllKeptLength(lines);
    } else {
      var i :| 0 <= i < |lines| && !Kept(lines[i]);
      DroppedLineShortens(lines, i);
    }
  }

  lemma {:induction false} AllKeptLength(lines: seq<string>)
    requires forall i | 0 <= i < |lines| :: Kept(lines[i])
    ensures |ParseRequirements(lines)| == |lines|
  {
    if lines != [] {
      AllKeptLength(lines[..|lines| - 1]);
    }
  }

  lemma DroppedLineShortens(lines: seq<string>, i: nat)
    requires i < |lines| && !Kept(lines[i])
    ensures |ParseRequirements(lines)| < |lines|
  {
    var a, b := lines[..i], lines[i + 1..];
    assert lines == a + [lines[i]] + b;
    ParseRequirementsAppend(a + [lines[i]], b);
    ParseRequirementsAppend(a, [lines[i]]);
    assert [lines[i]][..0] == [];
    RequirementsWellFormed(a);
    RequirementsWellFormed(b);
  }
}
