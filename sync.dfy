/**
 * The sync rule of `apply_keys`: for each entry in order, read the stored
 * secret and write the payload unless the stored value is truthy and equal to
 * it.  Stated as functions of the store's contents so that both versions of
 * the parser can be proved against it.
 */
module Sync {
  import opened Optional
  import opened Paths
  import opened KeyData
  import opened SecretStore

  /** Where an entry goes: its logical path split into mount and in-mount path. */
  function LocationOf(e: Entry): Location {
    SplitMount(e.name)
  }

  /** `old_key_value and old_key_value == value`. */
  predicate UpToDate(stored: Option<Secret>, v: Option<Payload>) {
    stored.Some? && stored.value != map[] && v.Some? && stored.value == Fields(v.value)
  }

  /** What the run logs for one entry: skipped, written, or rejected with `InvalidRequest`. */
  datatype Status = AlreadyExists | Written | Rejected

  /** A write was sent to the store for this entry. */
  predicate WriteIssued(s: Status) {
    s != AlreadyExists
  }

  function StepStatus(data: map<Location, Secret>, accepts: Verdict, e: Entry): Status {
    if UpToDate(Lookup(data, LocationOf(e)), e.payload) then AlreadyExists
    else if accepts(LocationOf(e), e.payload) then Written
    else Rejected
  }

  /**
   * The store after one entry: an accepted write puts the payload at the
   * entry's location; a skipped or rejected entry leaves the store as it was;
   * no other location ever changes.
   */
  function Step(data: map<Location, Secret>, accepts: Verdict, e: Entry): (r: map<Location, Secret>)
    ensures forall loc | loc != LocationOf(e) :: Lookup(r, loc) == Lookup(data, loc)
    ensures StepStatus(data, accepts, e) == Written ==> Lookup(r, LocationOf(e)) == Some(Body(e.payload))
    ensures StepStatus(data, accepts, e) != Written ==> r == data
  {
    if StepStatus(data, accepts, e) == Written then data[LocationOf(e) := Body(e.payload)] else data
  }

  /** The store after `apply_keys` over `es`. */
  function Applied(data: map<Location, Secret>, accepts: Verdict, es: seq<Entry>): map<Location, Secret> {
    if es == [] then data
    else Step(Applied(data, accepts, es[..|es| - 1]), accepts, es[|es| - 1])
  }

  /** The per-entry log of `apply_keys` over `es`. */
  function ApplyLog(data: map<Location, Secret>, accepts: Verdict, es: seq<Entry>): (log: seq<Status>)
    ensures |log| == |es|
  {
    if es == [] then []
    else
      var init := es[..|es| - 1];
      ApplyLog(data, accepts, init) + [StepStatus(Applied(data, accepts, init), accepts, es[|es| - 1])]
  }

  /** One more entry: the store and the log advance by one step. */
  lemma ApplyOneMore(data: map<Location, Secret>, accepts: Verdict, es: seq<Entry>, i: nat)
    requires i < |es|
    ensures Applied(data, accepts, es[..i + 1]) == Step(Applied(data, accepts, es[..i]), accepts, es[i])
    ensures ApplyLog(data, accepts, es[..i + 1])
      == ApplyLog(data, accepts, es[..i]) + [StepStatus(Applied(data, accepts, es[..i]), accepts, es[i])]
  {
    assert es[..i + 1][..i] == es[..i];
  }

  /**
   * Every entry is processed, whatever happened to the ones before it: entry
   * `i` is judged against the store as the first `i` entries left it.
   */
  lemma {:induction false} ApplyLogAt(data: map<Location, Secret>, accepts: Verdict, es: seq<Entry>, i: nat)
    requires i < |es|
    ensures ApplyLog(data, accepts, es)[i] == StepStatus(Applied(data, accepts, es[..i]), accepts, es[i])
  {
    var init := es[..|es| - 1];
    var log := ApplyLog(data, accepts, init);
    assert ApplyLog(data, accepts, es) == log + [StepStatus(Applied(data, accepts, init), accepts, es[|es| - 1])];
    if i < |init| {
      ApplyLogAt(data, accepts, init, i);
      assert init[..i] == es[..i] && init[i] == es[i];
      assert ApplyLog(data, accepts, es)[i] == log[i];
    } else {
      assert init == es[..i];
    }
  }

  /** Locations that no entry names keep their contents. */
  lemma {:induction false} AppliedFrame(data: map<Location, Secret>, accepts: Verdict, es: seq<Entry>, loc: Location)
    requires forall i | 0 <= i < |es| :: LocationOf(es[i]) != loc
    ensures Lookup(Applied(data, accepts, es), loc) == Lookup(data, loc)
  {
    if es != [] {
      var init := es[..|es| - 1];
      assert forall i | 0 <= i < |init| :: init[i] == es[i];
      AppliedFrame(data, accepts, init, loc);
      assert LocationOf(es[|es| - 1]) != loc;
    }
  }

  /** Entries whose location already holds their payload cause no write and change nothing. */
  lemma {:induction false} AppliedAllCurrent(data: map<Location, Secret>, accepts: Verdict, es: seq<Entry>)
    requires forall i | 0 <= i < |es| :: UpToDate(Lookup(data, LocationOf(es[i])), es[i].payload)
    ensures Applied(data, accepts, es) == data
    ensures forall i | 0 <= i < |es| :: ApplyLog(data, accepts, es)[i] == AlreadyExists
  {
    if es != [] {
      var init := es[..|es| - 1];
      assert forall i | 0 <= i < |init| :: init[i] == es[i];
      AppliedAllCurrent(data, accepts, init);
      assert UpToDate(Lookup(data, LocationOf(es[|es| - 1])), es[|es| - 1].payload);
    }
  }

  /** No two entries send different payloads to the same location. */
  ghost predicate Consistent(es: seq<Entry>) {
    forall i, j | 0 <= i < |es| && 0 <= j < |es| :: LocationOf(es[i]) == LocationOf(es[j]) ==> es[i].payload == es[j].payload
  }

  /** Every entry has a payload and the store accepts every write of one. */
  ghost predicate AllWritable(accepts: Verdict, es: seq<Entry>) {
    forall i | 0 <= i < |es| :: es[i].payload.Some? && accepts(LocationOf(es[i]), es[i].payload)
  }

  /** After a run in which every write is accepted, every entry is up to date in the store. */
  lemma {:induction false} AppliedEstablishes(data: map<Location, Secret>, accepts: Verdict, es: seq<Entry>)
    requires Consistent(es) && AllWritable(accepts, es)
    ensures forall i | 0 <= i < |es| :: UpToDate(Lookup(Applied(data, accepts, es), LocationOf(es[i])), es[i].payload)
  {
    if es != [] {
      var init, last := es[..|es| - 1], es[|es| - 1];
      assert forall i | 0 <= i < |init| :: init[i] == es[i];
      assert Consistent(init) && AllWritable(accepts, init);
      AppliedEstablishes(data, accepts, init);
      var before := Applied(data, accepts, init);
      var after := Step(before, accepts, last);
      assert UpToDate(Lookup(after, LocationOf(last)), last.payload);
      forall i | 0 <= i < |es|
        ensures UpToDate(Lookup(after, LocationOf(es[i])), es[i].payload)
      {
        if i < |init| && LocationOf(es[i]) == LocationOf(last) {
          assert es[i].payload == last.payload;
        }
      }
    }
  }

  /**
   * Idempotence: running `apply_keys` a second time over the store the first
   * run left issues no write and changes nothing, provided every payload is
   * present, the first run's writes were accepted, and no two entries disagree
   * about a location.
   */
  lemma ApplyIdempotent(data: map<Location, Secret>, accepts: Verdict, es: seq<Entry>)
    requires Consistent(es) && AllWritable(accepts, es)
    ensures Applied(Applied(data, accepts, es), accepts, es) == Applied(data, accepts, es)
    ensures forall i | 0 <= i < |es| :: !WriteIssued(ApplyLog(Applied(data, accepts, es), accepts, es)[i])
  {
    AppliedEstablishes(data, accepts, es);
    AppliedAllCurrent(Applied(data, accepts, es), accepts, es);
  }

  /**
   * Applying one accepted entry twice against the same store sends at most
   * one write, and sends one exactly when the store did not already hold it.
   */
  lemma ApplyTwiceWritesOnce(data: map<Location, Secret>, accepts: Verdict, e: Entry)
    requires e.payload.Some? && accepts(LocationOf(e), e.payload)
    ensures |ApplyLog(data, accepts, [e, e])| == 2
    ensures !WriteIssued(ApplyLog(data, accepts, [e, e])[1])
    ensures WriteIssued(ApplyLog(data, accepts, [e, e])[0]) <==> !UpToDate(Lookup(data, LocationOf(e)), e.payload)
  {
    assert [e, e][..1] == [e];
    assert [e][..0] == [];
  }

  /** An entry without a payload is never up to date, so every run sends it again. */
  lemma AbsentPayloadAlwaysWritten(data: map<Location, Secret>, accepts: Verdict, es: seq<Entry>, i: nat)
    requires i < |es| && es[i].payload.None?
    ensures WriteIssued(ApplyLog(data, accepts, es)[i])
  {
    ApplyLogAt(data, accepts, es, i);
  }
}
