/**
 * The registration table behind `Fido2RegistrationPersistenceService`: the
 * stored records in store order, the two queries the ceremony uses, and a
 * repository object whose `save` calls change the table and are recorded in
 * a save log. A record is identified by its position in the table.
 */
module RegistrationStore {
  import opened Fido2Model

  /** `findAllByChallenge`: the positions of the records whose challenge is `c`, in store order. */
  function IndicesWithChallenge(entries: seq<Registration>, c: string): (r: seq<nat>)
    ensures forall k :: 0 <= k < |r| ==> r[k] < |entries| && entries[r[k]].challenge == c
    ensures forall i :: 0 <= i < |entries| && entries[i].challenge == c ==> i in r
    decreases |entries|
  {
    if |entries| == 0 then []
    else
      var last := |entries| - 1;
      var earlier := IndicesWithChallenge(entries[..last], c);
      if entries[last].challenge == c then earlier + [last] else earlier
  }

  /** `findAllByUsername`: the records stored for `u`, in store order, whatever their status. */
  function EntriesOf(entries: seq<Registration>, u: string): (r: seq<Registration>)
    ensures |r| <= |entries|
    ensures forall e :: e in r <==> e in entries && e.username == u
    decreases |entries|
  {
    if |entries| == 0 then []
    else
      var last := |entries| - 1;
      var earlier := EntriesOf(entries[..last], u);
      assert entries == entries[..last] + [entries[last]];
      if entries[last].username == u then earlier + [entries[last]] else earlier
  }

  /** The stream `map` of the exclusion list: the descriptor of each record, in order. */
  function Describes(es: seq<Registration>): (r: seq<CredentialDescriptor>)
    ensures |r| == |es|
    ensures forall k :: 0 <= k < |es| ==> r[k] == Describe(es[k])
    decreases |es|
  {
    if |es| == 0 then [] else Describes(es[..|es| - 1]) + [Describe(es[|es| - 1])]
  }

  /** The `excludeCredentials` list: one descriptor per record of `u`, in store order. */
  function ExcludeCredentials(entries: seq<Registration>, u: string): seq<CredentialDescriptor>
  {
    Describes(EntriesOf(entries, u))
  }

  /** The records of `u` in a table that grows at the end are those before plus the new ones. */
  lemma {:induction false} EntriesOfAppend(a: seq<Registration>, b: seq<Registration>, u: string)
    ensures EntriesOf(a + b, u) == EntriesOf(a, u) + EntriesOf(b, u)
    decreases |b|
  {
    if |b| == 0 {
      assert a + b == a;
    } else {
      var last := |b| - 1;
      var tail := if b[last].username == u then [b[last]] else [];
      EntriesOfAppend(a, b[..last], u);
      assert (a + b)[..|a + b| - 1] == a + b[..last];
      assert (a + b)[|a + b| - 1] == b[last];
      assert EntriesOf(a + b, u) == EntriesOf(a + b[..last], u) + tail;
      assert EntriesOf(b, u) == EntriesOf(b[..last], u) + tail;
    }
  }

  /** A descriptor is offered exactly when some stored record of `u` has it, PENDING records included. */
  lemma ExclusionListDescribesUserEntries(entries: seq<Registration>, u: string, d: CredentialDescriptor)
    ensures d in ExcludeCredentials(entries, u) <==>
            exists i :: 0 <= i < |entries| && entries[i].username == u && Describe(entries[i]) == d
  {
    var mine := EntriesOf(entries, u);
    var r := ExcludeCredentials(entries, u);
    if d in r {
      var k :| 0 <= k < |r| && r[k] == d;
      assert mine[k] in entries;
      var i :| 0 <= i < |entries| && entries[i] == mine[k];
    }
    if exists i :: 0 <= i < |entries| && entries[i].username == u && Describe(entries[i]) == d {
      var i :| 0 <= i < |entries| && entries[i].username == u && Describe(entries[i]) == d;
      assert entries[i] in mine;
      var k :| 0 <= k < |mine| && mine[k] == entries[i];
      assert r[k] == d;
    }
  }

  lemma EntriesOfSingle(e: Registration)
    ensures EntriesOf([e], e.username) == [e]
  {
    assert [e][..0] == [];
  }

  /** Saving one more record for `u` adds exactly its descriptor at the end of `u`'s next exclusion list. */
  lemma ExclusionListAfterSave(entries: seq<Registration>, e: Registration)
    ensures ExcludeCredentials(entries + [e], e.username) == ExcludeCredentials(entries, e.username) + [Describe(e)]
  {
    var u := e.username;
    var before := EntriesOf(entries, u);
    EntriesOfAppend(entries, [e], u);
    EntriesOfSingle(e);
    assert EntriesOf(entries + [e], u) == before + [e];
    assert (before + [e])[..|before|] == before;
  }

  /** The table, and every record passed to `save`, in the order of the calls. */
  class RegistrationRepository {
    var entries: seq<Registration>
    var saveLog: seq<Registration>

    constructor (initial: seq<Registration>)
      ensures entries == initial && saveLog == []
    {
      entries := initial;
      saveLog := [];
    }

    /** `save` of a record read from position `i`: the record there is replaced. */
    method SaveAt(i: nat, e: Registration)
      requires i < |entries|
      modifies this
      ensures entries == old(entries)[i := e]
      ensures saveLog == old(saveLog) + [e]
    {
      entries := entries[i := e];
      saveLog := saveLog + [e];
    }

    /** `save` of a newly built record: it is stored after all others. */
    method SaveNew(e: Registration)
      modifies this
      ensures entries == old(entries) + [e]
      ensures saveLog == old(saveLog) + [e]
    {
      entries := entries + [e];
      saveLog := saveLog + [e];
    }
  }
}
