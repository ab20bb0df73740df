/**
  * The credential adapter: moves referenced secrets between native slots and the vault. `Reconcile`
  * compares three sides per record: the native value, the vault record, and the baseline this
  * device saved after its last completed reconcile.
  */
module Credentials {
  import opened Prelude
  import opened Vault

  /** A collision-free digest. */
  datatype Digest = DigestOf(value: Bytes)

  datatype Baseline = Baseline(version: nat, digest: Digest)

  type Baselines = map<RecordId, Baseline>

  type Native = map<RecordId, Bytes>

  datatype Mode = Reconciling | Capturing | Materializing

  datatype Status = Missing | Captured | Materialized | Unchanged | Conflict

  datatype CredentialError = SameRecord(id: RecordId) | VaultFailed(error: VaultError)

  function BaselineOf(r: Record): Baseline {
    Baseline(r.version, DigestOf(r.value))
  }

  function ReconcileStatus(local: Option<Bytes>, remote: Option<Record>, baseline: Option<Baseline>): Status {
    if local.None? && remote.None? then Missing
    else if remote.None? then Captured
    else if local.None? then Materialized
    else if local.value == remote.value.value then Unchanged
    else if baseline.None? then Conflict
    else if baseline.value.version == remote.value.version then Captured
    else if baseline.value.digest != DigestOf(local.value) then Conflict
    else Materialized
  }

  function StatusFor(mode: Mode, local: Option<Bytes>, remote: Option<Record>, baseline: Option<Baseline>): Status {
    match mode
    case Reconciling => ReconcileStatus(local, remote, baseline)
    case Capturing =>
      if local.None? then Missing
      else if remote.Some? && remote.value.value == local.value then Unchanged
      else Captured
    case Materializing => if remote.None? then Missing else Materialized
  }

  function NativeAfter(s: Status, local: Option<Bytes>, remote: Option<Record>): Option<Bytes> {
    if s == Materialized && remote.Some? then Some(remote.value.value) else local
  }

  function RecordAfter(s: Status, local: Option<Bytes>, remote: Option<Record>): Option<Record> {
    if s == Captured && local.Some? then Some(Record(local.value, if remote.Some? then remote.value.version + 1 else 1))
    else remote
  }

  /** Only a reconcile moves baselines, and a conflict leaves the baseline where it was. */
  function BaselineAfter(mode: Mode, s: Status, local: Option<Bytes>, remote: Option<Record>,
                         baseline: Option<Baseline>): Option<Baseline> {
    if mode != Reconciling || s == Conflict then baseline
    else
      var record := RecordAfter(s, local, remote);
      if record.Some? then Some(BaselineOf(record.value)) else None
  }

  /** A baseline holds when it describes the value the record had at its version. */
  predicate Holds(baseline: Option<Baseline>, past: seq<Bytes>) {
    baseline.Some? ==>
      && 0 < baseline.value.version <= |past|
      && baseline.value.digest == DigestOf(past[baseline.value.version - 1])
  }

  /** The record's value is the newest of its past and its version counts the past. */
  predicate Newest(remote: Option<Record>, past: seq<Bytes>) {
    if remote.None? then past == []
    else past != [] && remote.value.version == |past| && remote.value.value == past[|past| - 1]
  }

  /**
    * The verdict read against the record's full past. The vault is written only when the device has
    * seen its newest version; a native value is overwritten only when it is a past value of the
    * record; a conflict is reported exactly when the native value is news to the vault and the
    * vault has moved since this device looked.
    */
  lemma ReconcileMeans(local: Option<Bytes>, remote: Option<Record>, baseline: Option<Baseline>, past: seq<Bytes>)
    requires Newest(remote, past) && Holds(baseline, past)
    ensures var s := ReconcileStatus(local, remote, baseline);
            && (s == Captured <==>
                  local.Some? && (past == [] || (local.value != past[|past| - 1] &&
                                                 baseline.Some? && baseline.value.version == |past|)))
            && (s == Materialized <==>
                  past != [] && (local.None? ||
                                 (local.value != past[|past| - 1] && baseline.Some? &&
                                  baseline.value.version < |past| && local.value == past[baseline.value.version - 1])))
            && (s == Missing <==> local.None? && past == [])
            && (s == Conflict <==>
                  && local.Some? && past != [] && local.value != past[|past| - 1]
                  && (baseline.None? ||
                      (baseline.value.version < |past| && local.value != past[baseline.value.version - 1])))
            && (s != Conflict && local.Some? ==>
                  NativeAfter(s, local, remote) == Some(RecordAfter(s, local, remote).value.value))
  {
  }

  /** A second reconcile on the saved baselines finds nothing to do, unless the first found a conflict. */
  lemma ReconcileSettles(local: Option<Bytes>, remote: Option<Record>, baseline: Option<Baseline>)
    ensures var s := ReconcileStatus(local, remote, baseline);
            var local', remote' := NativeAfter(s, local, remote), RecordAfter(s, local, remote);
            var again := ReconcileStatus(local', remote', BaselineAfter(Reconciling, s, local, remote, baseline));
            again == match s case Conflict => Conflict case Missing => Missing case _ => Unchanged
  {
  }

  /** Everything an operation reads and changes: native values, vault records, baselines. */
  datatype Sides = Sides(native: Native, records: Records, baselines: Baselines)

  function StatusAt(mode: Mode, w: Sides, id: RecordId): Status {
    StatusFor(mode, Get(w.native, id), Get(w.records, id), Get(w.baselines, id))
  }

  /** One record's three sides moved from `w` to `w'` as the mode decides. */
  ghost predicate DealtAt(mode: Mode, w: Sides, w': Sides, id: RecordId) {
    var l, r, b := Get(w.native, id), Get(w.records, id), Get(w.baselines, id);
    var s := StatusFor(mode, l, r, b);
    && Get(w'.native, id) == NativeAfter(s, l, r)
    && Get(w'.records, id) == RecordAfter(s, l, r)
    && Get(w'.baselines, id) == BaselineAfter(mode, s, l, r, b)
  }

  ghost predicate SameAt(w: Sides, w': Sides, id: RecordId) {
    && Get(w'.native, id) == Get(w.native, id)
    && Get(w'.records, id) == Get(w.records, id)
    && Get(w'.baselines, id) == Get(w.baselines, id)
  }

  /** Each record in `done` has been dealt with under the mode, every other one is as it was. */
  ghost predicate Dealt(mode: Mode, done: set<RecordId>, w: Sides, w': Sides) {
    forall id :: if id in done then DealtAt(mode, w, w', id) else SameAt(w, w', id)
  }

  /** Capturing stores every native value the vault does not hold as it is, one version on, and nothing else moves. */
  lemma CapturingMeans(w: Sides, w': Sides, id: RecordId)
    requires DealtAt(Capturing, w, w', id)
    ensures StatusAt(Capturing, w, id) ==
            if id !in w.native then Missing
            else if id in w.records && w.records[id].value == w.native[id] then Unchanged
            else Captured
    ensures Get(w'.native, id) == Get(w.native, id) && Get(w'.baselines, id) == Get(w.baselines, id)
    ensures id !in w.native || (id in w.records && w.records[id].value == w.native[id]) ==>
              Get(w'.records, id) == Get(w.records, id)
    ensures id in w.native && !(id in w.records && w.records[id].value == w.native[id]) ==>
              var version := if id in w.records then w.records[id].version + 1 else 1;
              Get(w'.records, id) == Some(Record(w.native[id], version))
  {
  }

  /** Materializing writes every value the vault holds, over whatever the slot held, and nothing else moves. */
  lemma MaterializingMeans(w: Sides, w': Sides, id: RecordId)
    requires DealtAt(Materializing, w, w', id)
    ensures StatusAt(Materializing, w, id) == if id in w.records then Materialized else Missing
    ensures Get(w'.native, id) == if id in w.records then Some(w.records[id].value) else Get(w.native, id)
    ensures Get(w'.records, id) == Get(w.records, id) && Get(w'.baselines, id) == Get(w.baselines, id)
  {
  }

  lemma FirstOfAll(ids: seq<RecordId>, id: RecordId)
    ensures id in First(ids, |ids|) <==> id in ids
  {
  }

  lemma DealtStep(mode: Mode, done: set<RecordId>, id: RecordId, w: Sides, mid: Sides, w': Sides)
    requires id !in done && Dealt(mode, done, w, mid) && Dealt(mode, {id}, mid, w')
    ensures Dealt(mode, done + {id}, w, w')
    ensures StatusAt(mode, mid, id) == StatusAt(mode, w, id)
  {
    assert SameAt(w, mid, id) && DealtAt(mode, mid, w', id);
    forall k ensures if k in done + {id} then DealtAt(mode, w, w', k) else SameAt(w, w', k) {
      if k != id { assert SameAt(mid, w', k); }
    }
  }

  predicate Distinct(ids: seq<RecordId>) {
    forall i, j :: 0 <= i < j < |ids| ==> ids[i] != ids[j]
  }

  /** Rejects reference lists in which two references share a record. */
  method PrepareReferences(ids: seq<RecordId>) returns (r: Result<seq<RecordId>, CredentialError>)
    ensures r.Ok? <==> Distinct(ids)
    ensures r.Ok? ==> r.value == ids
    ensures r.Err? ==> r.error.SameRecord? && exists i, j :: 0 <= i < j < |ids| && ids[i] == ids[j] == r.error.id
  {
    var seen: set<RecordId> := {};
    for j := 0 to |ids|
      invariant seen == set i | 0 <= i < j :: ids[i]
      invariant Distinct(ids[..j])
    {
      if ids[j] in seen { return Err(SameRecord(ids[j])); }
      assert ids[..j + 1] == ids[..j] + [ids[j]];
      seen := seen + {ids[j]};
    }
    assert ids[..|ids|] == ids;
    r := Ok(ids);
  }

  /** Where a device's tools keep their secrets, one slot per record. */
  class Slots {
    var native: Native
  }

  function First(ids: seq<RecordId>, n: nat): set<RecordId>
    requires n <= |ids|
  {
    set j | 0 <= j < n :: ids[j]
  }

  /** The operation stopped at the first value the vault cannot store; everything before it is done. */
  ghost predicate StopsAt(mode: Mode, ids: seq<RecordId>, i: nat, w: Sides, w': Sides)
    requires i < |ids|
  {
    && Dealt(mode, First(ids, i), w, w')
    && StatusAt(mode, w, ids[i]) == Captured && ids[i] in w.native && !Storable(w.native[ids[i]])
  }

  class Adapter {
    const slots: Slots

    constructor (slots: Slots)
      ensures this.slots == slots
    {
      this.slots := slots;
    }

    /** One record of a reconcile. */
    method ReconcileOne(vault: Vault, id: RecordId, baselines: Baselines, next: Baselines)
      returns (r: Result<(Status, Baselines), VaultError>)
      requires vault.Valid() && Get(baselines, id) == Get(next, id)
      modifies vault, slots
      ensures vault.Valid()
      ensures var w := old(Sides(slots.native, vault.entries, next));
              && (r.Ok? <==> (StatusAt(Reconciling, w, id) == Captured ==> Storable(w.native[id])))
              && (r.Err? ==> slots.native == w.native && vault.entries == w.records)
              && (r.Ok? ==>
                    && r.value.0 == StatusAt(Reconciling, w, id)
                    && Dealt(Reconciling, {id}, w, Sides(slots.native, vault.entries, r.value.1)))
    {
      var local := Get(slots.native, id);
      var remote := Get(vault.entries, id);
      if local.None? && remote.None? { return Ok((Missing, next - {id})); }
      if remote.None? {
        var put := vault.Put(id, local.value, None);
        if put.Err? { return Err(put.error); }
        return Ok((Captured, next[id := Baseline(put.value, DigestOf(local.value))]));
      }
      if local.None? {
        slots.native := slots.native[id := remote.value.value];
        return Ok((Materialized, next[id := BaselineOf(remote.value)]));
      }
      if local.value == remote.value.value { return Ok((Unchanged, next[id := BaselineOf(remote.value)])); }
      if id !in baselines { return Ok((Conflict, next)); }
      var baseline := baselines[id];
      if baseline.version == remote.value.version {
        var put := vault.Put(id, local.value, Some(remote.value.version));
        if put.Err? { return Err(put.error); }
        return Ok((Captured, next[id := Baseline(put.value, DigestOf(local.value))]));
      }
      if baseline.digest != DigestOf(local.value) { return Ok((Conflict, next)); }
      slots.native := slots.native[id := remote.value.value];
      return Ok((Materialized, next[id := BaselineOf(remote.value)]));
    }

    /** Reconciles the references one after another; a value the vault cannot store stops it there. */
    method Reconcile(vault: Vault, ids: seq<RecordId>, baselines: Baselines)
      returns (r: Result<(seq<Status>, Baselines), CredentialError>)
      requires vault.Valid()
      modifies vault, slots
      ensures vault.Valid()
      ensures var w := old(Sides(slots.native, vault.entries, baselines));
              match r
              case Ok((statuses, next)) =>
                && Distinct(ids) && Dealt(Reconciling, First(ids, |ids|), w, Sides(slots.native, vault.entries, next))
                && |statuses| == |ids|
                && forall i | 0 <= i < |ids| :: statuses[i] == StatusAt(Reconciling, w, ids[i])
              case Err(SameRecord(id)) => !Distinct(ids) && slots.native == w.native && vault.entries == w.records
              case Err(VaultFailed(_)) =>
                exists i, next | 0 <= i < |ids| ::
                  StopsAt(Reconciling, ids, i, w, Sides(slots.native, vault.entries, next))
    {
      var prepared := PrepareReferences(ids);
      if prepared.Err? { return Err(prepared.error); }
      var statuses: seq<Status>, next := [], baselines;
      ghost var w := Sides(slots.native, vault.entries, baselines);
      for i := 0 to |ids|
        invariant vault.Valid() && |statuses| == i
        invariant Dealt(Reconciling, First(ids, i), w, Sides(slots.native, vault.entries, next))
        invariant forall j | 0 <= j < i :: statuses[j] == StatusAt(Reconciling, w, ids[j])
      {
        ghost var mid := Sides(slots.native, vault.entries, next);
        assert ids[i] !in First(ids, i) && First(ids, i + 1) == First(ids, i) + {ids[i]};
        assert SameAt(w, mid, ids[i]);
        var one := ReconcileOne(vault, ids[i], baselines, next);
        if one.Err? {
          assert StopsAt(Reconciling, ids, i, w, Sides(slots.native, vault.entries, next));
          return Err(VaultFailed(one.error));
        }
        DealtStep(Reconciling, First(ids, i), ids[i], w, mid, Sides(slots.native, vault.entries, one.value.1));
        statuses := statuses + [one.value.0];
        next := one.value.1;
      }
      r := Ok((statuses, next));
    }

    /** Puts every native value that differs from its record, whatever the baselines say. */
    method Capture(vault: Vault, ids: seq<RecordId>) returns (r: Result<seq<Status>, CredentialError>)
      requires vault.Valid()
      modifies vault
      ensures vault.Valid()
      ensures var w := old(Sides(slots.native, vault.entries, map[]));
              match r
              case Ok(statuses) =>
                && Distinct(ids) && Dealt(Capturing, First(ids, |ids|), w, Sides(slots.native, vault.entries, map[]))
                && |statuses| == |ids| && forall i | 0 <= i < |ids| :: statuses[i] == StatusAt(Capturing, w, ids[i])
              case Err(SameRecord(id)) => !Distinct(ids) && vault.entries == w.records
              case Err(VaultFailed(_)) =>
                exists i | 0 <= i < |ids| :: StopsAt(Capturing, ids, i, w, Sides(slots.native, vault.entries, map[]))
    {
      var prepared := PrepareReferences(ids);
      if prepared.Err? { return Err(prepared.error); }
      var statuses: seq<Status> := [];
      ghost var w := Sides(slots.native, vault.entries, map[]);
      for i := 0 to |ids|
        invariant vault.Valid() && |statuses| == i
        invariant Dealt(Capturing, First(ids, i), w, Sides(slots.native, vault.entries, map[]))
        invariant forall j | 0 <= j < i :: statuses[j] == StatusAt(Capturing, w, ids[j])
      {
        var id := ids[i];
        ghost var mid := Sides(slots.native, vault.entries, map[]);
        assert id !in First(ids, i) && First(ids, i + 1) == First(ids, i) + {id};
        assert SameAt(w, mid, id);
        var value := Get(slots.native, id);
        var previous := vault.Read(id);
        var status := Missing;
        if value.Some? && previous.Some? && previous.value == value.value {
          status := Unchanged;
        } else if value.Some? {
          var put := vault.Put(id, value.value, VersionOf(vault.entries, id));
          if put.Err? {
            assert StopsAt(Capturing, ids, i, w, Sides(slots.native, vault.entries, map[]));
            return Err(VaultFailed(put.error));
          }
          status := Captured;
        }
        DealtStep(Capturing, First(ids, i), id, w, mid, Sides(slots.native, vault.entries, map[]));
        statuses := statuses + [status];
      }
      r := Ok(statuses);
    }

    /** Writes every record the vault holds into its native slot. */
    method Materialize(vault: Vault, ids: seq<RecordId>) returns (r: Result<seq<Status>, CredentialError>)
      requires vault.Valid()
      modifies slots
      ensures var w := old(Sides(slots.native, vault.entries, map[]));
              match r
              case Ok(statuses) =>
                && Distinct(ids)
                && Dealt(Materializing, First(ids, |ids|), w, Sides(slots.native, vault.entries, map[]))
                && |statuses| == |ids|
                && (forall i | 0 <= i < |ids| :: statuses[i] == StatusAt(Materializing, w, ids[i]))
                && forall id ::
                     Get(slots.native, id) == if id in ids && id in w.records then Some(w.records[id].value)
                                              else Get(w.native, id)
              case Err(e) => e.SameRecord? && !Distinct(ids) && slots.native == w.native
    {
      var prepared := PrepareReferences(ids);
      if prepared.Err? { return Err(prepared.error); }
      var statuses: seq<Status> := [];
      ghost var w := Sides(slots.native, vault.entries, map[]);
      for i := 0 to |ids|
        invariant |statuses| == i
        invariant Dealt(Materializing, First(ids, i), w, Sides(slots.native, vault.entries, map[]))
        invariant forall j | 0 <= j < i :: statuses[j] == StatusAt(Materializing, w, ids[j])
      {
        var id := ids[i];
        ghost var mid := Sides(slots.native, vault.entries, map[]);
        assert id !in First(ids, i) && First(ids, i + 1) == First(ids, i) + {id};
        var value := vault.Read(id);
        var status := Missing;
        if value.Some? {
          slots.native := slots.native[id := value.value];
          status := Materialized;
        }
        DealtStep(Materializing, First(ids, i), id, w, mid, Sides(slots.native, vault.entries, map[]));
        statuses := statuses + [status];
      }
      forall id
        ensures Get(slots.native, id) == if id in ids && id in w.records then Some(w.records[id].value)
                                         else Get(w.native, id)
      {
        FirstOfAll(ids, id);
        var end := Sides(slots.native, vault.entries, map[]);
        if id in ids { MaterializingMeans(w, end, id); } else { assert SameAt(w, end, id); }
      }
      r := Ok(statuses);
    }
  }
}
