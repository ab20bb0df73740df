/**
  * Any number of devices sharing one vault head. A session reads the head, works through its
  * references one at a time, publishes by compare-and-set, and saves its baselines last; users
  * edit native values and machines die between any two of these steps.
  */
module CredentialFleet {
  import opened Prelude
  import opened Vault
  import opened Credentials

  type DeviceId = nat

  /** `snapshot` is what the head held when the session began, at generation `generation`. */
  datatype Session = Session(mode: Mode, generation: nat, snapshot: Records, records: Records,
                             next: Baselines, todo: seq<RecordId>, published: bool)

  datatype Device = Device(native: Native, baselines: Baselines, session: Option<Session>)

  /** The head's generation counts accepted writes; `past` keeps every value a record has had. */
  datatype Fleet = Fleet(generation: nat, records: Records, past: map<RecordId, seq<Bytes>>,
                         devices: map<DeviceId, Device>)

  function PastOf(f: Fleet, id: RecordId): seq<Bytes> {
    if id in f.past then f.past[id] else []
  }

  datatype Event =
    | Edit(dev: DeviceId, id: RecordId, value: Option<Bytes>)
    | Begin(dev: DeviceId, mode: Mode, ids: seq<RecordId>)
    | Touch(dev: DeviceId)
    | Publish(dev: DeviceId)
    | Save(dev: DeviceId)
    | Stop(dev: DeviceId)

  function Working(d: Device, s: Session): Sides {
    Sides(d.native, s.records, s.next)
  }

  /** One reference: either the vault refuses its value and the session ends, or it is dealt with. */
  ghost predicate Touches(d: Device, s: Session, d': Device) {
    && s.todo != [] && d'.baselines == d.baselines
    && var id := s.todo[0];
       if StatusAt(s.mode, Working(d, s), id) == Captured && !Storable(d.native[id]) then
         d'.native == d.native && d'.session.None?
       else
         && d'.session.Some? && Dealt(s.mode, {id}, Working(d, s), Working(d', d'.session.value))
         && d'.session.value == s.(records := d'.session.value.records,
                                        next := d'.session.value.next, todo := s.todo[1..])
  }

  /** The records a publish changes, each with its new value appended to its past. */
  ghost predicate Appends(f: Fleet, s: Session, past: map<RecordId, seq<Bytes>>) {
    forall id :: (if id in past then past[id] else []) ==
      if id in s.records && Get(s.snapshot, id) != Some(s.records[id]) then PastOf(f, id) + [s.records[id].value]
      else PastOf(f, id)
  }

  ghost predicate Step(f: Fleet, e: Event, f': Fleet) {
    && e.dev in f.devices && f'.devices.Keys == f.devices.Keys
    && (forall i | i in f.devices && i != e.dev :: f'.devices[i] == f.devices[i])
    && var d, d' := f.devices[e.dev], f'.devices[e.dev];
       && (e.Publish? || (f'.generation == f.generation && f'.records == f.records && f'.past == f.past))
       && match e
          case Edit(_, id, value) =>
            d' == d.(native := if value.Some? then d.native[id := value.value] else d.native - {id})
          case Begin(_, mode, ids) =>
            && d.session.None? && Distinct(ids)
            && d' == d.(session := Some(Session(mode, f.generation, f.records, f.records, d.baselines, ids, false)))
          case Touch(_) => d.session.Some? && Touches(d, d.session.value, d')
          case Publish(_) =>
            && d.session.Some?
            && var s := d.session.value;
               && s.todo == [] && !s.published && s.records != s.snapshot
               && if s.generation == f.generation then
                    && f'.generation == f.generation + 1 && f'.records == s.records && Appends(f, s, f'.past)
                    && var published := s.(generation := f.generation + 1, snapshot := s.records, published := true);
                       d' == d.(session := Some(published))
                  else
                    && f'.generation == f.generation && f'.records == f.records && f'.past == f.past
                    && d' == d.(session := None)
          case Save(_) =>
            && d.session.Some?
            && var s := d.session.value;
               && s.mode == Reconciling && s.todo == [] && s.records == s.snapshot
               && d' == d.(baselines := s.next, session := None)
          case Stop(_) => d' == d.(session := None)
  }

  // ----- Sessions go on -----

  function With<K, V>(m: map<K, V>, k: K, v: Option<V>): map<K, V> {
    if v.Some? then m[k := v.value] else m - {k}
  }

  /** The next reference can always be taken: it is refused, or all three sides move. */
  lemma TouchIsPossible(d: Device, s: Session) returns (d': Device)
    requires s.todo != []
    ensures Touches(d, s, d')
  {
    var w, id := Working(d, s), s.todo[0];
    var l, r, b := Get(w.native, id), Get(w.records, id), Get(w.baselines, id);
    var status := StatusAt(s.mode, w, id);
    if status == Captured && !Storable(d.native[id]) {
      d' := d.(session := None);
    } else {
      var native := With(w.native, id, NativeAfter(status, l, r));
      var records := With(w.records, id, RecordAfter(status, l, r));
      var next := With(w.baselines, id, BaselineAfter(s.mode, status, l, r, b));
      d' := Device(native, d.baselines, Some(s.(records := records, next := next, todo := s.todo[1..])));
      assert DealtAt(s.mode, w, Working(d', d'.session.value), id);
    }
  }

  /** What an accepted publish makes of the pasts. */
  lemma AppendIsPossible(f: Fleet, s: Session) returns (past: map<RecordId, seq<Bytes>>)
    ensures Appends(f, s, past)
  {
    past := map id | id in f.past.Keys + s.records.Keys ::
              if id in s.records && Get(s.snapshot, id) != Some(s.records[id])
              then PastOf(f, id) + [s.records[id].value] else PastOf(f, id);
  }

  /**
    * A session is never stuck: while references are left the next one is taken; then what changed is
    * published, once; then a reconcile saves its baselines. A capture or materialization just ends.
    */
  lemma SessionGoesOn(f: Fleet, dev: DeviceId) returns (e: Event, f': Fleet)
    requires dev in f.devices && f.devices[dev].session.Some?
    requires var s := f.devices[dev].session.value;
             s.todo != [] || s.records != s.snapshot || s.mode == Reconciling
    requires Inv(f)
    ensures Step(f, e, f')
    ensures var s := f.devices[dev].session.value;
            e == if s.todo != [] then Touch(dev) else if s.records != s.snapshot then Publish(dev) else Save(dev)
  {
    var d := f.devices[dev];
    var s := d.session.value;
    assert DeviceHolds(f, d);
    if s.todo != [] {
      var d' := TouchIsPossible(d, s);
      e, f' := Touch(dev), f.(devices := f.devices[dev := d']);
    } else if s.records != s.snapshot {
      e := Publish(dev);
      if s.generation == f.generation {
        var past := AppendIsPossible(f, s);
        var published := s.(generation := f.generation + 1, snapshot := s.records, published := true);
        f' := Fleet(f.generation + 1, s.records, past, f.devices[dev := d.(session := Some(published))]);
      } else {
        f' := f.(devices := f.devices[dev := d.(session := None)]);
      }
    } else {
      e, f' := Save(dev), f.(devices := f.devices[dev := d.(baselines := s.next, session := None)]);
    }
  }

  /** A publish lands exactly when nobody else has written since the session began; else its session is over. */
  lemma PublishLandsExactlyWhen(f: Fleet, dev: DeviceId, f': Fleet)
    requires Step(f, Publish(dev), f')
    ensures var s := f.devices[dev].session.value;
            if s.generation == f.generation
            then f'.generation == f.generation + 1 && f'.records == s.records && f'.devices[dev].session.Some?
            else f'.generation == f.generation && f'.records == f.records && f'.devices[dev].session.None?
    ensures f'.devices[dev].native == f.devices[dev].native && f'.devices[dev].baselines == f.devices[dev].baselines
  {
  }

  // ----- The invariant -----

  /** A snapshot taken earlier: each record in it is one of the record's past versions. */
  predicate WasCurrent(r: Option<Record>, past: seq<Bytes>) {
    r.Some? ==> 0 < r.value.version <= |past| && past[r.value.version - 1] == r.value.value
  }

  /** The session replaces the record it snapshotted, which for a reconcile its device has seen. */
  predicate Replaces(d: Device, s: Session, id: RecordId) {
    && s.mode != Materializing && id !in s.todo
    && id in s.records && s.records[id].version == (if id in s.snapshot then s.snapshot[id].version else 0) + 1
    && (s.mode == Reconciling && id in s.snapshot ==>
          id in d.baselines && d.baselines[id].version == s.snapshot[id].version)
    && (s.mode == Reconciling ==> Get(s.next, id) == Some(BaselineOf(s.records[id])))
  }

  predicate Kept(s: Session, id: RecordId) {
    Get(s.records, id) == Get(s.snapshot, id)
  }

  ghost predicate SessionAt(f: Fleet, d: Device, s: Session, id: RecordId) {
    && WasCurrent(Get(s.snapshot, id), PastOf(f, id))
    && (Kept(s, id) || Replaces(d, s, id))
    && (id in s.todo || s.mode != Reconciling ==> Get(s.next, id) == Get(d.baselines, id))
    && (Kept(s, id) ==> Holds(Get(s.next, id), PastOf(f, id)))
  }

  ghost predicate SessionHolds(f: Fleet, d: Device, s: Session) {
    && s.generation <= f.generation && (s.generation == f.generation ==> s.snapshot == f.records)
    && Distinct(s.todo) && (s.published ==> s.todo == [] && s.records == s.snapshot)
    && forall id :: SessionAt(f, d, s, id)
  }

  ghost predicate DeviceHolds(f: Fleet, d: Device) {
    && (forall id :: Holds(Get(d.baselines, id), PastOf(f, id)))
    && (d.session.Some? ==> SessionHolds(f, d, d.session.value))
  }

  ghost predicate Inv(f: Fleet) {
    && (forall id :: Newest(Get(f.records, id), PastOf(f, id)))
    && (forall i | i in f.devices :: DeviceHolds(f, f.devices[i]))
  }

  ghost predicate Initial(f: Fleet) {
    && f.generation == 0 && f.records == map[] && f.past == map[]
    && forall i | i in f.devices :: f.devices[i].baselines == map[] && f.devices[i].session.None?
  }

  /** Pasts only grow. */
  ghost predicate Later(f: Fleet, f': Fleet) {
    && f.generation <= f'.generation && (f.generation == f'.generation ==> f'.records == f.records)
    && forall id :: PastOf(f, id) <= PastOf(f', id)
  }

  lemma LaterKeepsDevice(f: Fleet, f': Fleet, d: Device)
    requires Later(f, f') && DeviceHolds(f, d)
    ensures DeviceHolds(f', d)
  {
    forall id ensures Holds(Get(d.baselines, id), PastOf(f', id)) {
      assert Holds(Get(d.baselines, id), PastOf(f, id)) && PastOf(f, id) <= PastOf(f', id);
    }
    if d.session.Some? {
      forall id ensures SessionAt(f', d, d.session.value, id) {
        assert SessionAt(f, d, d.session.value, id) && PastOf(f, id) <= PastOf(f', id);
      }
    }
  }

  lemma TouchKeeps(f: Fleet, d: Device, s: Session, d': Device)
    requires Inv(f) && DeviceHolds(f, d) && d.session == Some(s) && Touches(d, s, d')
    ensures DeviceHolds(f, d')
  {
    if d'.session.Some? {
      var s', id := d'.session.value, s.todo[0];
      forall k ensures SessionAt(f, d', s', k) {
        assert SessionAt(f, d, s, k);
        if k == id {
          assert DealtAt(s.mode, Working(d, s), Working(d', s'), id);
          assert id !in s'.todo by { assert Distinct(s.todo); }
          TouchedAt(f, d, s, d', s', id);
        } else {
          assert SameAt(Working(d, s), Working(d', s'), k);
        }
      }
    }
  }

  lemma TouchedAt(f: Fleet, d: Device, s: Session, d': Device, s': Session, id: RecordId)
    requires SessionAt(f, d, s, id) && Holds(Get(d.baselines, id), PastOf(f, id))
    requires id in s.todo && id !in s'.todo && d'.baselines == d.baselines
    requires s' == s.(records := s'.records, next := s'.next, todo := s'.todo)
    requires DealtAt(s.mode, Working(d, s), Working(d', s'), id)
    ensures SessionAt(f, d', s', id)
  {
  }

  lemma PublishAppends(f: Fleet, e: Event, f': Fleet)
    requires Inv(f) && Step(f, e, f') && e.Publish?
    ensures Later(f, f') && forall id :: Newest(Get(f'.records, id), PastOf(f', id))
  {
    var d := f.devices[e.dev];
    var s := d.session.value;
    assert DeviceHolds(f, d);
    forall id ensures PastOf(f, id) <= PastOf(f', id) && Newest(Get(f'.records, id), PastOf(f', id)) {
      assert Newest(Get(f.records, id), PastOf(f, id));
      assert SessionAt(f, d, s, id);
    }
  }

  lemma PublishedAt(f': Fleet, d: Device, s: Session, id: RecordId)
    requires SessionAt(f', d, s, id) && id !in s.todo && Newest(Get(s.records, id), PastOf(f', id))
    requires Holds(Get(d.baselines, id), PastOf(f', id))
    ensures SessionAt(f', d, s.(snapshot := s.records), id)
  {
  }

  /** The publisher itself: its next baselines now describe the head. */
  lemma PublisherHolds(f: Fleet, e: Event, f': Fleet)
    requires Inv(f) && Step(f, e, f') && e.Publish?
    requires Later(f, f') && forall id :: Newest(Get(f'.records, id), PastOf(f', id))
    ensures DeviceHolds(f', f'.devices[e.dev])
  {
    var d, d' := f.devices[e.dev], f'.devices[e.dev];
    LaterKeepsDevice(f, f', d);
    if d'.session.Some? {
      var s := d.session.value;
      forall id ensures SessionAt(f', d', d'.session.value, id) {
        PublishedAt(f', d, s, id);
        assert SessionAt(f', d, s.(snapshot := s.records), id);
      }
    }
  }

  lemma OwnStepKeeps(f: Fleet, e: Event, f': Fleet)
    requires Inv(f) && Step(f, e, f') && !e.Publish?
    ensures DeviceHolds(f', f'.devices[e.dev])
  {
    var d, d' := f.devices[e.dev], f'.devices[e.dev];
    assert DeviceHolds(f, d);
    assert forall id :: PastOf(f', id) == PastOf(f, id);
    match e
    case Edit(_, _, _) =>
      if d.session.Some? {
        forall id ensures SessionAt(f', d', d.session.value, id) { assert SessionAt(f, d, d.session.value, id); }
      }
    case Begin(_, _, _) =>
      forall id ensures SessionAt(f', d', d'.session.value, id) {
        assert Newest(Get(f.records, id), PastOf(f, id)) && Holds(Get(d.baselines, id), PastOf(f, id));
      }
    case Touch(_) =>
      TouchKeeps(f, d, d.session.value, d');
      LaterKeepsDevice(f, f', d');
    case Save(_) =>
      forall id ensures Holds(Get(d'.baselines, id), PastOf(f', id)) { assert SessionAt(f, d, d.session.value, id); }
    case Stop(_) =>
  }

  lemma StepKeeps(f: Fleet, e: Event, f': Fleet)
    requires Inv(f) && Step(f, e, f')
    ensures Inv(f') && Later(f, f')
  {
    if e.Publish? {
      PublishAppends(f, e, f');
      PublisherHolds(f, e, f');
    } else {
      OwnStepKeeps(f, e, f');
      assert forall id :: PastOf(f', id) == PastOf(f, id);
      forall id
        ensures Newest(Get(f'.records, id), PastOf(f', id))
      {
        assert Newest(Get(f.records, id), PastOf(f, id));
      }
    }
    forall i | i in f.devices ensures DeviceHolds(f', f'.devices[i]) {
      if i != e.dev { LaterKeepsDevice(f, f', f.devices[i]); }
    }
  }

  ghost predicate StepAt(fs: seq<Fleet>, events: seq<Event>, i: nat)
    requires |fs| == |events| + 1 && i < |events|
  {
    Step(fs[i], events[i], fs[i + 1])
  }

  ghost predicate Trace(fs: seq<Fleet>, events: seq<Event>) {
    && |fs| == |events| + 1 && Initial(fs[0])
    && forall i | 0 <= i < |events| :: StepAt(fs, events, i)
  }

  lemma {:induction false} TraceKeeps(fs: seq<Fleet>, events: seq<Event>, i: nat)
    requires Trace(fs, events) && i < |fs|
    ensures Inv(fs[i])
  {
    if i > 0 {
      TraceKeeps(fs, events, i - 1);
      assert StepAt(fs, events, i - 1);
      StepKeeps(fs[i - 1], events[i - 1], fs[i]);
    }
  }

  // ----- Theorems over every interleaving -----

  /** Every baseline any device ever saves describes the value its record had at that version. */
  lemma SavedBaselinesDescribeTheirVersions(fs: seq<Fleet>, events: seq<Event>, i: nat, dev: DeviceId, id: RecordId)
    requires Trace(fs, events) && i < |fs| && dev in fs[i].devices && id in fs[i].devices[dev].baselines
    ensures var baseline, past := fs[i].devices[dev].baselines[id], PastOf(fs[i], id);
            && id in fs[i].records && 0 < baseline.version <= fs[i].records[id].version == |past|
            && baseline.digest == DigestOf(past[baseline.version - 1])
  {
    TraceKeeps(fs, events, i);
    assert DeviceHolds(fs[i], fs[i].devices[dev]) && Holds(Get(fs[i].devices[dev].baselines, id), PastOf(fs[i], id));
    assert Newest(Get(fs[i].records, id), PastOf(fs[i], id));
  }

  /**
    * No lost update in the vault: an accepted write moves each record it changes to the next
    * version, keeps every value it ever had, and a reconcile replaces version v only from a device
    * whose own saved baseline is v.
    */
  lemma AcceptedWriteReplacesWhatItSaw(fs: seq<Fleet>, events: seq<Event>, i: nat, id: RecordId)
    requires Trace(fs, events) && i < |events|
    requires Get(fs[i + 1].records, id) != Get(fs[i].records, id)
    ensures var f, f' := fs[i], fs[i + 1];
            && events[i].Publish? && f'.generation == f.generation + 1
            && id in f'.records
            && f'.records[id].version == (if id in f.records then f.records[id].version else 0) + 1
            && PastOf(f', id) == PastOf(f, id) + [f'.records[id].value]
            && events[i].dev in f.devices && f.devices[events[i].dev].session.Some?
            && (f.devices[events[i].dev].session.value.mode == Reconciling && id in f.records ==>
                  && id in f.devices[events[i].dev].baselines
                  && f.devices[events[i].dev].baselines[id].version == f.records[id].version)
  {
    TraceKeeps(fs, events, i);
    assert StepAt(fs, events, i);
    var f := fs[i];
    var d := f.devices[events[i].dev];
    assert DeviceHolds(f, d) && events[i].Publish?;
    assert SessionAt(f, d, d.session.value, id);
  }

  lemma OthersUntouched(f: Fleet, e: Event, f': Fleet, dev: DeviceId)
    requires Step(f, e, f') && dev in f.devices
    ensures dev != e.dev ==> f'.devices[dev] == f.devices[dev]
  {
  }

  /**
    * No lost update on a device: a reconcile overwrites a native value only when it equals the value
    * its saved baseline stands for, and that value is in the record's past; otherwise only the
    * user, or a materialize the user asked for, changes it.
    */
  lemma NativeOverwrittenOnlyWhenKnown(fs: seq<Fleet>, events: seq<Event>, i: nat, dev: DeviceId, id: RecordId)
    requires Trace(fs, events) && i < |events| && dev in fs[i].devices && dev in fs[i + 1].devices
    requires id in fs[i].devices[dev].native && !events[i].Edit?
    requires Get(fs[i + 1].devices[dev].native, id) != Get(fs[i].devices[dev].native, id)
    ensures var f, d := fs[i], fs[i].devices[dev];
            && events[i] == Touch(dev) && d.session.Some? && d.session.value.mode != Capturing
            && (d.session.value.mode == Reconciling ==>
                  && id in d.baselines && d.baselines[id].digest == DigestOf(d.native[id])
                  && 0 < d.baselines[id].version <= |PastOf(f, id)|
                  && d.native[id] == PastOf(f, id)[d.baselines[id].version - 1])
  {
    TraceKeeps(fs, events, i);
    assert StepAt(fs, events, i);
    var f, f' := fs[i], fs[i + 1];
    OthersUntouched(f, events[i], f', dev);
    var d, d' := f.devices[dev], f'.devices[dev];
    assert DeviceHolds(f, d) && Holds(Get(d.baselines, id), PastOf(f, id));
    assert events[i].Touch?;
    var s := d.session.value;
    assert SessionAt(f, d, s, id);
    assert d'.session.Some?;
    assert if id in {s.todo[0]} then DealtAt(s.mode, Working(d, s), Working(d', d'.session.value), id)
           else SameAt(Working(d, s), Working(d', d'.session.value), id);
  }

  /** Values are forever: what a record held at some moment of the run, its past holds from then on. */
  lemma {:induction false} PastsGrow(fs: seq<Fleet>, events: seq<Event>, i: nat, j: nat, id: RecordId)
    requires Trace(fs, events) && i <= j < |fs|
    ensures PastOf(fs[i], id) <= PastOf(fs[j], id)
    ensures id in fs[i].records ==>
              id in fs[j].records && fs[i].records[id].version <= fs[j].records[id].version == |PastOf(fs[j], id)|
  {
    TraceKeeps(fs, events, j);
    assert Newest(Get(fs[j].records, id), PastOf(fs[j], id));
    TraceKeeps(fs, events, i);
    assert Newest(Get(fs[i].records, id), PastOf(fs[i], id));
    if i < j {
      PastsGrow(fs, events, i, j - 1, id);
      TraceKeeps(fs, events, j - 1);
      assert StepAt(fs, events, j - 1);
      StepKeeps(fs[j - 1], events[j - 1], fs[j]);
      assert PastOf(fs[j - 1], id) <= PastOf(fs[j], id);
    }
  }
}
