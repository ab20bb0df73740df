/**
  * Any number of devices syncing against one append-only store. A run is split where other
  * devices can get in: planning and applying against an observed head, then one commit request
  * that the store accepts only while that head is still current.
  */
module SyncFleet {
  import opened Prelude
  import opened SyncPlan
  import opened SyncRun
  import opened SyncLaws

  type DeviceId = nat

  /** The base manifest with the index of the revision it was taken from. */
  datatype Base = Base(revision: nat, manifest: Manifest)

  /** A commit request on its way: the run it came from and the revision count it observed. */
  datatype Request = Request(run: Run, manifest: Manifest, observed: nat)

  datatype Device = Device(home: Home, base: Option<Base>, request: Option<Request>)

  /** An accepted revision with the run that produced it. */
  datatype Revision = Revision(manifest: Manifest, run: Run)

  /** The store keeps every accepted revision in order; the newest one is its only head. */
  datatype Fleet = Fleet(revisions: seq<Revision>, devices: map<DeviceId, Device>)

  function Head(revisions: seq<Revision>): Option<Manifest> {
    if revisions == [] then None else Some(revisions[|revisions| - 1].manifest)
  }

  function BaseManifest(d: Device): Option<Manifest> {
    if d.base.None? then None else Some(d.base.value.manifest)
  }

  /** The view a run plans against: the head, or the local copy of it when the base is the head. */
  function RemoteView(f: Fleet, d: Device): Option<Manifest> {
    if d.base.Some? && f.revisions != [] && d.base.value.revision == |f.revisions| - 1
    then Some(d.base.value.manifest) else Head(f.revisions)
  }

  datatype Event =
    | Edit(id: DeviceId, path: StorePath, text: Option<Text>)
    | Plan(id: DeviceId, run: Run, manifest: Manifest)
    | Submit(id: DeviceId)
    | LoseAnswer(id: DeviceId)
    | Crash(id: DeviceId)

  /**
    * The run a device starts is over its own files, base and view; everything else is chance: the
    * edits that fall into the run (`found` and `late`) as much as the fate of each write.
    */
  ghost predicate Starts(f: Fleet, d: Device, run: Run) {
    && run.home == d.home && run.base == BaseManifest(d) && run.remote == RemoteView(f, d)
    && (forall p :: p in run.home ==> p.surface in run.roots)
  }

  function Revised(home: Home, p: StorePath, text: Option<Text>): Home {
    if text.Some? then home[p := text.value] else home - {p}
  }

  /**
    * What a finished plan does before any request: adopt the head, keep the base, or ask to commit.
    * A manifest that lists a path twice cannot be saved as a base.
    */
  ghost predicate Planned(f: Fleet, d: Device, run: Run, m: Manifest, after: Device) {
    && Starts(f, d, run) && Assembles(run, m) && d.request.None?
    && after.home == HomeAfter(run)
    && if Unresolved(run) then after.base == d.base && after.request.None?
       else if f.revisions != [] && Listed(run) == Files(run.remote.value) then
         after.base == (if Collides(run) then d.base else Some(Base(|f.revisions| - 1, m))) && after.request.None?
       else if f.revisions != [] && d.base.Some? && d.base.value.revision == |f.revisions| - 1 &&
               Listed(run) == Files(d.base.value.manifest) then
         after.base == d.base && after.request.None?
       else after.base == d.base && after.request == Some(Request(run, m, |f.revisions|))
  }

  /** The device's request will be accepted: the head it observed is still the newest revision. */
  ghost predicate Accepted(f: Fleet, id: DeviceId) {
    id in f.devices && f.devices[id].request.Some? && f.devices[id].request.value.observed == |f.revisions|
  }

  /** `LoseAnswer` is a commit that lands while its device never hears of it. */
  ghost predicate Step(f: Fleet, e: Event, f': Fleet) {
    && e.id in f.devices && f'.devices.Keys == f.devices.Keys
    && (forall i | i in f.devices && i != e.id :: f'.devices[i] == f.devices[i])
    && var d, d' := f.devices[e.id], f'.devices[e.id];
       match e
       case Edit(_, p, text) =>
         f'.revisions == f.revisions && d' == d.(home := Revised(d.home, p, text))
       case Plan(_, run, m) =>
         f'.revisions == f.revisions && Planned(f, d, run, m, d')
       case Submit(_) =>
         && d.request.Some?
         && var request := d.request.value;
            if request.observed == |f.revisions| then
              && f'.revisions == f.revisions + [Revision(request.manifest, request.run)]
              && d' == (if Collides(request.run) then d.(request := None)
                        else d.(base := Some(Base(|f.revisions|, request.manifest)), request := None))
            else f'.revisions == f.revisions && d' == d.(request := None)
       case LoseAnswer(_) =>
         && Accepted(f, e.id) && d' == d.(request := None)
         && f'.revisions == f.revisions + [Revision(d.request.value.manifest, d.request.value.run)]
       case Crash(_) =>
         f'.revisions == f.revisions && d' == d.(request := None)
  }

  ghost predicate StepAt(fs: seq<Fleet>, events: seq<Event>, i: nat)
    requires |fs| == |events| + 1 && i < |events|
  {
    Step(fs[i], events[i], fs[i + 1])
  }

  ghost predicate Trace(fs: seq<Fleet>, events: seq<Event>) {
    && |fs| == |events| + 1
    && forall i | 0 <= i < |events| :: StepAt(fs, events, i)
  }

  ghost predicate Initial(f: Fleet) {
    && f.revisions == []
    && forall i | i in f.devices :: f.devices[i].base.None? && f.devices[i].request.None?
  }

  // ----- What every step keeps -----

  /** A base is a fully backed copy of some revision's file set. */
  ghost predicate BaseHolds(revisions: seq<Revision>, base: Option<Base>) {
    base.Some? ==>
      && base.value.revision < |revisions|
      && Backed(Some(base.value.manifest))
      && Files(base.value.manifest) == Files(revisions[base.value.revision].manifest)
  }

  /** The view's files are the files of the newest of the first `n` revisions. */
  ghost predicate ViewHolds(revisions: seq<Revision>, n: nat, view: Option<Manifest>)
    requires n <= |revisions|
  {
    && Backed(view)
    && (n == 0 ==> view.None?)
    && (n > 0 ==> view.Some? && Files(view.value) == Files(revisions[n - 1].manifest))
  }

  /** The run was planned against exactly the first `n` revisions. */
  ghost predicate PlannedAgainst(revisions: seq<Revision>, n: nat, run: Run, m: Manifest)
    requires n <= |revisions|
  {
    && WellFormed(run) && Assembles(run, m) && Backed(Some(m)) && !Unresolved(run)
    && ViewHolds(revisions, n, run.remote)
    && (run.base.Some? ==> exists k | 0 <= k < n :: Files(run.base.value) == Files(revisions[k].manifest))
  }

  ghost predicate DeviceHolds(revisions: seq<Revision>, d: Device) {
    && BaseHolds(revisions, d.base)
    && (d.request.Some? ==>
          && d.request.value.observed <= |revisions|
          && PlannedAgainst(revisions, d.request.value.observed, d.request.value.run, d.request.value.manifest))
  }

  /** Every revision was planned against those before it. */
  ghost predicate AllPlanned(revisions: seq<Revision>) {
    forall n | 0 <= n < |revisions| :: PlannedAgainst(revisions, n, revisions[n].run, revisions[n].manifest)
  }

  ghost predicate Inv(f: Fleet) {
    && (forall i | i in f.devices :: DeviceHolds(f.revisions, f.devices[i]))
    && AllPlanned(f.revisions)
  }

  lemma GrowingKeeps(revisions: seq<Revision>, more: seq<Revision>, n: nat, run: Run, m: Manifest)
    requires n <= |revisions| && revisions <= more
    ensures PlannedAgainst(revisions, n, run, m) ==> PlannedAgainst(more, n, run, m)
  {
    if PlannedAgainst(revisions, n, run, m) && run.base.Some? {
      var k :| 0 <= k < n && Files(run.base.value) == Files(revisions[k].manifest);
      assert Files(run.base.value) == Files(more[k].manifest);
    }
  }

  lemma GrowingKeepsDevice(revisions: seq<Revision>, more: seq<Revision>, d: Device)
    requires revisions <= more && DeviceHolds(revisions, d)
    ensures DeviceHolds(more, d)
  {
    if d.request.Some? {
      GrowingKeeps(revisions, more, d.request.value.observed, d.request.value.run, d.request.value.manifest);
    }
  }

  lemma HeadIsBacked(f: Fleet)
    requires Inv(f) && f.revisions != []
    ensures Backed(Head(f.revisions))
  {
    var n := |f.revisions| - 1;
    assert PlannedAgainst(f.revisions, n, f.revisions[n].run, f.revisions[n].manifest);
  }

  lemma ViewIsTheHead(f: Fleet, d: Device)
    requires BaseHolds(f.revisions, d.base) && (f.revisions != [] ==> Backed(Head(f.revisions)))
    ensures ViewHolds(f.revisions, |f.revisions|, RemoteView(f, d))
  {
  }

  lemma StartsWellFormed(f: Fleet, d: Device, run: Run)
    requires Inv(f) && BaseHolds(f.revisions, d.base) && Starts(f, d, run)
    ensures WellFormed(run) && ViewHolds(f.revisions, |f.revisions|, run.remote)
  {
    if f.revisions != [] { HeadIsBacked(f); }
    ViewIsTheHead(f, d);
  }

  lemma RequestHolds(f: Fleet, d: Device, run: Run, m: Manifest)
    requires Inv(f) && BaseHolds(f.revisions, d.base) && Starts(f, d, run)
    requires Assembles(run, m) && !Unresolved(run)
    ensures PlannedAgainst(f.revisions, |f.revisions|, run, m)
  {
    StartsWellFormed(f, d, run);
    AssembledIsBacked(run, m);
    if d.base.Some? { assert Files(run.base.value) == Files(f.revisions[d.base.value.revision].manifest); }
  }

  /** An adopted manifest has the head's files. */
  lemma AdoptedHolds(f: Fleet, d: Device, run: Run, m: Manifest)
    requires Inv(f) && BaseHolds(f.revisions, d.base) && Starts(f, d, run) && Assembles(run, m)
    requires f.revisions != [] && Listed(run) == Files(run.remote.value) && !Collides(run)
    ensures BaseHolds(f.revisions, Some(Base(|f.revisions| - 1, m)))
  {
    StartsWellFormed(f, d, run);
    AssembledIsBacked(run, m);
    ListedIsFiles(run, m);
  }

  lemma PlanKeeps(f: Fleet, d: Device, run: Run, m: Manifest, after: Device)
    requires Inv(f) && DeviceHolds(f.revisions, d) && Planned(f, d, run, m, after)
    ensures DeviceHolds(f.revisions, after)
  {
    if after.request.Some? {
      RequestHolds(f, d, run, m);
    } else if after.base != d.base {
      AdoptedHolds(f, d, run, m);
    }
  }

  lemma NewRevisionHolds(f: Fleet, e: Event, f': Fleet)
    requires e.id in f.devices && DeviceHolds(f.revisions, f.devices[e.id])
    requires Step(f, e, f') && f'.revisions != f.revisions
    ensures |f'.revisions| == |f.revisions| + 1
    ensures var n := |f.revisions|; PlannedAgainst(f.revisions, n, f'.revisions[n].run, f'.revisions[n].manifest)
  {
  }

  lemma RevisionsKeep(revisions: seq<Revision>, more: seq<Revision>)
    requires AllPlanned(revisions) && revisions <= more && |more| <= |revisions| + 1
    requires var n := |revisions|; |more| > n ==> PlannedAgainst(revisions, n, more[n].run, more[n].manifest)
    ensures AllPlanned(more)
  {
    forall n | 0 <= n < |more| ensures PlannedAgainst(more, n, more[n].run, more[n].manifest) {
      if n < |revisions| { assert PlannedAgainst(revisions, n, revisions[n].run, revisions[n].manifest); }
      GrowingKeeps(revisions, more, n, more[n].run, more[n].manifest);
    }
  }

  /** An accepted request's manifest is what the device keeps as its base. */
  lemma AcceptedHolds(f: Fleet, e: Event, f': Fleet)
    requires Inv(f) && Step(f, e, f') && f.revisions <= f'.revisions && !e.Plan?
    ensures DeviceHolds(f'.revisions, f'.devices[e.id])
  {
    assert DeviceHolds(f.revisions, f.devices[e.id]);
    GrowingKeepsDevice(f.revisions, f'.revisions, f.devices[e.id]);
  }

  lemma StepKeeps(f: Fleet, e: Event, f': Fleet)
    requires Inv(f) && Step(f, e, f')
    ensures Inv(f') && f.revisions <= f'.revisions
  {
    forall i | i in f.devices ensures DeviceHolds(f'.revisions, f'.devices[i]) {
      if i != e.id {
        GrowingKeepsDevice(f.revisions, f'.revisions, f.devices[i]);
        assert f'.devices[i] == f.devices[i];
      } else if e.Plan? {
        PlanKeeps(f, f.devices[i], e.run, e.manifest, f'.devices[i]);
      } else {
        AcceptedHolds(f, e, f');
      }
    }
    if f'.revisions != f.revisions { NewRevisionHolds(f, e, f'); }
    RevisionsKeep(f.revisions, f'.revisions);
  }

  lemma {:induction false} TraceKeeps(fs: seq<Fleet>, events: seq<Event>, i: nat)
    requires Trace(fs, events) && Inv(fs[0]) && i < |fs|
    ensures Inv(fs[i])
  {
    if i > 0 {
      TraceKeeps(fs, events, i - 1);
      assert StepAt(fs, events, i - 1);
      StepKeeps(fs[i - 1], events[i - 1], fs[i]);
    }
  }

  // ----- Theorems over every interleaving -----

  /** The closing content of a path outside the authority displaces what would have been carried. */
  predicate Displaces(run: Run, p: StorePath, kept: Option<Hash>) {
    && Scanned(run, p) && p.surface !in run.roots
    && var closing := HashOf(HomeAfter(run)[p]);
       if HasRef(run, closing) then kept != Some(closing)
       else IsFile(BaseAt(run, p)) && FileHash(BaseAt(run, p)) != kept
  }

  /**
    * No unseen overwrite, with its exact exceptions. In every interleaving of edits, plans, crashes,
    * rejected, accepted and unanswered commits: where the committer's base did not hold revision
    * n's file, revision n+1 keeps it or merges with it, except exactly when the user changed a
    * managed path while the run was under way, or a file turned up below a root the run had found
    * missing. The base is itself a copy of an earlier revision.
    */
  lemma NoUnseenOverwrite(fs: seq<Fleet>, events: seq<Event>, i: nat, n: nat, p: StorePath)
    requires Trace(fs, events) && Initial(fs[0]) && i < |fs| && n + 1 < |fs[i].revisions|
    ensures var rs := fs[i].revisions; var run, m := rs[n + 1].run, rs[n + 1].manifest;
            var before, now := FileHash(Get(rs[n].manifest, p)), FileHash(Get(m, p));
            var closing := OnDisk(HomeAfter(run), p);
            && (Managed(run, p) && before.Some? && before != FileHash(BaseAt(run, p)) ==>
                  (now != before && !MergedInto(run, m, p) <==>
                     && Disturbed(run, p) && closing != before
                     && (closing.None? || HasRef(run, closing.value) ||
                         (BaseAt(run, p).Some? && !MergesToBase(run, p)))))
            && (!InAuthority(run, p) && before.Some? ==> (now != before <==> Displaces(run, p, before)))
            && (run.base.Some? ==> exists k | 0 <= k <= n :: Files(run.base.value) == Files(rs[k].manifest))
  {
    TraceKeeps(fs, events, i);
    var rs := fs[i].revisions;
    var run, m := rs[n + 1].run, rs[n + 1].manifest;
    assert PlannedAgainst(rs, n + 1, run, m);
    FilesAt(run.remote.value, p);
    FilesAt(rs[n].manifest, p);
    var before := FileHash(Get(rs[n].manifest, p));
    assert before == FileHash(RemoteAt(run, p));
    if Managed(run, p) && before.Some? && before != FileHash(BaseAt(run, p)) {
      UnknownHeadFileReplacedExactlyWhen(run, m, p);
    }
    if !InAuthority(run, p) { CarriedForwardExactlyWhen(run, m, p); }
  }

  /**
    * A revision drops a file the previous one held exactly when its committer had deleted the file
    * it knew, deleted the file during the run, gave it new content during the run over a base
    * tombstone, or held it to be a conflict copy.
    */
  lemma DroppedFilesWereDeletedByTheCommitter(fs: seq<Fleet>, events: seq<Event>, i: nat, n: nat, p: StorePath)
    requires Trace(fs, events) && Initial(fs[0]) && i < |fs| && n + 1 < |fs[i].revisions|
    ensures var rs := fs[i].revisions; var run := rs[n + 1].run;
            var before, now := FileHash(Get(rs[n].manifest, p)), FileHash(Get(rs[n + 1].manifest, p));
            var closing := OnDisk(HomeAfter(run), p);
            before.Some? ==>
              (now.None? <==>
                 || (Managed(run, p) && p !in run.home && before == FileHash(BaseAt(run, p)))
                 || (Managed(run, p) && closing.None?)
                 || (Managed(run, p) && !HasRef(run, closing.value) && BaseAt(run, p) == Some(Tombstone))
                 || (InAuthority(run, p) && run.cfg.conflictCopy(p)))
  {
    TraceKeeps(fs, events, i);
    var rs := fs[i].revisions;
    var run, m := rs[n + 1].run, rs[n + 1].manifest;
    assert PlannedAgainst(rs, n + 1, run, m);
    FilesAt(run.remote.value, p);
    FilesAt(rs[n].manifest, p);
    if FileHash(Get(rs[n].manifest, p)).Some? { HeadFileDroppedExactlyWhen(run, m, p); }
  }

  /** A request rejected for a moved head changes nothing in the store; the device plans again. */
  lemma AcceptedOnlyAtTheObservedHead(f: Fleet, e: Event, f': Fleet)
    requires Inv(f) && Step(f, e, f') && f'.revisions != f.revisions
    ensures (e.Submit? || e.LoseAnswer?) && f.devices[e.id].request.value.observed == |f.revisions|
    ensures ViewHolds(f.revisions, |f.revisions|, f.devices[e.id].request.value.run.remote)
  {
    assert DeviceHolds(f.revisions, f.devices[e.id]);
  }

  /**
    * A submitted request is over, and its manifest becomes the head exactly if no other came in
    * between. It becomes the base too if the device hears of it and no file is listed twice.
    */
  lemma SubmitLandsExactlyWhen(f: Fleet, e: Event, f': Fleet)
    requires Step(f, e, f') && (e.Submit? || e.LoseAnswer?)
    ensures var id := e.id; f'.devices[id].request.None? && f'.devices[id].home == f.devices[id].home
    ensures var id, r := e.id, f.devices[e.id].request.value;
            var saved := r.observed == |f.revisions| && e.Submit? && !Collides(r.run);
            && f'.revisions == (if r.observed == |f.revisions| then f.revisions + [Revision(r.manifest, r.run)]
                                else f.revisions)
            && f'.devices[id].base == if saved then Some(Base(|f.revisions|, r.manifest)) else f.devices[id].base
  {
  }

  // ----- Convergence of the fleet -----

  /** A catch-up run: nothing put off, nothing to push, nothing revived, no stray copy. */
  ghost predicate CatchesUp(run: Run) {
    && Complete(run) && NothingToPush(run)
    && forall p :: !RevivedAt(run, p) && !StrayCopyAt(run, p)
  }

  /** The device mirrors the head: its base is the head and its managed files are the head's. */
  ghost predicate Mirrors(f: Fleet, d: Device, run: Run) {
    && f.revisions != [] && d.request.None?
    && d.base.Some? && d.base.value.revision == |f.revisions| - 1
    && forall p :: Managed(run, p) ==> OnDisk(d.home, p) == FileHash(Get(Head(f.revisions).value, p))
  }

  lemma CompleteDefersNothing(run: Run)
    requires Complete(run)
    ensures !Unresolved(run)
  {
    assert forall p :: run.fate(p) == Applied;
  }

  lemma CompleteRecreatesNothing(run: Run, p: StorePath)
    requires WellFormed(run) && Quiet(run) && TombstonedAt(run, p)
    ensures p !in HomeAfter(run)
  {
    HomeAfterIsPathwise(run, p);
  }

  /** Without edits under the run no path is listed twice. */
  lemma CompleteListsItsFiles(run: Run, m: Manifest)
    requires WellFormed(run) && Complete(run) && Assembles(run, m)
    ensures !Collides(run) && Listed(run) == Files(m) && !Unresolved(run)
  {
    ListedIsFiles(run, m);
    CompleteDefersNothing(run);
    forall p ensures !RecreatedAt(run, p) {
      if TombstonedAt(run, p) { CompleteRecreatesNothing(run, p); }
    }
  }

  lemma CatchUpMirrors(f: Fleet, e: Event, f': Fleet)
    requires Inv(f) && f.revisions != [] && Step(f, e, f') && e.Plan? && CatchesUp(e.run)
    ensures f'.revisions == f.revisions && Mirrors(f', f'.devices[e.id], e.run)
  {
    var d, run, head := f.devices[e.id], e.run, Head(f.revisions).value;
    assert DeviceHolds(f.revisions, d);
    var n := |f.revisions|;
    assert PlannedAgainst(f.revisions, n - 1, f.revisions[n - 1].run, f.revisions[n - 1].manifest);
    StartsWellFormed(f, d, run);
    CatchUpAddsNoRevisionExactlyWhen(run, e.manifest);
    CompleteListsItsFiles(run, e.manifest);
    assert Files(run.remote.value) == Files(head);
    assert !Unresolved(run) by { assert forall p :: run.fate(p) == Applied; }
    forall p | Managed(run, p) ensures OnDisk(HomeAfter(run), p) == FileHash(Get(head, p)) {
      CatchUpAt(run, e.manifest, p);
      FilesAt(head, p);
      FilesAt(run.remote.value, p);
    }
  }

  /** The device of a planning event mirrors the head. */
  ghost predicate MirrorsAfter(f: Fleet, e: Event) {
    e.Plan? && e.id in f.devices && Mirrors(f, f.devices[e.id], e.run)
  }

  ghost predicate PlansCatchUp(e: Event) {
    e.Plan? && CatchesUp(e.run)
  }

  lemma CatchUpStep(f: Fleet, e: Event, f': Fleet)
    requires Inv(f) && f.revisions != [] && Step(f, e, f') && PlansCatchUp(e)
    ensures Inv(f') && f'.revisions == f.revisions && MirrorsAfter(f', e)
  {
    StepKeeps(f, e, f');
    CatchUpMirrors(f, e, f');
  }

  lemma OthersStayMirrors(f: Fleet, e: Event, f': Fleet, other: Event)
    requires Step(f, e, f') && e.id != other.id && f'.revisions == f.revisions
    requires MirrorsAfter(f, other)
    ensures MirrorsAfter(f', other)
  {
    assert f'.devices[other.id] == f.devices[other.id];
  }

  /** A round in which every device plans one catch-up run. */
  ghost predicate CatchUpRound(fs: seq<Fleet>, events: seq<Event>) {
    && Trace(fs, events)
    && (forall j {:trigger PlansCatchUp(events[j])} | 0 <= j < |events| :: PlansCatchUp(events[j]))
    && (forall j, k | 0 <= j < k < |events| :: events[j].id != events[k].id)
  }

  lemma RoundStep(fs: seq<Fleet>, events: seq<Event>, i: nat)
    requires CatchUpRound(fs, events) && Inv(fs[0]) && i < |events| && fs[i].revisions != []
    ensures fs[i + 1].revisions == fs[i].revisions && MirrorsAfter(fs[i + 1], events[i])
  {
    TraceKeeps(fs, events, i);
    assert StepAt(fs, events, i) && PlansCatchUp(events[i]);
    CatchUpStep(fs[i], events[i], fs[i + 1]);
  }

  lemma {:induction false} RoundAddsNoRevision(fs: seq<Fleet>, events: seq<Event>, i: nat)
    requires CatchUpRound(fs, events) && Inv(fs[0]) && fs[0].revisions != [] && i < |fs|
    ensures fs[i].revisions == fs[0].revisions
  {
    if i > 0 {
      RoundAddsNoRevision(fs, events, i - 1);
      RoundStep(fs, events, i - 1);
    }
  }

  lemma RoundKeepsOthers(fs: seq<Fleet>, events: seq<Event>, j: nat, i: nat)
    requires CatchUpRound(fs, events) && j < i < |events|
    requires fs[i + 1].revisions == fs[i].revisions && MirrorsAfter(fs[i], events[j])
    ensures MirrorsAfter(fs[i + 1], events[j])
  {
    assert StepAt(fs, events, i);
    OthersStayMirrors(fs[i], events[i], fs[i + 1], events[j]);
  }

  /**
    * One catch-up run per device leaves the store as it is and every device that has run a mirror
    * of its head, in whatever order the devices run. `TwoRoundsConvergeExactlyWhen` says when
    * devices get there.
    */
  lemma {:induction false} FleetConverges(fs: seq<Fleet>, events: seq<Event>, j: nat, i: nat)
    requires CatchUpRound(fs, events) && Inv(fs[0]) && fs[0].revisions != [] && j < i < |fs|
    ensures fs[i].revisions == fs[0].revisions && MirrorsAfter(fs[i], events[j])
    ensures fs[i].devices[events[j].id].request.None?
  {
    RoundAddsNoRevision(fs, events, i - 1);
    RoundStep(fs, events, i - 1);
    if j < i - 1 {
      FleetConverges(fs, events, j, i - 1);
      RoundKeepsOthers(fs, events, j, i - 1);
    }
  }

  // ----- Two rounds -----

  /** The device is done with its run, or waits only for the answer to its commit. */
  ghost predicate Rests(d: Device, run: Run, m: Manifest) {
    && d.home == HomeAfter(run)
    && if d.request.Some? then d.request.value.run == run && d.request.value.manifest == m
       else d.base.Some? && Files(d.base.value.manifest) == Files(m)
  }

  lemma PlanRests(f: Fleet, e: Event, f': Fleet)
    requires Inv(f) && Step(f, e, f') && e.Plan? && Complete(e.run)
    ensures WellFormed(e.run) && Assembles(e.run, e.manifest) && Rests(f'.devices[e.id], e.run, e.manifest)
  {
    var d := f.devices[e.id];
    assert DeviceHolds(f.revisions, d);
    StartsWellFormed(f, d, e.run);
    CompleteListsItsFiles(e.run, e.manifest);
  }

  lemma RestGoesOn(f: Fleet, e: Event, f': Fleet, id: DeviceId, run: Run, m: Manifest)
    requires Step(f, e, f') && id in f.devices && Rests(f.devices[id], run, m)
    requires WellFormed(run) && Complete(run) && Assembles(run, m)
    requires e.id == id ==> e.Submit? && Accepted(f, id)
    ensures id in f'.devices && Rests(f'.devices[id], run, m)
  {
    CompleteListsItsFiles(run, m);
    if e.id != id { assert f'.devices[id] == f.devices[id]; }
  }

  ghost predicate OnlyAccepted(fs: seq<Fleet>, events: seq<Event>, t: nat, id: DeviceId)
    requires t < |events| && t < |fs|
  {
    events[t].id == id ==> events[t].Submit? && Accepted(fs[t], id)
  }

  /**
    * The device planned a complete run at `a` and is done with it by `k`: it adopted the head, kept
    * its base, or had its commit accepted. Nothing else happened on it.
    */
  ghost predicate Finishes(fs: seq<Fleet>, events: seq<Event>, a: nat, k: nat)
    requires |fs| == |events| + 1 && k <= |events|
  {
    && a < k && events[a].Plan? && Complete(events[a].run)
    && (forall t | a < t < k :: OnlyAccepted(fs, events, t, events[a].id))
    && events[a].id in fs[k].devices && fs[k].devices[events[a].id].request.None?
  }

  lemma {:induction false} RestsUntil(fs: seq<Fleet>, events: seq<Event>, a: nat, k: nat, t: nat)
    requires Trace(fs, events) && Inv(fs[0]) && k <= |events| && Finishes(fs, events, a, k) && a < t <= k
    ensures WellFormed(events[a].run) && Assembles(events[a].run, events[a].manifest)
    ensures events[a].id in fs[t].devices && Rests(fs[t].devices[events[a].id], events[a].run, events[a].manifest)
  {
    assert StepAt(fs, events, t - 1);
    if t == a + 1 {
      TraceKeeps(fs, events, a);
      PlanRests(fs[a], events[a], fs[t]);
    } else {
      RestsUntil(fs, events, a, k, t - 1);
      assert OnlyAccepted(fs, events, t - 1, events[a].id);
      RestGoesOn(fs[t - 1], events[t - 1], fs[t], events[a].id, events[a].run, events[a].manifest);
    }
  }

  /** No event of the device between `k` and `j`. */
  ghost predicate Idle(events: seq<Event>, k: nat, j: nat, id: DeviceId)
    requires j <= |events|
  {
    forall t | k <= t < j :: events[t].id != id
  }

  lemma {:induction false} UntouchedWhileIdle(fs: seq<Fleet>, events: seq<Event>, k: nat, j: nat, id: DeviceId)
    requires Trace(fs, events) && k <= j <= |events| && Idle(events, k, j, id) && id in fs[k].devices
    ensures id in fs[j].devices && fs[j].devices[id] == fs[k].devices[id]
  {
    if k < j {
      UntouchedWhileIdle(fs, events, k, j - 1, id);
      assert StepAt(fs, events, j - 1) && events[j - 1].id != id;
    }
  }

  /** The device's next run, under the same settings, complete, from the roots the first one left. */
  ghost predicate Continues(first: Event, e: Event) {
    && first.Plan? && e.Plan? && e.id == first.id && Complete(e.run)
    && e.run.cfg == first.run.cfg && RootsFollow(first.run, HomeAfter(first.run), e.run.roots)
  }

  /** From `k` on each event is the next run of a device that had finished one by then. */
  ghost predicate SecondRound(fs: seq<Fleet>, events: seq<Event>, k: nat, firsts: seq<nat>)
    requires |fs| == |events| + 1 && k <= |events|
  {
    && |firsts| == |events| - k
    && (forall j | k <= j < |events| :: SecondPlan(fs, events, k, firsts, j))
    && (forall j | k <= j < |events| :: Idle(events, k, j, events[j].id))
  }

  ghost predicate SecondPlan(fs: seq<Fleet>, events: seq<Event>, k: nat, firsts: seq<nat>, j: nat)
    requires |fs| == |events| + 1 && k <= j < |events| && |firsts| == |events| - k
  {
    Finishes(fs, events, firsts[j - k], k) && Continues(events[firsts[j - k]], events[j])
  }

  /** A plan leaves the store's revisions alone. */
  lemma {:induction false} PlansAddNoRevision(fs: seq<Fleet>, events: seq<Event>, k: nat, i: nat)
    requires Trace(fs, events) && k <= i < |fs| && forall j {:trigger events[j]} | k <= j < i :: events[j].Plan?
    ensures fs[i].revisions == fs[k].revisions
  {
    if k < i {
      PlansAddNoRevision(fs, events, k, i - 1);
      assert StepAt(fs, events, i - 1) && events[i - 1].Plan?;
    }
  }

  /** One planning step of a device with a head to look at: it asks for nothing exactly when the files agree. */
  lemma PlanAsksExactlyWhen(f: Fleet, e: Event, f': Fleet)
    requires Inv(f) && f.revisions != [] && Step(f, e, f') && e.Plan? && Complete(e.run)
    ensures WellFormed(e.run) && e.run.remote.Some? && Files(e.run.remote.value) == Files(Head(f.revisions).value)
    ensures f'.devices[e.id].request.None? <==> Files(e.manifest) == Files(e.run.remote.value)
    ensures Files(e.manifest) == Files(e.run.remote.value) ==>
              f'.devices[e.id].base == Some(Base(|f.revisions| - 1, e.manifest))
  {
    var d := f.devices[e.id];
    assert DeviceHolds(f.revisions, d);
    StartsWellFormed(f, d, e.run);
    CompleteListsItsFiles(e.run, e.manifest);
  }

  /** A second run that is calm makes its device a mirror, and one that is not leaves a commit request. */
  lemma SecondPlanMirrorsExactlyWhen(f: Fleet, e: Event, f': Fleet, first: Event)
    requires Inv(f) && f.revisions != [] && Step(f, e, f') && e.Plan? && Complete(e.run)
    requires first.Plan? && WellFormed(first.run) && Complete(first.run) && Assembles(first.run, first.manifest)
    requires Follows(first.run, first.manifest, e.run)
    ensures MirrorsAfter(f', e) <==> Calm(first.run, e.run)
    ensures f'.devices[e.id].request.None? <==> Calm(first.run, e.run)
  {
    PlanAsksExactlyWhen(f, e, f');
    FollowerAddsNoRevisionExactlyWhen(first.run, first.manifest, e.run, e.manifest);
    if Calm(first.run, e.run) {
      CompleteLeavesNothingExactlyWhen(first.run, first.manifest, e.run);
      CatchUpMirrors(f, e, f');
    }
  }

  lemma SecondPlanFollows(fs: seq<Fleet>, events: seq<Event>, k: nat, firsts: seq<nat>, j: nat)
    requires Trace(fs, events) && Inv(fs[0]) && k <= j < |events| && |firsts| == |events| - k
    requires SecondPlan(fs, events, k, firsts, j) && Idle(events, k, j, events[j].id)
    ensures var first := events[firsts[j - k]];
            && first.Plan? && WellFormed(first.run) && Complete(first.run) && Assembles(first.run, first.manifest)
            && events[j].Plan? && Complete(events[j].run) && Follows(first.run, first.manifest, events[j].run)
    ensures fs[k].revisions != []
  {
    var a := firsts[j - k];
    var first, e := events[a], events[j];
    RestsUntil(fs, events, a, k, k);
    UntouchedWhileIdle(fs, events, k, j, e.id);
    assert StepAt(fs, events, j);
    TraceKeeps(fs, events, k);
    assert DeviceHolds(fs[k].revisions, fs[k].devices[e.id]);
  }

  ghost predicate CalmAt(events: seq<Event>, a: nat, j: nat) {
    a < |events| && j < |events| && events[a].Plan? && events[j].Plan? && Calm(events[a].run, events[j].run)
  }

  lemma SecondPlanEnds(fs: seq<Fleet>, events: seq<Event>, k: nat, firsts: seq<nat>, j: nat)
    requires Trace(fs, events) && Inv(fs[0]) && k <= j < |events| && SecondRound(fs, events, k, firsts)
    ensures fs[j].revisions == fs[k].revisions == fs[j + 1].revisions
    ensures events[j].id in fs[j + 1].devices
    ensures MirrorsAfter(fs[j + 1], events[j]) <==> CalmAt(events, firsts[j - k], j)
    ensures fs[j + 1].devices[events[j].id].request.None? <==> CalmAt(events, firsts[j - k], j)
  {
    forall t {:trigger events[t]} | k <= t < |events| ensures events[t].Plan? {
      assert SecondPlan(fs, events, k, firsts, t);
    }
    PlansAddNoRevision(fs, events, k, j);
    PlansAddNoRevision(fs, events, k, j + 1);
    assert SecondPlan(fs, events, k, firsts, j);
    assert Idle(events, k, j, events[j].id);
    SecondPlanFollows(fs, events, k, firsts, j);
    TraceKeeps(fs, events, j);
    assert StepAt(fs, events, j);
    SecondPlanMirrorsExactlyWhen(fs[j], events[j], fs[j + 1], events[firsts[j - k]]);
  }

  /** No event of the device after `j`. */
  lemma LastWordOf(fs: seq<Fleet>, events: seq<Event>, k: nat, firsts: seq<nat>, j: nat, i: nat)
    requires |fs| == |events| + 1 && k <= j < i <= |events| && SecondRound(fs, events, k, firsts)
    ensures Idle(events, j + 1, i, events[j].id)
  {
    forall t | j + 1 <= t < i ensures events[t].id != events[j].id {
      assert Idle(events, k, t, events[t].id);
    }
  }

  /**
    * When the fleet settles in two rounds. Whatever happened before, once every device has finished a
    * complete run and nobody edits any more, one further run per device, in any order, adds no
    * revision; and each device that has had its turn mirrors the head, with no request left, exactly
    * when its run was calm: nothing lost with a root, revived or dropped as a stray copy.
    */
  lemma TwoRoundsConvergeExactlyWhen(fs: seq<Fleet>, events: seq<Event>, k: nat, firsts: seq<nat>, j: nat, i: nat)
    requires Trace(fs, events) && Initial(fs[0]) && k <= |events| && SecondRound(fs, events, k, firsts)
    requires k <= j < i < |fs|
    ensures fs[i].revisions == fs[k].revisions && events[j].id in fs[i].devices
    ensures MirrorsAfter(fs[i], events[j]) <==> CalmAt(events, firsts[j - k], j)
    ensures fs[i].devices[events[j].id].request.None? <==> CalmAt(events, firsts[j - k], j)
  {
    forall t {:trigger events[t]} | k <= t < |events| ensures events[t].Plan? {
      assert SecondPlan(fs, events, k, firsts, t);
    }
    PlansAddNoRevision(fs, events, k, i);
    SecondPlanEnds(fs, events, k, firsts, j);
    LastWordOf(fs, events, k, firsts, j, i);
    UntouchedWhileIdle(fs, events, j + 1, i, events[j].id);
  }
}
