/**
  * Manifest integrity over whole histories: commits, adoptions, fork folds and rotations by any
  * number of devices against one ciphertext store.
  */
module Integrity {
  import opened Prelude
  import opened SyncPlan
  import opened SyncRun
  import opened Blobs
  import opened SyncSession
  import opened StoreRotation

  type DeviceId = nat

  /** A revision with the key it was committed under and the blobs its commit listed. */
  datatype Revision = Revision(manifest: Manifest, key: Key, listed: set<Ref>)

  /** A device's base: the manifest it kept, of which revision, and the key in force when it kept it. */
  datatype Base = Base(manifest: Manifest, revision: nat, key: Key)

  datatype History = History(blobs: Ciphertexts, key: Key, revisions: seq<Revision>, heads: seq<nat>,
                             bases: map<DeviceId, Base>)

  /** A commit whose device never gets to save its base, for a lost answer or a path listed twice, is not `saved`. */
  datatype Event =
    | Upload(blobs: Ciphertexts)
    | Commit(dev: DeviceId, run: Run, uploaded: Refs, refs: Refs, manifest: Manifest, shadowed: Manifest,
             heads: seq<nat>, saved: bool)
    | Adopt(dev: DeviceId, run: Run, uploaded: Refs, refs: Refs, manifest: Manifest)
    | Rotate(dev: DeviceId, newKey: Key, manifest: Manifest, blobs: Ciphertexts)

  function BaseOf(h: History, dev: DeviceId): Option<Manifest> {
    if dev in h.bases then Some(h.bases[dev].manifest) else None
  }

  predicate HeadsIntact(h: History) {
    forall i :: i in h.heads ==> i < |h.revisions| && h.revisions[i].key == h.key &&
                                 Intact(h.blobs, h.key, h.revisions[i].manifest)
  }

  /** The view a run plans against: nothing, the base if it is the only head, that head, or a fold of the heads. */
  ghost predicate Views(h: History, dev: DeviceId, view: Option<Manifest>) {
    || (h.heads == [] && view.None?)
    || (dev in h.bases && h.heads == [h.bases[dev].revision] && view == BaseOf(h, dev))
    || (|h.heads| == 1 && h.heads[0] < |h.revisions| && view == Some(h.revisions[h.heads[0]].manifest))
    || (HeadsIntact(h) ==> IntactView(h.blobs, h.key, view))
  }

  /** A run of the device that has uploaded what it needs and assembled a manifest. */
  ghost predicate Assembles(h: History, dev: DeviceId, run: Run, uploaded: Refs, refs: Refs, m: Manifest) {
    && run.base == BaseOf(h, dev) && Views(h, dev, run.remote)
    && Collected(run, uploaded, refs) && AssembledWith(run, refs, m) && OpensAll(h.blobs, h.key, uploaded)
    && !Unresolved(run)
  }

  /** The base was kept under the key now in force: no rotation has come in between. */
  predicate Fresh(h: History, dev: DeviceId) {
    dev in h.bases ==> h.bases[dev].key == h.key
  }

  ghost predicate Step(h: History, e: Event, h': History) {
    match e
    case Upload(blobs) => Extends(h.blobs, blobs) && h' == h.(blobs := blobs)
    case Commit(dev, run, uploaded, refs, m, shadowed, heads, saved) =>
      && Assembles(h, dev, run, uploaded, refs, m) && Shadows(run, refs, shadowed)
      && (forall i :: i in heads ==> i in h.heads || i == |h.revisions|)
      && var revision := Revision(m, h.key, ListedBlobs(m) + ListedBlobs(shadowed));
         h' == h.(revisions := h.revisions + [revision], heads := heads,
                  bases := if saved then h.bases[dev := Base(m, |h.revisions|, h.key)] else h.bases)
    case Adopt(dev, run, uploaded, refs, m) =>
      && Assembles(h, dev, run, uploaded, refs, m) && |h.heads| == 1
      && h' == h.(bases := h.bases[dev := Base(m, h.heads[0], h.key)])
    case Rotate(dev, newKey, m, blobs) =>
      && Extends(h.blobs, blobs) && |h.heads| == 1 && h.heads[0] < |h.revisions|
      && var head := h.revisions[h.heads[0]].manifest;
         && SameContents(m, head) && (Intact(h.blobs, h.key, head) ==> Intact(blobs, newKey, m))
         && h' == History(blobs, newKey, h.revisions + [Revision(m, newKey, ListedBlobs(m))], [|h.revisions|],
                          h.bases[dev := Base(m, |h.revisions|, newKey)])
  }

  /** Every revision and every kept base opens under its own key, and commits list all they carry. */
  ghost predicate Inv(h: History) {
    && HeadsIntact(h)
    && (forall i :: 0 <= i < |h.revisions| ==> RevisionHolds(h.blobs, h.revisions[i]))
    && (forall d :: d in h.bases ==> BaseHolds(h, h.bases[d]))
  }

  ghost predicate RevisionHolds(blobs: Ciphertexts, r: Revision) {
    Intact(blobs, r.key, r.manifest) && ListedBlobs(r.manifest) <= r.listed <= blobs.Keys
  }

  ghost predicate BaseHolds(h: History, base: Base) {
    && Intact(h.blobs, base.key, base.manifest)
    && base.revision < |h.revisions| && h.revisions[base.revision].key == base.key
  }

  /** Growth keeps what opened. */
  lemma ExtendsKeepsIntact(blobs: Ciphertexts, more: Ciphertexts, key: Key, m: Manifest)
    requires Extends(blobs, more) && Intact(blobs, key, m)
    ensures Intact(more, key, m)
  {
  }

  lemma IntactListsStored(blobs: Ciphertexts, key: Key, m: Manifest)
    requires Intact(blobs, key, m)
    ensures ListedBlobs(m) <= blobs.Keys
  {
    forall ref | ref in ListedBlobs(m) ensures ref in blobs {
      var p :| p in m && m[p].File? && m[p].blob.Some? && m[p].blob.value == ref;
      assert Opens(blobs, key, m[p].blob.value, m[p].hash);
    }
  }

  /** Whatever the key of the base, the view of a run opens. */
  lemma ViewOpens(h: History, dev: DeviceId, view: Option<Manifest>)
    requires Inv(h) && Views(h, dev, view)
    ensures IntactView(h.blobs, h.key, view)
  {
    if |h.heads| == 1 { assert h.heads[0] in h.heads; }
  }

  /** A base kept under another key holds no reference that opens now. */
  lemma StaleReferencesStayShut(h: History, dev: DeviceId, ref: Ref, hash: Hash)
    requires Inv(h) && !Fresh(h, dev) && ref in RefsFor(BaseOf(h, dev), hash)
    ensures !Opens(h.blobs, h.key, ref, hash)
  {
    var base := h.bases[dev];
    var p :| p in base.manifest && base.manifest[p].File? && base.manifest[p].hash == hash &&
             base.manifest[p].blob == Some(ref);
    assert Opens(h.blobs, base.key, ref, hash);
  }

  /**
    * What a device assembles opens exactly when its base was kept since the last rotation, or the
    * run takes no reference from it.
    */
  lemma RunAssemblesIntactExactlyWhen(h: History, dev: DeviceId, run: Run, uploaded: Refs, refs: Refs, m: Manifest)
    requires Inv(h) && Assembles(h, dev, run, uploaded, refs, m)
    ensures Intact(h.blobs, h.key, m) <==> Fresh(h, dev) || forall p :: !TakesFromBase(run, uploaded, p)
  {
    ViewOpens(h, dev, run.remote);
    if Fresh(h, dev) {
      assert IntactView(h.blobs, h.key, run.base);
      AssembledIsIntact(h.blobs, h.key, run, uploaded, refs, m, ShadowedBy(run, refs));
    } else {
      IntactExactlyWhen(h.blobs, h.key, run, uploaded, refs, m);
      forall p | TakesFromBase(run, uploaded, p) ensures !EntryOpens(h.blobs, h.key, Get(m, p)) {
        EntryTaken(h.blobs, h.key, run, uploaded, refs, p);
        assert Get(m, p) == EntryWith(run, refs, p);
        StaleReferencesStayShut(h, dev, m[p].blob.value, m[p].hash);
      }
    }
  }

  predicate Stored(blobs: Ciphertexts, e: Option<Entry>) {
    IsFile(e) && e.value.blob.Some? ==> e.value.blob.value in blobs
  }

  lemma ScanEntryIsStored(blobs: Ciphertexts, run: Run, refs: Refs, p: StorePath)
    requires forall h :: h in refs ==> refs[h] in blobs
    requires Stored(blobs, BaseAt(run, p)) && Stored(blobs, RemoteAt(run, p))
    ensures Stored(blobs, ScanEntry(run, refs, p))
  {
  }

  /** Shadowed files name stored ciphertext too, be it of an older key. */
  lemma ShadowsAreStored(h: History, dev: DeviceId, run: Run, uploaded: Refs, refs: Refs, shadowed: Manifest)
    requires Inv(h) && run.base == BaseOf(h, dev) && IntactView(h.blobs, h.key, run.remote)
    requires Collected(run, uploaded, refs) && OpensAll(h.blobs, h.key, uploaded) && Shadows(run, refs, shadowed)
    ensures ListedBlobs(shadowed) <= h.blobs.Keys
  {
    assert forall ref, hash :: ref in RefsFor(run.base, hash) ==> ref in h.blobs by {
      if dev in h.bases { assert BaseHolds(h, h.bases[dev]); }
    }
    forall hash | hash in refs ensures refs[hash] in h.blobs {
      RefTaken(h.blobs, h.key, run, uploaded, refs, hash);
    }
    forall p ensures Stored(h.blobs, Get(shadowed, p)) {
      if IsFile(BaseAt(run, p)) && BaseAt(run, p).value.blob.Some? {
        assert BaseAt(run, p).value.blob.value in RefsFor(run.base, BaseAt(run, p).value.hash);
      }
      ScanEntryIsStored(h.blobs, run, refs, p);
      assert Get(shadowed, p) == if TombstonedAt(run, p) then ScanEntry(run, refs, p) else None;
    }
    forall p | p in shadowed && shadowed[p].File? && shadowed[p].blob.Some? ensures shadowed[p].blob.value in h.blobs {
      assert Stored(h.blobs, Get(shadowed, p));
    }
  }

  /** A step is clean when its run, if it has one, starts fresh or takes nothing from its base. */
  ghost predicate Clean(h: History, e: Event) {
    match e
    case Upload(_) => true
    case Commit(dev, run, uploaded, _, _, _, _, _) => Fresh(h, dev) || forall p :: !TakesFromBase(run, uploaded, p)
    case Adopt(dev, run, uploaded, _, _) => Fresh(h, dev) || forall p :: !TakesFromBase(run, uploaded, p)
    case Rotate(_, _, _, _) => true
  }

  lemma GrowthKeeps(h: History, blobs: Ciphertexts)
    requires Inv(h) && Extends(h.blobs, blobs)
    ensures Inv(h.(blobs := blobs))
  {
    forall i | 0 <= i < |h.revisions| ensures RevisionHolds(blobs, h.revisions[i]) {
      assert RevisionHolds(h.blobs, h.revisions[i]);
      ExtendsKeepsIntact(h.blobs, blobs, h.revisions[i].key, h.revisions[i].manifest);
    }
    forall d | d in h.bases ensures BaseHolds(h.(blobs := blobs), h.bases[d]) {
      assert BaseHolds(h, h.bases[d]);
      ExtendsKeepsIntact(h.blobs, blobs, h.bases[d].key, h.bases[d].manifest);
    }
    forall i | i in h.heads ensures Intact(blobs, h.key, h.revisions[i].manifest) {
      ExtendsKeepsIntact(h.blobs, blobs, h.key, h.revisions[i].manifest);
    }
  }

  /** Any device may take any step: integrity survives it exactly when the step is clean. */
  lemma StepKeepsExactlyWhen(h: History, e: Event, h': History)
    requires Inv(h) && Step(h, e, h')
    ensures Inv(h') <==> Clean(h, e)
  {
    match e
    case Upload(blobs) => GrowthKeeps(h, blobs);
    case Commit(dev, run, uploaded, refs, m, shadowed, heads, saved) =>
      RunAssemblesIntactExactlyWhen(h, dev, run, uploaded, refs, m);
      ViewOpens(h, dev, run.remote);
      ShadowsAreStored(h, dev, run, uploaded, refs, shadowed);
      if Clean(h, e) { IntactListsStored(h.blobs, h.key, m); CommitKeeps(h, e, h'); }
      else { assert RevisionHolds(h'.blobs, h'.revisions[|h.revisions|]) ==> Intact(h.blobs, h.key, m); }
    case Adopt(dev, run, uploaded, refs, m) =>
      RunAssemblesIntactExactlyWhen(h, dev, run, uploaded, refs, m);
      assert h.heads[0] in h.heads;
      if !Clean(h, e) { assert BaseHolds(h', h'.bases[dev]) ==> Intact(h.blobs, h.key, m); }
    case Rotate(dev, newKey, m, blobs) =>
      GrowthKeeps(h, blobs);
      assert h.heads[0] in h.heads;
      IntactListsStored(blobs, newKey, m);
  }

  lemma CommitKeeps(h: History, e: Event, h': History)
    requires Inv(h) && Step(h, e, h') && e.Commit? && Intact(h.blobs, h.key, e.manifest)
    requires ListedBlobs(e.manifest) + ListedBlobs(e.shadowed) <= h.blobs.Keys
    ensures Inv(h')
  {
    forall d | d in h'.bases ensures BaseHolds(h', h'.bases[d]) {
      if d in h.bases { assert BaseHolds(h, h.bases[d]); }
    }
  }

  ghost predicate StepAt(hs: seq<History>, events: seq<Event>, i: nat)
    requires |hs| == |events| + 1 && i < |events|
  {
    Step(hs[i], events[i], hs[i + 1])
  }

  ghost predicate CleanAt(hs: seq<History>, events: seq<Event>, i: nat)
    requires |hs| == |events| + 1 && i < |events|
  {
    Clean(hs[i], events[i])
  }

  ghost predicate Trace(hs: seq<History>, events: seq<Event>) {
    && |hs| == |events| + 1 && hs[0].revisions == [] && hs[0].heads == [] && hs[0].bases == map[]
    && forall i | 0 <= i < |events| :: StepAt(hs, events, i)
  }

  lemma {:induction false} CleanTraceKeeps(hs: seq<History>, events: seq<Event>, i: nat)
    requires Trace(hs, events) && i < |hs| && forall j | 0 <= j < i :: CleanAt(hs, events, j)
    ensures Inv(hs[i])
  {
    if i > 0 {
      CleanTraceKeeps(hs, events, i - 1);
      assert StepAt(hs, events, i - 1) && CleanAt(hs, events, i - 1);
      StepKeepsExactlyWhen(hs[i - 1], events[i - 1], hs[i]);
    }
  }

  /** A history keeps every revision and base intact all along exactly when every step is clean. */
  lemma HistoryIsIntactExactlyWhen(hs: seq<History>, events: seq<Event>)
    requires Trace(hs, events)
    ensures (forall i | 0 <= i < |hs| :: Inv(hs[i])) <==> (forall i | 0 <= i < |events| :: CleanAt(hs, events, i))
  {
    if forall i | 0 <= i < |hs| :: Inv(hs[i]) {
      forall i | 0 <= i < |events| ensures CleanAt(hs, events, i) {
        assert StepAt(hs, events, i) && Inv(hs[i]) && Inv(hs[i + 1]);
        StepKeepsExactlyWhen(hs[i], events[i], hs[i + 1]);
      }
    }
    if forall i | 0 <= i < |events| :: CleanAt(hs, events, i) {
      forall i | 0 <= i < |hs| ensures Inv(hs[i]) { CleanTraceKeeps(hs, events, i); }
    }
  }

  /**
    * As long as the steps are clean, every file entry of every revision ever committed, by sync,
    * fold or rotation, leads to ciphertext of that very content under the revision's key, and the
    * commit listed the blob.
    */
  lemma EveryRevisionIsIntact(hs: seq<History>, events: seq<Event>, i: nat, n: nat, p: StorePath)
    requires Trace(hs, events) && i < |hs| && forall j | 0 <= j < i :: CleanAt(hs, events, j)
    requires n < |hs[i].revisions| && p in hs[i].revisions[n].manifest
    ensures var r, e := hs[i].revisions[n], hs[i].revisions[n].manifest[p];
            e.File? && e.blob.Some? ==>
              && e.blob.value in r.listed && e.blob.value in hs[i].blobs
              && Open(r.key, hs[i].blobs[e.blob.value]) == Some(e.hash.text)
    ensures hs[i].revisions[n].listed <= hs[i].blobs.Keys
  {
    CleanTraceKeeps(hs, events, i);
    var r := hs[i].revisions[n];
    assert RevisionHolds(hs[i].blobs, r);
    if r.manifest[p].File? && r.manifest[p].blob.Some? {
      assert Opens(hs[i].blobs, r.key, r.manifest[p].blob.value, r.manifest[p].hash);
    }
  }

  /** The device holds `text` at `p` whatever its run does to it, and sends nothing. */
  function HoldingRun(p: StorePath, text: Text, base: Manifest, head: Manifest): Run {
    Run(Config({p.surface}, {}, {p.surface}, false, _ => false, _ => false), {p.surface},
        map[p := text], map[p := text], map[p := Some(text)], Some(base), Some(head),
        _ => Applied, {}, (_, _, _, _) => Same)
  }

  /** The file's text is in the base, so that is where its reference is taken from. */
  lemma HoldingRunTakesFromBase(p: StorePath, base: Manifest, head: Manifest)
    requires p in base && base[p].File? && base[p].blob.Some?
    ensures var run := HoldingRun(p, base[p].hash.text, base, head);
            TakesFromBase(run, map[], p) && !Unresolved(run)
  {
    var run := HoldingRun(p, base[p].hash.text, base, head);
    HomeAfterIsPathwise(run, p);
    assert base[p].hash in FileHashes(run.base);
    assert ResolutionAt(run, p) != DeleteRemote && ResolutionAt(run, p) != Merge;
    forall q ensures !DeferredAt(run, q) { assert q != p ==> LocalAt(run, q).None?; }
  }

  /** A device left behind by a rotation stays harmless, whatever its runs do, exactly when its base names no blob. */
  lemma StaleDeviceIsSafeExactlyWhen(h: History, dev: DeviceId)
    requires Inv(h) && !Fresh(h, dev) && |h.heads| == 1
    ensures (forall run, uploaded, refs, m :: Assembles(h, dev, run, uploaded, refs, m) ==> Intact(h.blobs, h.key, m))
            <==> ListedBlobs(h.bases[dev].manifest) == {}
  {
    var base := h.bases[dev].manifest;
    if p :| p in base && base[p].File? && base[p].blob.Some? {
      assert base[p].blob.value in ListedBlobs(base);
      assert h.heads[0] in h.heads;
      var run := HoldingRun(p, base[p].hash.text, base, h.revisions[h.heads[0]].manifest);
      HoldingRunTakesFromBase(p, base, h.revisions[h.heads[0]].manifest);
      var refs, m := AssembleWithoutUploads(run);
      assert Assembles(h, dev, run, map[], refs, m);
      RunAssemblesIntactExactlyWhen(h, dev, run, map[], refs, m);
    } else {
      assert ListedBlobs(base) == {};
      forall run, uploaded, refs, m | Assembles(h, dev, run, uploaded, refs, m) ensures Intact(h.blobs, h.key, m) {
        forall p ensures !TakesFromBase(run, uploaded, p) {
          EntryTaken(h.blobs, h.key, run, uploaded, refs, p) by { ViewOpens(h, dev, run.remote); }
        }
        RunAssemblesIntactExactlyWhen(h, dev, run, uploaded, refs, m);
      }
    }
  }
}
