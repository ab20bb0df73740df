/** Bounded transfers: the worker pool, one upload per content, and download batches. */
module Transfers {
  import opened Prelude
  import opened SyncPlan

  const MAX_CONCURRENT_DOWNLOADS := 4

  // ----- The worker pool -----

  /** Between awaits a worker is about to take an item, busy with one, or gone. */
  datatype Worker = Idle | Busy(item: nat) | Gone

  /** `started` and `settled` record what work was begun and ended; the code keeps the rest. */
  datatype Pool = Pool(count: nat, next: nat, stopped: bool, failures: seq<nat>, workers: seq<Worker>,
                       started: seq<nat>, settled: seq<nat>)

  function Opened(count: nat, limit: nat): Pool {
    Pool(count, 0, false, [], seq(if limit < count then limit else count, _ => Idle), [], [])
  }

  datatype Step = Take(worker: nat) | Finish(worker: nat, ok: bool)

  predicate Enabled(p: Pool, s: Step) {
    s.worker < |p.workers| && if s.Take? then p.workers[s.worker].Idle? else p.workers[s.worker].Busy?
  }

  function After(p: Pool, s: Step): Pool
    requires Enabled(p, s)
  {
    match s
    case Take(w) =>
      if p.stopped then p.(workers := p.workers[w := Gone])
      else if p.next >= p.count then p.(next := p.next + 1, workers := p.workers[w := Gone])
      else p.(next := p.next + 1, workers := p.workers[w := Busy(p.next)], started := p.started + [p.next])
    case Finish(w, ok) =>
      var item := p.workers[w].item;
      var q := p.(workers := p.workers[w := Idle], settled := p.settled + [item]);
      if ok then q else q.(failures := q.failures + [item], stopped := true)
  }

  ghost predicate Runs(ps: seq<Pool>, steps: seq<Step>) {
    && |ps| == |steps| + 1
    && forall i | 0 <= i < |steps| :: StepAt(ps, steps, i)
  }

  ghost predicate StepAt(ps: seq<Pool>, steps: seq<Step>, i: nat)
    requires |ps| == |steps| + 1 && i < |steps|
  {
    Enabled(ps[i], steps[i]) && ps[i + 1] == After(ps[i], steps[i])
  }

  /** The items begun so far: a prefix of the list. */
  function Begun(p: Pool): nat {
    if p.next < p.count then p.next else p.count
  }

  ghost predicate PoolHolds(p: Pool) {
    && |p.started| == Begun(p) && (forall i :: 0 <= i < |p.started| ==> p.started[i] == i)
    && (forall a, b :: 0 <= a < b < |p.settled| ==> p.settled[a] != p.settled[b])
    && (forall a, b :: 0 <= a < b < |p.workers| && p.workers[a].Busy? && p.workers[b].Busy? ==>
          p.workers[a].item != p.workers[b].item)
    && (forall a :: 0 <= a < |p.workers| && p.workers[a].Busy? ==>
          p.workers[a].item < Begun(p) && p.workers[a].item !in p.settled)
    && (forall i :: 0 <= i < Begun(p) ==> i in p.settled || exists a :: BusyWith(p, a, i))
    && (forall i :: i in p.settled ==> i < Begun(p))
    && (forall i :: i in p.failures ==> i in p.settled)
    && (p.stopped <==> p.failures != [])
    && (forall a :: 0 <= a < |p.workers| && p.workers[a].Gone? ==> p.stopped || p.next >= p.count)
  }

  predicate BusyWith(p: Pool, a: nat, i: nat) {
    a < |p.workers| && p.workers[a] == Busy(i)
  }

  lemma OpenedHolds(count: nat, limit: nat)
    ensures PoolHolds(Opened(count, limit))
  {
  }

  lemma TakeKeeps(p: Pool, w: nat)
    requires PoolHolds(p) && Enabled(p, Take(w))
    ensures PoolHolds(After(p, Take(w)))
  {
    var q := After(p, Take(w));
    forall i | 0 <= i < Begun(q) ensures i in q.settled || exists a :: BusyWith(q, a, i) {
      if i == p.next && !p.stopped && p.next < p.count {
        assert BusyWith(q, w, i);
      } else if i !in p.settled {
        var a :| BusyWith(p, a, i);
        assert BusyWith(q, a, i);
      }
    }
  }

  lemma FinishKeeps(p: Pool, w: nat, ok: bool)
    requires PoolHolds(p) && Enabled(p, Finish(w, ok))
    ensures PoolHolds(After(p, Finish(w, ok)))
  {
    var q := After(p, Finish(w, ok));
    forall i ensures i in q.settled <==> i in p.settled || i == p.workers[w].item {}
    forall i | 0 <= i < Begun(q) ensures i in q.settled || exists a :: BusyWith(q, a, i) {
      if i !in q.settled {
        var a :| BusyWith(p, a, i);
        assert BusyWith(q, a, i);
      }
    }
  }

  lemma {:induction false} RunKeeps(ps: seq<Pool>, steps: seq<Step>, i: nat)
    requires Runs(ps, steps) && PoolHolds(ps[0]) && i < |ps|
    ensures PoolHolds(ps[i]) && ps[i].count == ps[0].count && |ps[i].workers| == |ps[0].workers|
  {
    if i > 0 {
      RunKeeps(ps, steps, i - 1);
      assert StepAt(ps, steps, i - 1);
      match steps[i - 1]
      case Take(w) => TakeKeeps(ps[i - 1], w);
      case Finish(w, ok) => FinishKeeps(ps[i - 1], w, ok);
    }
  }

  predicate Quiet(p: Pool) {
    forall a :: 0 <= a < |p.workers| ==> p.workers[a].Gone?
  }

  // ----- The pool comes to an end -----

  /** What a worker still owes: its own end, and before that the end of its item. */
  function Owes(w: Worker): nat {
    match w
    case Gone => 0
    case Idle => 1
    case Busy(_) => 2
  }

  function Weight(workers: seq<Worker>): nat {
    if workers == [] then 0 else Weight(workers[..|workers| - 1]) + Owes(workers[|workers| - 1])
  }

  /** The steps a pool has left if every item is taken. */
  function StepsLeft(p: Pool): nat
    requires Begun(p) <= p.count
  {
    2 * (p.count - Begun(p)) + Weight(p.workers)
  }

  lemma {:induction false} WeightUpdate(workers: seq<Worker>, w: nat, x: Worker)
    requires w < |workers|
    ensures Weight(workers[w := x]) + Owes(workers[w]) == Weight(workers) + Owes(x)
  {
    var n := |workers| - 1;
    if w == n {
      assert workers[w := x][..n] == workers[..n];
    } else {
      WeightUpdate(workers[..n], w, x);
      assert workers[w := x][..n] == workers[..n][w := x];
    }
  }

  lemma {:induction false} WeightOfIdle(n: nat)
    ensures Weight(seq(n, _ => Idle)) == n
  {
    if n > 0 {
      WeightOfIdle(n - 1);
      assert seq(n, _ => Idle)[..n - 1] == seq(n - 1, _ => Idle);
    }
  }

  /** Every step uses up exactly one. */
  lemma StepUsesOne(p: Pool, s: Step)
    requires Enabled(p, s)
    ensures StepsLeft(After(p, s)) + 1 == StepsLeft(p)
  {
    WeightUpdate(p.workers, s.worker, After(p, s).workers[s.worker]);
    assert After(p, s).workers == p.workers[s.worker := After(p, s).workers[s.worker]];
  }

  lemma {:induction false} StepsAreCounted(ps: seq<Pool>, steps: seq<Step>, i: nat)
    requires Runs(ps, steps) && i < |ps|
    ensures StepsLeft(ps[i]) + i == StepsLeft(ps[0])
  {
    if i > 0 {
      StepsAreCounted(ps, steps, i - 1);
      assert StepAt(ps, steps, i - 1);
      StepUsesOne(ps[i - 1], steps[i - 1]);
    }
  }

  /** No step is possible any more. */
  ghost predicate Ended(p: Pool) {
    forall s :: !Enabled(p, s)
  }

  /**
    * The pool always comes to an end: no run is longer than two steps per item and one per worker,
    * and as long as a worker is there some step is possible.
    */
  lemma RunsEnd(count: nat, limit: nat, ps: seq<Pool>, steps: seq<Step>)
    requires Runs(ps, steps) && ps[0] == Opened(count, limit)
    ensures |steps| <= 2 * count + (if limit < count then limit else count)
    ensures Ended(ps[|steps|]) <==> Quiet(ps[|steps|])
  {
    StepsAreCounted(ps, steps, |steps|);
    WeightOfIdle(if limit < count then limit else count);
    var p := ps[|steps|];
    if Ended(p) {
      forall a: nat | a < |p.workers| ensures p.workers[a].Gone? {
        assert !Enabled(p, Take(a)) && !Enabled(p, Finish(a, true));
      }
    }
  }

  // ----- What the pool throws -----

  /** Step `j` ends the work on the item with a failure. */
  ghost predicate FailsAt(ps: seq<Pool>, steps: seq<Step>, j: nat, item: nat)
    requires |ps| == |steps| + 1 && j < |steps|
  {
    steps[j].Finish? && !steps[j].ok && BusyWith(ps[j], steps[j].worker, item)
  }

  ghost predicate Failed(ps: seq<Pool>, steps: seq<Step>, n: nat, item: nat)
    requires |ps| == |steps| + 1 && n <= |steps|
  {
    exists j | 0 <= j < n :: FailsAt(ps, steps, j, item)
  }

  lemma {:induction false} FailuresAreTheFailedWork(ps: seq<Pool>, steps: seq<Step>, n: nat, item: nat)
    requires Runs(ps, steps) && ps[0].failures == [] && n <= |steps|
    ensures item in ps[n].failures <==> Failed(ps, steps, n, item)
  {
    if n > 0 {
      FailuresAreTheFailedWork(ps, steps, n - 1, item);
      assert StepAt(ps, steps, n - 1);
      if FailsAt(ps, steps, n - 1, item) { assert Failed(ps, steps, n, item); }
      if Failed(ps, steps, n - 1, item) {
        var j :| 0 <= j < n - 1 && FailsAt(ps, steps, j, item);
        assert Failed(ps, steps, n, item);
      }
    }
  }

  lemma {:induction false} OnceStopped(ps: seq<Pool>, steps: seq<Step>, i: nat, j: nat)
    requires Runs(ps, steps) && i <= j < |ps| && ps[i].stopped
    ensures ps[j].stopped && ps[j].started == ps[i].started
  {
    if i < j {
      OnceStopped(ps, steps, i, j - 1);
      assert StepAt(ps, steps, j - 1);
    }
  }

  /** Once some work has failed nothing more is begun. */
  lemma NothingBegunAfterAFailure(count: nat, limit: nat, ps: seq<Pool>, steps: seq<Step>, i: nat, j: nat, item: nat)
    requires Runs(ps, steps) && ps[0] == Opened(count, limit) && i <= j < |ps| && Failed(ps, steps, i, item)
    ensures ps[j].started == ps[i].started
  {
    OpenedHolds(count, limit);
    RunKeeps(ps, steps, i);
    FailuresAreTheFailedWork(ps, steps, i, item);
    OnceStopped(ps, steps, i, j);
  }

  /** What the pool throws after a run: nothing if no work failed, else the failed item with the lowest index. */
  method FirstFailure(failures: seq<nat>, ghost ps: seq<Pool>, ghost steps: seq<Step>) returns (first: Option<nat>)
    requires Runs(ps, steps) && ps[0].failures == [] && failures == ps[|steps|].failures
    ensures first.None? <==> forall i :: !Failed(ps, steps, |steps|, i)
    ensures first.Some? ==> Failed(ps, steps, |steps|, first.value)
    ensures first.Some? ==> forall i :: Failed(ps, steps, |steps|, i) ==> first.value <= i
  {
    first := None;
    for j := 0 to |failures|
      invariant first.None? <==> j == 0
      invariant first.Some? ==> first.value in failures && forall i :: 0 <= i < j ==> first.value <= failures[i]
    {
      if first.None? || failures[j] < first.value { first := Some(failures[j]); }
    }
    forall i
      ensures i in failures <==> Failed(ps, steps, |steps|, i)
    {
      FailuresAreTheFailedWork(ps, steps, |steps|, i);
    }
    assert failures != [] ==> failures[0] in failures;
  }

  /** The busy workers' items. */
  function InFlight(workers: seq<Worker>): seq<nat> {
    if workers == [] then []
    else InFlight(workers[..|workers| - 1]) +
         (if workers[|workers| - 1].Busy? then [workers[|workers| - 1].item] else [])
  }

  lemma {:induction false} InFlightBound(workers: seq<Worker>)
    ensures |InFlight(workers)| <= |workers|
  {
    if workers != [] { InFlightBound(workers[..|workers| - 1]); }
  }

  /**
    * At every moment of every interleaving: the items begun are a prefix of the list, each begun
    * once, and no more than `limit` of them are under way.
    */
  lemma StartsAPrefixWithinTheLimit(count: nat, limit: nat, ps: seq<Pool>, steps: seq<Step>, i: nat)
    requires Runs(ps, steps) && ps[0] == Opened(count, limit) && i < |ps|
    ensures |ps[i].started| <= count && forall j :: 0 <= j < |ps[i].started| ==> ps[i].started[j] == j
    ensures |InFlight(ps[i].workers)| <= limit
  {
    OpenedHolds(count, limit);
    RunKeeps(ps, steps, i);
    InFlightBound(ps[i].workers);
  }

  /**
    * Every run ends after boundedly many steps, and then all begun work has ended. Without a failure
    * that is the whole list, provided the limit admits a worker at all; with a limit of zero nothing
    * is ever begun.
    */
  lemma EndsWithEverythingSettled(count: nat, limit: nat, ps: seq<Pool>, steps: seq<Step>)
    requires Runs(ps, steps) && ps[0] == Opened(count, limit)
    ensures |steps| == 2 * count + (if limit < count then limit else count) ==> Ended(ps[|steps|])
    ensures |steps| <= 2 * count + (if limit < count then limit else count)
    ensures var p := ps[|steps|];
            Ended(p) ==>
            && (forall i :: i in p.started <==> i in p.settled)
            && (p.failures == [] && limit > 0 ==> forall i :: 0 <= i < count ==> i in p.settled)
            && (limit == 0 ==> p.started == [])
  {
    var p := ps[|steps|];
    RunsEnd(count, limit, ps, steps);
    StepsAreCounted(ps, steps, |steps|);
    WeightOfIdle(if limit < count then limit else count);
    if StepsLeft(p) == 0 {
      forall s ensures !Enabled(p, s) { if Enabled(p, s) { StepUsesOne(p, s); } }
    }
    if Ended(p) { QuietIsSettled(count, limit, ps, steps); }
  }

  lemma QuietIsSettled(count: nat, limit: nat, ps: seq<Pool>, steps: seq<Step>)
    requires Runs(ps, steps) && ps[0] == Opened(count, limit) && Quiet(ps[|steps|])
    ensures var p := ps[|steps|];
            && (forall i :: i in p.started <==> i in p.settled)
            && (p.failures == [] && limit > 0 ==> forall i :: 0 <= i < count ==> i in p.settled)
            && (limit == 0 ==> p.started == [])
  {
    var p := ps[|steps|];
    OpenedHolds(count, limit);
    RunKeeps(ps, steps, |steps|);
    forall i: nat ensures i in p.started <==> i in p.settled {
      NobodyBusy(p, i);
      if i < Begun(p) { assert p.started[i] == i; }
    }
    if p.failures == [] && limit > 0 && count > 0 {
      assert p.workers[0].Gone?;
      forall i | 0 <= i < count ensures i in p.settled { assert p.started[i] == i; }
    }
    if limit == 0 { NoWorkersNoWork(ps, steps); }
  }

  lemma NobodyBusy(p: Pool, i: nat)
    requires Quiet(p)
    ensures forall a :: !BusyWith(p, a, i)
  {
  }

  lemma NoWorkersNoWork(ps: seq<Pool>, steps: seq<Step>)
    requires Runs(ps, steps) && ps[0].workers == []
    ensures steps == []
  {
    if steps != [] { FirstStepEnabled(ps, steps); }
  }

  lemma FirstStepEnabled(ps: seq<Pool>, steps: seq<Step>)
    requires Runs(ps, steps) && steps != []
    ensures Enabled(ps[0], steps[0])
  {
    assert StepAt(ps, steps, 0);
  }

  // ----- One put per content -----

  /** An entry of the in-flight table: its put is out, or it has settled and awaits removal. */
  datatype Flight = Out | Settled(ok: bool)

  /** `puts` counts the uploads outstanding for each content, `made` those ever begun. */
  datatype Uploads = Uploads(known: set<Hash>, flights: map<Hash, Flight>, puts: map<Hash, nat>, made: map<Hash, nat>)

  datatype UploadStep = Request(hash: Hash) | Settle(hash: Hash, success: bool) | Clear(hash: Hash)

  function CountOf(m: map<Hash, nat>, h: Hash): nat {
    if h in m then m[h] else 0
  }

  /** A request joins what is known or in flight, and only otherwise begins a put. */
  predicate UploadStepped(u: Uploads, s: UploadStep, u': Uploads) {
    var h := s.hash;
    match s
    case Request(_) =>
      if h in u.known || h in u.flights then u' == u
      else u' == Uploads(u.known, u.flights[h := Out], u.puts[h := CountOf(u.puts, h) + 1],
                          u.made[h := CountOf(u.made, h) + 1])
    case Settle(_, success) =>
      && h in u.flights && u.flights[h].Out? && CountOf(u.puts, h) > 0
      && u' == Uploads(if success then u.known + {h} else u.known, u.flights[h := Flight.Settled(success)],
                       u.puts[h := CountOf(u.puts, h) - 1], u.made)
    case Clear(_) =>
      && h in u.flights && u.flights[h].Settled?
      && u' == u.(flights := u.flights - {h})
  }

  /** A put is out exactly while the table says so, and content once known is never sent again. */
  ghost predicate UploadsHold(u: Uploads) {
    forall h {:trigger CountOf(u.puts, h)} ::
      && CountOf(u.puts, h) == (if h in u.flights && u.flights[h].Out? then 1 else 0)
      && (h in u.known ==> h !in u.flights || u.flights[h] == Flight.Settled(true))
      && (h in u.flights && u.flights[h] == Flight.Settled(true) ==> h in u.known)
  }

  ghost predicate UploadStepAt(us: seq<Uploads>, steps: seq<UploadStep>, i: nat)
    requires |us| == |steps| + 1 && i < |steps|
  {
    UploadStepped(us[i], steps[i], us[i + 1])
  }

  ghost predicate UploadRun(us: seq<Uploads>, steps: seq<UploadStep>) {
    && |us| == |steps| + 1 && us[0].flights == map[] && us[0].puts == map[] && us[0].made == map[]
    && forall i | 0 <= i < |steps| :: UploadStepAt(us, steps, i)
  }

  lemma UploadStepKeeps(u: Uploads, s: UploadStep, u': Uploads)
    requires UploadsHold(u) && UploadStepped(u, s, u')
    ensures UploadsHold(u')
  {
    assert CountOf(u.puts, s.hash) == if s.hash in u.flights && u.flights[s.hash].Out? then 1 else 0;
    forall h ensures h != s.hash ==> CountOf(u'.puts, h) == CountOf(u.puts, h) {}
  }

  /** However calls, completions and failures interleave, no content has two puts outstanding. */
  lemma {:induction false} OnePutPerContent(us: seq<Uploads>, steps: seq<UploadStep>, i: nat, h: Hash)
    requires UploadRun(us, steps) && i < |us|
    ensures UploadsHold(us[i]) && CountOf(us[i].puts, h) <= 1
  {
    if i > 0 {
      OnePutPerContent(us, steps, i - 1, h);
      assert UploadStepAt(us, steps, i - 1);
      UploadStepKeeps(us[i - 1], steps[i - 1], us[i]);
    }
    assert CountOf(us[i].puts, h) == if h in us[i].flights && us[i].flights[h].Out? then 1 else 0;
  }

  /** Content a run knows is never sent again. */
  lemma {:induction false} KnownContentIsNotSentAgain(us: seq<Uploads>, steps: seq<UploadStep>, i: nat, j: nat, h: Hash)
    requires UploadRun(us, steps) && i <= j < |us| && h in us[i].known
    ensures h in us[j].known && CountOf(us[j].made, h) == CountOf(us[i].made, h)
  {
    if i < j {
      KnownContentIsNotSentAgain(us, steps, i, j - 1, h);
      assert UploadStepAt(us, steps, j - 1);
    }
  }

  // ----- Download batches -----

  /** The blobs one plan entry needs: the remote one, and the base one when it will be merged. */
  function BlobRefsFor(f: PlanFile): (refs: seq<Ref>)
    ensures |refs| <= 2
  {
    (if IsFile(f.remote) && f.remote.value.blob.Some? then [f.remote.value.blob.value] else []) +
    (if f.resolution == Merge && IsFile(f.base) && f.base.value.blob.Some? then [f.base.value.blob.value] else [])
  }

  /** Applying this file will open the blob: the head's, or for a merge the base's too. */
  predicate Needs(f: PlanFile, r: Ref) {
    || (f.remote.Some? && f.remote.value.File? && f.remote.value.blob == Some(r))
    || (f.resolution == Merge && f.base.Some? && f.base.value.File? && f.base.value.blob == Some(r))
  }

  function RefSet(refs: seq<Ref>): set<Ref> {
    set r | r in refs
  }

  function IdsOf(batch: seq<PlanFile>): set<Ref> {
    if batch == [] then {}
    else IdsOf(batch[..|batch| - 1]) + RefSet(BlobRefsFor(batch[|batch| - 1]))
  }

  /** How many of a file's references are not in the batch yet; one named twice counts twice. */
  function NewIds(ids: set<Ref>, refs: seq<Ref>): nat {
    if refs == [] then 0 else (if refs[0] in ids then 0 else 1) + NewIds(ids, refs[1..])
  }

  lemma {:induction false} NewIdsBound(ids: set<Ref>, refs: seq<Ref>)
    ensures |ids + RefSet(refs)| <= |ids| + NewIds(ids, refs) && NewIds(ids, refs) <= |refs|
  {
    if refs == [] {
      assert ids + RefSet(refs) == ids;
    } else {
      NewIdsBound(ids, refs[1..]);
      assert refs == [refs[0]] + refs[1..];
      assert ids + RefSet(refs) == (ids + RefSet(refs[1..])) + {refs[0]};
      if refs[0] in ids { assert ids + RefSet(refs) == ids + RefSet(refs[1..]); }
    }
  }

  /** A batch fetches exactly the blobs its files need. */
  lemma {:induction false} BatchFetchesWhatItsFilesNeed(batch: seq<PlanFile>, r: Ref)
    ensures r in IdsOf(batch) <==> exists i | 0 <= i < |batch| :: Needs(batch[i], r)
  {
    if batch != [] {
      var n := |batch| - 1;
      BatchFetchesWhatItsFilesNeed(batch[..n], r);
      assert r in RefSet(BlobRefsFor(batch[n])) <==> Needs(batch[n], r);
      if i :| 0 <= i < |batch| && Needs(batch[i], r) && i < n { assert Needs(batch[..n][i], r); }
      if i :| 0 <= i < |batch[..n]| && Needs(batch[..n][i], r) { assert Needs(batch[i], r); }
    }
  }

  lemma {:induction false} NewIdsAreTheNewOnes(ids: set<Ref>, refs: seq<Ref>)
    requires forall i, j :: 0 <= i < j < |refs| ==> refs[i] != refs[j]
    ensures |ids + RefSet(refs)| == |ids| + NewIds(ids, refs)
  {
    if refs == [] {
      assert ids + RefSet(refs) == ids;
    } else {
      NewIdsAreTheNewOnes(ids, refs[1..]);
      assert refs == [refs[0]] + refs[1..] && refs[0] !in refs[1..];
      assert ids + RefSet(refs) == (ids + RefSet(refs[1..])) + {refs[0]};
      if refs[0] in ids { assert ids + RefSet(refs) == ids + RefSet(refs[1..]); }
    }
  }

  /** The next batch's first file would have taken this one beyond four blobs, unless it names one blob twice. */
  lemma NextFileDidNotFit(batch: seq<PlanFile>, next: seq<PlanFile>)
    requires Full(batch, next)
    ensures var refs := BlobRefsFor(next[0]);
            || |IdsOf(batch + [next[0]])| > MAX_CONCURRENT_DOWNLOADS
            || (|refs| == 2 && refs[0] == refs[1] && |IdsOf(batch)| + 2 > MAX_CONCURRENT_DOWNLOADS)
  {
    var refs := BlobRefsFor(next[0]);
    AddFile(batch, next[0]);
    NewIdsBound(IdsOf(batch), refs);
    if forall i, j :: 0 <= i < j < |refs| ==> refs[i] != refs[j] { NewIdsAreTheNewOnes(IdsOf(batch), refs); }
  }

  function Concat(batches: seq<seq<PlanFile>>): seq<PlanFile> {
    if batches == [] then [] else Concat(batches[..|batches| - 1]) + batches[|batches| - 1]
  }

  predicate Fits(batch: seq<PlanFile>) {
    batch != [] && |IdsOf(batch)| <= MAX_CONCURRENT_DOWNLOADS
  }

  /** The next batch opens only because its first file did not fit into the previous one. */
  predicate Full(batch: seq<PlanFile>, next: seq<PlanFile>) {
    next != [] && |IdsOf(batch)| + NewIds(IdsOf(batch), BlobRefsFor(next[0])) > MAX_CONCURRENT_DOWNLOADS
  }

  /** The batches closed so far hold `files` in order, each as full as it can be. */
  predicate Batched(batches: seq<seq<PlanFile>>, files: seq<PlanFile>) {
    && Concat(batches) == files
    && (forall i :: 0 <= i < |batches| ==> Fits(batches[i]))
    && (forall i :: 0 < i < |batches| ==> Full(batches[i - 1], batches[i]))
  }

  lemma CloseBatch(batches: seq<seq<PlanFile>>, done: seq<PlanFile>, batch: seq<PlanFile>)
    requires Batched(batches, done) && Fits(batch)
    requires batches != [] ==> Full(batches[|batches| - 1], batch)
    ensures Batched(batches + [batch], done + batch)
  {
    var more := batches + [batch];
    assert more[..|batches|] == batches;
    forall i | 0 <= i < |more| ensures Fits(more[i]) && (i > 0 ==> Full(more[i - 1], more[i])) {
      if i < |batches| { assert more[i] == batches[i]; } else { assert more[i] == batch; }
    }
  }

  lemma AddFile(batch: seq<PlanFile>, f: PlanFile)
    ensures IdsOf(batch + [f]) == IdsOf(batch) + RefSet(BlobRefsFor(f))
    ensures |IdsOf(batch + [f])| <= |IdsOf(batch)| + NewIds(IdsOf(batch), BlobRefsFor(f))
    ensures batch == [] ==> Fits(batch + [f])
  {
    assert (batch + [f])[..|batch|] == batch;
    NewIdsBound(IdsOf(batch), BlobRefsFor(f));
  }

  /** The batches closed so far and the one being filled. */
  ghost predicate Filling(batches: seq<seq<PlanFile>>, batch: seq<PlanFile>, ids: set<Ref>,
                          files: seq<PlanFile>, done: seq<PlanFile>)
  {
    && Batched(batches, done) && done + batch == files && ids == IdsOf(batch)
    && (if files == [] then batches == [] && batch == [] else Fits(batch))
    && (batches != [] ==> Full(batches[|batches| - 1], batch))
  }

  lemma FillNone()
    ensures Filling([], [], {}, [], [])
  {
  }

  lemma FlushLast(batches: seq<seq<PlanFile>>, batch: seq<PlanFile>, ids: set<Ref>,
                  files: seq<PlanFile>, done: seq<PlanFile>)
    requires Filling(batches, batch, ids, files, done)
    ensures Batched(if batch == [] then batches else batches + [batch], files)
  {
    if batch == [] {
      assert done + batch == done;
    } else {
      CloseBatch(batches, done, batch);
    }
  }

  method PlaceFile(batches: seq<seq<PlanFile>>, batch: seq<PlanFile>, ids: set<Ref>, f: PlanFile,
                   ghost files: seq<PlanFile>, ghost done: seq<PlanFile>)
    returns (batches': seq<seq<PlanFile>>, batch': seq<PlanFile>, ids': set<Ref>, ghost done': seq<PlanFile>)
    requires Filling(batches, batch, ids, files, done)
    ensures Filling(batches', batch', ids', files + [f], done')
  {
    batches', batch', ids', done' := batches, batch, ids, done;
    var refs := BlobRefsFor(f);
    if batch != [] && |ids| + NewIds(ids, refs) > MAX_CONCURRENT_DOWNLOADS {
      CloseBatch(batches, done, batch);
      batches', batch', ids', done' := batches + [batch], [], {}, done + batch;
    }
    AddFile(batch', f);
    assert done' + (batch' + [f]) == files + [f];
    if batch' != [] { assert (batch' + [f])[0] == batch'[0]; }
    batch' := batch' + [f];
    ids' := ids' + set r | r in refs;
  }

  /**
    * Splits the files in order into non-empty batches of at most four distinct blobs, each batch
    * taking as many files as fit.
    */
  method TransferBatches(files: seq<PlanFile>) returns (batches: seq<seq<PlanFile>>)
    ensures Batched(batches, files)
  {
    batches := [];
    var batch: seq<PlanFile>, ids: set<Ref> := [], {};
    ghost var done := [];
    FillNone();
    assert files[..0] == [];
    for i := 0 to |files|
      invariant Filling(batches, batch, ids, files[..i], done)
    {
      assert files[..i + 1] == files[..i] + [files[i]];
      batches, batch, ids, done := PlaceFile(batches, batch, ids, files[i], files[..i], done);
    }
    assert files[..|files|] == files;
    FlushLast(batches, batch, ids, files, done);
    if batch != [] { batches := batches + [batch]; }
  }
}
