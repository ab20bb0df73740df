/**
  * The rollback guard. A device remembers the heads it last saw and refuses a remote whose current
  * heads do not reach them through revision rows that are actually there.
  */
module Ancestry {
  import opened Prelude

  type RevisionId = nat

  /** The rows a listing shows: each revision's parents. */
  type Rows = map<RevisionId, seq<RevisionId>>

  const MAX_HEADS := 4

  // ----- Reachability -----

  /** A walk from one of the heads down to `id`, every revision on it present with its own row. */
  predicate Walk(rows: Rows, heads: seq<RevisionId>, p: seq<RevisionId>, id: RevisionId) {
    && p != [] && p[0] in heads && p[|p| - 1] == id
    && (forall i :: 0 <= i < |p| ==> p[i] in rows)
    && (forall i :: 0 < i < |p| ==> Child(rows, p[i - 1], p[i]))
  }

  predicate Child(rows: Rows, id: RevisionId, parent: RevisionId) {
    id in rows && parent in rows[id]
  }

  ghost predicate Reachable(rows: Rows, heads: seq<RevisionId>, id: RevisionId) {
    exists p :: Walk(rows, heads, p, id)
  }

  lemma HeadReachable(rows: Rows, heads: seq<RevisionId>, id: RevisionId)
    requires id in heads && id in rows
    ensures Reachable(rows, heads, id)
  {
    assert Walk(rows, heads, [id], id);
  }

  lemma ParentReachable(rows: Rows, heads: seq<RevisionId>, id: RevisionId, parent: RevisionId)
    requires Reachable(rows, heads, id) && Child(rows, id, parent) && parent in rows
    ensures Reachable(rows, heads, parent)
  {
    var p :| Walk(rows, heads, p, id);
    assert Walk(rows, heads, p + [parent], parent);
  }

  lemma HeadsReachable(rows: Rows, heads: seq<RevisionId>)
    ensures forall id :: id in heads && id in rows ==> Reachable(rows, heads, id)
  {
    forall id | id in heads && id in rows ensures Reachable(rows, heads, id) { HeadReachable(rows, heads, id); }
  }

  lemma ParentsReachable(rows: Rows, heads: seq<RevisionId>, id: RevisionId)
    requires id in rows && Reachable(rows, heads, id)
    ensures forall parent :: parent in rows[id] && parent in rows ==> Reachable(rows, heads, parent)
  {
    forall parent | parent in rows[id] && parent in rows ensures Reachable(rows, heads, parent) {
      assert Child(rows, id, parent);
      ParentReachable(rows, heads, id, parent);
    }
  }

  /** A set that holds the present heads and the present parents of its members holds every walk. */
  lemma {:induction false} ClosedHoldsWalks(rows: Rows, heads: seq<RevisionId>, closed: set<RevisionId>,
                                            p: seq<RevisionId>, id: RevisionId)
    requires Walk(rows, heads, p, id)
    requires forall h :: h in heads && h in rows ==> h in closed
    requires forall a, b :: a in closed && Child(rows, a, b) && b in rows ==> b in closed
    ensures id in closed
    decreases |p|
  {
    if |p| > 1 {
      var q := p[..|p| - 1];
      ClosedHoldsWalks(rows, heads, closed, q, q[|q| - 1]);
      assert Child(rows, p[|p| - 2], id);
    }
  }

  /** Everything found is reachable, and whatever is not found yet hangs off the queue. */
  ghost predicate Explored(rows: Rows, heads: seq<RevisionId>, reachable: set<RevisionId>, queue: seq<RevisionId>) {
    && reachable <= rows.Keys
    && (forall id :: (id in reachable || id in queue) && id in rows ==> Reachable(rows, heads, id))
    && (forall h :: h in heads && h in rows ==> h in reachable || h in queue)
    && (forall a, b :: a in reachable && Child(rows, a, b) && b in rows ==> b in reachable || b in queue)
  }

  lemma ExploreOne(rows: Rows, heads: seq<RevisionId>, reachable: set<RevisionId>,
                   queue: seq<RevisionId>, id: RevisionId)
    requires Explored(rows, heads, reachable, queue + [id])
    ensures id in rows ==> Explored(rows, heads, reachable + {id}, queue + rows[id])
    ensures id !in rows || id in reachable ==> Explored(rows, heads, reachable, queue)
  {
    assert forall x :: x in queue + [id] <==> x in queue || x == id;
    if id in rows { ParentsReachable(rows, heads, id); }
  }

  lemma ExploredAll(rows: Rows, heads: seq<RevisionId>, reachable: set<RevisionId>)
    requires Explored(rows, heads, reachable, [])
    ensures forall id :: id in reachable <==> Reachable(rows, heads, id)
  {
    forall id | Reachable(rows, heads, id) ensures id in reachable {
      var p :| Walk(rows, heads, p, id);
      ClosedHoldsWalks(rows, heads, reachable, p, id);
    }
  }

  /** Terminates with exactly the ids the heads reach through present rows, cyclic rows included. */
  method RemoteAncestry(rows: Rows, heads: seq<RevisionId>) returns (reachable: set<RevisionId>)
    ensures forall id :: id in reachable <==> Reachable(rows, heads, id)
  {
    HeadsReachable(rows, heads);
    reachable := {};
    var queue := heads;
    while queue != []
      invariant Explored(rows, heads, reachable, queue)
      decreases rows.Keys - reachable, |queue|
    {
      var id := queue[|queue| - 1];
      assert queue == queue[..|queue| - 1] + [id];
      queue := queue[..|queue| - 1];
      ExploreOne(rows, heads, reachable, queue, id);
      if id !in reachable && id in rows {
        reachable := reachable + {id};
        queue := queue + rows[id];
      }
    }
    ExploredAll(rows, heads, reachable);
  }

  /** The known heads the remote no longer descends from; the guard raises when there are any. */
  method LostHeads(known: seq<RevisionId>, heads: seq<RevisionId>, rows: Rows) returns (lost: seq<RevisionId>)
    ensures forall k :: k in lost <==> k in known && !Reachable(rows, heads, k)
    ensures lost == [] <==> forall k :: k in known ==> Reachable(rows, heads, k)
  {
    lost := [];
    if known == [] { return; }
    var reachable := RemoteAncestry(rows, heads);
    for i := 0 to |known|
      invariant forall k :: k in lost <==> k in known[..i] && k !in reachable
    {
      assert known[..i + 1] == known[..i] + [known[i]];
      if known[i] !in reachable { lost := lost + [known[i]]; }
    }
    assert known[..|known|] == known;
    if lost != [] { assert lost[0] in lost; }
  }

  /** Whatever was observed before the `i`th parent is a parent too, but for the revision itself; the base is last. */
  predicate TakenInOrder(heads: seq<RevisionId>, base: Option<RevisionId>, id: RevisionId,
                         parents: seq<RevisionId>, i: nat)
    requires i < |parents|
  {
    if parents[i] in heads
    then exists k | 0 <= k < |heads| :: heads[k] == parents[i] && FoundBefore(heads[..k], id, parents[..i])
    else base == Some(parents[i]) && FoundBefore(heads, id, parents[..i])
  }

  predicate FoundBefore(earlier: seq<RevisionId>, id: RevisionId, parents: seq<RevisionId>) {
    forall h :: h in earlier && h != id ==> h in parents
  }

  lemma TakeNext(heads: seq<RevisionId>, base: Option<RevisionId>, id: RevisionId, parents: seq<RevisionId>,
                 candidates: seq<RevisionId>, i: nat)
    requires i < |candidates| && candidates == heads + if base.Some? then [base.value] else []
    requires candidates[i] != id && candidates[i] !in parents
    requires forall p :: p in parents <==> p in candidates[..i] && p != id
    requires forall a | 0 <= a < |parents| :: TakenInOrder(heads, base, id, parents, a)
    ensures forall a | 0 <= a < |parents + [candidates[i]]| ::
              TakenInOrder(heads, base, id, parents + [candidates[i]], a)
  {
    var more := parents + [candidates[i]];
    forall a | 0 <= a < |more| ensures TakenInOrder(heads, base, id, more, a) {
      if a < |parents| {
        assert TakenInOrder(heads, base, id, parents, a) && more[..a] == parents[..a] && more[a] == parents[a];
      } else {
        assert more[..a] == parents;
        if i < |heads| {
          assert candidates[..i] == heads[..i] && heads[i] == more[a];
        } else {
          assert candidates[..i] == heads;
        }
      }
    }
  }

  /** The parents of a new revision: observed heads first, then the base, once each, four at most. */
  method ParentsFor(heads: seq<RevisionId>, base: Option<RevisionId>, id: RevisionId) returns (parents: seq<RevisionId>)
    ensures |parents| <= MAX_HEADS
    ensures forall i, j :: 0 <= i < j < |parents| ==> parents[i] != parents[j]
    ensures forall p :: p in parents ==> p != id && (p in heads || base == Some(p))
    ensures |heads| <= MAX_HEADS ==> forall h :: h in heads && h != id ==> h in parents
    ensures |parents| < MAX_HEADS ==> forall p :: p != id && (p in heads || base == Some(p)) ==> p in parents
    ensures forall i | 0 <= i < |parents| :: TakenInOrder(heads, base, id, parents, i)
  {
    var candidates := heads + if base.Some? then [base.value] else [];
    assert forall p :: p in candidates ==> p in heads || base == Some(p);
    parents := [];
    ghost var first := [];
    for i := 0 to |candidates|
      invariant |parents| <= i
      invariant forall a, b :: 0 <= a < b < |parents| ==> parents[a] != parents[b]
      invariant forall p :: p in parents <==> p in candidates[..i] && p != id
      invariant forall a | 0 <= a < |parents| :: TakenInOrder(heads, base, id, parents, a)
      invariant first <= parents && |first| <= |heads| && (i <= |heads| ==> first == parents)
      invariant i >= |heads| ==> forall h :: h in heads && h != id ==> h in first
    {
      assert candidates[..i + 1] == candidates[..i] + [candidates[i]];
      if candidates[i] != id && candidates[i] !in parents {
        TakeNext(heads, base, id, parents, candidates, i);
        parents := parents + [candidates[i]];
      }
      if i < |heads| { first := parents; }
      if i + 1 == |heads| { assert candidates[..|heads|] == heads; }
    }
    assert candidates[..|candidates|] == candidates;
    assert forall p :: p in parents ==> p in candidates && p != id;
    ghost var all := parents;
    if |parents| > MAX_HEADS {
      parents := parents[..MAX_HEADS];
      forall a | 0 <= a < |parents| ensures TakenInOrder(heads, base, id, parents, a) {
        assert TakenInOrder(heads, base, id, all, a) && parents[..a] == all[..a];
      }
    }
    forall p | p in parents ensures p in all {
      var i :| 0 <= i < |parents| && parents[i] == p;
      assert all[i] == p;
    }
  }

  // ----- Append-only stores -----

  datatype Row = Row(id: RevisionId, parents: seq<RevisionId>)

  predicate Appended(log: seq<Row>, id: RevisionId, n: nat)
    requires n <= |log|
  {
    exists i :: 0 <= i < n && log[i].id == id
  }

  /** Ids are unique and every parent was stored before its child. */
  ghost predicate Ordered(log: seq<Row>) {
    && (forall i, j :: 0 <= i < j < |log| ==> log[i].id != log[j].id)
    && forall i, p :: 0 <= i < |log| && p in log[i].parents ==> Appended(log, p, i)
  }

  function RowsOf(log: seq<Row>): Rows
  {
    if log == [] then map[] else RowsOf(log[..|log| - 1])[log[|log| - 1].id := log[|log| - 1].parents]
  }

  lemma {:induction false} RowsOfAt(log: seq<Row>)
    requires Ordered(log)
    ensures forall i :: 0 <= i < |log| ==> log[i].id in RowsOf(log) && RowsOf(log)[log[i].id] == log[i].parents
    ensures forall id :: id in RowsOf(log) ==> Appended(log, id, |log|)
  {
    if log != [] {
      var n := |log| - 1;
      forall i, p | 0 <= i < n && p in log[..n][i].parents ensures Appended(log[..n], p, i) {
        assert Appended(log, p, i);
        var j :| 0 <= j < i && log[j].id == p;
        assert log[..n][j].id == p;
      }
      RowsOfAt(log[..n]);
      forall i | 0 <= i < n ensures log[i].id in RowsOf(log) && RowsOf(log)[log[i].id] == log[i].parents {
        assert log[..n][i] == log[i];
      }
      forall id | id in RowsOf(log) ensures Appended(log, id, |log|) {
        if id != log[n].id {
          var i :| 0 <= i < n && log[..n][i].id == id;
          assert log[i].id == id;
        }
      }
    }
  }

  /** Stored, and nobody's parent. */
  ghost predicate IsHead(log: seq<Row>, id: RevisionId) {
    Appended(log, id, |log|) && forall j :: 0 <= j < |log| ==> id !in log[j].parents
  }

  /** A listing of the store: its maximal revisions, in some order. */
  ghost predicate Lists(log: seq<Row>, heads: seq<RevisionId>) {
    forall id :: id in heads <==> IsHead(log, id)
  }

  /** In an append-only store every revision is reachable from its maximal ones. */
  lemma {:induction false} EveryRevisionIsReachable(log: seq<Row>, heads: seq<RevisionId>, i: nat)
    requires Ordered(log) && Lists(log, heads) && i < |log|
    ensures Reachable(RowsOf(log), heads, log[i].id)
    decreases |log| - i
  {
    RowsOfAt(log);
    var id := log[i].id;
    if IsHead(log, id) {
      HeadReachable(RowsOf(log), heads, id);
    } else {
      assert Appended(log, id, |log|);
      var j :| 0 <= j < |log| && id in log[j].parents;
      assert Appended(log, id, j);
      EveryRevisionIsReachable(log, heads, j);
      assert Child(RowsOf(log), log[j].id, id);
      ParentReachable(RowsOf(log), heads, log[j].id, id);
    }
  }

  // ----- The guard over every run -----

  type DeviceId = nat

  /** The store's rows in order, and the heads each device remembers. */
  datatype World = World(log: seq<Row>, known: map<DeviceId, seq<RevisionId>>)

  datatype Event =
    | Append(row: Row)
    | Pull(dev: DeviceId, heads: seq<RevisionId>)
    | Commit(dev: DeviceId, row: Row)

  function KnownTo(w: World, dev: DeviceId): seq<RevisionId> {
    if dev in w.known then w.known[dev] else []
  }

  /** Anyone may append a row over stored parents; a pull records the listing the guard let through. */
  ghost predicate Step(w: World, e: Event, w': World) {
    match e
    case Append(row) => Ordered(w.log + [row]) && w' == World(w.log + [row], w.known)
    case Pull(dev, heads) =>
      && Lists(w.log, heads)
      && w' == (if Passes(w, dev, heads) then World(w.log, w.known[dev := heads]) else w)
    case Commit(dev, row) =>
      Ordered(w.log + [row]) && w' == World(w.log + [row], w.known[dev := [row.id]])
  }

  /** The guard's verdict on a listing of the store. */
  ghost predicate Passes(w: World, dev: DeviceId, heads: seq<RevisionId>) {
    forall k :: k in KnownTo(w, dev) ==> Reachable(RowsOf(w.log), heads, k)
  }

  ghost predicate Inv(w: World) {
    Ordered(w.log) && forall dev, k :: dev in w.known && k in w.known[dev] ==> Appended(w.log, k, |w.log|)
  }

  lemma HonestListingPasses(w: World, dev: DeviceId, heads: seq<RevisionId>)
    requires Inv(w) && Lists(w.log, heads)
    ensures Passes(w, dev, heads)
  {
    forall k | k in KnownTo(w, dev) ensures Reachable(RowsOf(w.log), heads, k) {
      assert Appended(w.log, k, |w.log|);
      var i :| 0 <= i < |w.log| && w.log[i].id == k;
      EveryRevisionIsReachable(w.log, heads, i);
    }
  }

  lemma StepKeeps(w: World, e: Event, w': World)
    requires Inv(w) && Step(w, e, w')
    ensures Inv(w') && w.log <= w'.log
  {
    if !e.Pull? {
      forall k | Appended(w.log, k, |w.log|) ensures Appended(w'.log, k, |w'.log|) {
        var i :| 0 <= i < |w.log| && w.log[i].id == k;
        assert w'.log[i].id == k;
      }
      assert w'.log[|w.log|].id == e.row.id;
    }
  }

  /** So every pull of an honest listing is remembered, for the guard to hold the next one against. */
  lemma PullIsRemembered(w: World, dev: DeviceId, heads: seq<RevisionId>, w': World)
    requires Inv(w) && Step(w, Pull(dev, heads), w')
    ensures dev in w'.known && w'.known[dev] == heads
  {
    HonestListingPasses(w, dev, heads);
  }

  ghost predicate StepAt(ws: seq<World>, events: seq<Event>, i: nat)
    requires |ws| == |events| + 1 && i < |events|
  {
    Step(ws[i], events[i], ws[i + 1])
  }

  ghost predicate Trace(ws: seq<World>, events: seq<Event>) {
    && |ws| == |events| + 1 && ws[0] == World([], map[])
    && forall i | 0 <= i < |events| :: StepAt(ws, events, i)
  }

  lemma {:induction false} TraceKeeps(ws: seq<World>, events: seq<Event>, i: nat)
    requires Trace(ws, events) && i < |ws|
    ensures Inv(ws[i])
  {
    if i > 0 {
      TraceKeeps(ws, events, i - 1);
      assert StepAt(ws, events, i - 1);
      StepKeeps(ws[i - 1], events[i - 1], ws[i]);
    }
  }

  /** Against an append-only store the guard never raises, whatever the devices did before. */
  lemma GuardNeverRaises(ws: seq<World>, events: seq<Event>, i: nat, dev: DeviceId, heads: seq<RevisionId>)
    requires Trace(ws, events) && i < |ws| && Lists(ws[i].log, heads)
    ensures Passes(ws[i], dev, heads)
    ensures dev in ws[i].known ==>
              forall k :: k in ws[i].known[dev] ==> Reachable(RowsOf(ws[i].log), heads, k)
  {
    TraceKeeps(ws, events, i);
    HonestListingPasses(ws[i], dev, heads);
  }

  /** A listing cut back to before a known head existed is always refused. */
  lemma RolledBackListingIsRefused(rows: Rows, heads: seq<RevisionId>, known: seq<RevisionId>, k: RevisionId)
    requires k in known && k !in rows
    ensures !Reachable(rows, heads, k)
  {
    forall p ensures !Walk(rows, heads, p, k) {
      if p != [] { assert p[|p| - 1] == k ==> p[|p| - 1] !in rows; }
    }
  }

  /** A commit whose parents list every head leaves itself as the only one: forks close. */
  lemma CoveringCommitIsTheOnlyHead(log: seq<Row>, heads: seq<RevisionId>, row: Row)
    requires Ordered(log + [row]) && Lists(log, heads) && forall h :: h in heads ==> h in row.parents
    ensures Lists(log + [row], [row.id])
  {
    var more := log + [row];
    assert more[|log|] == row;
    forall j, p | 0 <= j < |more| && p in more[j].parents ensures p != row.id {
      assert Appended(more, p, j);
      var i :| 0 <= i < j && more[i].id == p;
      assert more[i].id != more[|log|].id;
    }
    assert Appended(more, row.id, |more|);
    forall id | id != row.id ensures !IsHead(more, id) {
      if Appended(log, id, |log|) {
        if IsHead(log, id) {
          assert id in more[|log|].parents;
        } else {
          var j :| 0 <= j < |log| && id in log[j].parents;
          assert id in more[j].parents;
        }
      } else {
        forall i | 0 <= i < |more| ensures more[i].id != id { assert i < |log| ==> more[i].id == log[i].id; }
      }
    }
  }
}
