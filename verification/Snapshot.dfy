/**
  * The pinned snapshot. Three independently moving heads are each read twice; when both readings
  * agree there was one moment at which all three held the pinned values together.
  */
module Snapshot {
  import opened Prelude
  import opened Heads

  type RevisionId = nat

  /** What the remote holds at one moment: revision rows by id, and the two heads. */
  datatype World = World(rows: set<RevisionId>, profile: Option<Head>, vault: Option<Head>)

  /** A listing: all rows in the remote's order, and those no other row has as a parent. */
  datatype Listing = Listing(revisions: seq<RevisionId>, heads: seq<RevisionId>) {
    /** A fork has no single head, and neither has an empty store. */
    function Head(): Option<RevisionId> {
      if |heads| == 1 then Some(heads[0]) else None
    }
  }

  /** The order and the heads follow from the rows, which never change once written. */
  type Lister = set<RevisionId> -> Listing

  ghost predicate ListsAll(lists: Lister) {
    forall rows, id :: id in lists(rows).revisions <==> id in rows
  }

  /** Moments are numbered; `world(t)` is the remote at moment t. */
  type Timeline = nat -> World

  /** A head stays, or is replaced by one that carries the next generation. */
  predicate HeadMoves(before: Option<Head>, after: Option<Head>) {
    after == before || (after.Some? && Count(after) == Count(before) + 1)
  }

  /** One moment to the next: rows are added, heads move, in any combination. */
  predicate Evolves(before: World, after: World) {
    && before.rows <= after.rows
    && HeadMoves(before.profile, after.profile) && HeadMoves(before.vault, after.vault)
  }

  /** What the server's heads do is among it: nothing, a new row, or a write of the next generation. */
  lemma ServersEvolve(w: World, id: RevisionId, blob: BlobRef)
    ensures Evolves(w, w) && Evolves(w, w.(rows := w.rows + {id}))
    ensures Evolves(w, w.(profile := Some(Head(blob, if w.profile.None? then 1 else w.profile.value.generation + 1))))
    ensures Evolves(w, w.(vault := Some(Head(blob, if w.vault.None? then 1 else w.vault.value.generation + 1))))
  {
  }

  ghost predicate Live(world: Timeline) {
    forall t: nat :: Evolves(world(t), world(t + 1))
  }

  /** Generations only grow, and a head that kept its generation never changed. */
  lemma {:induction false} HeadsAreMonotone(world: Timeline, t: nat, u: nat)
    requires Live(world) && t <= u
    ensures world(t).rows <= world(u).rows
    ensures Count(world(t).profile) <= Count(world(u).profile) && Count(world(t).vault) <= Count(world(u).vault)
    ensures Count(world(t).profile) == Count(world(u).profile) ==> world(t).profile == world(u).profile
    ensures Count(world(t).vault) == Count(world(u).vault) ==> world(t).vault == world(u).vault
    decreases u - t
  {
    if t < u {
      HeadsAreMonotone(world, t, u - 1);
      assert Evolves(world(u - 1), world(u - 1 + 1));
    }
  }

  /** Two equal readings hold for everything between them, wherever new rows would be listed. */
  lemma EqualReadingsHoldBetween(world: Timeline, lists: Lister, t: nat, m: nat, u: nat)
    requires Live(world) && ListsAll(lists) && t <= m <= u
    ensures lists(world(t).rows) == lists(world(u).rows) ==> lists(world(m).rows) == lists(world(t).rows)
    ensures world(t).profile == world(u).profile ==> world(m).profile == world(t).profile
    ensures world(t).vault == world(u).vault ==> world(m).vault == world(t).vault
  {
    HeadsAreMonotone(world, t, m);
    HeadsAreMonotone(world, m, u);
    if lists(world(t).rows) == lists(world(u).rows) {
      assert world(m).rows == world(t).rows by {
        forall id | id in world(u).rows ensures id in world(t).rows { assert id in lists(world(u).rows).revisions; }
      }
    }
  }

  /** What a remote can do; an unsupported head reads as absent both times. */
  datatype Supports = Supports(profile: bool, vault: bool)

  datatype Pinned = Pinned(listing: Listing, profile: Option<Head>, vault: Option<Head>)

  datatype SnapshotError = EmptyProfile | ProfileChanging

  function ProfileAt(w: World, s: Supports): Option<Head> { if s.profile then w.profile else None }

  function VaultAt(w: World, s: Supports): Option<Head> { if s.vault then w.vault else None }

  /** The pinned values are what the remote held at moment t. */
  predicate HeldAt(world: Timeline, lists: Lister, s: Supports, p: Pinned, t: nat) {
    && p.listing == lists(world(t).rows)
    && p.profile == (if s.profile then world(t).profile else None)
    && p.vault == (if s.vault then world(t).vault else None)
  }

  /** Read number k of attempt a happens at moment `at(6 * a + k)`. */
  ghost predicate Ascending(at: nat -> nat) {
    forall i: nat, j: nat :: i <= j ==> at(i) <= at(j)
  }

  /** An attempt's two rounds of readings disagree somewhere. */
  predicate Disagrees(world: Timeline, lists: Lister, s: Supports, at: nat -> nat, a: nat) {
    || lists(world(at(6 * a)).rows) != lists(world(at(6 * a + 5)).rows)
    || ProfileAt(world(at(6 * a + 1)), s) != ProfileAt(world(at(6 * a + 4)), s)
    || VaultAt(world(at(6 * a + 2)), s) != VaultAt(world(at(6 * a + 3)), s)
  }

  /** Agreeing takes all three: the listing, and each head the remote supports, read the same twice. */
  lemma AgreesExactlyWhen(world: Timeline, lists: Lister, s: Supports, at: nat -> nat, a: nat)
    ensures !Disagrees(world, lists, s, at, a) <==>
              && lists(world(at(6 * a)).rows) == lists(world(at(6 * a + 5)).rows)
              && (s.profile ==> world(at(6 * a + 1)).profile == world(at(6 * a + 4)).profile)
              && (s.vault ==> world(at(6 * a + 2)).vault == world(at(6 * a + 3)).vault)
  {
  }

  const ATTEMPTS := 4

  /**
    * Reads revisions, profile and vault, then vault, profile and revisions again, up to four times.
    * Success comes with a moment at which all pinned values held; giving up means every attempt saw
    * something move. A fork reads like an empty store: it has no single head.
    */
  method Capture(world: Timeline, lists: Lister, s: Supports, at: nat -> nat)
    returns (r: Result<Pinned, SnapshotError>, ghost moment: nat)
    requires Live(world) && ListsAll(lists) && Ascending(at)
    ensures r.Ok? ==> |r.value.listing.heads| == 1 && HeldAt(world, lists, s, r.value, moment)
    ensures r.Ok? ==> exists a | 0 <= a < ATTEMPTS :: !Disagrees(world, lists, s, at, a) && moment == at(6 * a + 2)
    ensures r == Err(ProfileChanging) ==> forall a | 0 <= a < ATTEMPTS :: Disagrees(world, lists, s, at, a)
    ensures r == Err(EmptyProfile) ==> |lists(world(moment).rows).heads| != 1
  {
    moment := 0;
    for a := 0 to ATTEMPTS
      invariant forall b | 0 <= b < a :: Disagrees(world, lists, s, at, b)
    {
      var revisions := lists(world(at(6 * a)).rows);
      if revisions.Head().None? { return Err(EmptyProfile), at(6 * a); }
      var profile := ProfileAt(world(at(6 * a + 1)), s);
      var vault := VaultAt(world(at(6 * a + 2)), s);
      var afterVault := VaultAt(world(at(6 * a + 3)), s);
      var afterProfile := ProfileAt(world(at(6 * a + 4)), s);
      var afterRevisions := lists(world(at(6 * a + 5)).rows);
      if revisions == afterRevisions && profile == afterProfile && vault == afterVault {
        assert at(6 * a) <= at(6 * a + 2) <= at(6 * a + 5) && at(6 * a + 1) <= at(6 * a + 2) <= at(6 * a + 4);
        EqualReadingsHoldBetween(world, lists, at(6 * a), at(6 * a + 2), at(6 * a + 5));
        EqualReadingsHoldBetween(world, lists, at(6 * a + 1), at(6 * a + 2), at(6 * a + 4));
        assert !Disagrees(world, lists, s, at, a);
        return Ok(Pinned(revisions, profile, vault)), at(6 * a + 2);
      }
    }
    r := Err(ProfileChanging);
  }

  // ----- The pinned view -----

  /** The revisions after `since`, if it is listed. */
  function After(revisions: seq<RevisionId>, since: Option<RevisionId>): seq<RevisionId> {
    if since.Some? && since.value in revisions then revisions[IndexOf(revisions, since.value) + 1..] else revisions
  }

  function IndexOf(revisions: seq<RevisionId>, id: RevisionId): (i: nat)
    requires id in revisions
    ensures i < |revisions| && revisions[i] == id && id !in revisions[..i]
  {
    if revisions[0] == id then 0
    else
      assert revisions == [revisions[0]] + revisions[1..];
      var i := IndexOf(revisions[1..], id);
      assert revisions[..i + 1] == [revisions[0]] + revisions[1..][..i];
      1 + i
  }

  /** `slice(-limit)`: the last `limit` elements, or all of them when the limit is zero. */
  function LastOf(revisions: seq<RevisionId>, limit: nat): seq<RevisionId> {
    if limit == 0 || limit >= |revisions| then revisions else revisions[|revisions| - limit..]
  }

  /** How the remote answers a listing over these revisions. */
  function Page(revisions: seq<RevisionId>, since: Option<RevisionId>, limit: Option<int>): seq<RevisionId> {
    if limit.Some? && limit.value >= 0 then LastOf(After(revisions, since), limit.value) else After(revisions, since)
  }

  /** Where a page of a listing begins: right after the first `since` in it, or at its start. */
  predicate BeginsAfter(revisions: seq<RevisionId>, since: Option<RevisionId>, start: nat) {
    if since.Some? && since.value in revisions
    then 0 < start <= |revisions| && revisions[start - 1] == since.value && since.value !in revisions[..start - 1]
    else start == 0
  }

  /** A page is what comes after `since`, its last `limit` entries when a positive limit is less than that. */
  lemma PageExactly(revisions: seq<RevisionId>, since: Option<RevisionId>, limit: Option<int>, start: nat)
    requires BeginsAfter(revisions, since, start)
    ensures limit.None? || limit.value <= 0 || limit.value >= |revisions| - start ==>
              Page(revisions, since, limit) == revisions[start..]
    ensures limit.Some? && 0 < limit.value < |revisions| - start ==>
              Page(revisions, since, limit) == revisions[|revisions| - limit.value..]
  {
    if since.Some? && since.value in revisions {
      var i := IndexOf(revisions, since.value);
      forall k | 0 <= k < start - 1 ensures revisions[k] != since.value {
        assert revisions[..start - 1][k] == revisions[k];
      }
      forall k | 0 <= k < i ensures revisions[k] != since.value { assert revisions[..i][k] == revisions[k]; }
    }
  }

  method PinnedRevisionList(revisions: seq<RevisionId>, since: Option<RevisionId>, limit: Option<int>)
    returns (page: seq<RevisionId>)
    ensures page == Page(revisions, since, limit)
    ensures exists i | 0 <= i <= |revisions| :: page == revisions[i..]
  {
    page := revisions;
    assert revisions == revisions[0..];
    if since.Some? && since.value in revisions {
      var i := IndexOf(revisions, since.value);
      page := revisions[i + 1..];
    }
    ghost var start := |revisions| - |page|;
    assert page == revisions[start..];
    if limit.Some? && limit.value >= 0 {
      var n := limit.value;
      if n != 0 && n < |page| {
        assert page[|page| - n..] == revisions[start + |page| - n..];
        page := page[|page| - n..];
      }
    }
  }

  /** The page keeps to its limit exactly when the limit is not zero, or nothing is left to list. */
  lemma LimitKeptExactlyWhen(revisions: seq<RevisionId>, limit: nat)
    ensures |LastOf(revisions, limit)| <= limit <==> limit > 0 || revisions == []
  {
  }

  datatype Request =
    | ListRevisions(since: Option<RevisionId>, limit: Option<int>)
    | GetManifest(id: RevisionId)
    | GetProfileHead
    | GetVaultHead
    | PutKdf
    | PutBlob
    | Commit
    | PutProfileHead
    | PutVaultHead

  datatype Response =
    | Revisions(ids: seq<RevisionId>, heads: seq<RevisionId>)
    | HeadIs(head: Option<Head>)
    | Forwarded
    | Outside(id: RevisionId)
    | Rejected
    | Unsupported

  function Answer(p: Pinned, s: Supports, q: Request): Response {
    match q
    case ListRevisions(since, limit) => Revisions(Page(p.listing.revisions, since, limit), p.listing.heads)
    case GetManifest(id) => if id in p.listing.revisions then Forwarded else Outside(id)
    case GetProfileHead => if s.profile then HeadIs(p.profile) else Unsupported
    case GetVaultHead => if s.vault then HeadIs(p.vault) else Unsupported
    case PutProfileHead => if s.profile then Rejected else Unsupported
    case PutVaultHead => if s.vault then Rejected else Unsupported
    case _ => Rejected
  }

  predicate IsWrite(q: Request) {
    q.PutKdf? || q.PutBlob? || q.Commit? || q.PutProfileHead? || q.PutVaultHead?
  }

  /** How the remote itself answers a read at one moment. */
  function LiveAnswer(w: World, lists: Lister, s: Supports, q: Request): Response
    requires !IsWrite(q)
  {
    match q
    case ListRevisions(since, limit) => Revisions(Page(lists(w.rows).revisions, since, limit), lists(w.rows).heads)
    case GetManifest(id) => if id in w.rows then Forwarded else Outside(id)
    case GetProfileHead => if s.profile then HeadIs(w.profile) else Unsupported
    case GetVaultHead => if s.vault then HeadIs(w.vault) else Unsupported
  }

  /**
    * Whatever the remote does after the capture, the view answers every read as the remote would have
    * at the pinned moment, and lets no write through.
    */
  lemma ViewIsThePinnedMoment(world: Timeline, lists: Lister, s: Supports, p: Pinned, t: nat, q: Request)
    requires ListsAll(lists) && HeldAt(world, lists, s, p, t)
    ensures !IsWrite(q) ==> Answer(p, s, q) == LiveAnswer(world(t), lists, s, q)
    ensures IsWrite(q) ==>
              Answer(p, s, q) == if (q.PutProfileHead? && !s.profile) || (q.PutVaultHead? && !s.vault)
                                 then Unsupported else Rejected
  {
  }
}
