/**
  * Which surface owns a physical tree. Surfaces that resolve to one path elect an owner, linked
  * roots inside another owner's tree become references, and every reference is followed to the end.
  */
module Ownership {
  import opened Prelude

  /** Ids stand for their position in the order the code compares them by. */
  type SurfaceId = nat

  /** A resolved absolute path by segments; the file system root is the empty path. */
  type Path = seq<string>

  datatype Surface = Surface(id: SurfaceId, path: Path, rootIsSymlink: bool, sharedTree: bool)

  datatype OwnershipError = MultipleOwners(path: Path) | Cycle(path: Path)

  /** `candidate` lies strictly inside `parent`; nothing counts as inside the file system root. */
  predicate Contains(parent: Path, candidate: Path) {
    parent != [] && parent < candidate
  }

  /** A direct declaration outranks a link, and any declaration outranks a shared one. */
  function Rank(s: Surface): nat {
    (if s.rootIsSymlink then 1 else 0) + (if s.sharedTree then 2 else 0)
  }

  /** Giving up ownership weighs more than being a link; among equals the direct declaration wins. */
  lemma RankMeans(a: Surface, b: Surface)
    ensures Rank(a) < Rank(b) <==>
              (!a.sharedTree && b.sharedTree) ||
              (a.sharedTree == b.sharedTree && !a.rootIsSymlink && b.rootIsSymlink)
  {
  }

  predicate UniqueIds(surfaces: seq<Surface>) {
    forall i, j :: 0 <= i < j < |surfaces| ==> surfaces[i].id != surfaces[j].id
  }

  // ----- Electing one owner per path -----

  /** `s` strictly outranks every other surface at its path. */
  ghost predicate OutranksAll(surfaces: seq<Surface>, s: Surface) {
    forall t :: t in surfaces && t.path == s.path && t != s ==> Rank(s) < Rank(t)
  }

  /** `owner` is at `path` and nobody there has a lower rank. */
  ghost predicate Minimal(surfaces: seq<Surface>, owner: Surface, path: Path) {
    && owner in surfaces && owner.path == path
    && forall t :: t in surfaces && t.path == path ==> Rank(owner) <= Rank(t)
  }

  ghost predicate Rivals(surfaces: seq<Surface>, t: Surface, owner: Surface) {
    t in surfaces && t != owner && t.path == owner.path && Rank(t) == Rank(owner)
  }

  /** Two surfaces share the best rank at the path, everybody there is shared, and `s` has the least id. */
  ghost predicate LeastOfShared(surfaces: seq<Surface>, s: Surface) {
    && (forall t :: t in surfaces && t.path == s.path ==> t.sharedTree && s.id <= t.id)
    && exists a, b :: Minimal(surfaces, a, s.path) && Rivals(surfaces, b, a)
  }

  ghost predicate Elected(surfaces: seq<Surface>, s: Surface) {
    s in surfaces && (OutranksAll(surfaces, s) || LeastOfShared(surfaces, s))
  }

  ghost predicate HasElected(surfaces: seq<Surface>, path: Path) {
    exists t :: Elected(surfaces, t) && t.path == path
  }

  lemma TiedNobodyOutranks(surfaces: seq<Surface>, owner: Surface, rival: Surface, t: Surface)
    requires Minimal(surfaces, owner, t.path) && Rivals(surfaces, rival, owner) && t in surfaces
    ensures !OutranksAll(surfaces, t)
  {
    var other := if t == owner then rival else owner;
    assert other in surfaces && other.path == t.path && other != t && Rank(other) <= Rank(t);
  }

  lemma AtMostOneElected(surfaces: seq<Surface>, s: Surface, t: Surface)
    requires UniqueIds(surfaces) && Elected(surfaces, s) && Elected(surfaces, t) && s.path == t.path
    ensures s == t
  {
    var i :| 0 <= i < |surfaces| && surfaces[i] == s;
    var j :| 0 <= j < |surfaces| && surfaces[j] == t;
    if LeastOfShared(surfaces, s) {
      var a, b :| Minimal(surfaces, a, s.path) && Rivals(surfaces, b, a);
      TiedNobodyOutranks(surfaces, a, b, t);
      TiedNobodyOutranks(surfaces, a, b, s);
    }
    if LeastOfShared(surfaces, t) {
      var a, b :| Minimal(surfaces, a, t.path) && Rivals(surfaces, b, a);
      TiedNobodyOutranks(surfaces, a, b, t);
      TiedNobodyOutranks(surfaces, a, b, s);
    }
  }

  predicate Better(a: Surface, b: Surface, byId: bool) {
    if byId then a.id < b.id else Rank(a) < Rank(b)
  }

  /** The first surface at `path` that no other one there beats. */
  method BestAt(surfaces: seq<Surface>, path: Path, byId: bool) returns (best: Option<Surface>)
    ensures best.None? <==> forall t :: t in surfaces ==> t.path != path
    ensures best.Some? ==> best.value in surfaces && best.value.path == path
    ensures best.Some? ==> forall t :: t in surfaces && t.path == path ==> !Better(t, best.value, byId)
  {
    best := None;
    for i := 0 to |surfaces|
      invariant best.None? <==> forall j | 0 <= j < i :: surfaces[j].path != path
      invariant best.Some? ==> best.value in surfaces && best.value.path == path
      invariant best.Some? ==>
                  forall j | 0 <= j < i && surfaces[j].path == path :: !Better(surfaces[j], best.value, byId)
    {
      if surfaces[i].path == path && (best.None? || Better(surfaces[i], best.value, byId)) {
        best := Some(surfaces[i]);
      }
    }
  }

  /** Whether the best-ranked surface has an equal, and whether everybody at its path is shared. */
  method Contenders(surfaces: seq<Surface>, owner: Surface)
    returns (tied: bool, allShared: bool, ghost rival: Surface, ghost unshared: Surface)
    ensures if tied then Rivals(surfaces, rival, owner) else forall t :: !Rivals(surfaces, t, owner)
    ensures if allShared then AllShared(surfaces, owner.path)
            else unshared in surfaces && unshared.path == owner.path && !unshared.sharedTree
  {
    tied, allShared, rival, unshared := false, true, owner, owner;
    for i := 0 to |surfaces|
      invariant if tied then Rivals(surfaces, rival, owner)
                else forall j | 0 <= j < i :: !Rivals(surfaces, surfaces[j], owner)
      invariant if allShared then forall j | 0 <= j < i && surfaces[j].path == owner.path :: surfaces[j].sharedTree
                else unshared in surfaces && unshared.path == owner.path && !unshared.sharedTree
    {
      var t := surfaces[i];
      if t.path == owner.path {
        if t != owner && Rank(t) == Rank(owner) { tied, rival := true, t; }
        if !t.sharedTree { allShared, unshared := false, t; }
      }
    }
  }

  ghost predicate AllShared(surfaces: seq<Surface>, path: Path) {
    forall t :: t in surfaces && t.path == path ==> t.sharedTree
  }

  lemma UntiedWins(surfaces: seq<Surface>, owner: Surface)
    requires Minimal(surfaces, owner, owner.path) && forall t :: !Rivals(surfaces, t, owner)
    ensures Elected(surfaces, owner)
  {
    forall t | t in surfaces && t.path == owner.path && t != owner ensures Rank(owner) < Rank(t) {
      assert !Rivals(surfaces, t, owner);
    }
  }

  lemma TiedUnsharedFails(surfaces: seq<Surface>, owner: Surface, rival: Surface, unshared: Surface)
    requires Minimal(surfaces, owner, owner.path) && Rivals(surfaces, rival, owner)
    requires unshared in surfaces && unshared.path == owner.path && !unshared.sharedTree
    ensures !HasElected(surfaces, owner.path)
  {
    forall t | Elected(surfaces, t) ensures t.path != owner.path {
      if t.path == owner.path { TiedNobodyOutranks(surfaces, owner, rival, t); }
    }
  }

  /** The best-ranked surface at the path, the first of equals. */
  method Foremost(surfaces: seq<Surface>, path: Path) returns (owner: Surface)
    requires exists s :: s in surfaces && s.path == path
    ensures Minimal(surfaces, owner, path)
  {
    var best := BestAt(surfaces, path, false);
    owner := best.value;
    assert forall t :: t in surfaces && t.path == path ==> !Better(t, owner, false);
  }

  method LeastId(surfaces: seq<Surface>, path: Path) returns (least: Surface)
    requires exists s :: s in surfaces && s.path == path
    ensures least in surfaces && least.path == path
    ensures forall t :: t in surfaces && t.path == path ==> least.id <= t.id
  {
    var best := BestAt(surfaces, path, true);
    least := best.value;
    assert forall t :: t in surfaces && t.path == path ==> !Better(t, least, true);
  }

  lemma TiedSharedLeastWins(surfaces: seq<Surface>, owner: Surface, rival: Surface, least: Surface)
    requires Minimal(surfaces, owner, least.path) && Rivals(surfaces, rival, owner)
    requires least in surfaces && AllShared(surfaces, least.path)
    requires forall t :: t in surfaces && t.path == least.path ==> least.id <= t.id
    ensures Elected(surfaces, least)
  {
  }

  /** Elects the owner of one path; a tie is an error unless every contender is a shared tree. */
  method Elect(surfaces: seq<Surface>, path: Path) returns (winner: Option<Surface>)
    requires exists s :: s in surfaces && s.path == path
    ensures winner.Some? ==> Elected(surfaces, winner.value) && winner.value.path == path
    ensures winner.None? ==> !HasElected(surfaces, path)
  {
    var owner := Foremost(surfaces, path);
    var tied, allShared, rival, unshared := Contenders(surfaces, owner);
    if !tied {
      UntiedWins(surfaces, owner);
      return Some(owner);
    }
    if !allShared {
      TiedUnsharedFails(surfaces, owner, rival, unshared);
      return None;
    }
    var least := LeastId(surfaces, path);
    TiedSharedLeastWins(surfaces, owner, rival, least);
    return Some(least);
  }

  // ----- Who is elected, told without ranks -----

  /** A declaration that keeps ownership against one that gives it up, or a direct one against a link of its kind. */
  predicate Beats(s: Surface, t: Surface) {
    || (!s.sharedTree && t.sharedTree)
    || (s.sharedTree == t.sharedTree && !s.rootIsSymlink && t.rootIsSymlink)
  }

  /** An elected surface beats each other one at its path, or both are shared and its id comes first. */
  lemma ElectedBeatsTheOthers(surfaces: seq<Surface>, s: Surface, t: Surface)
    requires Elected(surfaces, s) && t in surfaces && t.path == s.path && t != s
    ensures Beats(s, t) || (s.sharedTree && t.sharedTree && s.id <= t.id)
  {
    RankMeans(s, t);
  }

  lemma {:induction false} BestOf(surfaces: seq<Surface>, path: Path, byId: bool) returns (best: Surface)
    requires exists s :: s in surfaces && s.path == path
    ensures best in surfaces && best.path == path
    ensures forall t :: t in surfaces && t.path == path ==> !Better(t, best, byId)
  {
    var rest, last := surfaces[..|surfaces| - 1], surfaces[|surfaces| - 1];
    assert surfaces == rest + [last];
    if exists s :: s in rest && s.path == path {
      best := BestOf(rest, path, byId);
      if last.path == path && Better(last, best, byId) { best := last; }
    } else {
      best := last;
    }
  }

  ghost predicate BeatsAll(surfaces: seq<Surface>, s: Surface) {
    s in surfaces && forall t :: t in surfaces && t.path == s.path && t != s ==> Beats(s, t)
  }

  lemma BeatsAllOutranksAll(surfaces: seq<Surface>, s: Surface)
    requires s in surfaces
    ensures BeatsAll(surfaces, s) <==> OutranksAll(surfaces, s)
  {
    forall t ensures Beats(s, t) <==> Rank(s) < Rank(t) { RankMeans(s, t); }
  }

  lemma SharedPathHasAnOwner(surfaces: seq<Surface>, path: Path)
    requires AllShared(surfaces, path) && exists s :: s in surfaces && s.path == path
    ensures HasElected(surfaces, path)
  {
    var owner := BestOf(surfaces, path, false);
    var least := BestOf(surfaces, path, true);
    forall t | t in surfaces && t.path == path ensures Rank(owner) <= Rank(t) && least.id <= t.id {
      assert !Better(t, owner, false) && !Better(t, least, true);
    }
    if rival :| Rivals(surfaces, rival, owner) {
      TiedSharedLeastWins(surfaces, owner, rival, least);
    } else {
      UntiedWins(surfaces, owner);
    }
  }

  lemma ElectedOutranksOrShares(surfaces: seq<Surface>, s: Surface)
    requires Elected(surfaces, s)
    ensures BeatsAll(surfaces, s) || AllShared(surfaces, s.path)
  {
    if OutranksAll(surfaces, s) { BeatsAllOutranksAll(surfaces, s); }
  }

  lemma BeatingAllIsElected(surfaces: seq<Surface>, s: Surface)
    requires BeatsAll(surfaces, s)
    ensures HasElected(surfaces, s.path)
  {
    BeatsAllOutranksAll(surfaces, s);
    assert Elected(surfaces, s);
  }

  /** A path has an owner exactly when one of its surfaces beats all others, or all of them are shared. */
  lemma PathHasAnOwnerExactlyWhen(surfaces: seq<Surface>, path: Path)
    requires exists s :: s in surfaces && s.path == path
    ensures HasElected(surfaces, path) <==>
              AllShared(surfaces, path) || exists s :: BeatsAll(surfaces, s) && s.path == path
  {
    if HasElected(surfaces, path) {
      var s :| Elected(surfaces, s) && s.path == path;
      ElectedOutranksOrShares(surfaces, s);
    } else if AllShared(surfaces, path) {
      SharedPathHasAnOwner(surfaces, path);
    } else if s :| BeatsAll(surfaces, s) && s.path == path {
      BeatingAllIsElected(surfaces, s);
    }
  }

  // ----- Containers -----

  /** The deepest surface strictly around `s`, if any. */
  method MostSpecificContainer(owners: seq<Surface>, s: Surface) returns (best: Option<Surface>)
    ensures best.None? <==> forall t :: t in owners ==> !Contains(t.path, s.path)
    ensures best.Some? ==> best.value in owners && Contains(best.value.path, s.path)
    ensures best.Some? ==> forall t :: t in owners && Contains(t.path, s.path) ==> t.path <= best.value.path
  {
    best := None;
    for i := 0 to |owners|
      invariant best.None? <==> forall j | 0 <= j < i :: !Contains(owners[j].path, s.path)
      invariant best.Some? ==> best.value in owners && Contains(best.value.path, s.path)
      invariant best.Some? ==>
                  forall j | 0 <= j < i && Contains(owners[j].path, s.path) :: owners[j].path <= best.value.path
    {
      var candidate := owners[i];
      if Contains(candidate.path, s.path) {
        if best.None? || |candidate.path| > |best.value.path| {
          if best.Some? { PrefixesNest(best.value.path, candidate.path, s.path); }
          best := Some(candidate);
        } else {
          PrefixesNest(candidate.path, best.value.path, s.path);
        }
      }
    }
  }

  /** Two prefixes of one path are prefixes of each other, the shorter of the longer. */
  lemma PrefixesNest(a: Path, b: Path, c: Path)
    requires a <= c && b <= c && |a| <= |b|
    ensures a <= b
  {
    assert a == c[..|a|] && b == c[..|b|];
  }

  // ----- Resolution -----

  /** Where each surface currently points: itself while it is an owner. */
  type Owners = map<SurfaceId, SurfaceId>

  function SurfaceOf(surfaces: seq<Surface>, id: SurfaceId): Option<Surface> {
    if surfaces == [] then None
    else if surfaces[0].id == id then Some(surfaces[0])
    else SurfaceOf(surfaces[1..], id)
  }

  lemma {:induction false} SurfaceOfFinds(surfaces: seq<Surface>, s: Surface)
    requires UniqueIds(surfaces) && s in surfaces
    ensures SurfaceOf(surfaces, s.id) == Some(s)
  {
    if s != surfaces[0] {
      assert s in surfaces[1..];
      var j :| 0 <= j < |surfaces[1..]| && surfaces[1..][j] == s;
      assert surfaces[j + 1] == s;
      SurfaceOfFinds(surfaces[1..], s);
    }
  }

  /** One winner per path at most, each a surface. */
  ghost predicate Winners(surfaces: seq<Surface>, winners: set<Surface>) {
    && (forall w :: w in winners ==> w in surfaces)
    && forall w, v :: w in winners && v in winners && w.path == v.path ==> w == v
  }

  /** A winner that is not a link inside another winner's tree. */
  ghost predicate IsOwner(winners: set<Surface>, s: Surface) {
    s in winners && !(s.rootIsSymlink && exists t :: t in winners && Contains(t.path, s.path))
  }

  predicate Covers(t: Surface, s: Surface) {
    t.path == s.path || Contains(t.path, s.path)
  }

  /** Every owner around `s` is around `t` too: nothing owned lies between them. */
  ghost predicate NoOwnerBetween(winners: set<Surface>, s: Surface, t: Surface) {
    forall u :: IsOwner(winners, u) && Covers(u, s) ==> Covers(u, t)
  }

  /** A hop or chain of hops: from a loser to the winner at its path, or to winners further out. */
  ghost predicate Leads(winners: set<Surface>, s: Surface, t: Surface) {
    && t in winners && Covers(t, s) && (t.path == s.path ==> s !in winners)
    && NoOwnerBetween(winners, s, t)
  }

  ghost predicate PointsAt(winners: set<Surface>, owners: Owners, s: Surface) {
    s.id in owners && (owners[s.id] == s.id || exists t: Surface :: t.id == owners[s.id] && Leads(winners, s, t))
  }

  ghost predicate Points(surfaces: seq<Surface>, winners: set<Surface>, owners: Owners) {
    forall s :: s in surfaces ==> PointsAt(winners, owners, s)
  }

  /** Following owners from `s` shortens the path, or moves from a loser to the winner. */
  function Depth(winners: set<Surface>, s: Surface): nat {
    2 * |s.path| + if s in winners then 0 else 1
  }

  class Resolver {
    const surfaces: seq<Surface>
    var owners: Owners
    ghost var winners: set<Surface>

    constructor (surfaces: seq<Surface>)
      ensures this.surfaces == surfaces
    {
      this.surfaces, owners, winners := surfaces, map[], {};
    }

    ghost predicate Valid()
      reads this
    {
      UniqueIds(surfaces) && Winners(surfaces, winners) && Points(surfaces, winners, owners)
    }

    /** After the first pass exactly the winners point at themselves. */
    ghost predicate WonAt(s: Surface)
      reads this
    {
      s.id in owners && (owners[s.id] == s.id <==> s in winners)
    }

    /** From the second pass on, exactly the owners do. */
    ghost predicate OwnedAt(s: Surface)
      reads this
    {
      s.id in owners && (owners[s.id] == s.id <==> IsOwner(winners, s))
    }

    /** Every path has exactly one winner, the surface elected there. */
    ghost predicate WinnersAreElected()
      reads this`winners
    {
      forall s :: s in surfaces ==> (s in winners <==> Elected(surfaces, s)) && HasElected(surfaces, s.path)
    }

    /** Every surface ends at the deepest owner around it, itself if it is one. */
    ghost predicate Resolved()
      reads this
    {
      forall s :: s in surfaces ==> OwnedAt(s) && EndsAtOwner(s)
    }

    lemma SameIdSame(s: Surface, t: Surface)
      requires UniqueIds(surfaces) && s in surfaces && t in surfaces
      ensures s.id == t.id <==> s == t
    {
      var i :| 0 <= i < |surfaces| && surfaces[i] == s;
      var j :| 0 <= j < |surfaces| && surfaces[j] == t;
    }

    /** The first pass: losers of an election point at the winner; a tie stops everything. */
    method ElectAll() returns (r: Result<(), OwnershipError>)
      requires UniqueIds(surfaces)
      modifies this
      ensures r.Ok? ==> Valid() && forall s :: s in surfaces ==> WonAt(s)
      ensures r.Ok? ==> WinnersAreElected()
      ensures r.Err? ==> r.error.MultipleOwners? && !HasElected(surfaces, r.error.path) &&
                         exists s :: s in surfaces && s.path == r.error.path
    {
      owners, winners := map[], {};
      for i := 0 to |surfaces|
        invariant ElectedTo(winners, owners, i)
      {
        var s := surfaces[i];
        var winner := Elect(surfaces, s.path);
        if winner.None? { return Err(MultipleOwners(s.path)); }
        AddWinner(s, winner.value, i);
        winners := winners + {winner.value};
        owners := owners[s.id := winner.value.id];
      }
      forall s | s in surfaces
        ensures PointsAt(winners, owners, s) && WonAt(s)
        ensures (s in winners <==> Elected(surfaces, s)) && HasElected(surfaces, s.path)
      {
        var j :| 0 <= j < |surfaces| && surfaces[j] == s;
        assert PlacedAt(winners, owners, surfaces[j]);
        PlacedIsSettled(s);
      }
      r := Ok(());
    }

    /** The surface points at the winner of its path. */
    ghost predicate PlacedAt(winners: set<Surface>, owners: Owners, s: Surface) {
      s.id in owners && exists w :: w in winners && w.path == s.path && owners[s.id] == w.id
    }

    ghost predicate ElectedTo(winners: set<Surface>, owners: Owners, i: nat) {
      && i <= |surfaces| && Winners(surfaces, winners)
      && (forall w :: w in winners ==> Elected(surfaces, w))
      && forall j | 0 <= j < i :: PlacedAt(winners, owners, surfaces[j])
    }

    lemma PlacedIsSettled(s: Surface)
      requires UniqueIds(surfaces) && s in surfaces && Winners(surfaces, winners) && PlacedAt(winners, owners, s)
      requires forall w :: w in winners ==> Elected(surfaces, w)
      ensures PointsAt(winners, owners, s) && WonAt(s)
      ensures (s in winners <==> Elected(surfaces, s)) && HasElected(surfaces, s.path)
    {
      var w :| w in winners && w.path == s.path && owners[s.id] == w.id;
      if Elected(surfaces, s) { AtMostOneElected(surfaces, s, w); }
      SameIdSame(s, w);
      assert w != s ==> Leads(winners, s, w);
    }

    lemma AddWinner(s: Surface, winner: Surface, i: nat)
      requires UniqueIds(surfaces) && i < |surfaces| && surfaces[i] == s
      requires Elected(surfaces, winner) && winner.path == s.path && ElectedTo(winners, owners, i)
      ensures ElectedTo(winners + {winner}, owners[s.id := winner.id], i + 1)
    {
      var winners', owners' := winners + {winner}, owners[s.id := winner.id];
      forall w | w in winners && w.path == winner.path ensures w == winner { AtMostOneElected(surfaces, w, winner); }
      assert winner in winners';
      forall j | 0 <= j <= i ensures PlacedAt(winners', owners', surfaces[j]) {
        if j < i {
          var w :| w in winners && w.path == surfaces[j].path && owners[surfaces[j].id] == w.id;
          assert w in winners';
        }
      }
    }

    method CollectWinners() returns (elected: seq<Surface>)
      requires forall s :: s in surfaces ==> WonAt(s)
      ensures forall t :: t in elected <==> t in surfaces && t in winners
    {
      elected := [];
      for i := 0 to |surfaces|
        invariant forall t :: t in elected <==> t in surfaces[..i] && t in winners
      {
        assert WonAt(surfaces[i]);
        assert surfaces[..i + 1] == surfaces[..i] + [surfaces[i]];
        if owners[surfaces[i].id] == surfaces[i].id { elected := elected + [surfaces[i]]; }
      }
      assert surfaces[..|surfaces|] == surfaces;
    }

    /** Pointing one surface along a lead keeps every other pointer. */
    lemma Redirect(s: Surface, t: Surface)
      requires Valid() && s in surfaces && (t == s || Leads(winners, s, t))
      ensures Points(surfaces, winners, owners[s.id := t.id])
      ensures forall u :: u in surfaces && u != s ==> owners[s.id := t.id][u.id] == owners[u.id]
    {
      forall u | u in surfaces
        ensures u != s ==> u.id != s.id
        ensures PointsAt(winners, owners[s.id := t.id], u)
      {
        SameIdSame(u, s);
        assert PointsAt(winners, owners, u);
      }
    }

    /** The second pass for one surface: a winning link inside another winner's tree gives way. */
    method LinkOne(elected: seq<Surface>, s: Surface)
      requires Valid() && s in surfaces && WonAt(s)
      requires forall t :: t in elected <==> t in surfaces && t in winners
      modifies this`owners
      ensures Valid() && OwnedAt(s)
      ensures forall u :: u in surfaces && u != s ==> u.id in owners && owners[u.id] == old(owners)[u.id]
    {
      assert forall u :: u in surfaces ==> PointsAt(winners, owners, u);
      if owners[s.id] == s.id && s.rootIsSymlink {
        var container := MostSpecificContainer(elected, s);
        if container.Some? {
          SameIdSame(s, container.value);
          ContainerLeads(elected, s, container.value);
          Redirect(s, container.value);
          owners := owners[s.id := container.value.id];
        }
      }
    }

    lemma ContainerLeads(elected: seq<Surface>, s: Surface, t: Surface)
      requires Valid() && s in winners && s.rootIsSymlink && t in winners && Contains(t.path, s.path)
      requires forall u :: u in elected <==> u in surfaces && u in winners
      requires forall u :: u in elected && Contains(u.path, s.path) ==> u.path <= t.path
      ensures Leads(winners, s, t)
    {
      forall u | IsOwner(winners, u) && Covers(u, s) ensures Covers(u, t) {
        assert u.path == s.path ==> u == s;
        assert u in elected;
      }
    }

    method LinkAll()
      requires Valid() && forall s :: s in surfaces ==> WonAt(s)
      modifies this`owners
      ensures Valid() && forall s :: s in surfaces ==> OwnedAt(s)
    {
      var elected := CollectWinners();
      for i := 0 to |surfaces|
        invariant Valid()
        invariant forall j | 0 <= j < i :: OwnedAt(surfaces[j])
        invariant forall j | i <= j < |surfaces| :: WonAt(surfaces[j])
      {
        ghost var before := owners;
        LinkOne(elected, surfaces[i]);
        assert forall j | 0 <= j < |surfaces| && j != i :: surfaces[j] in surfaces && surfaces[j] != surfaces[i];
      }
    }

    /**
      * Follows references to the end. The `seen` guard never fires: every hop shortens the path or
      * leaves a loser for the winner at its path, so no surface is met twice.
      */
    method UltimateOwner(start: Surface) returns (r: Result<SurfaceId, OwnershipError>, ghost last: Surface)
      requires Valid() && start in surfaces
      ensures r.Ok? && last in surfaces && r.value == last.id && owners[last.id] == last.id
      ensures last == start || Leads(winners, start, last)
    {
      var current := start;
      var seen := {start.id};
      assert PointsAt(winners, owners, start);
      while owners[current.id] != current.id
        invariant current in surfaces && (current == start || Leads(winners, start, current))
        invariant PointsAt(winners, owners, current)
        invariant forall s :: s in surfaces && s.id in seen ==>
                    s == current || Depth(winners, s) > Depth(winners, current)
        decreases Depth(winners, current)
      {
        ghost var t: Surface :| t.id == owners[current.id] && Leads(winners, current, t);
        SurfaceOfFinds(surfaces, t);
        var next := SurfaceOf(surfaces, owners[current.id]);
        if next.None? || next.value.id in seen { return Err(Cycle(current.path)), current; }
        assert PointsAt(winners, owners, t);
        forall s | s in surfaces && s.id in seen + {t.id} ensures s == t || Depth(winners, s) > Depth(winners, t) {
          SameIdSame(s, t);
        }
        seen := seen + {next.value.id};
        current := next.value;
      }
      return Ok(current.id), current;
    }

    /** The surface is settled: it names the deepest real owner at its own path or around it. */
    ghost predicate EndsAtOwner(s: Surface)
      reads this
    {
      s.id in owners && exists t: Surface :: t.id == owners[s.id] && t in surfaces && IsOwner(winners, t) &&
                                             Covers(t, s) && NoOwnerBetween(winners, s, t)
    }

    /** The third pass for one surface: a reference is rewritten to its ultimate owner. */
    method FollowOne(s: Surface)
      requires Valid() && s in surfaces && forall u :: u in surfaces ==> OwnedAt(u)
      modifies this`owners
      ensures Valid() && EndsAtOwner(s) && forall u :: u in surfaces ==> OwnedAt(u)
      ensures forall u :: u in surfaces && u != s && old(EndsAtOwner(u)) ==> EndsAtOwner(u)
    {
      assert OwnedAt(s);
      if owners[s.id] != s.id {
        var ultimate, last := UltimateOwner(s);
        assert OwnedAt(last);
        SameIdSame(s, last);
        Redirect(s, last);
        ghost var before := owners;
        owners := owners[s.id := ultimate.value];
        forall u | u in surfaces ensures OwnedAt(u) { assert u != s ==> owners[u.id] == before[u.id]; }
        forall u | u in surfaces && u != s && old(EndsAtOwner(u))
          ensures EndsAtOwner(u)
        {
          assert owners[u.id] == before[u.id];
        }
      }
    }

    predicate OwnersHaveDistinctPaths()
      reads this
    {
      forall s, t :: s in surfaces && t in surfaces && s != t && OwnsItself(s) && OwnsItself(t) ==> s.path != t.path
    }

    predicate OwnsItself(s: Surface)
      reads this
    {
      s.id in owners && owners[s.id] == s.id
    }

    lemma OwnersDiffer(s: Surface, t: Surface)
      requires Winners(surfaces, winners) && OwnedAt(s) && OwnedAt(t) && OwnsItself(s) && OwnsItself(t)
      ensures s.path == t.path ==> s == t
    {
    }

    /**
      * The whole resolution. It fails exactly when some path has no election winner, never with a
      * cycle; otherwise every surface ends at the deepest owner whose tree is its own or contains it,
      * and no two surfaces that own themselves share a path.
      */
    method Resolve() returns (r: Result<(), OwnershipError>)
      requires UniqueIds(surfaces)
      modifies this
      ensures r.Ok? ==> WinnersAreElected() && Resolved() && OwnersHaveDistinctPaths()
      ensures r.Ok? ==> forall s :: s in surfaces ==> SettledRight(s)
      ensures r.Err? ==> r.error.MultipleOwners? && !HasElected(surfaces, r.error.path) &&
                         exists s :: s in surfaces && s.path == r.error.path
    {
      r := ElectAll();
      if r.Ok? {
        FollowAll();
        ElectedKeepThemselves();
      }
    }

    /** Elected, and not a link into the tree of another elected surface; the file system root counts as no tree. */
    ghost predicate KeepsItself(s: Surface) {
      && Elected(surfaces, s)
      && (s.rootIsSymlink ==> forall t :: Elected(surfaces, t) && t.path < s.path ==> t.path == [])
    }

    ghost predicate SettledRight(s: Surface)
      reads this
    {
      s.id in owners && (owners[s.id] == s.id <==> KeepsItself(s))
    }

    lemma ElectedKeepThemselves()
      requires WinnersAreElected() && Winners(surfaces, winners) && Resolved()
      ensures forall s :: s in surfaces ==> SettledRight(s)
    {
      forall s | s in surfaces ensures SettledRight(s) { ElectedKeepsItself(s); }
    }

    lemma ElectedKeepsItself(s: Surface)
      requires WinnersAreElected() && Winners(surfaces, winners) && Resolved() && s in surfaces
      ensures SettledRight(s)
    {
      assert OwnedAt(s);
      OwnersAreTheElected(s);
    }

    lemma OwnersAreTheElected(s: Surface)
      requires WinnersAreElected() && Winners(surfaces, winners) && s in surfaces
      ensures IsOwner(winners, s) <==> KeepsItself(s)
    {
    }

    /** The third pass. */
    method FollowEach()
      requires Valid() && forall s :: s in surfaces ==> OwnedAt(s)
      modifies this`owners
      ensures Valid() && forall s :: s in surfaces ==> OwnedAt(s)
      ensures forall s :: s in surfaces ==> EndsAtOwner(s)
    {
      for i := 0 to |surfaces|
        invariant Valid() && forall s :: s in surfaces ==> OwnedAt(s)
        invariant forall s :: s in surfaces[..i] ==> EndsAtOwner(s)
      {
        assert surfaces[..i + 1] == surfaces[..i] + [surfaces[i]];
        assert forall s :: s in surfaces[..i] ==> s in surfaces;
        FollowOne(surfaces[i]);
      }
      assert surfaces[..|surfaces|] == surfaces;
    }

    lemma DistinctOwners()
      requires Winners(surfaces, winners) && forall s :: s in surfaces ==> OwnedAt(s)
      ensures OwnersHaveDistinctPaths()
    {
      forall s, t | s in surfaces && t in surfaces && OwnsItself(s) && OwnsItself(t) && s.path == t.path
        ensures s == t
      {
        OwnersDiffer(s, t);
      }
    }

    method FollowAll()
      requires Valid() && forall s :: s in surfaces ==> WonAt(s)
      modifies this`owners
      ensures Resolved() && OwnersHaveDistinctPaths()
    {
      LinkAll();
      FollowEach();
      DistinctOwners();
    }
  }
}
