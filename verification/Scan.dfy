/**
  * The scan's walk. Every owner's tree is walked in physical space and stops at the roots of other
  * owners, so a file is attributed to the deepest owner root above it and to nobody else.
  */
module Scan {
  import opened Prelude
  import opened Ownership

  datatype Node =
    | FileNode
    | DirNode(readable: bool, children: seq<Child>)
    | LinkNode
    | OtherNode

  datatype Child = Child(name: string, node: Node)

  /** An owner surface as the walk sees it; `excluded` takes paths relative to the root. */
  datatype Root = Root(id: SurfaceId, path: Path, isTree: bool, excluded: Path -> bool)

  datatype Entry = Entry(surface: SurfaceId, path: Path)

  /** What an owner's walk needs to know besides the tree. */
  datatype Walk = Walk(root: Root, boundary: set<Path>)

  /** The walk passes this path: not excluded, and not the root of another owner. */
  predicate Passes(w: Walk, rel: Path) {
    !w.root.excluded(rel) && w.root.path + rel !in w.boundary
  }

  // ----- Which files a walk records -----

  /** Following the names leads through readable directories to a file, and the walk passes all the way. */
  predicate Reaches(w: Walk, node: Node, rel: Path, rest: Path)
    decreases rest
  {
    if rest == [] then node.FileNode?
    else
      && node.DirNode? && node.readable
      && Passes(w, rel + [rest[0]])
      && exists c :: c in node.children && c.name == rest[0] && Reaches(w, c.node, rel + [rest[0]], rest[1..])
  }

  ghost predicate RecordedIn(w: Walk, node: Node, rel: Path, e: Entry) {
    e.surface == w.root.id && exists rest :: e.path == w.root.path + (rel + rest) && Reaches(w, node, rel, rest)
  }

  ghost predicate ChildRecords(w: Walk, c: Child, rel: Path, e: Entry) {
    Passes(w, rel + [c.name]) && RecordedIn(w, c.node, rel + [c.name], e)
  }

  ghost predicate RecordedBelow(w: Walk, children: seq<Child>, rel: Path, e: Entry) {
    exists c :: c in children && ChildRecords(w, c, rel, e)
  }

  lemma RecordedThroughChild(w: Walk, node: Node, rel: Path, e: Entry)
    requires node.DirNode? && RecordedIn(w, node, rel, e)
    ensures node.readable && RecordedBelow(w, node.children, rel, e)
  {
    var rest :| e.path == w.root.path + (rel + rest) && Reaches(w, node, rel, rest);
    var c :| c in node.children && c.name == rest[0] && Reaches(w, c.node, rel + [rest[0]], rest[1..]);
    assert rel + rest == (rel + [c.name]) + rest[1..];
    assert ChildRecords(w, c, rel, e);
  }

  lemma ChildRecordsHere(w: Walk, node: Node, rel: Path, c: Child, e: Entry)
    requires node.DirNode? && node.readable && c in node.children && ChildRecords(w, c, rel, e)
    ensures RecordedIn(w, node, rel, e)
  {
    var more :| e.path == w.root.path + ((rel + [c.name]) + more) && Reaches(w, c.node, rel + [c.name], more);
    var rest := [c.name] + more;
    assert rest[1..] == more && rel + rest == (rel + [c.name]) + more;
    assert Reaches(w, node, rel, rest);
  }

  lemma RecordedInDir(w: Walk, node: Node, rel: Path, e: Entry)
    requires node.DirNode?
    ensures RecordedIn(w, node, rel, e) <==> node.readable && RecordedBelow(w, node.children, rel, e)
  {
    if RecordedIn(w, node, rel, e) { RecordedThroughChild(w, node, rel, e); }
    if node.readable && RecordedBelow(w, node.children, rel, e) {
      var c :| c in node.children && ChildRecords(w, c, rel, e);
      ChildRecordsHere(w, node, rel, c, e);
    }
  }

  lemma RecordedFile(w: Walk, rel: Path, e: Entry)
    ensures RecordedIn(w, FileNode, rel, e) <==> e == Entry(w.root.id, w.root.path + rel)
  {
    assert rel + [] == rel;
    if e == Entry(w.root.id, w.root.path + rel) { assert Reaches(w, FileNode, rel, []); }
  }

  class ScanState {
    var entries: seq<Entry>

    constructor ()
      ensures entries == []
    {
      entries := [];
    }

    /** Walks one directory: links and other kinds are not descended, exclusions and other roots stop it. */
    method WalkTree(w: Walk, node: Node, rel: Path)
      requires node.DirNode?
      modifies this
      ensures forall e :: e in entries <==> e in old(entries) || RecordedIn(w, node, rel, e)
      decreases node
    {
      if node.readable {
        for i := 0 to |node.children|
          invariant forall e :: e in entries <==> e in old(entries) || RecordedBelow(w, node.children[..i], rel, e)
        {
          var c := node.children[i];
          assert node.children[..i + 1] == node.children[..i] + [c];
          ghost var before := entries;
          WalkChild(w, c, rel);
          forall e
            ensures RecordedBelow(w, node.children[..i + 1], rel, e) <==>
                    RecordedBelow(w, node.children[..i], rel, e) || ChildRecords(w, c, rel, e)
          {
          }
        }
        assert node.children[..|node.children|] == node.children;
      }
      forall e ensures RecordedIn(w, node, rel, e) <==> node.readable && RecordedBelow(w, node.children, rel, e) {
        RecordedInDir(w, node, rel, e);
      }
    }

    method WalkChild(w: Walk, c: Child, rel: Path)
      modifies this
      ensures forall e :: e in entries <==> e in old(entries) || ChildRecords(w, c, rel, e)
      decreases c
    {
      var below := rel + [c.name];
      var walked := (c.node.DirNode? || c.node.FileNode?) && !w.root.excluded(below) &&
                    w.root.path + below !in w.boundary;
      if walked && c.node.DirNode? {
        WalkTree(w, c.node, below);
      } else if walked {
        forall e ensures RecordedIn(w, FileNode, below, e) <==> e == Entry(w.root.id, w.root.path + below) {
          RecordedFile(w, below, e);
        }
        entries := entries + [Entry(w.root.id, w.root.path + below)];
      }
    }

    /** One owner surface: a tree is walked from its root, anything else is a single file. */
    method ScanRoot(w: Walk, node: Option<Node>)
      modifies this
      ensures forall e :: e in entries <==> e in old(entries) || RootRecords(w, node, e)
    {
      if node.None? { return; }
      if !w.root.isTree {
        if node.value.FileNode? {
          entries := entries + [Entry(w.root.id, w.root.path)];
        }
        return;
      }
      if node.value.DirNode? {
        WalkTree(w, node.value, []);
      }
    }

    /** All owner surfaces in turn, with every owner root as a boundary. */
    method ScanAll(fs: Node, roots: seq<Root>)
      requires entries == []
      modifies this
      ensures forall e :: e in entries <==>
                exists r :: r in roots && RootRecords(Walk(r, RootPaths(roots)), NodeAt(fs, r.path), e)
    {
      var boundary := RootPaths(roots);
      for i := 0 to |roots|
        invariant forall e :: e in entries <==>
                    exists r :: r in roots[..i] && RootRecords(Walk(r, boundary), NodeAt(fs, r.path), e)
      {
        assert roots[..i + 1] == roots[..i] + [roots[i]];
        ScanRoot(Walk(roots[i], boundary), NodeAt(fs, roots[i].path));
      }
      assert roots[..|roots|] == roots;
    }
  }

  function RootPaths(roots: seq<Root>): set<Path> {
    set i | 0 <= i < |roots| :: roots[i].path
  }

  /** The file system tree at a path; names in a directory are taken first come first served. */
  function NodeAt(fs: Node, path: Path): Option<Node>
    decreases path
  {
    if path == [] then Some(fs)
    else if !fs.DirNode? then None
    else
      var c := Named(fs.children, path[0]);
      if c.None? then None else NodeAt(c.value.node, path[1..])
  }

  function Named(children: seq<Child>, name: string): Option<Child> {
    if children == [] then None
    else if children[0].name == name then Some(children[0])
    else Named(children[1..], name)
  }

  /** What one owner surface contributes. */
  ghost predicate RootRecords(w: Walk, node: Option<Node>, e: Entry) {
    node.Some? &&
    if w.root.isTree then node.value.DirNode? && RecordedIn(w, node.value, [], e)
    else node.value.FileNode? && e == Entry(w.root.id, w.root.path)
  }

  // ----- What a walk records, read off the tree alone -----

  /** From each node to the next: the directory's first child of that name. */
  predicate Leads(nodes: seq<Node>, names: Path) {
    && |nodes| == |names| + 1
    && forall k | 0 <= k < |names| :: nodes[k].DirNode? && FirstNamed(nodes[k].children, names[k], nodes[k + 1])
  }

  predicate FirstNamed(children: seq<Child>, name: string, node: Node) {
    exists i | 0 <= i < |children| :: FirstAt(children, name, node, i)
  }

  predicate FirstAt(children: seq<Child>, name: string, node: Node, i: nat)
    requires i < |children|
  {
    children[i] == Child(name, node) && forall j | 0 <= j < i :: children[j].name != name
  }

  lemma {:induction false} NamedIsFirst(children: seq<Child>, name: string, node: Node)
    ensures Named(children, name) == Some(Child(name, node)) <==> FirstNamed(children, name, node)
    ensures Named(children, name).Some? ==> Named(children, name).value.name == name
  {
    if children != [] {
      var rest := children[1..];
      NamedIsFirst(rest, name, node);
      if children[0].name == name {
        if i :| 0 <= i < |children| && FirstAt(children, name, node, i) { assert i == 0; }
        assert children[0].node == node ==> FirstAt(children, name, node, 0);
      } else {
        if i :| 0 <= i < |rest| && FirstAt(rest, name, node, i) {
          assert forall j | 1 <= j < i + 1 :: children[j].name == rest[j - 1].name;
          assert FirstAt(children, name, node, i + 1);
        }
        if i :| 0 <= i < |children| && FirstAt(children, name, node, i) {
          assert forall j | 0 <= j < i - 1 :: rest[j].name == children[j + 1].name;
          assert FirstAt(rest, name, node, i - 1);
        }
      }
    }
  }

  /** A surface's root is where its path leads. */
  lemma {:induction false} NodeAtFollowsThePath(fs: Node, path: Path, node: Node)
    ensures NodeAt(fs, path) == Some(node) <==>
              exists nodes :: Leads(nodes, path) && nodes[0] == fs && nodes[|path|] == node
    decreases path
  {
    if path == [] {
      if fs == node { assert Leads([fs], path); }
    } else {
      if NodeAt(fs, path) == Some(node) {
        var c := Named(fs.children, path[0]).value;
        NamedIsFirst(fs.children, path[0], c.node);
        NodeAtFollowsThePath(c.node, path[1..], node);
        var nodes :| Leads(nodes, path[1..]) && nodes[0] == c.node && nodes[|path| - 1] == node;
        assert Leads([fs] + nodes, path);
      }
      if nodes :| Leads(nodes, path) && nodes[0] == fs && nodes[|path|] == node {
        NamedIsFirst(fs.children, path[0], nodes[1]);
        NodeAtFollowsThePath(nodes[1], path[1..], node);
        assert Leads(nodes[1..], path[1..]);
      }
    }
  }

  /** The names lead from the first node through readable directories to a file; a link is neither. */
  predicate Route(nodes: seq<Node>, names: Path) {
    && |nodes| == |names| + 1 && nodes[|names|].FileNode?
    && forall k | 0 <= k < |names| ::
         nodes[k].DirNode? && nodes[k].readable && Child(names[k], nodes[k + 1]) in nodes[k].children
  }

  lemma {:induction false} ReachesAlongARoute(w: Walk, node: Node, rel: Path, rest: Path) returns (nodes: seq<Node>)
    requires Reaches(w, node, rel, rest)
    ensures Route(nodes, rest) && nodes[0] == node
    decreases rest
  {
    if rest == [] {
      nodes := [node];
    } else {
      var c :| c in node.children && c.name == rest[0] && Reaches(w, c.node, rel + [rest[0]], rest[1..]);
      var more := ReachesAlongARoute(w, c.node, rel + [rest[0]], rest[1..]);
      nodes := [node] + more;
    }
  }

  lemma {:induction false} RouteReaches(w: Walk, nodes: seq<Node>, rel: Path, rest: Path)
    requires Route(nodes, rest)
    requires forall n | 0 < n <= |rest| ::
               !w.root.excluded(rel + rest[..n]) && w.root.path + (rel + rest[..n]) !in w.boundary
    ensures Reaches(w, nodes[0], rel, rest)
    decreases rest
  {
    if rest != [] {
      assert rest[..1] == [rest[0]];
      forall n | 0 < n <= |rest[1..]|
        ensures var below := (rel + [rest[0]]) + rest[1..][..n];
                !w.root.excluded(below) && w.root.path + below !in w.boundary
      {
        assert (rel + [rest[0]]) + rest[1..][..n] == rel + rest[..n + 1];
      }
      RouteReaches(w, nodes[1..], rel + [rest[0]], rest[1..]);
      assert Child(rest[0], nodes[1]) in nodes[0].children;
    }
  }

  /** No step from the root down to the path is excluded for the surface or the root of another one. */
  predicate ClearWay(w: Walk, path: Path)
    requires w.root.path <= path
  {
    var root := |w.root.path|;
    forall n | root < n <= |path| :: !w.root.excluded(path[root..n]) && path[..n] !in w.boundary
  }

  /** The path leads to the file from the surface's root, on a clear way. */
  ghost predicate LeadsClear(w: Walk, node: Node, e: Entry) {
    && e.surface == w.root.id && w.root.path <= e.path && ClearWay(w, e.path)
    && exists nodes :: Route(nodes, e.path[|w.root.path|..]) && nodes[0] == node
  }

  lemma RecordedLeadsClear(w: Walk, node: Node, rest: Path, e: Entry)
    requires e == Entry(w.root.id, w.root.path + rest) && Reaches(w, node, [], rest)
    ensures LeadsClear(w, node, e)
  {
    var root := w.root.path;
    assert e.path[|root|..] == rest;
    var nodes := ReachesAlongARoute(w, node, [], rest);
    forall n | |root| < n <= |e.path| ensures !w.root.excluded(e.path[|root|..n]) && e.path[..n] !in w.boundary {
      ReachesPasses(w, node, [], rest, n - |root|);
      assert [] + rest[..n - |root|] == e.path[|root|..n] && root + e.path[|root|..n] == e.path[..n];
    }
  }

  lemma LeadingClearRecords(w: Walk, node: Node, e: Entry)
    requires LeadsClear(w, node, e)
    ensures RecordedIn(w, node, [], e)
  {
    var root, rest := w.root.path, e.path[|w.root.path|..];
    var nodes :| Route(nodes, rest) && nodes[0] == node;
    forall n | 0 < n <= |rest| ensures !w.root.excluded([] + rest[..n]) && root + ([] + rest[..n]) !in w.boundary {
      assert [] + rest[..n] == e.path[|root|..|root| + n] && root + ([] + rest[..n]) == e.path[..|root| + n];
    }
    RouteReaches(w, nodes, [], rest);
    assert e.path == root + ([] + rest);
  }

  /**
    * The walk of a tree records a file exactly when its path leads there from the root through
    * readable directories, over nothing excluded and past no other surface's root.
    */
  lemma TreeRecordsExactlyWhen(w: Walk, node: Option<Node>, e: Entry)
    requires w.root.isTree
    ensures RootRecords(w, node, e) <==> node.Some? && node.value.DirNode? && LeadsClear(w, node.value, e)
  {
    if RootRecords(w, node, e) {
      var rest :| e.path == w.root.path + ([] + rest) && Reaches(w, node.value, [], rest);
      assert [] + rest == rest;
      RecordedLeadsClear(w, node.value, rest, e);
    }
    if node.Some? && node.value.DirNode? && LeadsClear(w, node.value, e) {
      LeadingClearRecords(w, node.value, e);
    }
  }

  /** Any other surface is the one file at its root, if there is a file. */
  lemma FileSurfaceRecordsItsFile(w: Walk, node: Option<Node>, e: Entry)
    requires !w.root.isTree
    ensures RootRecords(w, node, e) <==> node == Some(FileNode) && e == Entry(w.root.id, w.root.path)
  {
  }

  // ----- Attribution -----

  /** Every path on the way to a recorded file, from below the root on, is passed. */
  lemma {:induction false} ReachesPasses(w: Walk, node: Node, rel: Path, rest: Path, n: nat)
    requires Reaches(w, node, rel, rest) && 0 < n <= |rest|
    ensures Passes(w, rel + rest[..n])
    decreases rest
  {
    var c :| c in node.children && c.name == rest[0] && Reaches(w, c.node, rel + [rest[0]], rest[1..]);
    if n == 1 {
      assert rest[..1] == [rest[0]];
    } else {
      ReachesPasses(w, c.node, rel + [rest[0]], rest[1..], n - 1);
      assert (rel + [rest[0]]) + rest[1..][..n - 1] == rel + rest[..n];
    }
  }

  /** A recorded file lies in the surface's tree, and no other owner root is at or above it in there. */
  lemma RecordedUnderDeepestRoot(w: Walk, node: Option<Node>, e: Entry, other: Path)
    requires RootRecords(w, node, e) && other in w.boundary && other <= e.path
    ensures w.root.path <= e.path && other <= w.root.path && e.surface == w.root.id
  {
    var root := w.root.path;
    if w.root.isTree {
      var rest :| e.path == root + ([] + rest) && Reaches(w, node.value, [], rest);
      assert [] + rest == rest;
      if |other| > |root| {
        var n := |other| - |root|;
        assert root + ([] + rest[..n]) == e.path[..|other|] == other;
        ReachesPasses(w, node.value, [], rest, n);
        assert false;
      }
      PrefixesNest(other, root, e.path);
    }
  }

  /**
    * Attribution. Owners have distinct resolved paths, so each physical file is recorded for at most
    * one surface: the one with the deepest owner root at or above the file.
    */
  lemma EachFileHasOneSurface(fs: Node, roots: seq<Root>, r: Root, s: Root, e: Entry, f: Entry)
    requires forall a, b :: a in roots && b in roots && a.path == b.path ==> a == b
    requires r in roots && s in roots && e.path == f.path
    requires RootRecords(Walk(r, RootPaths(roots)), NodeAt(fs, r.path), e)
    requires RootRecords(Walk(s, RootPaths(roots)), NodeAt(fs, s.path), f)
    ensures r == s && e == f
    ensures forall t :: t in roots && t.path <= e.path ==> t.path <= r.path
  {
    var boundary := RootPaths(roots);
    forall t | t in roots && t.path <= e.path
      ensures t.path <= r.path && t.path <= s.path && r.path <= e.path && s.path <= e.path
    {
      RecordedUnderDeepestRoot(Walk(r, boundary), NodeAt(fs, r.path), e, t.path);
      RecordedUnderDeepestRoot(Walk(s, boundary), NodeAt(fs, s.path), f, t.path);
    }
    OwnRootCovers(Walk(r, boundary), NodeAt(fs, r.path), e);
    OwnRootCovers(Walk(s, boundary), NodeAt(fs, s.path), f);
    assert r.path <= s.path && s.path <= r.path;
  }

  lemma OwnRootCovers(w: Walk, node: Option<Node>, e: Entry)
    requires RootRecords(w, node, e)
    ensures w.root.path <= e.path && e.surface == w.root.id
  {
    if w.root.isTree {
      var rest :| e.path == w.root.path + ([] + rest) && Reaches(w, node.value, [], rest);
    }
  }

  /** The deepest owner root at or above a link's target, the one a file there is attributed to. */
  method FindOwnerRoot(roots: seq<Root>, target: Path) returns (best: Option<Root>)
    ensures best.None? <==> forall r :: r in roots ==> r.path != target && !Contains(r.path, target)
    ensures best.Some? ==> best.value in roots && (best.value.path == target || Contains(best.value.path, target))
    ensures best.Some? ==> forall r :: r in roots && (r.path == target || Contains(r.path, target)) ==>
              r.path <= best.value.path
  {
    best := None;
    for i := 0 to |roots|
      invariant best.None? <==> forall j | 0 <= j < i :: !Contains(roots[j].path, target)
      invariant best.Some? ==> best.value in roots && Contains(best.value.path, target)
      invariant forall j | 0 <= j < i :: roots[j].path != target
      invariant best.Some? ==>
                  forall j | 0 <= j < i && Contains(roots[j].path, target) :: roots[j].path <= best.value.path
    {
      var root := roots[i];
      if root.path == target { return Some(root); }
      if Contains(root.path, target) {
        if best.None? || |root.path| > |best.value.path| {
          if best.Some? { PrefixesNest(best.value.path, root.path, target); }
          best := Some(root);
        } else {
          PrefixesNest(root.path, best.value.path, target);
        }
      }
    }
  }
}
