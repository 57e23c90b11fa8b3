/** What the entries of a walk are, in terms of the tree alone: the nodes and names on the way
    down from the root. */
module WalkPaths {
  import opened TreeWalk
  import opened WalkOrders
  import opened Outcomes
  import Paths

  /** The address leads down through folders, by named entries other than "." and "..". */
  predicate Leads(node: Node, a: Address)
    decreases |a|
  {
    a == [] ||
    (&& node.isFolder && a[0] < Count(node.listing) && EntryAt(node.listing, a[0]).Named?
     && EntryAt(node.listing, a[0]).name != "." && EntryAt(node.listing, a[0]).name != ".."
     && Leads(EntryAt(node.listing, a[0]).node, a[1..]))
  }

  function NodeAt(node: Node, a: Address): Node
    requires Leads(node, a)
    decreases |a|
  {
    if a == [] then node else NodeAt(EntryAt(node.listing, a[0]).node, a[1..])
  }

  function NamesTo(node: Node, a: Address): (names: seq<string>)
    requires Leads(node, a)
    ensures |names| == |a|
    decreases |a|
  {
    if a == [] then []
    else [EntryAt(node.listing, a[0]).name] + NamesTo(EntryAt(node.listing, a[0]).node, a[1..])
  }

  /** The root path, the names on the way separated by slashes, and a slash behind a folder. */
  function PathTo(root: Node, rootPath: string, a: Address): string
    requires Leads(root, a)
  {
    if a == [] then rootPath
    else rootPath + Paths.Join(NamesTo(root, a)) + if NodeAt(root, a).isFolder then "/" else ""
  }

  function LastName(names: seq<string>, otherwise: string): string {
    if names == [] then otherwise else names[|names| - 1]
  }

  predicate WithinDepth(depth: nat, maxDepth: int) {
    maxDepth < 0 || depth <= maxDepth
  }

  lemma {:induction false} ReachedWithinLimit(v: Visit, a: Address, maxDepth: int)
    requires WithinDepth(v.depth, maxDepth)
    ensures Reaches(v, a, maxDepth) <==> Leads(v.node, a) && WithinDepth(v.depth + |a|, maxDepth)
    decreases |a|
  {
    if a != [] && Enters(v, a[0], maxDepth) { ReachedWithinLimit(ChildVisit(v, a[0], maxDepth), a[1..], maxDepth); }
  }

  lemma JoinFirst(first: string, rest: seq<string>)
    ensures Paths.Join([first] + rest) == if rest == [] then first else first + "/" + Paths.Join(rest)
  {
    assert ([first] + rest)[1..] == rest;
  }

  lemma Regrouped(path: string, name: string, below: string, end: string)
    ensures path + (name + "/" + below) + end == path + name + "/" + below + end
  {}

  /** One level down, the rest of the address leads from the child to the same path. */
  lemma PathOneDown(root: Node, path: string, a: Address, e: Entry)
    requires a != [] && Leads(root, a) && e == EntryAt(root.listing, a[0])
    ensures PathTo(root, path, a) == PathTo(e.node, ChildPath(path, e.name, e.node), a[1..])
  {
    var rest := NamesTo(e.node, a[1..]);
    assert NamesTo(root, a) == [e.name] + rest && NodeAt(root, a) == NodeAt(e.node, a[1..]);
    JoinFirst(e.name, rest);
    Regrouped(path, e.name, Paths.Join(rest), if NodeAt(root, a).isFolder then "/" else "");
  }

  /** What is visited at an address. */
  lemma {:induction false} VisitIs(v: Visit, a: Address, maxDepth: int)
    requires Reaches(v, a, maxDepth) && Leads(v.node, a)
    ensures VisitAt(v, a, maxDepth) ==
            Visit(NodeAt(v.node, a), PathTo(v.node, v.path, a), v.depth + |a|, LastName(NamesTo(v.node, a), v.name))
    decreases |a|
  {
    if a != [] {
      var child := ChildVisit(v, a[0], maxDepth);
      VisitIs(child, a[1..], maxDepth);
      PathOneDown(v.node, v.path, a, EntryAt(v.node.listing, a[0]));
    }
  }

  /** The entry of the walk from a root for the node at an address. */
  ghost predicate IsEntryOf(e: WalkEntry, root: Node, rootPath: string, maxDepth: int, a: Address) {
    && Leads(root, a) && WithinDepth(|a|, maxDepth)
    && e == Visited(PathTo(root, rootPath, a), |a|, LastName(NamesTo(root, a), ""), NodeAt(root, a))
  }

  /** What the depth-first walk visits, and with which paths, depths and names: exactly the
      nodes within the limit. */
  lemma VisitedEntries(root: Node, rootPath: string, maxDepth: int, e: WalkEntry)
    requires e.Visited?
    ensures e in DepthFirst(root, rootPath, maxDepth) <==> exists a: Address :: IsEntryOf(e, root, rootPath, maxDepth, a)
  {
    var v := Visit(root, rootPath, 0, "");
    if e in DepthFirst(root, rootPath, maxDepth) {
      var i :| 0 <= i < |Walk(v, maxDepth)| && Walk(v, maxDepth)[i] == e;
      var a := EveryEntryIsANode(v, maxDepth, i);
      ReachedWithinLimit(v, a, maxDepth);
      OwnEntry(v, a, maxDepth);
      VisitIs(v, a, maxDepth);
      assert IsEntryOf(e, root, rootPath, maxDepth, a);
    }
    forall a: Address | IsEntryOf(e, root, rootPath, maxDepth, a) ensures e in DepthFirst(root, rootPath, maxDepth) {
      ReachedWithinLimit(v, a, maxDepth);
      OwnEntry(v, a, maxDepth);
      VisitIs(v, a, maxDepth);
    }
  }

  // ----- entries that fail -----

  /** Entry number k of the directory at an address failed, or has a name that cannot be
      decrypted; the walk reports it one level below the directory. */
  ghost predicate IsFailureOf(e: WalkEntry, root: Node, maxDepth: int, a: Address, k: nat) {
    && Leads(root, a) && WithinDepth(|a| + 1, maxDepth)
    && NodeAt(root, a).isFolder && k < Count(NodeAt(root, a).listing)
    && match EntryAt(NodeAt(root, a).listing, k)
       case Broken => e == Failure(|a| + 1, None)
       case Unnamed(n) => e == Failure(|a| + 1, Some(n))
       case Named(_, _) => false
  }

  predicate Fails(v: Visit, k: nat, maxDepth: int, e: WalkEntry) {
    && v.node.isFolder && Descends(v.depth, maxDepth) && k < Count(v.node.listing)
    && !EntryAt(v.node.listing, k).Named?
    && DfsEntry(EntryAt(v.node.listing, k), v.path, v.depth, maxDepth) == [e]
  }

  lemma {:induction false} EntryEmits(es: Listing, path: string, depth: nat, maxDepth: int, e: WalkEntry) returns (k: nat)
    requires e in DfsListing(es, path, depth, maxDepth)
    ensures k < Count(es) && e in DfsEntry(EntryAt(es, k), path, depth, maxDepth)
  {
    if e in DfsEntry(es.head, path, depth, maxDepth) { return 0; }
    k := EntryEmits(es.tail, path, depth, maxDepth, e);
    k := k + 1;
  }

  lemma {:induction false} FailureHasPlace(v: Visit, maxDepth: int, e: WalkEntry) returns (a: Address, k: nat)
    requires e.Failure? && e in Walk(v, maxDepth)
    ensures Reaches(v, a, maxDepth) && Fails(VisitAt(v, a, maxDepth), k, maxDepth, e)
    decreases v.node
  {
    k := EntryEmits(v.node.listing, v.path, v.depth, maxDepth, e);
    a := [];
    if EntryAt(v.node.listing, k).Named? {
      var first := k;
      a, k := FailureHasPlace(ChildVisit(v, first, maxDepth), maxDepth, e);
      assert ([first] + a)[1..] == a;
      a := [first] + a;
    }
  }

  lemma {:induction false} FailureIsEmitted(v: Visit, maxDepth: int, e: WalkEntry, a: Address, k: nat)
    requires Reaches(v, a, maxDepth) && Fails(VisitAt(v, a, maxDepth), k, maxDepth, e)
    ensures e in Walk(v, maxDepth)
    decreases |a|
  {
    if a == [] {
      EntrySegment(v.node.listing, v.path, v.depth, maxDepth, k);
      var from := Offset(v.node.listing, v.path, v.depth, maxDepth, k);
      assert e in DfsListing(v.node.listing, v.path, v.depth, maxDepth)[from..from + 1];
    } else {
      var child := ChildVisit(v, a[0], maxDepth);
      FailureIsEmitted(child, maxDepth, e, a[1..], k);
      ChildSegment(v, a[0], maxDepth);
    }
  }

  /** Which failures the depth-first walk reports: exactly those in the directories it reads. */
  lemma FailedEntries(root: Node, rootPath: string, maxDepth: int, e: WalkEntry)
    requires e.Failure?
    ensures e in DepthFirst(root, rootPath, maxDepth) <==>
            exists a: Address, k: nat :: IsFailureOf(e, root, maxDepth, a, k)
  {
    var v := Visit(root, rootPath, 0, "");
    if e in DepthFirst(root, rootPath, maxDepth) {
      var a, k := FailureHasPlace(v, maxDepth, e);
      ReachedWithinLimit(v, a, maxDepth);
      VisitIs(v, a, maxDepth);
      assert IsFailureOf(e, root, maxDepth, a, k);
    }
    forall a: Address, k: nat | IsFailureOf(e, root, maxDepth, a, k) ensures e in DepthFirst(root, rootPath, maxDepth) {
      ReachedWithinLimit(v, a, maxDepth);
      VisitIs(v, a, maxDepth);
      FailureIsEmitted(v, maxDepth, e, a, k);
    }
  }

  // ----- the breadth-first walk -----

  /** The breadth-first walk visits the same, and with limit zero what it visits with one. */
  lemma VisitedBreadthFirst(root: Node, rootPath: string, maxDepth: int, e: WalkEntry)
    requires e.Visited?
    ensures var limit := if maxDepth == 0 then 1 else maxDepth;
            e in BreadthFirst(root, rootPath, maxDepth) <==>
            exists a: Address :: IsEntryOf(e, root, rootPath, limit, a)
  {
    var limit := if maxDepth == 0 then 1 else maxDepth;
    DepthZero(root, rootPath);
    SameEntries(root, rootPath, limit);
    VisitedEntries(root, rootPath, limit, e);
    assert e in BreadthFirst(root, rootPath, limit) <==> e in multiset(BreadthFirst(root, rootPath, limit));
    assert e in DepthFirst(root, rootPath, limit) <==> e in multiset(DepthFirst(root, rootPath, limit));
  }

  lemma FailedBreadthFirst(root: Node, rootPath: string, maxDepth: int, e: WalkEntry)
    requires e.Failure?
    ensures var limit := if maxDepth == 0 then 1 else maxDepth;
            e in BreadthFirst(root, rootPath, maxDepth) <==>
            exists a: Address, k: nat :: IsFailureOf(e, root, limit, a, k)
  {
    var limit := if maxDepth == 0 then 1 else maxDepth;
    DepthZero(root, rootPath);
    SameEntries(root, rootPath, limit);
    FailedEntries(root, rootPath, limit, e);
    assert e in BreadthFirst(root, rootPath, limit) <==> e in multiset(BreadthFirst(root, rootPath, limit));
    assert e in DepthFirst(root, rootPath, limit) <==> e in multiset(DepthFirst(root, rootPath, limit));
  }
}
