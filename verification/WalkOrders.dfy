/** What the two walks of a tree emit, and in which order. */
module WalkOrders {
  import opened TreeWalk

  // ----- both walks emit the same entries -----

  /** What a depth-first walk emits below a directory that is expanded. */
  function Below(item: Item, maxDepth: int): seq<WalkEntry> {
    if item.link.isFolder then DfsListing(item.link.listing, item.path, item.depth, maxDepth) else []
  }

  function BelowAll(queue: seq<Item>, maxDepth: int): multiset<WalkEntry> {
    if queue == [] then multiset{}
    else BelowAll(queue[..|queue| - 1], maxDepth) + multiset(Below(queue[|queue| - 1], maxDepth))
  }

  lemma {:induction false} BelowAppend(a: seq<Item>, b: seq<Item>, maxDepth: int)
    ensures BelowAll(a + b, maxDepth) == BelowAll(a, maxDepth) + BelowAll(b, maxDepth)
  {
    if b == [] {
      assert a + b == a;
    } else {
      var init, last := b[..|b| - 1], b[|b| - 1];
      assert (a + b)[..|a + b| - 1] == a + init;
      BelowAppend(a, init, maxDepth);
    }
  }

  lemma EntryBelow(e: Entry, path: string, depth: nat, maxDepth: int)
    ensures multiset(DfsEntry(e, path, depth, maxDepth)) ==
            multiset(EmitEntry(e, path, depth)) + BelowAll(NextEntry(e, path, depth, maxDepth), maxDepth)
  {
    var next := NextEntry(e, path, depth, maxDepth);
    if next != [] { assert next[..0] == []; }
  }

  lemma {:induction false} ListingBelow(es: Listing, path: string, depth: nat, maxDepth: int)
    ensures multiset(DfsListing(es, path, depth, maxDepth)) ==
            multiset(EmitListing(es, path, depth)) + BelowAll(NextListing(es, path, depth, maxDepth), maxDepth)
  {
    match es
    case End =>
    case More(e, tail) =>
      EntryBelow(e, path, depth, maxDepth);
      ListingBelow(tail, path, depth, maxDepth);
      BelowAppend(NextEntry(e, path, depth, maxDepth), NextListing(tail, path, depth, maxDepth), maxDepth);
  }

  lemma {:induction false} QueueBelow(queue: seq<Item>, maxDepth: int)
    ensures BelowAll(queue, maxDepth) == multiset(EmitAll(queue)) + BelowAll(NextAll(queue, maxDepth), maxDepth)
  {
    if queue != [] {
      var init, last := queue[..|queue| - 1], queue[|queue| - 1];
      QueueBelow(init, maxDepth);
      ListingBelow(last.link.listing, last.path, last.depth, maxDepth);
      BelowAppend(NextAll(init, maxDepth), Next(last, maxDepth), maxDepth);
    }
  }

  lemma {:induction false} BfsIsBelow(queue: seq<Item>, maxDepth: int)
    ensures multiset(Bfs(queue, maxDepth)) == BelowAll(queue, maxDepth)
    decreases QueueSize(queue)
  {
    if queue != [] {
      BfsRound(queue, maxDepth);
      QueueBelow(queue, maxDepth);
      BfsIsBelow(NextAll(queue, maxDepth), maxDepth);
    }
  }

  /** With any depth limit but zero, both walks emit the same entries, equally often. */
  lemma SameEntries(root: Node, rootPath: string, maxDepth: int)
    requires maxDepth != 0
    ensures multiset(BreadthFirst(root, rootPath, maxDepth)) == multiset(DepthFirst(root, rootPath, maxDepth))
  {
    var queue := [Item(root, rootPath, 0)];
    BfsIsBelow(queue, maxDepth);
    assert queue[..0] == [];
  }

  // ----- the depth limit zero -----

  lemma {:induction false} NothingQueued(es: Listing, path: string, depth: nat, maxDepth: int)
    requires 0 <= maxDepth <= depth + 1
    ensures NextListing(es, path, depth, maxDepth) == []
  {
    if es.More? { NothingQueued(es.tail, path, depth, maxDepth); }
  }

  lemma RootOnly(root: Node, rootPath: string, maxDepth: int)
    requires 0 <= maxDepth <= 1
    ensures BreadthFirst(root, rootPath, maxDepth) == [Visited(rootPath, 0, "", root)] + Emit(Item(root, rootPath, 0))
  {
    var item := Item(root, rootPath, 0);
    var queue := [item];
    NothingQueued(root.listing, rootPath, 0, maxDepth);
    assert queue[..0] == [] && EmitAll([]) == [] && NextAll([], maxDepth) == [];
    assert EmitAll(queue) == Emit(item);
    assert NextAll(queue, maxDepth) == [];
    BfsRound(queue, maxDepth);
  }

  /** The breadth-first walk always expands the root: with limit zero it does what it does with
      limit one, so it agrees with the depth-first walk exactly when the root emits nothing. */
  lemma DepthZero(root: Node, rootPath: string)
    ensures BreadthFirst(root, rootPath, 0) == BreadthFirst(root, rootPath, 1)
    ensures multiset(BreadthFirst(root, rootPath, 0)) == multiset(DepthFirst(root, rootPath, 0)) <==>
            Emit(Item(root, rootPath, 0)) == []
  {
    RootOnly(root, rootPath, 0);
    RootOnly(root, rootPath, 1);
    var first, rest := [Visited(rootPath, 0, "", root)], Emit(Item(root, rootPath, 0));
    assert DepthFirst(root, rootPath, 0) == first;
    assert multiset(first + rest) == multiset(first) + multiset(rest);
    assert |multiset(first + rest)| == |first| + |rest|;
  }

  // ----- breadth-first order -----

  ghost predicate DepthsRise(out: seq<WalkEntry>) {
    forall i, j | 0 <= i <= j < |out| :: out[i].depth <= out[j].depth
  }

  ghost predicate AllAt(out: seq<WalkEntry>, depth: nat) {
    forall e | e in out :: e.depth == depth
  }

  ghost predicate ItemsAt(queue: seq<Item>, depth: nat) {
    forall x | x in queue :: x.depth == depth
  }

  lemma {:induction false} ListingLevel(es: Listing, path: string, depth: nat, maxDepth: int)
    ensures AllAt(EmitListing(es, path, depth), depth + 1)
    ensures ItemsAt(NextListing(es, path, depth, maxDepth), depth + 1)
  {
    if es.More? { ListingLevel(es.tail, path, depth, maxDepth); }
  }

  lemma {:induction false} QueueLevel(queue: seq<Item>, depth: nat, maxDepth: int)
    requires ItemsAt(queue, depth)
    ensures AllAt(EmitAll(queue), depth + 1) && ItemsAt(NextAll(queue, maxDepth), depth + 1)
  {
    if queue != [] {
      var init, last := queue[..|queue| - 1], queue[|queue| - 1];
      assert last in queue && forall x | x in init :: x in queue;
      QueueLevel(init, depth, maxDepth);
      ListingLevel(last.link.listing, last.path, last.depth, maxDepth);
    }
  }

  lemma RiseAppend(a: seq<WalkEntry>, b: seq<WalkEntry>, depth: nat)
    requires AllAt(a, depth) && DepthsRise(b) && forall e | e in b :: e.depth >= depth
    ensures DepthsRise(a + b) && forall e | e in a + b :: e.depth >= depth
  {
    var out := a + b;
    forall i, j | 0 <= i <= j < |out| ensures out[i].depth <= out[j].depth {
      if i < |a| {
        assert out[i] in a;
        if j < |a| { assert out[j] in a; } else { assert out[j] in b; }
      } else {
        assert out[i] == b[i - |a|] && out[j] == b[j - |a|];
      }
    }
  }

  lemma {:induction false} BfsRises(queue: seq<Item>, depth: nat, maxDepth: int)
    requires ItemsAt(queue, depth)
    ensures DepthsRise(Bfs(queue, maxDepth)) && forall e | e in Bfs(queue, maxDepth) :: e.depth >= depth + 1
    decreases QueueSize(queue)
  {
    if queue != [] {
      BfsRound(queue, maxDepth);
      QueueLevel(queue, depth, maxDepth);
      var rest := Bfs(NextAll(queue, maxDepth), maxDepth);
      BfsRises(NextAll(queue, maxDepth), depth + 1, maxDepth);
      RiseAppend(EmitAll(queue), rest, depth + 1);
    }
  }

  /** The breadth-first walk never goes back up. */
  lemma BreadthFirstOrder(root: Node, rootPath: string, maxDepth: int)
    ensures DepthsRise(BreadthFirst(root, rootPath, maxDepth))
  {
    BfsRises([Item(root, rootPath, 0)], 0, maxDepth);
    RiseAppend([Visited(rootPath, 0, "", root)], Bfs([Item(root, rootPath, 0)], maxDepth), 0);
  }

  lemma {:induction false} DfsDepths(node: Node, path: string, depth: nat, maxDepth: int, name: string)
    requires maxDepth < 0 || depth <= maxDepth
    ensures forall e | e in Dfs(node, path, depth, maxDepth, name) :: depth <= e.depth && (maxDepth < 0 || e.depth <= maxDepth)
    decreases node
  {
    if node.isFolder && Descends(depth, maxDepth) { ListingDepths(node.listing, path, depth, maxDepth); }
  }

  lemma {:induction false} ListingDepths(es: Listing, path: string, depth: nat, maxDepth: int)
    requires Descends(depth, maxDepth)
    ensures forall e | e in DfsListing(es, path, depth, maxDepth) :: depth < e.depth && (maxDepth < 0 || e.depth <= maxDepth)
    decreases es
  {
    match es
    case End =>
    case More(e, tail) =>
      ListingDepths(tail, path, depth, maxDepth);
      if e.Named? && !IsDots(e.name) {
        DfsDepths(e.node, ChildPath(path, e.name, e.node), depth + 1, maxDepth, e.name);
      }
  }

  /** No walk goes below the limit, if the limit is not zero. */
  lemma WithinLimit(root: Node, rootPath: string, maxDepth: int)
    requires maxDepth > 0
    ensures forall e | e in DepthFirst(root, rootPath, maxDepth) :: e.depth <= maxDepth
    ensures forall e | e in BreadthFirst(root, rootPath, maxDepth) :: e.depth <= maxDepth
  {
    DfsDepths(root, rootPath, 0, maxDepth, "");
    SameEntries(root, rootPath, maxDepth);
    forall e | e in BreadthFirst(root, rootPath, maxDepth) ensures e.depth <= maxDepth {
      assert e in multiset(BreadthFirst(root, rootPath, maxDepth));
      assert e in multiset(DepthFirst(root, rootPath, maxDepth));
    }
  }

  // ----- depth-first order -----

  /** A node addressed by the numbers of the entries on the way to it. */
  type Address = seq<nat>

  function EntryAt(es: Listing, k: nat): Entry
    requires k < Count(es)
  {
    if k == 0 then es.head else EntryAt(es.tail, k - 1)
  }

  lemma {:induction false} EntryIsSmaller(es: Listing, k: nat)
    requires k < Count(es)
    ensures EntryAt(es, k) < es
  {
    if k > 0 { EntryIsSmaller(es.tail, k - 1); }
  }

  datatype Visit = Visit(node: Node, path: string, depth: nat, name: string)

  function Walk(v: Visit, maxDepth: int): seq<WalkEntry> {
    Dfs(v.node, v.path, v.depth, maxDepth, v.name)
  }

  function Own(v: Visit): WalkEntry {
    Visited(v.path, v.depth, v.name, v.node)
  }

  /** The walk goes from a directory into its entry number k. */
  predicate Enters(v: Visit, k: nat, maxDepth: int) {
    && v.node.isFolder && Descends(v.depth, maxDepth) && k < Count(v.node.listing)
    && EntryAt(v.node.listing, k).Named? && !IsDots(EntryAt(v.node.listing, k).name)
  }

  function ChildVisit(v: Visit, k: nat, maxDepth: int): (c: Visit)
    requires Enters(v, k, maxDepth)
    ensures c.node < v.node
  {
    var e := EntryAt(v.node.listing, k);
    EntryIsSmaller(v.node.listing, k);
    Visit(e.node, ChildPath(v.path, e.name, e.node), v.depth + 1, e.name)
  }

  predicate Reaches(v: Visit, a: Address, maxDepth: int)
    decreases |a|
  {
    a == [] || (Enters(v, a[0], maxDepth) && Reaches(ChildVisit(v, a[0], maxDepth), a[1..], maxDepth))
  }

  function VisitAt(v: Visit, a: Address, maxDepth: int): Visit
    requires Reaches(v, a, maxDepth)
    decreases |a|
  {
    if a == [] then v else VisitAt(ChildVisit(v, a[0], maxDepth), a[1..], maxDepth)
  }

  /** How much is emitted for the first k entries. */
  function Offset(es: Listing, path: string, depth: nat, maxDepth: int, k: nat): nat
    requires k <= Count(es)
  {
    if k == 0 then 0
    else |DfsEntry(es.head, path, depth, maxDepth)| + Offset(es.tail, path, depth, maxDepth, k - 1)
  }

  /** Where the walk of an addressed node starts. */
  function StartOf(v: Visit, a: Address, maxDepth: int): nat
    requires Reaches(v, a, maxDepth)
    decreases |a|
  {
    if a == [] then 0
    else Offset(v.node.listing, v.path, v.depth, maxDepth, a[0]) + StartOf(ChildVisit(v, a[0], maxDepth), a[1..], maxDepth)
  }

  /** Where its own entry is. */
  function PlaceOf(v: Visit, a: Address, maxDepth: int): int
    requires Reaches(v, a, maxDepth)
  {
    StartOf(v, a, maxDepth) + |Walk(VisitAt(v, a, maxDepth), maxDepth)| - 1
  }

  lemma {:induction false} EntrySegment(es: Listing, path: string, depth: nat, maxDepth: int, k: nat)
    requires k < Count(es)
    ensures var from, piece := Offset(es, path, depth, maxDepth, k), DfsEntry(EntryAt(es, k), path, depth, maxDepth);
            && from + |piece| <= |DfsListing(es, path, depth, maxDepth)|
            && DfsListing(es, path, depth, maxDepth)[from..from + |piece|] == piece
  {
    if k > 0 {
      EntrySegment(es.tail, path, depth, maxDepth, k - 1);
      var first := |DfsEntry(es.head, path, depth, maxDepth)|;
      var from, piece := Offset(es.tail, path, depth, maxDepth, k - 1), DfsEntry(EntryAt(es, k), path, depth, maxDepth);
      assert DfsListing(es, path, depth, maxDepth)[first + from..first + from + |piece|]
             == DfsListing(es.tail, path, depth, maxDepth)[from..from + |piece|];
    }
  }

  /** The walk of a child is one contiguous piece, before the directory's own entry. */
  lemma ChildSegment(v: Visit, k: nat, maxDepth: int)
    requires Enters(v, k, maxDepth)
    ensures var from, piece := Offset(v.node.listing, v.path, v.depth, maxDepth, k), Walk(ChildVisit(v, k, maxDepth), maxDepth);
            && from + |piece| < |Walk(v, maxDepth)|
            && Walk(v, maxDepth)[from..from + |piece|] == piece
  {
    var below := DfsListing(v.node.listing, v.path, v.depth, maxDepth);
    EntrySegment(v.node.listing, v.path, v.depth, maxDepth, k);
    var from, piece := Offset(v.node.listing, v.path, v.depth, maxDepth, k), Walk(ChildVisit(v, k, maxDepth), maxDepth);
    assert Walk(v, maxDepth) == below + [Own(v)];
    assert Walk(v, maxDepth)[from..from + |piece|] == below[from..from + |piece|];
  }

  /** The walk of every node is one contiguous piece of the whole. */
  lemma {:induction false} Segment(v: Visit, a: Address, maxDepth: int)
    requires Reaches(v, a, maxDepth)
    ensures var from, piece := StartOf(v, a, maxDepth), Walk(VisitAt(v, a, maxDepth), maxDepth);
            && from + |piece| <= |Walk(v, maxDepth)| && (a != [] ==> from + |piece| < |Walk(v, maxDepth)|)
            && Walk(v, maxDepth)[from..from + |piece|] == piece
    decreases |a|
  {
    if a == [] {
      assert Walk(v, maxDepth)[0..|Walk(v, maxDepth)|] == Walk(v, maxDepth);
    } else {
      var child := ChildVisit(v, a[0], maxDepth);
      ChildSegment(v, a[0], maxDepth);
      Segment(child, a[1..], maxDepth);
      var outer, inner := Offset(v.node.listing, v.path, v.depth, maxDepth, a[0]), StartOf(child, a[1..], maxDepth);
      var piece := Walk(VisitAt(v, a, maxDepth), maxDepth);
      SliceOfSlice(Walk(v, maxDepth), Walk(child, maxDepth), outer, inner, piece);
    }
  }

  lemma SliceOfSlice(whole: seq<WalkEntry>, middle: seq<WalkEntry>, outer: nat, inner: nat, piece: seq<WalkEntry>)
    requires outer + |middle| <= |whole| && whole[outer..outer + |middle|] == middle
    requires inner + |piece| <= |middle| && middle[inner..inner + |piece|] == piece
    ensures whole[outer + inner..outer + inner + |piece|] == piece
  {
    var slice := whole[outer + inner..outer + inner + |piece|];
    forall i | 0 <= i < |piece| ensures slice[i] == piece[i] {
      assert slice[i] == whole[outer..outer + |middle|][inner + i];
      assert piece[i] == middle[inner..inner + |piece|][i];
    }
  }

  lemma LastIsOwn(v: Visit, maxDepth: int)
    ensures Walk(v, maxDepth)[|Walk(v, maxDepth)| - 1] == Own(v)
  {
  }

  /** Every node's own entry is at its place. */
  lemma OwnEntry(v: Visit, a: Address, maxDepth: int)
    requires Reaches(v, a, maxDepth)
    ensures 0 <= PlaceOf(v, a, maxDepth) < |Walk(v, maxDepth)|
    ensures Walk(v, maxDepth)[PlaceOf(v, a, maxDepth)] == Own(VisitAt(v, a, maxDepth))
    ensures a != [] ==> PlaceOf(v, a, maxDepth) < |Walk(v, maxDepth)| - 1
  {
    Segment(v, a, maxDepth);
    LastIsOwn(VisitAt(v, a, maxDepth), maxDepth);
    var from, piece := StartOf(v, a, maxDepth), Walk(VisitAt(v, a, maxDepth), maxDepth);
    assert Walk(v, maxDepth)[from..from + |piece|][|piece| - 1] == Walk(v, maxDepth)[from + |piece| - 1];
  }

  lemma {:induction false} AddressAppend(v: Visit, a: Address, b: Address, maxDepth: int)
    requires Reaches(v, a, maxDepth) && Reaches(VisitAt(v, a, maxDepth), b, maxDepth)
    ensures Reaches(v, a + b, maxDepth) && VisitAt(v, a + b, maxDepth) == VisitAt(VisitAt(v, a, maxDepth), b, maxDepth)
    ensures StartOf(v, a + b, maxDepth) == StartOf(v, a, maxDepth) + StartOf(VisitAt(v, a, maxDepth), b, maxDepth)
    decreases |a|
  {
    if a == [] {
      assert a + b == b;
    } else {
      assert (a + b)[0] == a[0] && (a + b)[1..] == a[1..] + b;
      AddressAppend(ChildVisit(v, a[0], maxDepth), a[1..], b, maxDepth);
    }
  }

  /** In the depth-first walk every directory comes after all that is emitted below it. */
  lemma DirectoryAfterDescendants(v: Visit, dir: Address, below: Address, maxDepth: int)
    requires Reaches(v, dir, maxDepth) && below != [] && Reaches(VisitAt(v, dir, maxDepth), below, maxDepth)
    ensures Reaches(v, dir + below, maxDepth) && PlaceOf(v, dir + below, maxDepth) < PlaceOf(v, dir, maxDepth)
  {
    AddressAppend(v, dir, below, maxDepth);
    Segment(VisitAt(v, dir, maxDepth), below, maxDepth);
  }

  lemma {:induction false} OffsetStep(es: Listing, path: string, depth: nat, maxDepth: int, k: nat, m: nat)
    requires k < m <= Count(es)
    ensures Offset(es, path, depth, maxDepth, k) + |DfsEntry(EntryAt(es, k), path, depth, maxDepth)|
            <= Offset(es, path, depth, maxDepth, m)
  {
    if k > 0 { OffsetStep(es.tail, path, depth, maxDepth, k - 1, m - 1); }
  }

  /** Different nodes have different places: none is emitted twice. */
  lemma {:induction false} PlacesDiffer(v: Visit, a: Address, b: Address, maxDepth: int)
    requires Reaches(v, a, maxDepth) && Reaches(v, b, maxDepth) && a != b
    ensures PlaceOf(v, a, maxDepth) != PlaceOf(v, b, maxDepth)
    decreases |a|
  {
    OwnEntry(v, a, maxDepth);
    OwnEntry(v, b, maxDepth);
    if a != [] && b != [] {
      if a[0] == b[0] {
        assert a == [a[0]] + a[1..] && b == [b[0]] + b[1..];
        PlacesDiffer(ChildVisit(v, a[0], maxDepth), a[1..], b[1..], maxDepth);
      } else if a[0] < b[0] {
        EarlierEntry(v, a, b, maxDepth);
      } else {
        EarlierEntry(v, b, a, maxDepth);
      }
    }
  }

  lemma EarlierEntry(v: Visit, a: Address, b: Address, maxDepth: int)
    requires a != [] && b != [] && a[0] < b[0] && Reaches(v, a, maxDepth) && Reaches(v, b, maxDepth)
    ensures PlaceOf(v, a, maxDepth) < PlaceOf(v, b, maxDepth)
  {
    OffsetStep(v.node.listing, v.path, v.depth, maxDepth, a[0], b[0]);
    Segment(ChildVisit(v, a[0], maxDepth), a[1..], maxDepth);
    OwnEntry(ChildVisit(v, b[0], maxDepth), b[1..], maxDepth);
  }

  /** Every visited entry of the walk is the own entry of a node the walk reaches. */
  lemma {:induction false} EveryEntryIsANode(v: Visit, maxDepth: int, i: nat) returns (a: Address)
    requires i < |Walk(v, maxDepth)| && Walk(v, maxDepth)[i].Visited?
    ensures Reaches(v, a, maxDepth) && PlaceOf(v, a, maxDepth) == i
    decreases v.node
  {
    if i == |Walk(v, maxDepth)| - 1 { return []; }
    var k, inner := EntryOf(v.node.listing, v.path, v.depth, maxDepth, i);
    var child := ChildVisit(v, k, maxDepth);
    var rest := EveryEntryIsANode(child, maxDepth, inner);
    a := [k] + rest;
    assert a[1..] == rest;
  }

  /** The entry of a directory that emitted number i. */
  lemma {:induction false} EntryOf(es: Listing, path: string, depth: nat, maxDepth: int, i: nat) returns (k: nat, inner: nat)
    requires i < |DfsListing(es, path, depth, maxDepth)| && DfsListing(es, path, depth, maxDepth)[i].Visited?
    ensures k < Count(es) && EntryAt(es, k).Named? && !IsDots(EntryAt(es, k).name)
    ensures i == Offset(es, path, depth, maxDepth, k) + inner
    ensures var piece := DfsEntry(EntryAt(es, k), path, depth, maxDepth); inner < |piece| && piece[inner].Visited?
  {
    var first := DfsEntry(es.head, path, depth, maxDepth);
    if i < |first| {
      assert DfsListing(es, path, depth, maxDepth)[i] == first[i];
      return 0, i;
    }
    k, inner := EntryOf(es.tail, path, depth, maxDepth, i - |first|);
    k := k + 1;
  }
}
