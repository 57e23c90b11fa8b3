/** The breadth-first walk is the depth-first walk sorted by depth. */
module WalkLevels {
  import opened Outcomes
  import opened TreeWalk
  import opened WalkOrders

  /** The entries at one depth, in order. */
  function AtDepth(out: seq<WalkEntry>, d: nat): seq<WalkEntry> {
    if out == [] then []
    else AtDepth(out[..|out| - 1], d) + if out[|out| - 1].depth == d then [out[|out| - 1]] else []
  }

  lemma {:induction false} AtDepthAppend(a: seq<WalkEntry>, b: seq<WalkEntry>, d: nat)
    ensures AtDepth(a + b, d) == AtDepth(a, d) + AtDepth(b, d)
  {
    if b == [] {
      assert a + b == a;
    } else {
      assert (a + b)[..|a + b| - 1] == a + b[..|b| - 1];
      AtDepthAppend(a, b[..|b| - 1], d);
    }
  }

  ghost predicate Deeper(out: seq<WalkEntry>, depth: nat) {
    forall e | e in out :: e.depth > depth
  }

  lemma {:induction false} NoneAt(out: seq<WalkEntry>, depth: nat, d: nat)
    requires Deeper(out, depth) && d <= depth
    ensures AtDepth(out, d) == []
  {
    if out != [] {
      assert out[|out| - 1] in out;
      NoneAt(out[..|out| - 1], depth, d);
    }
  }

  lemma {:induction false} AllOfThem(out: seq<WalkEntry>, depth: nat, d: nat)
    requires AllAt(out, depth)
    ensures AtDepth(out, d) == if d == depth then out else []
  {
    if out != [] {
      var init, last := out[..|out| - 1], out[|out| - 1];
      assert last in out && out == init + [last];
      AllOfThem(init, depth, d);
    }
  }

  lemma {:induction false} ListingDeeper(es: Listing, path: string, depth: nat, maxDepth: int)
    ensures Deeper(DfsListing(es, path, depth, maxDepth), depth)
    decreases es
  {
    match es
    case End =>
    case More(e, tail) =>
      ListingDeeper(tail, path, depth, maxDepth);
      if e.Named? && !IsDots(e.name) {
        ListingDeeper(e.node.listing, ChildPath(path, e.name, e.node), depth + 1, maxDepth);
        assert Deeper(Dfs(e.node, ChildPath(path, e.name, e.node), depth + 1, maxDepth, e.name), depth);
      }
  }

  /** What the depth-first walk emits below the directories of a queue, one after the other. */
  function BelowEach(queue: seq<Item>, maxDepth: int): seq<WalkEntry> {
    if queue == [] then []
    else BelowEach(queue[..|queue| - 1], maxDepth) + Below(queue[|queue| - 1], maxDepth)
  }

  lemma {:induction false} BelowEachAppend(a: seq<Item>, b: seq<Item>, maxDepth: int)
    ensures BelowEach(a + b, maxDepth) == BelowEach(a, maxDepth) + BelowEach(b, maxDepth)
  {
    if b == [] {
      assert a + b == a;
    } else {
      assert (a + b)[..|a + b| - 1] == a + b[..|b| - 1];
      BelowEachAppend(a, b[..|b| - 1], maxDepth);
    }
  }

  lemma BelowOne(item: Item, maxDepth: int)
    ensures BelowEach([item], maxDepth) == Below(item, maxDepth)
  {
    assert [item][..0] == [];
  }

  lemma AtDepthOne(e: WalkEntry, d: nat)
    ensures AtDepth([e], d) == if e.depth == d then [e] else []
  {
    assert [e][..0] == [];
  }

  /** One level down the depth-first walk emits what reading the directory emits, and further
      down what it emits below the queued directories. */
  lemma EntryLevels(e: Entry, path: string, depth: nat, maxDepth: int, d: nat)
    ensures AtDepth(DfsEntry(e, path, depth, maxDepth), d) ==
            if d == depth + 1 then EmitEntry(e, path, depth)
            else AtDepth(BelowEach(NextEntry(e, path, depth, maxDepth), maxDepth), d)
  {
    match e
    case Broken => AtDepthOne(Failure(depth + 1, None), d);
    case Unnamed(n) => AtDepthOne(Failure(depth + 1, Some(n)), d);
    case Named(name, n) =>
      if !IsDots(name) {
        var own := Visited(ChildPath(path, name, n), depth + 1, name, n);
        AtDepthOne(own, d);
        if n.isFolder && Descends(depth + 1, maxDepth) {
          var item := Item(n, ChildPath(path, name, n), depth + 1);
          var below := Below(item, maxDepth);
          BelowOne(item, maxDepth);
          ListingDeeper(n.listing, item.path, depth + 1, maxDepth);
          AtDepthAppend(below, [own], d);
          if d == depth + 1 { NoneAt(below, depth + 1, d); }
        } else {
          assert [] + [own] == [own];
        }
      }
  }

  lemma {:induction false} ListingLevels(es: Listing, path: string, depth: nat, maxDepth: int, d: nat)
    ensures AtDepth(DfsListing(es, path, depth, maxDepth), d) ==
            if d == depth + 1 then EmitListing(es, path, depth)
            else AtDepth(BelowEach(NextListing(es, path, depth, maxDepth), maxDepth), d)
  {
    match es
    case End =>
    case More(e, tail) =>
      ListingLevels(tail, path, depth, maxDepth, d);
      EntryLevels(e, path, depth, maxDepth, d);
      AtDepthAppend(DfsEntry(e, path, depth, maxDepth), DfsListing(tail, path, depth, maxDepth), d);
      var first, rest := NextEntry(e, path, depth, maxDepth), NextListing(tail, path, depth, maxDepth);
      BelowEachAppend(first, rest, maxDepth);
      AtDepthAppend(BelowEach(first, maxDepth), BelowEach(rest, maxDepth), d);
  }

  lemma ItemLevels(item: Item, maxDepth: int, d: nat)
    ensures AtDepth(Below(item, maxDepth), d) ==
            if d == item.depth + 1 then Emit(item) else AtDepth(BelowEach(Next(item, maxDepth), maxDepth), d)
  {
    if item.link.isFolder { ListingLevels(item.link.listing, item.path, item.depth, maxDepth, d); }
  }

  lemma {:induction false} QueueLevels(queue: seq<Item>, depth: nat, maxDepth: int, d: nat)
    requires ItemsAt(queue, depth)
    ensures AtDepth(BelowEach(queue, maxDepth), d) ==
            if d == depth + 1 then EmitAll(queue) else AtDepth(BelowEach(NextAll(queue, maxDepth), maxDepth), d)
  {
    if queue != [] {
      var init, last := queue[..|queue| - 1], queue[|queue| - 1];
      assert last in queue && forall x | x in init :: x in queue;
      QueueLevels(init, depth, maxDepth, d);
      ItemLevels(last, maxDepth, d);
      AtDepthAppend(BelowEach(init, maxDepth), Below(last, maxDepth), d);
      BelowEachAppend(NextAll(init, maxDepth), Next(last, maxDepth), maxDepth);
      AtDepthAppend(BelowEach(NextAll(init, maxDepth), maxDepth), BelowEach(Next(last, maxDepth), maxDepth), d);
    }
  }

  lemma {:induction false} BfsLevels(queue: seq<Item>, depth: nat, maxDepth: int, d: nat)
    requires ItemsAt(queue, depth)
    ensures AtDepth(Bfs(queue, maxDepth), d) == AtDepth(BelowEach(queue, maxDepth), d)
    decreases QueueSize(queue)
  {
    if queue != [] {
      var next := NextAll(queue, maxDepth);
      BfsRound(queue, maxDepth);
      QueueLevel(queue, depth, maxDepth);
      QueueLevels(queue, depth, maxDepth, d);
      AtDepthAppend(EmitAll(queue), Bfs(next, maxDepth), d);
      AllOfThem(EmitAll(queue), depth + 1, d);
      if d == depth + 1 {
        BfsRises(next, depth + 1, maxDepth);
        NoneAt(Bfs(next, maxDepth), depth + 1, d);
      } else {
        BfsLevels(next, depth + 1, maxDepth, d);
      }
    }
  }

  /** The root's entry first or last makes no difference at any one depth. */
  lemma RootAside(below: seq<WalkEntry>, rest: seq<WalkEntry>, own: WalkEntry, d: nat)
    requires Deeper(below, 0) && own.depth == 0 && AtDepth(rest, d) == AtDepth(below, d)
    ensures AtDepth([own] + rest, d) == AtDepth(below + [own], d)
  {
    AtDepthAppend([own], rest, d);
    AtDepthAppend(below, [own], d);
    AtDepthOne(own, d);
    if d == 0 { NoneAt(below, 0, 0); }
  }

  /** At every depth the two walks emit the same entries in the same order; and since the depths
      of the breadth-first walk never fall, it is the depth-first walk stably sorted by depth. */
  lemma SameOrder(root: Node, rootPath: string, maxDepth: int, d: nat)
    requires maxDepth != 0
    ensures AtDepth(BreadthFirst(root, rootPath, maxDepth), d) == AtDepth(DepthFirst(root, rootPath, maxDepth), d)
    ensures DepthsRise(BreadthFirst(root, rootPath, maxDepth))
  {
    var item, own := Item(root, rootPath, 0), Visited(rootPath, 0, "", root);
    BreadthFirstOrder(root, rootPath, maxDepth);
    BfsLevels([item], 0, maxDepth, d);
    BelowOne(item, maxDepth);
    if root.isFolder { ListingDeeper(root.listing, rootPath, 0, maxDepth); }
    RootAside(Below(item, maxDepth), Bfs([item], maxDepth), own, d);
  }
}
