/** Walking a directory tree breadth first and depth first. */
module TreeWalk {
  import opened Outcomes

  /** What a directory yields: an entry that failed, one whose name cannot be decrypted, or a
      named child. */
  datatype Entry = Broken | Unnamed(node: Node) | Named(name: string, node: Node)

  datatype Listing = End | More(head: Entry, tail: Listing)

  datatype Node = Node(isFolder: bool, listing: Listing)

  datatype WalkEntry =
    | Failure(depth: nat, entry: Option<Node>)
    | Visited(path: string, depth: nat, name: string, link: Node)

  function ChildPath(path: string, name: string, child: Node): string {
    path + name + if child.isFolder then "/" else ""
  }

  predicate IsDots(name: string) {
    name == "." || name == ".."
  }

  /** Whether a folder at this depth is descended into; a negative limit is none. */
  predicate Descends(depth: nat, maxDepth: int) {
    maxDepth < 0 || depth < maxDepth
  }

  // ----- depth first -----

  function Dfs(node: Node, path: string, depth: nat, maxDepth: int, name: string): (out: seq<WalkEntry>)
    ensures out != []
    decreases node
  {
    (if node.isFolder && Descends(depth, maxDepth) then DfsListing(node.listing, path, depth, maxDepth) else [])
    + [Visited(path, depth, name, node)]
  }

  function DfsEntry(e: Entry, path: string, depth: nat, maxDepth: int): seq<WalkEntry>
    decreases e
  {
    match e
    case Broken => [Failure(depth + 1, None)]
    case Unnamed(n) => [Failure(depth + 1, Some(n))]
    case Named(name, n) => if IsDots(name) then [] else Dfs(n, ChildPath(path, name, n), depth + 1, maxDepth, name)
  }

  function DfsListing(es: Listing, path: string, depth: nat, maxDepth: int): seq<WalkEntry>
    decreases es
  {
    match es
    case End => []
    case More(e, tail) => DfsEntry(e, path, depth, maxDepth) + DfsListing(tail, path, depth, maxDepth)
  }

  // ----- breadth first -----

  datatype Item = Item(link: Node, path: string, depth: nat)

  /** What reading one directory emits. */
  function EmitEntry(e: Entry, path: string, depth: nat): seq<WalkEntry> {
    match e
    case Broken => [Failure(depth + 1, None)]
    case Unnamed(n) => [Failure(depth + 1, Some(n))]
    case Named(name, n) => if IsDots(name) then [] else [Visited(ChildPath(path, name, n), depth + 1, name, n)]
  }

  function EmitListing(es: Listing, path: string, depth: nat): seq<WalkEntry> {
    match es
    case End => []
    case More(e, tail) => EmitEntry(e, path, depth) + EmitListing(tail, path, depth)
  }

  /** The directories it queues. */
  function NextEntry(e: Entry, path: string, depth: nat, maxDepth: int): seq<Item> {
    if e.Named? && !IsDots(e.name) && e.node.isFolder && Descends(depth + 1, maxDepth) then
      [Item(e.node, ChildPath(path, e.name, e.node), depth + 1)]
    else []
  }

  function NextListing(es: Listing, path: string, depth: nat, maxDepth: int): seq<Item> {
    match es
    case End => []
    case More(e, tail) => NextEntry(e, path, depth, maxDepth) + NextListing(tail, path, depth, maxDepth)
  }

  function Emit(item: Item): seq<WalkEntry> {
    if item.link.isFolder then EmitListing(item.link.listing, item.path, item.depth) else []
  }

  function Next(item: Item, maxDepth: int): seq<Item> {
    if item.link.isFolder then NextListing(item.link.listing, item.path, item.depth, maxDepth) else []
  }

  function EmitAll(queue: seq<Item>): seq<WalkEntry> {
    if queue == [] then [] else EmitAll(queue[..|queue| - 1]) + Emit(queue[|queue| - 1])
  }

  function NextAll(queue: seq<Item>, maxDepth: int): seq<Item> {
    if queue == [] then [] else NextAll(queue[..|queue| - 1], maxDepth) + Next(queue[|queue| - 1], maxDepth)
  }

  // ----- the queue runs empty: the nodes left in it get fewer -----

  function Size(node: Node): nat
    decreases node
  {
    1 + SizeListing(node.listing)
  }

  function SizeEntry(e: Entry): nat
    decreases e
  {
    if e.Broken? then 0 else Size(e.node)
  }

  function SizeListing(es: Listing): nat
    decreases es
  {
    match es
    case End => 0
    case More(e, tail) => SizeEntry(e) + SizeListing(tail)
  }

  function QueueSize(queue: seq<Item>): nat {
    if queue == [] then 0 else QueueSize(queue[..|queue| - 1]) + Size(queue[|queue| - 1].link)
  }

  lemma {:induction false} QueueSizeAppend(a: seq<Item>, b: seq<Item>)
    ensures QueueSize(a + b) == QueueSize(a) + QueueSize(b)
  {
    if b == [] {
      assert a + b == a;
    } else {
      assert (a + b)[..|a + b| - 1] == a + b[..|b| - 1];
      QueueSizeAppend(a, b[..|b| - 1]);
    }
  }

  lemma NextEntrySize(e: Entry, path: string, depth: nat, maxDepth: int)
    ensures QueueSize(NextEntry(e, path, depth, maxDepth)) <= SizeEntry(e)
  {
    var next := NextEntry(e, path, depth, maxDepth);
    if next != [] { assert next[..0] == []; }
  }

  lemma {:induction false} NextListingSize(es: Listing, path: string, depth: nat, maxDepth: int)
    ensures QueueSize(NextListing(es, path, depth, maxDepth)) <= SizeListing(es)
  {
    match es
    case End =>
    case More(e, tail) =>
      NextListingSize(tail, path, depth, maxDepth);
      NextEntrySize(e, path, depth, maxDepth);
      QueueSizeAppend(NextEntry(e, path, depth, maxDepth), NextListing(tail, path, depth, maxDepth));
  }

  lemma {:induction false} NextAllSize(queue: seq<Item>, maxDepth: int)
    ensures QueueSize(NextAll(queue, maxDepth)) + |queue| <= QueueSize(queue)
  {
    if queue != [] {
      var init, last := queue[..|queue| - 1], queue[|queue| - 1];
      NextAllSize(init, maxDepth);
      NextListingSize(last.link.listing, last.path, last.depth, maxDepth);
      QueueSizeAppend(NextAll(init, maxDepth), Next(last, maxDepth));
    }
  }

  /** Level by level. */
  function Bfs(queue: seq<Item>, maxDepth: int): seq<WalkEntry>
    decreases QueueSize(queue)
  {
    if queue == [] then []
    else
      NextAllSize(queue, maxDepth);
      EmitAll(queue) + Bfs(NextAll(queue, maxDepth), maxDepth)
  }

  function BreadthFirst(root: Node, rootPath: string, maxDepth: int): seq<WalkEntry> {
    [Visited(rootPath, 0, "", root)] + Bfs([Item(root, rootPath, 0)], maxDepth)
  }

  function DepthFirst(root: Node, rootPath: string, maxDepth: int): seq<WalkEntry> {
    Dfs(root, rootPath, 0, maxDepth, "")
  }

  // ----- the loops of the source -----

  /** The channel of results; a cancelled walk may fail to send. */
  class Results {
    var sent: seq<WalkEntry>

    constructor ()
      ensures sent == []
    {
      sent := [];
    }

    method Send(e: WalkEntry) returns (ok: bool)
      modifies this
      ensures sent == if ok then old(sent) + [e] else old(sent)
    {
      ok := *;
      if ok { sent := sent + [e]; }
    }
  }

  /** Everything was sent, or after a cancellation a part of it from the front. */
  predicate SentUpTo(ok: bool, sent: seq<WalkEntry>, before: seq<WalkEntry>, all: seq<WalkEntry>) {
    if ok then sent == before + all else before <= sent <= before + all
  }

  lemma SentThen(ok: bool, sent: seq<WalkEntry>, before: seq<WalkEntry>, a: seq<WalkEntry>, b: seq<WalkEntry>)
    requires SentUpTo(ok, sent, before + a, b)
    ensures SentUpTo(ok, sent, before, a + b)
  {
    assert before + a + b == before + (a + b);
    if !ok { assert before <= before + a; }
  }

  lemma SentAndMore(sent: seq<WalkEntry>, before: seq<WalkEntry>, a: seq<WalkEntry>, b: seq<WalkEntry>)
    requires SentUpTo(false, sent, before, a)
    ensures SentUpTo(false, sent, before, a + b)
  {
    assert before + (a + b) == (before + a) + b;
  }

  /** One round of a loop that sends now and leaves then_ for later. */
  lemma SentRound(ok: bool, sent: seq<WalkEntry>, before: seq<WalkEntry>, emitted: seq<WalkEntry>,
                  now: seq<WalkEntry>, then_: seq<WalkEntry>, all: seq<WalkEntry>)
    requires SentUpTo(ok, sent, before + emitted, now) && emitted + (now + then_) == all
    ensures ok ==> sent == before + (emitted + now) && (emitted + now) + then_ == all
    ensures !ok ==> SentUpTo(false, sent, before, all)
  {
    SentThen(ok, sent, before, emitted, now);
    assert emitted + (now + then_) == (emitted + now) + then_;
    if !ok { SentAndMore(sent, before, emitted + now, then_); }
  }

  /** One entry of a directory, and the directory it may be. */
  method ReadEntry(item: Item, entry: Entry, queued: seq<Item>, maxDepth: int, results: Results)
    returns (next: seq<Item>, ok: bool)
    modifies results
    ensures SentUpTo(ok, results.sent, old(results.sent), EmitEntry(entry, item.path, item.depth))
    ensures ok ==> next == queued + NextEntry(entry, item.path, item.depth, maxDepth)
  {
    next := queued;
    match entry
    case Broken => ok := results.Send(Failure(item.depth + 1, None));
    case Unnamed(n) => ok := results.Send(Failure(item.depth + 1, Some(n)));
    case Named(name, n) =>
      if name == "." || name == ".." { return next, true; }
      var childPath := item.path + name;
      if n.isFolder { childPath := childPath + "/"; }
      assert childPath == ChildPath(item.path, name, n);
      ok := results.Send(Visited(childPath, item.depth + 1, name, n));
      if !ok { return; }
      if n.isFolder && (maxDepth < 0 || item.depth + 1 < maxDepth) {
        next := next + [Item(n, childPath, item.depth + 1)];
      }
  }

  /** Reads one directory, emits its entries and queues its folders. */
  method ReadDirectory(item: Item, queued: seq<Item>, maxDepth: int, results: Results) returns (next: seq<Item>, ok: bool)
    modifies results
    ensures SentUpTo(ok, results.sent, old(results.sent), Emit(item))
    ensures ok ==> next == queued + Next(item, maxDepth)
  {
    next, ok := queued, true;
    if !item.link.isFolder { return; }
    var rest := item.link.listing;
    ghost var before, emitted: seq<WalkEntry>, all := results.sent, [], Emit(item);
    ghost var path, depth := item.path, item.depth;
    while rest.More?
      invariant ok && results.sent == before + emitted
      invariant emitted + EmitListing(rest, path, depth) == all
      invariant next + NextListing(rest, path, depth, maxDepth) == queued + Next(item, maxDepth)
      decreases Count(rest)
    {
      ghost var now, then_ := EmitEntry(rest.head, path, depth), EmitListing(rest.tail, path, depth);
      next, ok := ReadEntry(item, rest.head, next, maxDepth, results);
      SentRound(ok, results.sent, before, emitted, now, then_, all);
      if !ok { return; }
      emitted := emitted + now;
      rest := rest.tail;
    }
  }

  function Count(es: Listing): nat {
    match es case End => 0 case More(_, tail) => 1 + Count(tail)
  }

  method ReadLevel(queue: seq<Item>, maxDepth: int, results: Results) returns (next: seq<Item>, ok: bool)
    modifies results
    ensures SentUpTo(ok, results.sent, old(results.sent), EmitAll(queue))
    ensures ok ==> next == NextAll(queue, maxDepth)
  {
    next, ok := [], true;
    ghost var before := results.sent;
    for i := 0 to |queue|
      invariant ok && results.sent == before + EmitAll(queue[..i])
      invariant next == NextAll(queue[..i], maxDepth)
    {
      assert queue[..i + 1][..i] == queue[..i];
      next, ok := ReadDirectory(queue[i], next, maxDepth, results);
      SentThen(ok, results.sent, before, EmitAll(queue[..i]), Emit(queue[i]));
      if !ok {
        EmittedFirst(queue, i + 1);
        SentFirst(results.sent, before, EmitAll(queue[..i + 1]), EmitAll(queue));
        return;
      }
    }
    assert queue[..|queue|] == queue;
  }

  lemma SentFirst(sent: seq<WalkEntry>, before: seq<WalkEntry>, a: seq<WalkEntry>, all: seq<WalkEntry>)
    requires SentUpTo(false, sent, before, a) && a <= all
    ensures SentUpTo(false, sent, before, all)
  {
    assert before + all == (before + a) + all[|a|..];
  }

  /** The entries of the first items come first. */
  lemma {:induction false} EmittedFirst(queue: seq<Item>, i: nat)
    requires i <= |queue|
    ensures EmitAll(queue[..i]) <= EmitAll(queue)
    decreases |queue| - i
  {
    if i == |queue| {
      assert queue[..i] == queue;
    } else {
      var next := queue[..i + 1];
      assert next[..i] == queue[..i] && EmitAll(next) == EmitAll(next[..i]) + Emit(next[i]);
      EmittedFirst(queue, i + 1);
    }
  }

  method WalkBreadthFirst(root: Node, rootPath: string, maxDepth: int, results: Results) returns (ok: bool)
    modifies results
    ensures SentUpTo(ok, results.sent, old(results.sent), BreadthFirst(root, rootPath, maxDepth))
  {
    ok := results.Send(Visited(rootPath, 0, "", root));
    if !ok { return; }
    ok := ReadLevels([Item(root, rootPath, 0)], maxDepth, results);
    SentThen(ok, results.sent, old(results.sent), [Visited(rootPath, 0, "", root)], Bfs([Item(root, rootPath, 0)], maxDepth));
  }

  lemma BfsRound(queue: seq<Item>, maxDepth: int)
    requires queue != []
    ensures Bfs(queue, maxDepth) == EmitAll(queue) + Bfs(NextAll(queue, maxDepth), maxDepth)
    ensures QueueSize(NextAll(queue, maxDepth)) < QueueSize(queue)
  {
    NextAllSize(queue, maxDepth);
  }

  /** The loop over the levels; it ends because each level takes its directories off the nodes
      left in the queue. */
  method ReadLevels(first: seq<Item>, maxDepth: int, results: Results) returns (ok: bool)
    modifies results
    ensures SentUpTo(ok, results.sent, old(results.sent), Bfs(first, maxDepth))
  {
    var queue := first;
    ok := true;
    ghost var before, emitted: seq<WalkEntry>, all := results.sent, [], Bfs(first, maxDepth);
    while |queue| > 0
      invariant ok && results.sent == before + emitted
      invariant emitted + Bfs(queue, maxDepth) == all
      decreases QueueSize(queue)
    {
      BfsRound(queue, maxDepth);
      ghost var now, then_ := EmitAll(queue), Bfs(NextAll(queue, maxDepth), maxDepth);
      var next;
      next, ok := ReadLevel(queue, maxDepth, results);
      SentRound(ok, results.sent, before, emitted, now, then_, all);
      if !ok { return; }
      emitted := emitted + now;
      queue := next;
    }
  }

  method WalkDepthFirst(link: Node, linkPath: string, depth: nat, maxDepth: int, entryName: string, results: Results)
    returns (ok: bool)
    modifies results
    ensures SentUpTo(ok, results.sent, old(results.sent), Dfs(link, linkPath, depth, maxDepth, entryName))
    decreases link, 1
  {
    var cancelled: bool := *;
    if cancelled { return false; }
    ghost var below: seq<WalkEntry> := [];
    if link.isFolder && (maxDepth < 0 || depth < maxDepth) {
      below := DfsListing(link.listing, linkPath, depth, maxDepth);
      ok := WalkListing(link.listing, linkPath, depth, maxDepth, results);
      if !ok {
        SentAndMore(results.sent, old(results.sent), below, [Visited(linkPath, depth, entryName, link)]);
        return;
      }
    }
    ok := results.Send(Visited(linkPath, depth, entryName, link));
    SentThen(ok, results.sent, old(results.sent), below, [Visited(linkPath, depth, entryName, link)]);
  }

  /** The loop over one directory's entries. */
  method WalkListing(es: Listing, linkPath: string, depth: nat, maxDepth: int, results: Results) returns (ok: bool)
    modifies results
    ensures SentUpTo(ok, results.sent, old(results.sent), DfsListing(es, linkPath, depth, maxDepth))
    decreases es, 0
  {
    var rest := es;
    ok := true;
    ghost var before, emitted: seq<WalkEntry> := results.sent, [];
    ghost var all := DfsListing(es, linkPath, depth, maxDepth);
    while rest.More?
      invariant rest == es || rest < es
      invariant ok && results.sent == before + emitted
      invariant emitted + DfsListing(rest, linkPath, depth, maxDepth) == all
      decreases Count(rest)
    {
      ghost var now, then_ := DfsEntry(rest.head, linkPath, depth, maxDepth), DfsListing(rest.tail, linkPath, depth, maxDepth);
      ok := WalkEntryDepthFirst(rest.head, linkPath, depth, maxDepth, results);
      SentRound(ok, results.sent, before, emitted, now, then_, all);
      if !ok { return; }
      emitted := emitted + now;
      rest := rest.tail;
    }
  }

  method WalkEntryDepthFirst(entry: Entry, linkPath: string, depth: nat, maxDepth: int, results: Results) returns (ok: bool)
    modifies results
    ensures SentUpTo(ok, results.sent, old(results.sent), DfsEntry(entry, linkPath, depth, maxDepth))
    decreases entry, 2
  {
    match entry
    case Broken => ok := results.Send(Failure(depth + 1, None));
    case Unnamed(n) => ok := results.Send(Failure(depth + 1, Some(n)));
    case Named(name, n) =>
      if name == "." || name == ".." { return true; }
      var childPath := linkPath + name;
      if n.isFolder { childPath := childPath + "/"; }
      assert childPath == ChildPath(linkPath, name, n);
      ok := WalkDepthFirst(n, childPath, depth + 1, maxDepth, name, results);
  }
}
