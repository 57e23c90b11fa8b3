/** Watching the event log of a volume or share by polling from a cursor.

    The server's log only grows, possibly between any two calls.  Cursors are positions in it;
    None is the empty cursor, which means the latest position. */
module Events {
  import opened Outcomes

  type Event = nat

  type Cursor = Option<nat>

  /** What is delivered for one poll; from is the position the events start at. */
  datatype Batch = Batch(cursor: Cursor, from: nat, events: seq<Event>, refresh: bool, failed: bool)

  datatype PollReply =
    | Delta(events: seq<Event>, eventId: nat)
    | Refresh(events: seq<Event>, eventId: nat)
    | Stale
    | Transient

  // ----- what a sequence of batches says -----

  /** The events delivered after the last refresh. */
  function SinceRefresh(h: seq<Batch>): seq<Event> {
    if h == [] then []
    else
      var last := h[|h| - 1];
      if last.failed then SinceRefresh(h[..|h| - 1])
      else if last.refresh then []
      else SinceRefresh(h[..|h| - 1]) + last.events
  }

  /** The batches after the last refresh follow each other in the log, from anchor to end. */
  ghost predicate Chain(h: seq<Batch>, log: seq<Event>, anchor: nat, end: nat) {
    anchor <= end <= |log| &&
    if h == [] then anchor == end
    else
      var last, init := h[|h| - 1], h[..|h| - 1];
      if last.failed then Chain(init, log, anchor, end)
      else if last.refresh then anchor == end
      else
        && last.from + |last.events| == end && last.events == log[last.from..end]
        && Chain(init, log, anchor, last.from)
  }

  lemma {:induction false} ChainGrows(h: seq<Batch>, log: seq<Event>, log': seq<Event>, anchor: nat, end: nat)
    requires Chain(h, log, anchor, end) && log <= log'
    ensures Chain(h, log', anchor, end)
  {
    if h != [] {
      var last, init := h[|h| - 1], h[..|h| - 1];
      if last.failed {
        ChainGrows(init, log, log', anchor, end);
      } else if !last.refresh {
        ChainGrows(init, log, log', anchor, last.from);
        assert log'[last.from..end] == log[last.from..end];
      }
    }
  }

  lemma ChainSnoc(h: seq<Batch>, b: Batch, log: seq<Event>, anchor: nat, end: nat)
    requires Chain(h, log, anchor, end) && b.failed
    ensures Chain(h + [b], log, anchor, end)
  {
    assert (h + [b])[..|h|] == h;
  }

  /** The delivered events are one contiguous segment of the log, without gap or repeat. */
  lemma {:induction false} ContiguousSegment(h: seq<Batch>, log: seq<Event>, anchor: nat, end: nat)
    requires Chain(h, log, anchor, end)
    ensures SinceRefresh(h) == log[anchor..end]
  {
    if h != [] {
      var last, init := h[|h| - 1], h[..|h| - 1];
      if last.failed {
        ContiguousSegment(init, log, anchor, end);
      } else if !last.refresh {
        ContiguousSegment(init, log, anchor, last.from);
        assert log[anchor..end] == log[anchor..last.from] + log[last.from..end];
      }
    }
  }

  /** Deliveries resumed from where earlier ones ended continue the same segment. */
  lemma {:induction false} ResumeContinues(h: seq<Batch>, h2: seq<Batch>, log: seq<Event>, anchor: nat, mid: nat, end: nat)
    requires Chain(h, log, anchor, mid) && Chain(h2, log, mid, end)
    requires forall b | b in h2 :: b.refresh ==> b.failed
    ensures Chain(h + h2, log, anchor, end)
    ensures SinceRefresh(h + h2) == log[anchor..end]
  {
    if h2 == [] {
      assert h + h2 == h;
    } else {
      var last, init := h2[|h2| - 1], h2[..|h2| - 1];
      assert (h + h2)[..|h + h2| - 1] == h + init;
      assert last in h2;
      ResumeContinues(h, init, log, anchor, mid, if last.failed then end else last.from);
    }
    ContiguousSegment(h + h2, log, anchor, end);
  }

  // ----- what a consumer knows that resyncs on every refresh -----

  /** The positions a consumer knows: at first and on each refresh it takes a snapshot of the
      log up to some position, and it applies every other batch. */
  ghost predicate Knows(h: seq<Batch>, first: nat, snapshots: seq<nat>, p: nat)
    requires |snapshots| == |h|
  {
    if h == [] then p < first
    else
      var last, init := h[|h| - 1], h[..|h| - 1];
      if last.failed then Knows(init, first, snapshots[..|h| - 1], p)
      else if last.refresh then p < snapshots[|h| - 1]
      else Knows(init, first, snapshots[..|h| - 1], p) || last.from <= p < last.from + |last.events|
  }

  /** The last snapshot the consumer took. */
  function LastSnapshot(h: seq<Batch>, first: nat, snapshots: seq<nat>): nat
    requires |snapshots| == |h|
  {
    if h == [] then first
    else if h[|h| - 1].refresh && !h[|h| - 1].failed then snapshots[|h| - 1]
    else LastSnapshot(h[..|h| - 1], first, snapshots[..|h| - 1])
  }

  lemma {:induction false} KnownPositions(h: seq<Batch>, log: seq<Event>, anchor: nat, end: nat,
                                          first: nat, snapshots: seq<nat>, p: nat)
    requires |snapshots| == |h| && Chain(h, log, anchor, end)
    ensures Knows(h, first, snapshots, p) <==> p < LastSnapshot(h, first, snapshots) || anchor <= p < end
  {
    if h != [] {
      var last, init := h[|h| - 1], h[..|h| - 1];
      if last.failed {
        KnownPositions(init, log, anchor, end, first, snapshots[..|h| - 1], p);
      } else if !last.refresh {
        KnownPositions(init, log, anchor, last.from, first, snapshots[..|h| - 1], p);
      }
    }
  }

  /** A consumer misses nothing before the cursor exactly when its last snapshot was taken at or
      after the position the watcher anchored to.  Events between the two are skipped. */
  lemma MissesNothing(h: seq<Batch>, log: seq<Event>, anchor: nat, end: nat, first: nat, snapshots: seq<nat>)
    requires |snapshots| == |h| && Chain(h, log, anchor, end)
    ensures (forall p | 0 <= p < end :: Knows(h, first, snapshots, p)) <==>
            anchor <= LastSnapshot(h, first, snapshots)
  {
    var r := LastSnapshot(h, first, snapshots);
    forall p: nat | p < end
      ensures Knows(h, first, snapshots, p) <==> p < r || anchor <= p < end
    {
      KnownPositions(h, log, anchor, end, first, snapshots, p);
    }
    if r < anchor {
      assert !Knows(h, first, snapshots, r);
    }
  }

  /** A refresh at one position, after which the watch goes on from a later one, loses the events
      between them for a consumer whose snapshot is as old as the refresh. */
  lemma RefreshSkips(log: seq<Event>, eventId: nat, latest: nat, partial: seq<Event>, first: nat)
    requires eventId < latest <= |log|
    ensures var h := [Batch(Some(eventId), 0, partial, true, false)];
            && Chain(h, log, latest, latest)
            && forall p: nat :: Knows(h, first, [eventId], p) <==> p < eventId
  {
    var h := [Batch(Some(eventId), 0, partial, true, false)];
    assert Chain(h, log, latest, latest);
    forall p: nat ensures Knows(h, first, [eventId], p) <==> p < eventId { }
  }

  // ----- the server and the watcher -----

  /** Cancelling a context stops all that share it. */
  class Context {
    var cancelled: bool

    constructor ()
      ensures !cancelled
    {
      cancelled := false;
    }
  }

  class EventServer {
    var log: seq<Event>
    ghost var reply: PollReply   // the last answer to a poll
    ghost var latestOk: bool     // whether the last request for the latest cursor succeeded

    constructor ()
      ensures log == []
    {
      log, reply, latestOk := [], Transient, false;
    }

    /** Others append events at any time. */
    method Grow()
      modifies `log
      ensures old(log) <= log
    {
      var more: seq<Event> := *;
      log := log + more;
    }

    method LatestCursor() returns (c: Cursor)
      modifies `log, `latestOk
      ensures old(log) <= log
      ensures c == if latestOk then Some(|log|) else None
    {
      Grow();
      var ok: bool := *;
      latestOk := ok;
      c := if ok then Some(|log|) else None;
    }

    /** The events from a cursor up to some later position, or a refresh, or a refusal. */
    method Poll(cursor: nat) returns (r: PollReply)
      requires cursor <= |log|
      modifies `log, `reply
      ensures old(log) <= log && reply == r
      ensures r.Delta? ==> cursor <= r.eventId <= |log| && r.events == log[cursor..r.eventId]
      ensures r.Refresh? ==> r.eventId <= |log|
    {
      Grow();
      var refresh, stale, fails: bool := *, *, *;
      var upto: int := *;
      var partial: seq<Event> := *;
      if !(0 <= upto <= |log|) { upto := |log|; }
      if fails {
        r := Transient;
      } else if stale {
        r := Stale;
      } else if refresh {
        r := Refresh(partial, upto);
      } else {
        if upto < cursor { upto := |log|; }
        r := Delta(log[cursor..upto], upto);
      }
      reply := r;
    }
  }

  class WatchTarget {
    const server: EventServer
    const ctx: Context
    var cursor: Cursor
    var sent: seq<Batch>    // delivered on the channel
    ghost var anchor: nat   // where the batches since the last refresh start
    ghost var end: nat      // and where they end

    /** The delivered batches form a chain that ends at the cursor, unless the last batch was
        dropped by a cancellation. */
    ghost predicate Valid()
      reads this, server, ctx
    {
      && Chain(sent, server.log, anchor, end)
      && (cursor.Some? ==> cursor.value <= |server.log|)
      && (!ctx.cancelled && cursor.Some? ==> cursor.value == end)
      && (cursor.None? ==> forall b | b in sent :: b.failed && b.cursor.None?)
      && (sent != [] ==> ResumesAt(sent[|sent| - 1], anchor, end))
    }

    /** The last batch sent, if any was sent after before, tells the consumer to resync. */
    ghost predicate Refreshed(before: seq<Batch>)
      reads `sent
    {
      |sent| > |before| && sent[|sent| - 1].refresh && !sent[|sent| - 1].failed
    }

    /** The batch was sent, or dropped by a cancellation. */
    ghost predicate Sent(b: Batch, before: seq<Batch>)
      reads `sent, ctx
    {
      sent == before + [b] || (ctx.cancelled && sent == before)
    }

    constructor (s: EventServer, c: Context, start: Cursor)
      requires start.Some? ==> start.value <= |s.log|
      ensures Valid() && server == s && ctx == c && cursor == start && sent == []
      ensures start.Some? ==> anchor == start.value
    {
      server, ctx, cursor, sent := s, c, start, [];
      anchor, end := if start.Some? then start.value else 0, if start.Some? then start.value else 0;
    }

    /** Sends a batch, unless the watch is cancelled first. */
    method Deliver(b: Batch)
      modifies `sent, ctx
      ensures old(ctx.cancelled) ==> ctx.cancelled
      ensures Sent(b, old(sent))
    {
      var stop, drop: bool := *, *;
      if stop { ctx.cancelled := true; }
      if ctx.cancelled && drop { return; }
      sent := sent + [b];
    }

    /** Reports a failed poll; the cursor stays, so that no events are skipped. */
    method DeliverError()
      requires Valid() && !ctx.cancelled
      modifies `sent, ctx
      ensures Valid() && Sent(Batch(cursor, 0, [], false, true), old(sent))
    {
      ChainSnoc(sent, Batch(cursor, 0, [], false, true), server.log, anchor, end);
      Deliver(Batch(cursor, 0, [], false, true));
    }

    /** One poll.  It delivers one batch, unless the watch is cancelled.  A watch without a cursor
        starts at the latest position, or reports that it could not. */
    method PollWatchTarget()
      requires Valid() && !ctx.cancelled
      modifies `cursor, `sent, `anchor, `end, ctx, server
      ensures Valid() && old(server.log) <= server.log
      ensures |sent| == |old(sent)| + 1 || (ctx.cancelled && sent == old(sent))
      ensures old(sent) <= sent
      ensures old(cursor).Some? ==> cursor.Some? && Polled(old(cursor).value, old(sent))
      ensures old(cursor).Some? && !Refreshed(old(sent)) ==> anchor == old(anchor)
      ensures cursor.None? ==> !server.latestOk && Sent(Batch(None, 0, [], false, true), old(sent))
    {
      if cursor.None? {
        var latest := server.LatestCursor();
        ChainGrows(sent, old(server.log), server.log, anchor, end);
        if latest.None? {
          DeliverError();
          return;
        }
        StartAt(latest.value);
      }
      PollFrom(cursor.value);
    }

    /** What a poll from a cursor leaves behind, by the server's answer. */
    ghost predicate Polled(start: nat, before: seq<Batch>)
      reads this, ctx, server
    {
      match server.reply
      case Transient => cursor == Some(start) && Sent(Batch(cursor, 0, [], false, true), before)
      case Delta(events, eventId) => cursor == Some(eventId) && Sent(Batch(cursor, start, events, false, false), before)
      case Stale =>
        cursor == Some(if server.latestOk then |server.log| else start) && Sent(Batch(cursor, 0, [], true, false), before)
      case Refresh(events, eventId) =>
        && cursor == Some(if server.latestOk then |server.log| else eventId)
        && Sent(Batch(Some(eventId), 0, events, true, false), before)
    }

    /** The first position of a watch that started without a cursor. */
    method StartAt(position: nat)
      requires Valid() && cursor.None? && position <= |server.log|
      modifies `cursor, `anchor, `end
      ensures Valid() && cursor == Some(position) && anchor == position
    {
      cursor := Some(position);
      anchor, end := position, position;
      FailuresChain(sent, server.log, position);
      assert sent != [] ==> sent[|sent| - 1] in sent;
    }

    method PollFrom(start: nat)
      requires Valid() && !ctx.cancelled && cursor == Some(start)
      modifies `cursor, `sent, `anchor, `end, ctx, server
      ensures Valid() && old(server.log) <= server.log && Polled(start, old(sent))
      ensures !Refreshed(old(sent)) ==> anchor == old(anchor)
    {
      var reply := server.Poll(start);
      ChainGrows(sent, old(server.log), server.log, anchor, end);
      match reply
      case Transient => DeliverError();
      case Delta(events, eventId) => DeliverDelta(start, events, eventId);
      case Stale => Reanchor();
      case Refresh(events, eventId) => DeliverRefresh(events, eventId);
    }

    method DeliverDelta(start: nat, events: seq<Event>, eventId: nat)
      requires Valid() && !ctx.cancelled && cursor == Some(start)
      requires start <= eventId <= |server.log| && events == server.log[start..eventId]
      modifies `cursor, `sent, `end, ctx
      ensures Valid() && cursor == Some(eventId)
      ensures Sent(Batch(cursor, start, events, false, false), old(sent))
    {
      cursor := Some(eventId);
      Deliver(Batch(cursor, start, events, false, false));
      if |sent| > |old(sent)| {
        end := eventId;
        assert sent[..|sent| - 1] == old(sent);
      }
    }

    /** A cursor the server no longer knows: anchor to the latest position, and tell the consumer
        to resync. */
    method Reanchor()
      requires Valid() && !ctx.cancelled && cursor.Some?
      modifies `cursor, `sent, `anchor, `end, ctx, server`log, server`latestOk
      ensures Valid() && old(server.log) <= server.log
      ensures cursor == if server.latestOk then Some(|server.log|) else old(cursor)
      ensures !Refreshed(old(sent)) ==> anchor == old(anchor)
      ensures Sent(Batch(cursor, 0, [], true, false), old(sent))
    {
      var latest := server.LatestCursor();
      ChainGrows(sent, old(server.log), server.log, anchor, end);
      if latest.Some? { cursor := latest; }
      Deliver(Batch(cursor, 0, [], true, false));
      if |sent| > |old(sent)| {
        anchor, end := cursor.value, cursor.value;
      }
    }

    /** After a refresh the delta is unavailable: the watch goes on from the latest position. */
    method DeliverRefresh(events: seq<Event>, eventId: nat)
      requires Valid() && !ctx.cancelled && cursor.Some? && eventId <= |server.log|
      modifies `cursor, `sent, `anchor, `end, ctx, server`log, server`latestOk
      ensures Valid() && old(server.log) <= server.log
      ensures cursor == Some(if server.latestOk then |server.log| else eventId)
      ensures !Refreshed(old(sent)) ==> anchor == old(anchor)
      ensures Sent(Batch(Some(eventId), 0, events, true, false), old(sent))
    {
      cursor := Some(eventId);
      Deliver(Batch(cursor, 0, events, true, false));
      var latest := server.LatestCursor();
      ChainGrows(old(sent), old(server.log), server.log, anchor, end);
      if latest.Some? { cursor := latest; }
      if |sent| > |old(sent)| {
        anchor, end := cursor.value, cursor.value;
      }
    }

    /** The log of another target's server may have grown meanwhile, and the watch been
        cancelled. */
    twostate lemma GrowthKeepsValid()
      requires old(Valid()) && unchanged(this) && old(server.log) <= server.log
      requires old(ctx.cancelled) ==> ctx.cancelled
      ensures Valid()
    {
      ChainGrows(sent, old(server.log), server.log, anchor, end);
    }
  }

  lemma {:induction false} FailuresChain(h: seq<Batch>, log: seq<Event>, position: nat)
    requires position <= |log| && forall b | b in h :: b.failed
    ensures Chain(h, log, position, position)
  {
    if h != [] { FailuresChain(h[..|h| - 1], log, position); }
  }

  /** Resuming from the cursor of a delivered batch continues where the deliveries ended; from a
      refresh, at or before the position the watcher itself went on from. */
  predicate ResumesAt(last: Batch, anchor: nat, end: nat) {
    last.cursor.Some? ==>
      if last.refresh && !last.failed then last.cursor.value <= anchor else last.cursor.value == end
  }

  /** One poll, for a consumer that has missed nothing so far and takes a snapshot when it is told
      to resync: it still misses nothing exactly when there was no refresh or the snapshot reaches
      the position the watch goes on from. */
  method PollAndConsume(t: WatchTarget, ghost first: nat, ghost snapshots: seq<nat>, ghost snapshot: nat)
    requires t.Valid() && !t.ctx.cancelled && t.cursor.Some?
    requires |snapshots| == |t.sent| && t.anchor <= LastSnapshot(t.sent, first, snapshots)
    modifies t`cursor, t`sent, t`anchor, t`end, t.ctx, t.server
    ensures t.Valid() && t.cursor.Some?
    ensures !t.ctx.cancelled ==>
              && |t.sent| == |snapshots| + 1
              && ((forall p | 0 <= p < t.cursor.value :: Knows(t.sent, first, snapshots + [snapshot], p))
                  <==> (t.Refreshed(old(t.sent)) ==> t.cursor.value <= snapshot))
  {
    t.PollWatchTarget();
    if !t.ctx.cancelled {
      var h, ss := t.sent, snapshots + [snapshot];
      assert h[..|h| - 1] == old(t.sent) && ss[..|h| - 1] == snapshots;
      MissesNothing(h, t.server.log, t.anchor, t.end, first, ss);
    }
  }

  /** Watches again from the cursor of the last batch that an earlier watch delivered: without
      another refresh the two deliveries together are one segment of the log, without gap or
      repeat. */
  method WatchAgain(t: WatchTarget, rounds: nat) returns (t2: WatchTarget)
    requires t.Valid() && t.sent != [] && t.sent[|t.sent| - 1].cursor.Some?
    modifies t.server
    ensures fresh(t2) && t2.Valid() && old(t.server.log) <= t.server.log
    ensures (forall b | b in t2.sent :: b.refresh ==> b.failed) ==>
              var last := t.sent[|t.sent| - 1];
              var start := if last.refresh && !last.failed then last.cursor.value else t.anchor;
              start <= t2.end <= |t.server.log| && SinceRefresh(t.sent + t2.sent) == t.server.log[start..t2.end]
  {
    var last := t.sent[|t.sent| - 1];
    var ctx := new Context();
    t2 := new WatchTarget(t.server, ctx, last.cursor);
    var position := last.cursor.value;
    for i := 0 to rounds
      invariant t2.Valid() && t2.server == t.server && t2.ctx == ctx && fresh(t2) && fresh(ctx)
      invariant t2.cursor.Some? && old(t.server.log) <= t.server.log
      invariant (forall b | b in t2.sent :: b.refresh ==> b.failed) ==> t2.anchor == position
    {
      if ctx.cancelled { break; }
      t2.PollWatchTarget();
    }
    if forall b | b in t2.sent :: b.refresh ==> b.failed {
      ChainGrows(t.sent, old(t.server.log), t.server.log, t.anchor, t.end);
      ResumedSegment(t.sent, t2.sent, t.server.log, t.anchor, t.end, position, t2.end);
    }
  }

  lemma ResumedSegment(h: seq<Batch>, h2: seq<Batch>, log: seq<Event>, anchor: nat, end: nat, position: nat, end2: nat)
    requires h != [] && Chain(h, log, anchor, end) && h[|h| - 1].cursor == Some(position) && ResumesAt(h[|h| - 1], anchor, end)
    requires Chain(h2, log, position, end2) && forall b | b in h2 :: b.refresh ==> b.failed
    ensures var last := h[|h| - 1]; var start := if last.refresh && !last.failed then position else anchor;
            start <= end2 <= |log| && SinceRefresh(h + h2) == log[start..end2]
  {
    var last := h[|h| - 1];
    if last.refresh && !last.failed {
      assert Chain(h, log, position, position);
      ResumeContinues(h, h2, log, position, position, end2);
    } else {
      ResumeContinues(h, h2, log, anchor, position, end2);
    }
  }

  /** Polls all targets in turn, for some rounds; several targets may watch the same server.
      Without a cancellation every target delivers one batch a round. */
  method WatchDriveEvents(ts: seq<WatchTarget>, servers: set<EventServer>, ctx: Context, rounds: nat)
    requires forall i, j | 0 <= i < j < |ts| :: ts[i] != ts[j]
    requires forall t | t in ts :: t.Valid() && t.server in servers && t.ctx == ctx
    modifies ts, servers, ctx
    ensures forall t | t in ts :: t.Valid() && old(t.sent) <= t.sent
    ensures !ctx.cancelled ==> forall t | t in ts :: |t.sent| == |old(t.sent)| + rounds
  {
    for round := 0 to rounds
      invariant forall t | t in ts :: t.Valid() && old(t.sent) <= t.sent
      invariant !ctx.cancelled ==> forall t | t in ts :: |t.sent| == |old(t.sent)| + round
    {
      if ctx.cancelled { return; }
      PollEach(ts, servers, ctx);
    }
  }

  /** One round: every target is polled, until the watch is cancelled. */
  method PollEach(ts: seq<WatchTarget>, servers: set<EventServer>, ctx: Context)
    requires !ctx.cancelled && forall i, j | 0 <= i < j < |ts| :: ts[i] != ts[j]
    requires forall t | t in ts :: t.Valid() && t.server in servers && t.ctx == ctx
    modifies ts, servers, ctx
    ensures forall t | t in ts :: t.Valid() && old(t.sent) <= t.sent
    ensures !ctx.cancelled ==> forall t | t in ts :: |t.sent| == |old(t.sent)| + 1
  {
    for i := 0 to |ts|
      invariant forall t | t in ts :: t.Valid() && old(t.sent) <= t.sent
      invariant !ctx.cancelled ==> forall j | 0 <= j < |ts| ::
                  |ts[j].sent| == |old(ts[j].sent)| + if j < i then 1 else 0
    {
      if ctx.cancelled { return; }
      PollOne(ts, servers, ctx, i);
    }
  }

  /** Polling one target leaves the others in order. */
  method PollOne(ts: seq<WatchTarget>, servers: set<EventServer>, ctx: Context, i: nat)
    requires i < |ts| && !ctx.cancelled && forall j, k | 0 <= j < k < |ts| :: ts[j] != ts[k]
    requires forall t | t in ts :: t.Valid() && t.server in servers && t.ctx == ctx
    modifies ts[i], servers, ctx
    ensures forall t | t in ts :: t.Valid()
    ensures old(ts[i].sent) <= ts[i].sent
    ensures !ctx.cancelled ==> |ts[i].sent| == |old(ts[i].sent)| + 1
  {
    ts[i].PollWatchTarget();
    forall t | t in ts ensures t.Valid() {
      if t != ts[i] { t.GrowthKeepsValid(); }
    }
  }
}
