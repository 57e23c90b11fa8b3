/** Copying local files to Drive: the pool of workers, the uploads, and the commits made when the
    destinations are closed. */
module Uploads {
  import opened Blocks
  import opened CopyJobs
  import opened DriveServer
  import opened FileDescriptors
  import opened FiniteSets
  import opened Outcomes
  import opened Pipeline
  import opened ProtonEndpoints

  // ----- which blocks were written -----

  /** The write of the block has succeeded. */
  predicate Wrote(s: State, c: BlockClaim) {
    c in s.done || exists i :: 0 <= i < |s.workers| && s.workers[i] == Written(c)
  }

  /** A step adds the block it wrote, if it wrote one. */
  lemma StepWrites(jobs: seq<Job>, s: State, w: nat, x: Input, c: BlockClaim)
    requires CanStep(jobs, s, w)
    ensures Wrote(Step(jobs, s, w, x), c) <==> Wrote(s, c) || (s.workers[w].Writing? && x.ok && s.workers[w].c == c)
  {
    var s' := Step(jobs, s, w, x);
    if i :| 0 <= i < |s.workers| && s.workers[i] == Written(c) && i != w {
      assert s'.workers[i] == Written(c);
    }
    if s.workers[w].Writing? && x.ok { assert s'.workers[w] == Written(s.workers[w].c); }
  }

  /** The uploads of job j are the blocks written so far. */
  ghost predicate SentOk(jobs: seq<Job>, s: State, j: nat, sent: map<nat, Bytes>)
    requires j < |jobs|
  {
    && (forall i: nat :: i in sent <==> Wrote(s, BlockClaim(j, i)))
    && BlocksSent(sent, jobs[j].src)
  }

  /** How many blocks of job j are among the first pos claims. */
  function ClaimedBlocks(jobs: seq<Job>, pos: nat, j: nat): nat
    requires j < |jobs|
  {
    Max(0, Min(BlockCount(|jobs[j].src|), pos - Sum(Totals(jobs)[..j])))
  }

  /** When nothing failed, the blocks written at the end are those claimed: a first part of every
      file. */
  lemma WrittenAtEnd(jobs: seq<Job>, s: State, j: nat, sent: map<nat, Bytes>)
    requires Inv(jobs, s) && Finished(s) && Succeeds(s) && j < |jobs| && SentOk(jobs, s, j, sent)
    ensures NoGap(sent) && |sent| == ClaimedBlocks(jobs, s.pos, j)
    ensures sent == map[] <==> ClaimedBlocks(jobs, s.pos, j) == 0
  {
    var m := ClaimedBlocks(jobs, s.pos, j);
    NobodyHolds(s);
    assert s.failed == {};
    forall i: nat ensures i in sent <==> i < m {
      var c := BlockClaim(j, i);
      assert Wrote(s, c) <==> c in s.done;
      assert c in s.done <==> Claimed(jobs, s.pos, c);
    }
    RangeSize(m);
    assert sent.Keys == Range(m);
    assert |sent| == |sent.Keys|;
    if m > 0 { assert 0 in sent; }
  }

  lemma AllClaimed(jobs: seq<Job>, j: nat)
    requires j < |jobs|
    ensures ClaimedBlocks(jobs, |Order(jobs)|, j) == BlockCount(|jobs[j].src|)
  {
    var n := BlockCount(|jobs[j].src|);
    if n > 0 { EveryBlockClaimed(jobs, BlockClaim(j, n - 1)); }
  }

  // ----- the copy -----

  ghost function Servers(writers: seq<ProtonWriter>): set<Server> {
    set wr | wr in writers :: wr.server
  }

  /** Every destination has a file of its own. */
  ghost predicate Separate(writers: seq<ProtonWriter>) {
    forall i, j | 0 <= i < j < |writers| :: writers[i] != writers[j] && writers[i].server != writers[j].server
  }

  /** The writers are in order and not closed. */
  ghost predicate AllOpen(writers: seq<ProtonWriter>)
    reads writers, Servers(writers)
  {
    forall j | 0 <= j < |writers| :: writers[j].Valid() && !writers[j].closed
  }

  ghost predicate AllSent(jobs: seq<Job>, s: State, writers: seq<ProtonWriter>)
    requires |writers| == |jobs|
    reads writers
  {
    forall j | 0 <= j < |jobs| :: SentOk(jobs, s, j, writers[j].sent)
  }

  /** What a step does to the uploads of job j. */
  function SentAfter(s: State, w: nat, x: Input, j: nat, sent: map<nat, Bytes>): map<nat, Bytes>
    requires w < |s.workers|
  {
    var worker := s.workers[w];
    if worker.Writing? && x.ok && worker.c.job == j then sent[worker.c.index := worker.data] else sent
  }

  lemma StepSends(jobs: seq<Job>, s: State, w: nat, x: Input, j: nat, sent: map<nat, Bytes>)
    requires Inv(jobs, s) && CanStep(jobs, s, w) && j < |jobs| && SentOk(jobs, s, j, sent)
    ensures SentOk(jobs, Step(jobs, s, w, x), j, SentAfter(s, w, x, j, sent))
  {
    forall i: nat
      ensures Wrote(Step(jobs, s, w, x), BlockClaim(j, i)) <==>
              Wrote(s, BlockClaim(j, i)) || (s.workers[w].Writing? && x.ok && s.workers[w].c == BlockClaim(j, i))
    {
      StepWrites(jobs, s, w, x, BlockClaim(j, i));
    }
    assert WorkerOk(jobs, s, s.workers[w]);
  }

  /** A block goes to one destination; the others are not touched. */
  method WriteTo(writers: seq<ProtonWriter>, j: nat, index: nat, data: Bytes) returns (ok: bool)
    requires j < |writers| && Separate(writers) && AllOpen(writers)
    modifies writers[j], writers[j].server
    ensures AllOpen(writers)
    ensures writers[j].sent == if ok then old(writers[j].sent)[index := data] else old(writers[j].sent)
    ensures writers[j].server.active == old(writers[j].server.active)
    ensures writers[j].server.faults >= old(writers[j].server.faults)
  {
    var err := writers[j].WriteBlock(index, data);
    ok := err.None?;
    forall i | 0 <= i < |writers| ensures writers[i].Valid() && !writers[i].closed {
      if i != j { assert old(writers[i].Valid()); }
    }
  }

  /** One step of a worker; a write goes to the destination of its job. */
  method WorkerStep(jobs: seq<Job>, s: State, writers: seq<ProtonWriter>, w: nat) returns (x: Input)
    requires |writers| == |jobs| && Separate(writers) && AllOpen(writers)
    requires Inv(jobs, s) && CanStep(jobs, s, w)
    modifies writers, Servers(writers)
    ensures AllOpen(writers)
    ensures forall j | 0 <= j < |jobs| :: writers[j].sent == SentAfter(s, w, x, j, old(writers[j].sent))
    ensures forall j | 0 <= j < |jobs| :: writers[j].server.active == old(writers[j].server.active)
    ensures forall j | 0 <= j < |writers| :: writers[j].server.faults >= old(writers[j].server.faults)
  {
    var ok: bool := *;
    if s.workers[w].Writing? {
      var c := s.workers[w].c;
      ok := WriteTo(writers, c.job, c.index, s.workers[w].data);
    }
    x := Input(ok, 0);
  }

  /** Nothing has been committed. */
  ghost predicate Untouched(writers: seq<ProtonWriter>, active: seq<Option<Revision>>)
    reads writers, Servers(writers)
  {
    |active| == |writers| && forall j | 0 <= j < |writers| :: writers[j].server.active == active[j]
  }

  lemma RunSnoc(jobs: seq<Job>, limit: nat, moves: seq<Move>, m: Move, s: State)
    requires Run(jobs, limit, moves) == Some(s) && Enabled(jobs, s, m)
    ensures Run(jobs, limit, moves + [m]) == Some(Next(jobs, s, m)) && Inv(jobs, Next(jobs, s, m))
  {
    assert (moves + [m])[..|moves|] == moves;
    RunKeepsInv(jobs, limit, moves + [m]);
  }

  lemma SentAtStart(jobs: seq<Job>, limit: nat, j: nat)
    requires j < |jobs|
    ensures SentOk(jobs, Start(jobs, limit), j, map[])
  {
  }

  lemma CancelSends(jobs: seq<Job>, s: State, j: nat, sent: map<nat, Bytes>)
    requires j < |jobs| && SentOk(jobs, s, j, sent)
    ensures SentOk(jobs, Next(jobs, s, Cancel), j, sent)
  {
    assert forall i: nat :: Wrote(Next(jobs, s, Cancel), BlockClaim(j, i)) <==> Wrote(s, BlockClaim(j, i));
  }

  /** One step with the uploads it makes. */
  method RunStep(jobs: seq<Job>, limit: nat, s: State, ghost moves: seq<Move>, writers: seq<ProtonWriter>,
                 ghost active: seq<Option<Revision>>)
    returns (s': State, ghost moves': seq<Move>)
    requires |writers| == |jobs| && Separate(writers) && AllOpen(writers) && AllSent(jobs, s, writers)
    requires Untouched(writers, active) && Run(jobs, limit, moves) == Some(s) && !Finished(s)
    modifies writers, Servers(writers)
    ensures AllOpen(writers) && AllSent(jobs, s', writers) && Untouched(writers, active)
    ensures Run(jobs, limit, moves') == Some(s') && 0 <= Measure(jobs, s') < Measure(jobs, s)
    ensures forall j | 0 <= j < |writers| :: writers[j].server.faults >= old(writers[j].server.faults)
  {
    var w: nat :| w < |s.workers| && !s.workers[w].Exited?;
    RunsEnd(jobs, limit, moves);
    RunKeepsInv(jobs, limit, moves);
    var x := WorkerStep(jobs, s, writers, w);
    forall j | 0 <= j < |jobs| ensures SentOk(jobs, Step(jobs, s, w, x), j, writers[j].sent) {
      StepSends(jobs, s, w, x, j, old(writers[j].sent));
    }
    s', moves' := Step(jobs, s, w, x), moves + [Advance(w, x)];
    RunSnoc(jobs, limit, moves, Advance(w, x), s);
    StepMeasure(jobs, s, w, x);
    RunsEnd(jobs, limit, moves');
  }

  /** Runs the workers to the end, in any interleaving, with any failures, and perhaps cancelled. */
  method RunWorkers(jobs: seq<Job>, limit: nat, writers: seq<ProtonWriter>, ghost active: seq<Option<Revision>>)
    returns (s: State, ghost moves: seq<Move>)
    requires |writers| == |jobs| && Separate(writers) && AllOpen(writers) && Untouched(writers, active)
    requires forall j | 0 <= j < |jobs| :: writers[j].sent == map[]
    modifies writers, Servers(writers)
    ensures Run(jobs, limit, moves) == Some(s) && Finished(s)
    ensures AllOpen(writers) && AllSent(jobs, s, writers) && Untouched(writers, active)
    ensures forall j | 0 <= j < |writers| :: writers[j].server.faults >= old(writers[j].server.faults)
  {
    s, moves := Start(jobs, limit), [];
    forall j | 0 <= j < |jobs| ensures SentOk(jobs, s, j, writers[j].sent) { SentAtStart(jobs, limit, j); }
    while !Finished(s)
      invariant Run(jobs, limit, moves) == Some(s)
      invariant AllOpen(writers) && AllSent(jobs, s, writers) && Untouched(writers, active)
      invariant forall j | 0 <= j < |writers| :: writers[j].server.faults >= old(writers[j].server.faults)
      decreases Measure(jobs, s)
    {
      var cancel: bool := *;
      s, moves := MayCancel(jobs, limit, s, moves, cancel, writers);
      s, moves := RunStep(jobs, limit, s, moves, writers, active);
    }
  }

  method MayCancel(jobs: seq<Job>, limit: nat, s: State, ghost moves: seq<Move>, cancel: bool, writers: seq<ProtonWriter>)
    returns (s': State, ghost moves': seq<Move>)
    requires |writers| == |jobs| && AllSent(jobs, s, writers) && Run(jobs, limit, moves) == Some(s) && !Finished(s)
    ensures AllSent(jobs, s', writers) && Run(jobs, limit, moves') == Some(s') && !Finished(s')
    ensures Measure(jobs, s') == Measure(jobs, s)
  {
    s', moves' := s, moves;
    if cancel {
      RunSnoc(jobs, limit, moves, Cancel, s);
      s', moves' := Next(jobs, s, Cancel), moves + [Cancel];
      forall j | 0 <= j < |jobs| ensures SentOk(jobs, s', j, writers[j].sent) { CancelSends(jobs, s, j, writers[j].sent); }
    }
  }

  /** The server holds the first m blocks of the source, if there are any. */
  ghost predicate HoldsFirst(wr: ProtonWriter, src: Bytes, m: nat, active0: Option<Revision>)
    reads wr.server
  {
    if m == 0 then wr.server.active == active0
    else
      && wr.server.active.Some?
      && RevisionHolds(wr.crypto, wr.server.blobs, wr.server.active.value, FirstPart(src, m))
  }

  /** From the j-th on the destinations are open, and nothing was committed for them. */
  ghost predicate OpenFrom(writers: seq<ProtonWriter>, j: nat, active: seq<Option<Revision>>)
    reads writers, Servers(writers)
  {
    |active| == |writers| && forall i | j <= i < |writers| ::
      writers[i].Valid() && !writers[i].closed && writers[i].server.active == active[i]
  }

  /** The first j destinations hold what arrived. */
  ghost predicate HeldUpTo(jobs: seq<Job>, s: State, writers: seq<ProtonWriter>, j: nat, active: seq<Option<Revision>>)
    requires |writers| == |jobs| == |active|
    reads writers, Servers(writers)
  {
    forall i | 0 <= i < j && i < |jobs| :: HoldsFirst(writers[i], jobs[i].src, ClaimedBlocks(jobs, s.pos, i), active[i])
  }

  /** Closes all destinations; each close commits what arrived. */
  method CloseAll(jobs: seq<Job>, s: State, writers: seq<ProtonWriter>, ghost active: seq<Option<Revision>>)
    returns (failed: nat)
    requires |writers| == |jobs| && Separate(writers) && OpenFrom(writers, 0, active)
    requires Inv(jobs, s) && Finished(s) && AllSent(jobs, s, writers)
    modifies writers, Servers(writers)
    ensures Succeeds(s) && failed == 0 ==> HeldUpTo(jobs, s, writers, |jobs|, active)
    ensures Succeeds(s) && failed > 0 ==>
              exists j :: 0 <= j < |writers| && writers[j].server.faults > old(writers[j].server.faults)
  {
    failed := 0;
    ghost var culprit: nat := 0;
    for j := 0 to |writers|
      invariant AllSent(jobs, s, writers) && OpenFrom(writers, j, active)
      invariant Succeeds(s) && failed == 0 ==> HeldUpTo(jobs, s, writers, j, active)
      invariant forall i | j <= i < |writers| :: writers[i].server.faults == old(writers[i].server.faults)
      invariant Succeeds(s) && failed > 0 ==>
                  culprit < j && writers[culprit].server.faults > old(writers[culprit].server.faults)
    {
      var ok := CloseNext(jobs, s, writers, j, active, Succeeds(s) && failed == 0);
      if !ok { failed, culprit := failed + 1, j; }
    }
  }

  method CloseNext(jobs: seq<Job>, s: State, writers: seq<ProtonWriter>, j: nat, ghost active: seq<Option<Revision>>,
                   ghost good: bool)
    returns (ok: bool)
    requires j < |writers| == |jobs| && Separate(writers) && OpenFrom(writers, j, active)
    requires Inv(jobs, s) && Finished(s) && AllSent(jobs, s, writers)
    requires good ==> Succeeds(s) && HeldUpTo(jobs, s, writers, j, active)
    modifies writers[j], writers[j].server
    ensures AllSent(jobs, s, writers) && OpenFrom(writers, j + 1, active)
    ensures Succeeds(s) && !ok ==> writers[j].server.faults > old(writers[j].server.faults)
    ensures forall i | 0 <= i < |writers| && i != j :: writers[i].server.faults == old(writers[i].server.faults)
    ensures good && ok ==> HeldUpTo(jobs, s, writers, j + 1, active)
  {
    ok := CloseOne(jobs, s, writers[j], j, active[j]);
  }

  method CloseOne(jobs: seq<Job>, s: State, wr: ProtonWriter, j: nat, ghost active0: Option<Revision>) returns (ok: bool)
    requires j < |jobs| && wr.Valid() && !wr.closed && wr.server.active == active0
    requires Inv(jobs, s) && Finished(s) && SentOk(jobs, s, j, wr.sent)
    modifies wr`closed, wr.server
    ensures Succeeds(s) && ok ==> HoldsFirst(wr, jobs[j].src, ClaimedBlocks(jobs, s.pos, j), active0)
    ensures Succeeds(s) && !ok ==> wr.server.faults > old(wr.server.faults)
  {
    if Succeeds(s) { WrittenAtEnd(jobs, s, j, wr.sent); }
    var err := wr.Close(jobs[j].src);
    ok := err.None?;
  }

  /** Without a cancellation the claimed blocks are whole sources. */
  lemma WholeSources(jobs: seq<Job>, limit: nat, moves: seq<Move>, s: State)
    requires Run(jobs, limit, moves) == Some(s) && Finished(s) && Cancel !in moves && limit > 0
    ensures forall j | 0 <= j < |jobs| ::
              var m := ClaimedBlocks(jobs, s.pos, j);
              FirstPart(jobs[j].src, m) == jobs[j].src && (m == 0 <==> jobs[j].src == [])
  {
    Accounting(jobs, limit, moves, s);
    forall j | 0 <= j < |jobs|
      ensures var m := ClaimedBlocks(jobs, s.pos, j);
              FirstPart(jobs[j].src, m) == jobs[j].src && (m == 0 <==> jobs[j].src == [])
    {
      AllClaimed(jobs, j);
      FirstPartCount(jobs[j].src, BlockCount(|jobs[j].src|));
    }
  }

  ghost function Actives(writers: seq<ProtonWriter>): (active: seq<Option<Revision>>)
    reads writers, Servers(writers)
    ensures |active| == |writers| && forall j | 0 <= j < |writers| :: active[j] == writers[j].server.active
  {
    seq(|writers|, j requires 0 <= j < |writers| reads writers, Servers(writers) => writers[j].server.active)
  }

  /** The whole copy.  It fails when a worker failed or a request of a commit did.  When it reports
      success, every destination holds the blocks of its source that were claimed, and all of a
      source that is not empty when the run was not cancelled and had a worker.  An empty source
      is never committed. */
  method CopyToDrive(jobs: seq<Job>, limit: nat, writers: seq<ProtonWriter>)
    returns (ok: bool, ghost s: State, ghost moves: seq<Move>)
    requires |writers| == |jobs| && Separate(writers) && AllOpen(writers)
    requires forall j | 0 <= j < |jobs| :: writers[j].sent == map[]
    modifies writers, Servers(writers)
    ensures Run(jobs, limit, moves) == Some(s) && Finished(s) && (ok ==> Succeeds(s))
    ensures Succeeds(s) && !ok ==>
              exists j :: 0 <= j < |writers| && writers[j].server.faults > old(writers[j].server.faults)
    ensures ok ==> forall j | 0 <= j < |jobs| ::
              HoldsFirst(writers[j], jobs[j].src, ClaimedBlocks(jobs, s.pos, j), old(writers[j].server.active))
    ensures ok && Cancel !in moves && limit > 0 ==> forall j | 0 <= j < |jobs| && jobs[j].src != [] ::
              && writers[j].server.active.Some?
              && RevisionHolds(writers[j].crypto, writers[j].server.blobs, writers[j].server.active.value, jobs[j].src)
  {
    ghost var active := Actives(writers);
    var end;
    end, moves := RunWorkers(jobs, limit, writers, active);
    s := end;
    RunKeepsInv(jobs, limit, moves);
    var failed := CloseAll(jobs, end, writers, active);
    ok := Succeeds(end) && failed == 0;
    if Cancel !in moves && limit > 0 { WholeSources(jobs, limit, moves, s); }
  }
}
