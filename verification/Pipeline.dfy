/** The copy pipeline: workers claim blocks of a list of jobs and copy them, as interleaved
    steps.

    A step is one claim, read, write, or counter update.  Any clone, read or write may fail, a
    failed write may have written part of the block, and the run may be cancelled. */
module Pipeline {
  import opened Blocks
  import opened CopyJobs
  import opened LocalFiles
  import opened Outcomes

  /** A source file and what the destination held before. */
  datatype Job = Job(src: Bytes, dst: Bytes)

  datatype Worker =
    | Claiming
    | Reading(c: BlockClaim)
    | Writing(c: BlockClaim, data: Bytes)
    | Written(c: BlockClaim)              // before blockDone
    | Recorded(c: BlockClaim)             // before the job's own counter
    | Exited

  /** The shared state; done, counted and failed record which claims the counters stand for. */
  datatype State = State(
    pos: nat, cancelled: bool, workers: seq<Worker>, files: seq<Bytes>,
    blocksDone: nat, jobDone: seq<nat>, errors: nat, reports: seq<nat>,
    done: set<BlockClaim>, counted: set<BlockClaim>, failed: set<BlockClaim>)

  function Totals(jobs: seq<Job>): (ts: seq<nat>)
    ensures |ts| == |jobs|
  {
    if jobs == [] then [] else Totals(jobs[..|jobs| - 1]) + [BlockCount(|jobs[|jobs| - 1].src|)]
  }

  function Order(jobs: seq<Job>): seq<BlockClaim> {
    AllClaims(Totals(jobs))
  }

  /** A claim of some job's block. */
  predicate IsBlock(jobs: seq<Job>, c: BlockClaim) {
    c.job < |jobs| && c.index < BlockCount(|jobs[c.job].src|)
  }

  lemma {:induction false} TotalsAt(jobs: seq<Job>, j: nat)
    requires j < |jobs|
    ensures Totals(jobs)[j] == BlockCount(|jobs[j].src|)
  {
    if j < |jobs| - 1 { TotalsAt(jobs[..|jobs| - 1], j); }
  }

  lemma OrderMembers(jobs: seq<Job>, c: BlockClaim)
    ensures c in Order(jobs) <==> IsBlock(jobs, c)
  {
    AllClaimsMembers(Totals(jobs), c);
    if c.job < |jobs| { TotalsAt(jobs, c.job); }
  }

  /** Among the first pos claims. */
  predicate Claimed(jobs: seq<Job>, pos: nat, c: BlockClaim) {
    IsBlock(jobs, c) && Place(Totals(jobs), c) < pos
  }

  lemma NextClaim(jobs: seq<Job>, pos: nat)
    requires pos < |Order(jobs)|
    ensures !Claimed(jobs, pos, Order(jobs)[pos]) && Claimed(jobs, pos + 1, Order(jobs)[pos])
    ensures forall c | Claimed(jobs, pos + 1, c) && c != Order(jobs)[pos] :: Claimed(jobs, pos, c)
  {
    AllClaimsOnce(Totals(jobs), pos);
    OrderMembers(jobs, Order(jobs)[pos]);
    forall c | Claimed(jobs, pos + 1, c) && c != Order(jobs)[pos] ensures Claimed(jobs, pos, c) {
      TotalsAt(jobs, c.job);
      AllClaimsAt(Totals(jobs), c.job, c.index);
    }
  }

  lemma {:induction false} ClaimedCount(jobs: seq<Job>, pos: nat, cs: set<BlockClaim>)
    requires pos <= |Order(jobs)| && forall c :: c in cs <==> Claimed(jobs, pos, c)
    ensures |cs| == pos
  {
    if pos > 0 {
      var c := Order(jobs)[pos - 1];
      NextClaim(jobs, pos - 1);
      ClaimedCount(jobs, pos - 1, cs - {c});
    } else {
      assert cs == {};
    }
  }

  // ----- steps -----

  /** ok: whether the step succeeds; partial: how much a failing write wrote. */
  datatype Input = Input(ok: bool, partial: nat)

  function Fail(s: State, w: nat, c: BlockClaim): State
    requires w < |s.workers|
  {
    s.(workers := s.workers[w := Claiming], errors := s.errors + 1, failed := s.failed + {c})
  }

  function ClaimStep(jobs: seq<Job>, s: State, w: nat): State
    requires w < |s.workers| && s.pos <= |Order(jobs)|
  {
    if s.cancelled || s.pos == |Order(jobs)| then s.(workers := s.workers[w := Exited])
    else s.(pos := s.pos + 1, workers := s.workers[w := Reading(Order(jobs)[s.pos])])
  }

  function WriteStep(s: State, w: nat, c: BlockClaim, data: Bytes, x: Input): State
    requires w < |s.workers| && c.job < |s.files|
  {
    var off := c.index * BLOCK_SIZE;
    if x.ok then
      s.(workers := s.workers[w := Written(c)], files := s.files[c.job := PWrite(s.files[c.job], off, data)])
    else
      Fail(s.(files := s.files[c.job := PWrite(s.files[c.job], off, data[..Min(x.partial, |data|)])]), w, c)
  }

  function Record(s: State, w: nat, c: BlockClaim): State
    requires w < |s.workers|
  {
    s.(workers := s.workers[w := Recorded(c)], blocksDone := s.blocksDone + 1, done := s.done + {c})
  }

  /** The job's counter, and the report when it reaches the number of blocks. */
  function CountStep(jobs: seq<Job>, s: State, w: nat, c: BlockClaim): State
    requires w < |s.workers| && c.job < |s.jobDone| && c.job < |jobs|
  {
    var n := s.jobDone[c.job] + 1;
    s.(workers := s.workers[w := Claiming], jobDone := s.jobDone[c.job := n], counted := s.counted + {c},
       reports := if n == BlockCount(|jobs[c.job].src|) then s.reports + [c.job] else s.reports)
  }

  predicate CanStep(jobs: seq<Job>, s: State, w: nat) {
    w < |s.workers| && s.pos <= |Order(jobs)| && |s.files| == |s.jobDone| == |jobs| &&
    match s.workers[w]
    case Claiming => true
    case Reading(c) => IsBlock(jobs, c)
    case Writing(c, _) => IsBlock(jobs, c)
    case Written(c) => IsBlock(jobs, c)
    case Recorded(c) => IsBlock(jobs, c)
    case Exited => false
  }

  function Step(jobs: seq<Job>, s: State, w: nat, x: Input): State
    requires CanStep(jobs, s, w)
  {
    match s.workers[w]
    case Claiming => ClaimStep(jobs, s, w)
    case Reading(c) =>
      if x.ok then s.(workers := s.workers[w := Writing(c, Block(jobs[c.job].src, c.index))]) else Fail(s, w, c)
    case Writing(c, data) => WriteStep(s, w, c, data, x)
    case Written(c) => Record(s, w, c)
    case Recorded(c) => CountStep(jobs, s, w, c)
  }

  datatype Move = Cancel | Advance(worker: nat, x: Input)

  predicate Enabled(jobs: seq<Job>, s: State, m: Move) {
    m.Advance? ==> CanStep(jobs, s, m.worker)
  }

  function Next(jobs: seq<Job>, s: State, m: Move): State
    requires Enabled(jobs, s, m)
  {
    if m.Cancel? then s.(cancelled := true) else Step(jobs, s, m.worker, m.x)
  }

  function Idle(n: nat): (ws: seq<Worker>)
    ensures |ws| == n && forall i | 0 <= i < n :: ws[i] == Claiming
  {
    if n == 0 then [] else Idle(n - 1) + [Claiming]
  }

  function Destinations(jobs: seq<Job>): (fs: seq<Bytes>)
    ensures |fs| == |jobs| && forall j | 0 <= j < |jobs| :: fs[j] == jobs[j].dst
  {
    if jobs == [] then [] else Destinations(jobs[..|jobs| - 1]) + [jobs[|jobs| - 1].dst]
  }

  function NoneDone(n: nat): (ns: seq<nat>)
    ensures |ns| == n && forall j | 0 <= j < n :: ns[j] == 0
  {
    if n == 0 then [] else NoneDone(n - 1) + [0]
  }

  /** As many workers as the pool's limit. */
  function Start(jobs: seq<Job>, limit: nat): State {
    State(0, false, Idle(limit), Destinations(jobs), 0, NoneDone(|jobs|), 0, [], {}, {}, {})
  }

  function Run(jobs: seq<Job>, limit: nat, moves: seq<Move>): Option<State> {
    if moves == [] then Some(Start(jobs, limit))
    else
      match Run(jobs, limit, moves[..|moves| - 1])
      case None => None
      case Some(s) => if Enabled(jobs, s, moves[|moves| - 1]) then Some(Next(jobs, s, moves[|moves| - 1])) else None
  }

  // ----- invariants -----

  function ClaimOf(w: Worker): Option<BlockClaim> {
    if w.Claiming? || w.Exited? then None else Some(w.c)
  }

  ghost predicate WorkersOk(jobs: seq<Job>, s: State) {
    forall i | 0 <= i < |s.workers| :: WorkerOk(jobs, s, s.workers[i])
  }

  /** What a worker has in hand was claimed; it is settled only once it is recorded. */
  ghost predicate WorkerOk(jobs: seq<Job>, s: State, w: Worker) {
    match ClaimOf(w)
    case None => true
    case Some(c) =>
      && Claimed(jobs, s.pos, c) && c !in s.failed && c !in s.counted
      && (c in s.done <==> w.Recorded?)
      && (w.Writing? ==> w.data == Block(jobs[c.job].src, c.index))
  }

  ghost predicate NoSharedClaims(workers: seq<Worker>) {
    forall i, j | 0 <= i < |workers| && 0 <= j < |workers| && ClaimOf(workers[i]).Some?
                  && ClaimOf(workers[i]) == ClaimOf(workers[j]) :: i == j
  }

  ghost predicate InHand(workers: seq<Worker>, c: BlockClaim) {
    exists i :: 0 <= i < |workers| && ClaimOf(workers[i]) == Some(c)
  }

  /** The claims handed out so far are those in hand, done, and failed. */
  ghost predicate ClaimsOk(jobs: seq<Job>, s: State) {
    && s.pos <= |Order(jobs)|
    && s.done !! s.failed && s.counted <= s.done
    && (forall c | c in s.done || c in s.failed :: Claimed(jobs, s.pos, c))
    && (forall c | Claimed(jobs, s.pos, c) :: c in s.done || c in s.failed || InHand(s.workers, c))
    && (forall c | c in s.done && c !in s.counted :: InHand(s.workers, c))
  }

  /** The counters count. */
  ghost predicate CountsOk(jobs: seq<Job>, s: State) {
    && |s.files| == |s.jobDone| == |jobs|
    && s.blocksDone == |s.done| && s.errors == |s.failed|
    && (forall j | 0 <= j < |jobs| :: s.jobDone[j] == |OfJob(s.counted, j)|)
    && ReportsOk(jobs, s.jobDone, s.reports)
  }

  ghost predicate ReportsOk(jobs: seq<Job>, jobDone: seq<nat>, reports: seq<nat>)
    requires |jobDone| == |jobs|
  {
    && (forall j | 0 <= j < |jobs| ::
          Reported(reports, j) == if jobDone[j] == BlockCount(|jobs[j].src|) > 0 then 1 else 0)
    && (forall j | j in reports :: j < |jobs|)
  }

  function OfJob(cs: set<BlockClaim>, j: nat): set<BlockClaim> {
    set c | c in cs && c.job == j
  }

  function Reported(reports: seq<nat>, j: nat): nat {
    multiset(reports)[j]
  }

  /** Every block that was written without error lies in place, and nothing behind the end of a
      source changed. */
  ghost predicate FilesOk(jobs: seq<Job>, s: State) {
    && |s.files| == |jobs|
    && (forall c | c in s.done :: BlockInPlace(jobs, s.files, c))
    && (forall i | 0 <= i < |s.workers| && s.workers[i].Written? :: BlockInPlace(jobs, s.files, s.workers[i].c))
    && (forall j | 0 <= j < |jobs| :: TailKept(s.files[j], jobs[j]))
  }

  ghost predicate BlockInPlace(jobs: seq<Job>, files: seq<Bytes>, c: BlockClaim) {
    IsBlock(jobs, c) && |files| == |jobs| && InPlace(files[c.job], jobs[c.job].src, c.index)
  }

  predicate TailKept(content: Bytes, job: Job) {
    && |job.dst| <= |content| <= Max(|job.dst|, |job.src|)
    && (|job.dst| > |job.src| ==> content[|job.src|..] == job.dst[|job.src|..])
  }

  ghost predicate ClaimsInv(jobs: seq<Job>, s: State) {
    WorkersOk(jobs, s) && NoSharedClaims(s.workers) && ClaimsOk(jobs, s)
  }

  ghost predicate Inv(jobs: seq<Job>, s: State) {
    ClaimsInv(jobs, s) && CountsOk(jobs, s) && FilesOk(jobs, s)
  }

  // ----- the invariant holds at the start -----

  lemma StartInv(jobs: seq<Job>, limit: nat)
    ensures Inv(jobs, Start(jobs, limit))
  {
    var s := Start(jobs, limit);
    forall j | 0 <= j < |jobs| ensures s.jobDone[j] == |OfJob(s.counted, j)| {
      assert OfJob({}, j) == {};
    }
  }

  // ----- a step moves one worker; what the others have in hand stays -----

  lemma OthersInHand(workers: seq<Worker>, w: nat, nw: Worker, c: BlockClaim)
    requires w < |workers| && InHand(workers, c) && (ClaimOf(workers[w]) == Some(c) ==> ClaimOf(nw) == Some(c))
    ensures InHand(workers[w := nw], c)
  {
    var i :| 0 <= i < |workers| && ClaimOf(workers[i]) == Some(c);
    assert ClaimOf(workers[w := nw][i]) == Some(c);
  }

  lemma SameClaimInHand(workers: seq<Worker>, w: nat, nw: Worker)
    requires w < |workers| && ClaimOf(nw) == ClaimOf(workers[w])
    ensures forall c | InHand(workers, c) :: InHand(workers[w := nw], c)
    ensures NoSharedClaims(workers) ==> NoSharedClaims(workers[w := nw])
  {
    forall c | InHand(workers, c) ensures InHand(workers[w := nw], c) { OthersInHand(workers, w, nw, c); }
  }

  lemma DroppedClaimInHand(workers: seq<Worker>, w: nat, nw: Worker)
    requires w < |workers| && ClaimOf(nw).None?
    ensures forall c | InHand(workers, c) && ClaimOf(workers[w]) != Some(c) :: InHand(workers[w := nw], c)
    ensures NoSharedClaims(workers) ==> NoSharedClaims(workers[w := nw])
  {
    forall c | InHand(workers, c) && ClaimOf(workers[w]) != Some(c) ensures InHand(workers[w := nw], c) {
      OthersInHand(workers, w, nw, c);
    }
  }

  lemma ClaimKeepsClaims(jobs: seq<Job>, s: State, w: nat)
    requires ClaimsInv(jobs, s) && w < |s.workers| && s.workers[w].Claiming?
    ensures ClaimsInv(jobs, ClaimStep(jobs, s, w))
  {
    var s' := ClaimStep(jobs, s, w);
    if s.cancelled || s.pos == |Order(jobs)| {
      DroppedClaimInHand(s.workers, w, Exited);
    } else {
      NextClaim(jobs, s.pos);
      NewClaimInHand(jobs, s, w, Order(jobs)[s.pos]);
    }
  }

  lemma NewClaimInHand(jobs: seq<Job>, s: State, w: nat, c: BlockClaim)
    requires ClaimsInv(jobs, s) && w < |s.workers| && s.workers[w].Claiming? && s.pos < |Order(jobs)|
    requires !Claimed(jobs, s.pos, c) && Claimed(jobs, s.pos + 1, c)
    requires forall x | Claimed(jobs, s.pos + 1, x) && x != c :: Claimed(jobs, s.pos, x)
    ensures ClaimsInv(jobs, s.(pos := s.pos + 1, workers := s.workers[w := Reading(c)]))
  {
    var s' := s.(pos := s.pos + 1, workers := s.workers[w := Reading(c)]);
    forall i | 0 <= i < |s.workers| ensures WorkerOk(jobs, s', s'.workers[i]) && ClaimOf(s.workers[i]) != Some(c) {
      assert WorkerOk(jobs, s, s.workers[i]);
    }
    forall x | InHand(s.workers, x) ensures InHand(s'.workers, x) {
      OthersInHand(s.workers, w, Reading(c), x);
    }
    assert ClaimOf(s'.workers[w]) == Some(c);
  }

  /** Steps that neither touch the files nor record a block. */
  lemma FilesSame(jobs: seq<Job>, s: State, s': State)
    requires FilesOk(jobs, s) && s'.files == s.files && s'.done == s.done && |s'.workers| == |s.workers|
    requires forall i | 0 <= i < |s.workers| && s'.workers[i].Written? :: s'.workers[i] == s.workers[i]
    ensures FilesOk(jobs, s')
  {
  }

  // ----- the files -----

  lemma WriteKeepsBlock(jobs: seq<Job>, files: seq<Bytes>, c: BlockClaim, p: Bytes, x: BlockClaim)
    requires IsBlock(jobs, c) && |files| == |jobs| && |p| <= BlockLength(|jobs[c.job].src|, c.index)
    requires x != c && BlockInPlace(jobs, files, x)
    ensures BlockInPlace(jobs, files[c.job := PWrite(files[c.job], c.index * BLOCK_SIZE, p)], x)
  {
    if x.job == c.job {
      OtherBlockStays(files[c.job], jobs[c.job].src, c.index, p, x.index);
    }
  }

  lemma WriteKeepsTails(jobs: seq<Job>, files: seq<Bytes>, c: BlockClaim, p: Bytes)
    requires IsBlock(jobs, c) && |files| == |jobs| && |p| <= BlockLength(|jobs[c.job].src|, c.index)
    requires forall j | 0 <= j < |jobs| :: TailKept(files[j], jobs[j])
    ensures var files' := files[c.job := PWrite(files[c.job], c.index * BLOCK_SIZE, p)];
            forall j | 0 <= j < |jobs| :: TailKept(files'[j], jobs[j])
  {
    TailStays(files[c.job], jobs[c.job].src, c.index, p);
  }

  /** A write for the block in hand keeps every other block in place. */
  lemma WriteKeepsFiles(jobs: seq<Job>, s: State, w: nat, c: BlockClaim, p: Bytes)
    requires ClaimsInv(jobs, s) && FilesOk(jobs, s) && w < |s.workers| && s.workers[w].Writing? && s.workers[w].c == c
    requires IsBlock(jobs, c) && |p| <= BlockLength(|jobs[c.job].src|, c.index)
    ensures FilesOk(jobs, s.(files := FilesAfter(s.files, c, p)))
  {
    var files' := FilesAfter(s.files, c, p);
    assert WorkerOk(jobs, s, s.workers[w]);
    forall x | x in s.done ensures BlockInPlace(jobs, files', x) {
      WriteKeepsBlock(jobs, s.files, c, p, x);
    }
    forall i | 0 <= i < |s.workers| && s.workers[i].Written? ensures BlockInPlace(jobs, files', s.workers[i].c) {
      assert ClaimOf(s.workers[i]) == Some(s.workers[i].c) && ClaimOf(s.workers[w]) == Some(c);
      WriteKeepsBlock(jobs, s.files, c, p, s.workers[i].c);
    }
    WriteKeepsTails(jobs, s.files, c, p);
  }

  function FilesAfter(files: seq<Bytes>, c: BlockClaim, p: Bytes): seq<Bytes>
    requires c.job < |files|
  {
    files[c.job := PWrite(files[c.job], c.index * BLOCK_SIZE, p)]
  }

  // ----- the other steps -----

  lemma ReadKeepsClaims(jobs: seq<Job>, s: State, w: nat, data: Bytes)
    requires ClaimsInv(jobs, s) && w < |s.workers| && s.workers[w].Reading?
    requires var c := s.workers[w].c; IsBlock(jobs, c) && data == Block(jobs[c.job].src, c.index)
    ensures ClaimsInv(jobs, s.(workers := s.workers[w := Writing(s.workers[w].c, data)]))
  {
    SameClaimInHand(s.workers, w, Writing(s.workers[w].c, data));
    assert WorkerOk(jobs, s, s.workers[w]);
  }

  lemma ReadKeepsInv(jobs: seq<Job>, s: State, w: nat, x: Input)
    requires Inv(jobs, s) && w < |s.workers| && s.workers[w].Reading? && CanStep(jobs, s, w)
    ensures Inv(jobs, Step(jobs, s, w, x))
  {
    var c := s.workers[w].c;
    if x.ok {
      ReadKeepsClaims(jobs, s, w, Block(jobs[c.job].src, c.index));
      FilesSame(jobs, s, Step(jobs, s, w, x));
    } else {
      FailKeepsInv(jobs, s, w);
    }
  }

  lemma FailKeepsClaims(jobs: seq<Job>, s: State, w: nat)
    requires ClaimsInv(jobs, s) && w < |s.workers| && (s.workers[w].Reading? || s.workers[w].Writing?)
    ensures s.workers[w].c !in s.failed
    ensures ClaimsInv(jobs, Fail(s, w, s.workers[w].c))
  {
    var c := s.workers[w].c;
    var s' := Fail(s, w, c);
    DroppedClaimInHand(s.workers, w, Claiming);
    assert WorkerOk(jobs, s, s.workers[w]) && ClaimOf(s.workers[w]) == Some(c);
    forall i | 0 <= i < |s.workers| ensures WorkerOk(jobs, s', s'.workers[i]) {
      assert WorkerOk(jobs, s, s.workers[i]);
    }
  }

  lemma FailKeepsInv(jobs: seq<Job>, s: State, w: nat)
    requires Inv(jobs, s) && w < |s.workers| && (s.workers[w].Reading? || s.workers[w].Writing?)
    ensures Inv(jobs, Fail(s, w, s.workers[w].c))
  {
    FailKeepsClaims(jobs, s, w);
    FilesSame(jobs, s, Fail(s, w, s.workers[w].c));
  }

  lemma WriteKeepsInv(jobs: seq<Job>, s: State, w: nat, x: Input)
    requires Inv(jobs, s) && w < |s.workers| && s.workers[w].Writing? && CanStep(jobs, s, w)
    ensures Inv(jobs, Step(jobs, s, w, x))
  {
    var c, data := s.workers[w].c, s.workers[w].data;
    assert WorkerOk(jobs, s, s.workers[w]);
    var p := if x.ok then data else data[..Min(x.partial, |data|)];
    var s1 := s.(files := FilesAfter(s.files, c, p));
    WriteKeepsFiles(jobs, s, w, c, p);
    OnlyFiles(jobs, s, s1);
    if x.ok {
      WrittenIsInPlace(s.files[c.job], jobs[c.job].src, c.index);
      WrittenKeepsInv(jobs, s1, w);
    } else {
      FailKeepsInv(jobs, s1, w);
    }
  }

  lemma OnlyFiles(jobs: seq<Job>, s: State, s1: State)
    requires Inv(jobs, s) && s1 == s.(files := s1.files) && FilesOk(jobs, s1)
    ensures Inv(jobs, s1)
  {
    forall i | 0 <= i < |s.workers| ensures WorkerOk(jobs, s1, s1.workers[i]) {
      assert WorkerOk(jobs, s, s.workers[i]);
    }
  }

  lemma WrittenKeepsInv(jobs: seq<Job>, s: State, w: nat)
    requires Inv(jobs, s) && w < |s.workers| && s.workers[w].Writing? && BlockInPlace(jobs, s.files, s.workers[w].c)
    ensures Inv(jobs, s.(workers := s.workers[w := Written(s.workers[w].c)]))
  {
    WrittenKeepsClaims(jobs, s, w);
  }

  lemma WrittenKeepsClaims(jobs: seq<Job>, s: State, w: nat)
    requires ClaimsInv(jobs, s) && w < |s.workers| && s.workers[w].Writing?
    ensures ClaimsInv(jobs, s.(workers := s.workers[w := Written(s.workers[w].c)]))
  {
    SameClaimInHand(s.workers, w, Written(s.workers[w].c));
    assert WorkerOk(jobs, s, s.workers[w]);
  }

  lemma RecordKeepsClaims(jobs: seq<Job>, s: State, w: nat)
    requires ClaimsInv(jobs, s) && w < |s.workers| && s.workers[w].Written?
    ensures s.workers[w].c !in s.done
    ensures ClaimsInv(jobs, Record(s, w, s.workers[w].c))
  {
    var c := s.workers[w].c;
    var s' := Record(s, w, c);
    SameClaimInHand(s.workers, w, Recorded(c));
    assert WorkerOk(jobs, s, s.workers[w]) && ClaimOf(s.workers[w]) == Some(c);
    forall i | 0 <= i < |s.workers| ensures WorkerOk(jobs, s', s'.workers[i]) {
      assert WorkerOk(jobs, s, s.workers[i]);
    }
    assert ClaimOf(s'.workers[w]) == Some(c);
  }

  lemma RecordKeepsFiles(jobs: seq<Job>, s: State, w: nat)
    requires FilesOk(jobs, s) && w < |s.workers| && s.workers[w].Written?
    ensures FilesOk(jobs, Record(s, w, s.workers[w].c))
  {
  }

  lemma RecordKeepsInv(jobs: seq<Job>, s: State, w: nat)
    requires Inv(jobs, s) && w < |s.workers| && s.workers[w].Written?
    ensures Inv(jobs, Record(s, w, s.workers[w].c))
  {
    RecordKeepsClaims(jobs, s, w);
    RecordKeepsFiles(jobs, s, w);
  }

  lemma {:induction false} JobBound(cs: set<BlockClaim>, j: nat, n: nat)
    requires forall c | c in cs :: c.job == j && c.index < n
    ensures |cs| <= n
    ensures |cs| == n ==> forall i: nat | i < n :: BlockClaim(j, i) in cs
  {
    if n == 0 {
      assert cs == {};
    } else {
      var c := BlockClaim(j, n - 1);
      JobBound(cs - {c}, j, n - 1);
    }
  }

  lemma OfJobGrows(cs: set<BlockClaim>, c: BlockClaim, j: nat)
    requires c !in cs
    ensures |OfJob(cs + {c}, j)| == |OfJob(cs, j)| + if c.job == j then 1 else 0
  {
    if c.job == j {
      assert OfJob(cs + {c}, j) == OfJob(cs, j) + {c};
    } else {
      assert OfJob(cs + {c}, j) == OfJob(cs, j);
    }
  }

  /** The job's counter stays the number of its counted blocks, and cannot pass their number. */
  lemma CountKeepsDone(jobs: seq<Job>, counted: set<BlockClaim>, jobDone: seq<nat>, c: BlockClaim)
    requires |jobDone| == |jobs| && forall j | 0 <= j < |jobs| :: jobDone[j] == |OfJob(counted, j)|
    requires c !in counted && forall x | x in counted + {c} :: IsBlock(jobs, x)
    ensures c.job < |jobs| && jobDone[c.job] + 1 <= BlockCount(|jobs[c.job].src|)
    ensures forall j | 0 <= j < |jobs| :: jobDone[c.job := jobDone[c.job] + 1][j] == |OfJob(counted + {c}, j)|
  {
    forall j | 0 <= j < |jobs| ensures |OfJob(counted + {c}, j)| == |OfJob(counted, j)| + if c.job == j then 1 else 0 {
      OfJobGrows(counted, c, j);
    }
    assert c in counted + {c};
    JobBound(OfJob(counted + {c}, c.job), c.job, BlockCount(|jobs[c.job].src|));
  }

  lemma RecordedIsNew(jobs: seq<Job>, s: State, w: nat)
    requires ClaimsInv(jobs, s) && w < |s.workers| && s.workers[w].Recorded?
    ensures s.workers[w].c !in s.counted
    ensures forall x | x in s.counted + {s.workers[w].c} :: IsBlock(jobs, x)
  {
    assert WorkerOk(jobs, s, s.workers[w]);
    assert forall x | x in s.counted :: Claimed(jobs, s.pos, x);
  }

  lemma CountKeepsReports(jobs: seq<Job>, jobDone: seq<nat>, reports: seq<nat>, j: nat)
    requires |jobDone| == |jobs| && ReportsOk(jobs, jobDone, reports) && j < |jobs|
    requires jobDone[j] + 1 <= BlockCount(|jobs[j].src|)
    ensures var n := jobDone[j] + 1;
            ReportsOk(jobs, jobDone[j := n], if n == BlockCount(|jobs[j].src|) then reports + [j] else reports)
  {
  }

  lemma CountKeepsCounts(jobs: seq<Job>, s: State, w: nat)
    requires ClaimsInv(jobs, s) && CountsOk(jobs, s) && w < |s.workers| && s.workers[w].Recorded? && CanStep(jobs, s, w)
    ensures CountsOk(jobs, CountStep(jobs, s, w, s.workers[w].c))
  {
    var c := s.workers[w].c;
    RecordedIsNew(jobs, s, w);
    CountKeepsDone(jobs, s.counted, s.jobDone, c);
    CountKeepsReports(jobs, s.jobDone, s.reports, c.job);
  }

  lemma CountKeepsClaims(jobs: seq<Job>, s: State, w: nat)
    requires ClaimsInv(jobs, s) && w < |s.workers| && s.workers[w].Recorded? && CanStep(jobs, s, w)
    ensures ClaimsInv(jobs, CountStep(jobs, s, w, s.workers[w].c))
  {
    var c := s.workers[w].c;
    var s' := CountStep(jobs, s, w, c);
    DroppedClaimInHand(s.workers, w, Claiming);
    assert WorkerOk(jobs, s, s.workers[w]) && ClaimOf(s.workers[w]) == Some(c);
    forall i | 0 <= i < |s.workers| ensures WorkerOk(jobs, s', s'.workers[i]) {
      assert WorkerOk(jobs, s, s.workers[i]);
    }
  }

  lemma StepKeepsInv(jobs: seq<Job>, s: State, w: nat, x: Input)
    requires Inv(jobs, s) && CanStep(jobs, s, w)
    ensures Inv(jobs, Step(jobs, s, w, x))
  {
    match s.workers[w]
    case Claiming =>
      ClaimKeepsClaims(jobs, s, w);
      FilesSame(jobs, s, ClaimStep(jobs, s, w));
    case Reading(_) => ReadKeepsInv(jobs, s, w, x);
    case Writing(_, _) => WriteKeepsInv(jobs, s, w, x);
    case Written(_) => RecordKeepsInv(jobs, s, w);
    case Recorded(c) =>
      CountKeepsClaims(jobs, s, w);
      CountKeepsCounts(jobs, s, w);
      FilesSame(jobs, s, CountStep(jobs, s, w, c));
  }

  lemma {:induction false} RunKeepsInv(jobs: seq<Job>, limit: nat, moves: seq<Move>)
    requires Run(jobs, limit, moves).Some?
    ensures Inv(jobs, Run(jobs, limit, moves).value)
  {
    if moves == [] {
      StartInv(jobs, limit);
    } else {
      RunKeepsInv(jobs, limit, moves[..|moves| - 1]);
      var s, m := Run(jobs, limit, moves[..|moves| - 1]).value, moves[|moves| - 1];
      if m.Advance? { StepKeepsInv(jobs, s, m.worker, m.x); }
    }
  }

  // ----- finished runs -----

  predicate Finished(s: State) {
    forall i | 0 <= i < |s.workers| :: s.workers[i].Exited?
  }

  /** The pipeline returns no error. */
  predicate Succeeds(s: State) {
    s.errors == 0
  }

  lemma NobodyHolds(s: State)
    requires Finished(s)
    ensures forall c :: !InHand(s.workers, c)
  {
  }

  lemma StepLeaves(jobs: seq<Job>, s: State, m: Move, i: nat)
    requires Enabled(jobs, s, m)
    requires i < |s.workers| && s.workers[i].Exited? ==> s.cancelled || s.pos == |Order(jobs)|
    ensures var s' := Next(jobs, s, m);
            && |s'.workers| == |s.workers| && (s'.cancelled ==> s.cancelled || m == Cancel)
            && (i < |s.workers| && s'.workers[i].Exited? ==> s'.cancelled || s'.pos == |Order(jobs)|)
  {
  }

  /** A worker leaves only when the run was cancelled or nothing is left to claim. */
  lemma {:induction false} WhyExited(jobs: seq<Job>, limit: nat, moves: seq<Move>, i: nat)
    requires Run(jobs, limit, moves).Some?
    ensures var s := Run(jobs, limit, moves).value;
            && |s.workers| == limit && (s.cancelled ==> Cancel in moves)
            && (i < limit && s.workers[i].Exited? ==> s.cancelled || s.pos == |Order(jobs)|)
  {
    if moves != [] {
      var init, m := moves[..|moves| - 1], moves[|moves| - 1];
      WhyExited(jobs, limit, init, i);
      StepLeaves(jobs, Run(jobs, limit, init).value, m, i);
      assert m in moves && forall x | x in init :: x in moves;
    }
  }

  /** In every finished run each claimed block is either done or failed, and the counters say how
      many; without a cancellation and with at least one worker, all blocks were claimed. */
  lemma Accounting(jobs: seq<Job>, limit: nat, moves: seq<Move>, s: State)
    requires Run(jobs, limit, moves) == Some(s) && Finished(s)
    ensures s.blocksDone + s.errors == s.pos <= |Order(jobs)|
    ensures forall c :: Claimed(jobs, s.pos, c) <==> c in s.done + s.failed
    ensures s.done !! s.failed
    ensures Cancel !in moves && limit > 0 ==> s.pos == |Order(jobs)|
  {
    RunKeepsInv(jobs, limit, moves);
    NobodyHolds(s);
    ClaimedCount(jobs, s.pos, s.done + s.failed);
    WhyExited(jobs, limit, moves, 0);
  }

  /** A job is reported complete once if it has blocks and all of them were copied, and never
      otherwise. */
  lemma ReportedIffComplete(jobs: seq<Job>, limit: nat, moves: seq<Move>, s: State, j: nat)
    requires Run(jobs, limit, moves) == Some(s) && Finished(s) && j < |jobs|
    ensures var n := BlockCount(|jobs[j].src|);
            Reported(s.reports, j) ==
            if n > 0 && (forall i: nat | i < n :: BlockClaim(j, i) in s.done) then 1 else 0
  {
    RunKeepsInv(jobs, limit, moves);
    NobodyHolds(s);
    assert s.counted == s.done;
    var n := BlockCount(|jobs[j].src|);
    assert forall c | c in s.done :: Claimed(jobs, s.pos, c);
    JobBound(OfJob(s.done, j), j, n);
    if forall i: nat | i < n :: BlockClaim(j, i) in s.done {
      FullJob(OfJob(s.done, j), j, n);
    }
  }

  lemma {:induction false} FullJob(cs: set<BlockClaim>, j: nat, n: nat)
    requires forall i: nat | i < n :: BlockClaim(j, i) in cs
    ensures |cs| >= n
  {
    if n > 0 { FullJob(cs - {BlockClaim(j, n - 1)}, j, n - 1); }
  }

  /** Success means copied: when no error occurred and nothing was left unclaimed, every
      destination begins with its source, and is its source unless it was longer before, when
      the old bytes remain behind it. */
  lemma SuccessCopies(jobs: seq<Job>, limit: nat, moves: seq<Move>, s: State, j: nat)
    requires Run(jobs, limit, moves) == Some(s) && Finished(s) && Succeeds(s) && s.pos == |Order(jobs)|
    requires j < |jobs|
    ensures |s.files| == |jobs|
    ensures var old_ := jobs[j].dst; var src := jobs[j].src;
            s.files[j] == if |old_| <= |src| then src else src + old_[|src|..]
  {
    RunKeepsInv(jobs, limit, moves);
    EveryBlockInPlace(jobs, s, j);
    WholeFile(s.files[j], jobs[j]);
  }

  lemma EveryBlockInPlace(jobs: seq<Job>, s: State, j: nat)
    requires ClaimsOk(jobs, s) && CountsOk(jobs, s) && FilesOk(jobs, s)
    requires Finished(s) && Succeeds(s) && s.pos == |Order(jobs)| && j < |jobs|
    ensures forall i: nat | i < BlockCount(|jobs[j].src|) :: InPlace(s.files[j], jobs[j].src, i)
  {
    NobodyHolds(s);
    assert s.failed == {};
    forall i: nat | i < BlockCount(|jobs[j].src|) ensures InPlace(s.files[j], jobs[j].src, i) {
      var c := BlockClaim(j, i);
      EveryBlockClaimed(jobs, c);
      assert c in s.done;
      assert BlockInPlace(jobs, s.files, c);
    }
  }

  lemma WholeFile(content: Bytes, job: Job)
    requires forall i: nat | i < BlockCount(|job.src|) :: InPlace(content, job.src, i)
    requires TailKept(content, job)
    ensures content == if |job.dst| <= |job.src| then job.src else job.src + job.dst[|job.src|..]
  {
    AllInPlace(content, job.src);
    assert content == content[..|job.src|] + content[|job.src|..];
  }

  lemma EveryBlockClaimed(jobs: seq<Job>, c: BlockClaim)
    requires IsBlock(jobs, c)
    ensures Claimed(jobs, |Order(jobs)|, c)
  {
    TotalsAt(jobs, c.job);
    AllClaimsAt(Totals(jobs), c.job, c.index);
  }

  /** A run that reports success has copied all blocks exactly when all were claimed, and then
      every destination begins with its source; otherwise the run was cancelled or had no
      workers. */
  lemma SuccessIsComplete(jobs: seq<Job>, limit: nat, moves: seq<Move>, s: State)
    requires Run(jobs, limit, moves) == Some(s) && Finished(s) && Succeeds(s)
    ensures |s.files| == |jobs|
    ensures s.blocksDone == |Order(jobs)| <==> s.pos == |Order(jobs)|
    ensures s.blocksDone == |Order(jobs)| ==> forall j | 0 <= j < |jobs| :: jobs[j].src <= s.files[j]
    ensures s.blocksDone != |Order(jobs)| ==> Cancel in moves || limit == 0
  {
    Accounting(jobs, limit, moves, s);
    RunKeepsInv(jobs, limit, moves);
    if s.pos == |Order(jobs)| {
      forall j: nat | j < |jobs| ensures jobs[j].src <= s.files[j] { SuccessCopies(jobs, limit, moves, s, j); }
    }
  }

  /** The moves of a run that is cancelled before its first claim: n workers leave. */
  function LeaveAtOnce(n: nat): seq<Move> {
    if n == 0 then [Cancel] else LeaveAtOnce(n - 1) + [Advance(n - 1, Input(true, 0))]
  }

  ghost predicate NothingCopied(jobs: seq<Job>, s: State) {
    s.pos == 0 && s.blocksDone == 0 && s.files == Destinations(jobs) && s.reports == []
  }

  /** With any jobs and any number of workers there is a run that is cancelled, copies nothing,
      and still reports success. */
  lemma CancelledRunSucceeds(jobs: seq<Job>, limit: nat) returns (s: State)
    ensures Run(jobs, limit, LeaveAtOnce(limit)) == Some(s)
    ensures Finished(s) && Succeeds(s) && NothingCopied(jobs, s)
  {
    s := Leaving(jobs, limit, limit);
  }

  lemma {:induction false} Leaving(jobs: seq<Job>, limit: nat, n: nat) returns (s: State)
    requires n <= limit
    ensures Run(jobs, limit, LeaveAtOnce(n)) == Some(s)
    ensures s.cancelled && Succeeds(s) && NothingCopied(jobs, s) && |s.jobDone| == |jobs| && |s.workers| == limit
    ensures forall i | 0 <= i < limit :: s.workers[i] == if i < n then Exited else Claiming
  {
    var moves := LeaveAtOnce(n);
    if n == 0 {
      assert moves[..0] == [];
      s := Start(jobs, limit).(cancelled := true);
    } else {
      assert moves[..|moves| - 1] == LeaveAtOnce(n - 1);
      var before := Leaving(jobs, limit, n - 1);
      s := before.(workers := before.workers[n - 1 := Exited]);
      assert Step(jobs, before, n - 1, Input(true, 0)) == s;
    }
  }

  /** Success tells that everything was copied exactly when there is nothing to copy. */
  lemma SuccessIsNoProof(jobs: seq<Job>, limit: nat)
    ensures (forall moves, s | Run(jobs, limit, moves) == Some(s) && Finished(s) && Succeeds(s) ::
               s.blocksDone == |Order(jobs)|)
            <==> |Order(jobs)| == 0
  {
    var s := CancelledRunSucceeds(jobs, limit);
    forall moves, s | Run(jobs, limit, moves) == Some(s) && Finished(s) && Succeeds(s) && |Order(jobs)| == 0
      ensures s.blocksDone == |Order(jobs)|
    {
      Accounting(jobs, limit, moves, s);
    }
  }

  /** Among uncancelled runs, success tells that everything was copied exactly when the pool
      allows a worker at all: with a limit of zero a run copies nothing and still succeeds. */
  lemma SuccessNeedsAWorker(jobs: seq<Job>, limit: nat, moves: seq<Move>, s: State)
    requires Run(jobs, limit, moves) == Some(s) && Finished(s) && Succeeds(s) && Cancel !in moves
    ensures s.blocksDone == |Order(jobs)| <==> limit > 0 || |Order(jobs)| == 0
  {
    Accounting(jobs, limit, moves, s);
    if limit == 0 { NoWorkers(jobs, moves); }
  }

  lemma {:induction false} NoWorkers(jobs: seq<Job>, moves: seq<Move>)
    requires Run(jobs, 0, moves).Some?
    ensures var s := Run(jobs, 0, moves).value; s.workers == [] && s.pos == 0 && Succeeds(s) && s.files == Start(jobs, 0).files
  {
    if moves != [] { NoWorkers(jobs, moves[..|moves| - 1]); }
  }

  // ----- progress -----

  function WorkerRank(w: Worker): nat {
    match w
    case Claiming => 1
    case Reading(_) => 5
    case Writing(_, _) => 4
    case Written(_) => 3
    case Recorded(_) => 2
    case Exited => 0
  }

  function TotalRank(workers: seq<Worker>): nat {
    if workers == [] then 0 else TotalRank(workers[..|workers| - 1]) + WorkerRank(workers[|workers| - 1])
  }

  lemma {:induction false} RankChange(workers: seq<Worker>, w: nat, nw: Worker)
    requires w < |workers|
    ensures TotalRank(workers[w := nw]) + WorkerRank(workers[w]) == TotalRank(workers) + WorkerRank(nw)
  {
    var last := |workers| - 1;
    if w == last {
      assert workers[w := nw][..last] == workers[..last];
    } else {
      assert workers[w := nw][..last] == workers[..last][w := nw];
      RankChange(workers[..last], w, nw);
    }
  }

  function Measure(jobs: seq<Job>, s: State): int {
    5 * (|Order(jobs)| - s.pos) + TotalRank(s.workers)
  }

  lemma StepMeasure(jobs: seq<Job>, s: State, w: nat, x: Input)
    requires CanStep(jobs, s, w)
    ensures Measure(jobs, Step(jobs, s, w, x)) < Measure(jobs, s)
  {
    RankChange(s.workers, w, Step(jobs, s, w, x).workers[w]);
    assert Step(jobs, s, w, x).workers == s.workers[w := Step(jobs, s, w, x).workers[w]];
  }

  function Advances(moves: seq<Move>): nat {
    if moves == [] then 0 else Advances(moves[..|moves| - 1]) + if moves[|moves| - 1].Advance? then 1 else 0
  }

  /** A worker that has not left can always move, and every run ends: it takes at most five
      steps per block and one per worker. */
  lemma {:induction false} RunsEnd(jobs: seq<Job>, limit: nat, moves: seq<Move>)
    requires Run(jobs, limit, moves).Some?
    ensures var s := Run(jobs, limit, moves).value;
            && 0 <= Measure(jobs, s) <= 5 * |Order(jobs)| + limit - Advances(moves)
            && forall w | 0 <= w < |s.workers| && !s.workers[w].Exited? :: CanStep(jobs, s, w)
  {
    RunKeepsInv(jobs, limit, moves);
    var s := Run(jobs, limit, moves).value;
    forall w | 0 <= w < |s.workers| && !s.workers[w].Exited? ensures CanStep(jobs, s, w) {
      assert WorkerOk(jobs, s, s.workers[w]);
    }
    if moves == [] {
      IdleRank(limit);
    } else {
      var init, m := moves[..|moves| - 1], moves[|moves| - 1];
      RunsEnd(jobs, limit, init);
      if m.Advance? { StepMeasure(jobs, Run(jobs, limit, init).value, m.worker, m.x); }
    }
  }

  lemma {:induction false} IdleRank(n: nat)
    ensures TotalRank(Idle(n)) == n
  {
    if n > 0 {
      assert Idle(n)[..n - 1] == Idle(n - 1);
      IdleRank(n - 1);
    }
  }
}
