/** How the workers of a copy claim blocks: one atomic counter per job, and a current job that
    advances when its counter is exhausted. */
module CopyJobs {
  import opened Blocks
  import opened Outcomes

  datatype BlockClaim = BlockClaim(job: nat, index: nat)

  function JobClaims(job: nat, total: nat): (cs: seq<BlockClaim>)
    ensures |cs| == total
  {
    if total == 0 then [] else JobClaims(job, total - 1) + [BlockClaim(job, total - 1)]
  }

  /** Every block of every job, job by job. */
  function AllClaims(totals: seq<nat>): (cs: seq<BlockClaim>)
    ensures |cs| == Sum(totals)
  {
    if totals == [] then []
    else AllClaims(totals[..|totals| - 1]) + JobClaims(|totals| - 1, totals[|totals| - 1])
  }

  lemma {:induction false} JobClaimsAt(job: nat, total: nat, i: nat)
    requires i < total
    ensures JobClaims(job, total)[i] == BlockClaim(job, i)
  {
    if i < total - 1 { JobClaimsAt(job, total - 1, i); }
  }

  /** Block i of job j is claim number Sum(totals[..j]) + i. */
  lemma {:induction false} AllClaimsAt(totals: seq<nat>, j: nat, i: nat)
    requires j < |totals| && i < totals[j]
    ensures Sum(totals[..j]) + i < Sum(totals) && AllClaims(totals)[Sum(totals[..j]) + i] == BlockClaim(j, i)
  {
    var init := totals[..|totals| - 1];
    if j < |totals| - 1 {
      assert init[..j] == totals[..j];
      AllClaimsAt(init, j, i);
    } else {
      assert totals[..j] == init;
      JobClaimsAt(j, totals[j], i);
    }
  }

  /** The number of a claim. */
  function Place(totals: seq<nat>, c: BlockClaim): nat
    requires c.job < |totals|
  {
    Sum(totals[..c.job]) + c.index
  }

  /** Each claim occurs once, at its place. */
  lemma {:induction false} AllClaimsOnce(totals: seq<nat>, p: nat)
    requires p < Sum(totals)
    ensures var c := AllClaims(totals)[p];
            c.job < |totals| && c.index < totals[c.job] && Place(totals, c) == p
  {
    var init, last := totals[..|totals| - 1], |totals| - 1;
    var c := AllClaims(totals)[p];
    if p < Sum(init) {
      AllClaimsOnce(init, p);
      assert c == AllClaims(init)[p];
      assert totals[..c.job] == init[..c.job];
    } else {
      JobClaimsAt(last, totals[last], p - Sum(init));
      assert totals[..last] == init;
    }
  }

  lemma {:induction false} AllClaimsMembers(totals: seq<nat>, c: BlockClaim)
    ensures c in AllClaims(totals) <==> c.job < |totals| && c.index < totals[c.job]
  {
    if totals != [] {
      var init, last := totals[..|totals| - 1], |totals| - 1;
      AllClaimsMembers(init, c);
      JobClaimsMembers(last, totals[last], c);
    }
  }

  lemma {:induction false} JobClaimsMembers(job: nat, total: nat, c: BlockClaim)
    ensures c in JobClaims(job, total) <==> c.job == job && c.index < total
  {
    if total > 0 { JobClaimsMembers(job, total - 1, c); }
  }

  lemma SumStep(ns: seq<nat>, j: nat)
    requires j < |ns|
    ensures Sum(ns[..j + 1]) == Sum(ns[..j]) + ns[j]
  {
    assert ns[..j + 1][..j] == ns[..j];
  }

  class BlockMap {
    const total: nat
    var next: nat

    constructor (n: nat)
      ensures total == n && next == 0
    {
      total, next := n, 0;
    }

    /** The next unclaimed block, or -1; the counter moves either way. */
    method Claim() returns (idx: int)
      modifies `next
      ensures next == old(next) + 1
      ensures idx == if old(next) < total then old(next) else -1
    {
      next := next + 1;
      idx := next - 1;
      if idx >= total { return -1; }
    }
  }

  class Claimer {
    const maps: seq<BlockMap>
    const totals: seq<nat>
    var jobIdx: nat

    /** Jobs before the current one were found exhausted once, those behind it are untouched. */
    ghost predicate Ordered()
      reads this, maps
    {
      && |totals| == |maps| && jobIdx <= |maps|
      && (forall i, j | 0 <= i < j < |maps| :: maps[i] != maps[j])
      && (forall j | 0 <= j < |maps| :: maps[j].total == totals[j])
      && (forall j | 0 <= j < jobIdx :: maps[j].next == totals[j] + 1)
      && (forall j | jobIdx < j < |maps| :: maps[j].next == 0)
    }

    /** So a counter never passes its total by more than one. */
    ghost predicate Valid()
      reads this, maps
    {
      Ordered() && (jobIdx < |maps| ==> maps[jobIdx].next <= totals[jobIdx])
    }

    /** How many blocks were claimed so far. */
    ghost function Pos(): nat
      requires Ordered()
      reads this, maps
    {
      Sum(totals[..jobIdx]) + if jobIdx < |maps| then Min(maps[jobIdx].next, totals[jobIdx]) else 0
    }

    constructor (ms: seq<BlockMap>, ts: seq<nat>)
      requires |ts| == |ms|
      requires forall i, j | 0 <= i < j < |ms| :: ms[i] != ms[j]
      requires forall j | 0 <= j < |ms| :: ms[j].total == ts[j] && ms[j].next == 0
      ensures maps == ms && totals == ts
      ensures Valid() && Pos() == 0
    {
      maps, totals, jobIdx := ms, ts, 0;
      new;
      assert totals[..0] == [];
    }

    /** Hands out the blocks of all jobs one after the other, each once, and then nothing. */
    method Claim() returns (c: Option<BlockClaim>)
      requires Valid()
      modifies this, maps
      ensures Valid()
      ensures c == if old(Pos()) < Sum(totals) then Some(AllClaims(totals)[old(Pos())]) else None
      ensures Pos() == if old(Pos()) < Sum(totals) then old(Pos()) + 1 else Sum(totals)
    {
      while jobIdx < |maps|
        invariant Valid() && Pos() == old(Pos())
        decreases |maps| - jobIdx
      {
        c := ClaimHere();
        if c.Some? { return; }
      }
      assert totals[..jobIdx] == totals;
      return None;
    }

    /** Claims from the current job, or moves on to the next. */
    method ClaimHere() returns (c: Option<BlockClaim>)
      requires Valid() && jobIdx < |maps|
      modifies this, maps
      ensures Valid()
      ensures c.Some? ==> jobIdx == old(jobIdx) && old(Pos()) < Sum(totals)
                          && c.value == AllClaims(totals)[old(Pos())] && Pos() == old(Pos()) + 1
      ensures c.None? ==> jobIdx == old(jobIdx) + 1 && Pos() == old(Pos())
    {
      var idx := maps[jobIdx].Claim();
      if idx >= 0 {
        AllClaimsAt(totals, jobIdx, idx);
        return Some(BlockClaim(jobIdx, idx));
      }
      NextJob();
      return None;
    }

    method NextJob()
      requires Ordered() && jobIdx < |maps| && maps[jobIdx].next == totals[jobIdx] + 1
      modifies `jobIdx
      ensures Valid() && jobIdx == old(jobIdx) + 1 && Pos() == old(Pos())
    {
      SumStep(totals, jobIdx);
      jobIdx := jobIdx + 1;
    }
  }
}
