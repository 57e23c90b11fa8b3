/** Processes refreshing shared accounts under per-account file locks, as interleaved steps.

    A step is one load, lock, exchange with the server, save or unlock.  Several accounts may
    exist, and their lock names may collide. */
module RefreshProtocol {
  import opened Credentials
  import opened Outcomes

  type Account = nat

  type Pid = nat

  datatype Pc =
    | Starting
    | Loaded(uid: string)                                     // waiting for the lock
    | Locked(uid: string)
    | Reloaded(uid: string, cur: SessionCredentials)          // about to adopt or refresh
    | Minted(uid: string, cur: SessionCredentials)            // refreshed, not saved
    | Releasing(uid: string, result: Result<SessionCredentials, RefreshError>)
    | Done(result: Result<SessionCredentials, RefreshError>)

  datatype Proc = Proc(account: Account, startedWith: string, pc: Pc)

  /** One rotation: the call of which process replaced which credential. */
  datatype Rotation = Rotation(account: Account, startedWith: string, old_: string, new_: string)

  /** The stores on disk, the server's live credential per account with all it ever issued, the
      lock files, and the history of rotations. */
  datatype Shared = Shared(
    stores: map<Account, SessionCredentials>, live: map<Account, string>, issued: set<string>,
    locks: map<string, Pid>, rotations: seq<Rotation>)

  datatype World = World(sh: Shared, procs: seq<Proc>)

  /** What happens to the process that moves: whether a load succeeds, what the server answers,
      the time, and which credential a finished process calls again with. */
  datatype Input = Input(loadOk: bool, reply: Reply, now: int, again: string)

  function Own(p: Proc, pc: Pc): Proc {
    p.(pc := pc)
  }

  predicate CanStep(sh: Shared, p: Proc) {
    && p.account in sh.stores && p.account in sh.live
    && (p.pc.Loaded? ==> LockName(p.pc.uid) !in sh.locks)
  }

  /** The server answers honestly when it is asked. */
  predicate Allowed(sh: Shared, p: Proc, x: Input) {
    CanStep(sh, p) &&
    (p.pc.Reloaded? && Decide(p.pc.cur, p.startedWith).Submit? ==>
       Honest(x.reply, Rotating(p.pc.cur), sh.live[p.account], sh.issued))
  }

  /** The refresh proper: the server replaces the credential, or refuses. */
  function Exchange(sh: Shared, p: Proc, x: Input): (Shared, Proc)
    requires p.pc.Reloaded?
  {
    match x.reply
    case Refused(e) => (sh, Own(p, Releasing(p.pc.uid, Err(ErrorOf(e)))))
    case Granted(access, credential) =>
      (sh.(live := sh.live[p.account := credential], issued := sh.issued + {credential},
           rotations := sh.rotations + [Rotation(p.account, p.startedWith, Rotating(p.pc.cur), credential)]),
       Own(p, Minted(p.pc.uid, Updated(p.pc.cur, access, credential, x.now))))
  }

  function ProcStep(sh: Shared, pid: Pid, p: Proc, x: Input): (Shared, Proc)
    requires Allowed(sh, p, x)
  {
    match p.pc
    case Starting =>
      (sh, Own(p, if x.loadOk then Loaded(sh.stores[p.account].uid) else Done(Err(LoadFailed))))
    case Loaded(uid) =>
      (sh.(locks := sh.locks[LockName(uid) := pid]), Own(p, Locked(uid)))
    case Locked(uid) =>
      (sh, Own(p, if x.loadOk then Reloaded(uid, sh.stores[p.account]) else Releasing(uid, Err(LoadFailed))))
    case Reloaded(uid, cur) =>
      (match Decide(cur, p.startedWith)
       case Adopt => (sh, Own(p, Releasing(uid, Ok(cur))))
       case NoCookie => (sh, Own(p, Releasing(uid, Err(NoRefreshCookie))))
       case Submit => Exchange(sh, p, x))
    case Minted(uid, cur) =>
      (sh.(stores := sh.stores[p.account := cur]), Own(p, Releasing(uid, Ok(cur))))
    case Releasing(uid, result) =>
      (sh.(locks := sh.locks - {LockName(uid)}), Own(p, Done(result)))
    case Done(_) =>
      (sh, Proc(p.account, x.again, Starting))
  }

  datatype Move = Move(pid: Pid, x: Input)

  predicate Enabled(w: World, m: Move) {
    m.pid < |w.procs| && Allowed(w.sh, w.procs[m.pid], m.x)
  }

  function Step(w: World, m: Move): World
    requires Enabled(w, m)
  {
    var (sh, p) := ProcStep(w.sh, m.pid, w.procs[m.pid], m.x);
    World(sh, w.procs[m.pid := p])
  }

  function Run(w: World, moves: seq<Move>): Option<World> {
    if moves == [] then Some(w)
    else
      match Run(w, moves[..|moves| - 1])
      case None => None
      case Some(w') =>
        var m := moves[|moves| - 1];
        if Enabled(w', m) then Some(Step(w', m)) else None
  }

  /** At the start nobody is refreshing and every store holds the live credential. */
  ghost predicate Start(w: World) {
    && w.sh.locks == map[] && w.sh.rotations == []
    && w.sh.live.Keys == w.sh.stores.Keys
    && (forall a | a in w.sh.stores :: Rotating(w.sh.stores[a]) == w.sh.live[a] && w.sh.live[a] in w.sh.issued)
    && (forall i | 0 <= i < |w.procs| :: w.procs[i].pc.Starting? && w.procs[i].account in w.sh.stores)
  }

  // ----- the invariant -----

  predicate Holds(p: Proc) {
    p.pc.Locked? || p.pc.Reloaded? || p.pc.Minted? || p.pc.Releasing?
  }

  /** pid holds the lock of the account. */
  predicate LockedBy(sh: Shared, a: Account, pid: Pid)
    requires a in sh.stores
  {
    var name := LockName(sh.stores[a].uid);
    name in sh.locks && sh.locks[name] == pid
  }

  ghost predicate ResultOk(result: Result<SessionCredentials, RefreshError>, startedWith: string) {
    match result
    case Ok(c) => Rotating(c) != startedWith
    case Err(e) => !e.AccountDeauthed?
  }

  ghost predicate ProcOk(sh: Shared, pid: Pid, p: Proc) {
    && p.account in sh.stores && p.account in sh.live
    && (Holds(p) ==> LockedBy(sh, p.account, pid))
    && match p.pc
       case Loaded(uid) => uid == sh.stores[p.account].uid
       case Locked(uid) => uid == sh.stores[p.account].uid
       case Reloaded(uid, cur) =>
         uid == sh.stores[p.account].uid && cur == sh.stores[p.account] && Rotating(cur) == sh.live[p.account]
       case Minted(uid, cur) =>
         && uid == sh.stores[p.account].uid && cur.uid == uid
         && Rotating(cur) == sh.live[p.account] && Rotating(cur) != p.startedWith
       case Releasing(uid, result) =>
         && uid == sh.stores[p.account].uid && ResultOk(result, p.startedWith)
         && (result.Ok? ==> Rotating(result.value) == sh.live[p.account])
       case Done(result) => ResultOk(result, p.startedWith)
       case Starting => true
  }

  ghost predicate ProcsOk(sh: Shared, procs: seq<Proc>) {
    forall i | 0 <= i < |procs| :: ProcOk(sh, i, procs[i])
  }

  predicate MintedFor(p: Proc, a: Account) {
    p.account == a && p.pc.Minted?
  }

  /** The store is behind the server only while some process has yet to save. */
  ghost predicate StoreOk(sh: Shared, procs: seq<Proc>, a: Account)
    requires a in sh.stores && a in sh.live
  {
    Rotating(sh.stores[a]) == sh.live[a] || exists i :: 0 <= i < |procs| && MintedFor(procs[i], a)
  }

  ghost predicate StoresOk(sh: Shared, procs: seq<Proc>) {
    && sh.stores.Keys == sh.live.Keys
    && forall a | a in sh.stores :: StoreOk(sh, procs, a)
  }

  /** Every lock is held by a process that will release it. */
  ghost predicate LocksOk(locks: map<string, Pid>, procs: seq<Proc>) {
    forall n | n in locks :: locks[n] < |procs| && Holds(procs[locks[n]]) && LockName(procs[locks[n]].pc.uid) == n
  }

  /** No credential was replaced twice, each by a call that started with it, and none that was
      replaced is live. */
  ghost predicate LogOk(sh: Shared) {
    && (forall a | a in sh.live :: sh.live[a] in sh.issued)
    && (forall i | 0 <= i < |sh.rotations| :: RotationOk(sh, sh.rotations[i]))
    && (forall i, j | 0 <= i < j < |sh.rotations| && sh.rotations[i].account == sh.rotations[j].account ::
          sh.rotations[i].old_ != sh.rotations[j].old_)
  }

  ghost predicate RotationOk(sh: Shared, r: Rotation) {
    && r.old_ == r.startedWith && r.old_ in sh.issued
    && r.account in sh.live && sh.live[r.account] != r.old_
  }

  ghost predicate Inv(w: World) {
    && ProcsOk(w.sh, w.procs) && StoresOk(w.sh, w.procs) && LocksOk(w.sh.locks, w.procs) && LogOk(w.sh)
  }

  // ----- one step -----

  /** What a step of process pid for account a may change. */
  ghost predicate Follows(sh: Shared, sh': Shared, pid: Pid, a: Account) {
    && sh'.stores.Keys == sh.stores.Keys && sh'.live.Keys == sh.live.Keys
    && a in sh.stores && a in sh.live
    && (forall b | b in sh.stores && b != a :: sh'.stores[b] == sh.stores[b])
    && (forall b | b in sh.live && b != a :: sh'.live[b] == sh.live[b])
    && sh'.stores[a].uid == sh.stores[a].uid
    && (!LockedBy(sh, a, pid) ==> sh'.stores[a] == sh.stores[a] && sh'.live[a] == sh.live[a])
    && (forall n | n in sh.locks && sh.locks[n] != pid :: n in sh'.locks && sh'.locks[n] == sh.locks[n])
  }

  lemma OtherProcOk(sh: Shared, sh': Shared, pid: Pid, a: Account, q: Pid, p: Proc)
    requires ProcOk(sh, q, p) && Follows(sh, sh', pid, a) && q != pid
    ensures ProcOk(sh', q, p)
  {
    if Holds(p) && p.account == a {
      assert !LockedBy(sh, a, pid);
    }
  }

  /** No two processes are inside the lock of one account. */
  lemma OneHolder(sh: Shared, procs: seq<Proc>)
    requires ProcsOk(sh, procs)
    ensures forall i, j | 0 <= i < |procs| && 0 <= j < |procs| && Holds(procs[i]) && Holds(procs[j])
                          && procs[i].account == procs[j].account :: i == j
  {
    forall i, j | 0 <= i < |procs| && 0 <= j < |procs| && Holds(procs[i]) && Holds(procs[j])
                  && procs[i].account == procs[j].account
      ensures i == j
    {
      assert ProcOk(sh, i, procs[i]) && ProcOk(sh, j, procs[j]);
    }
  }

  /** While a process holds the lock of its account without having minted, nobody has. */
  lemma NobodyMinted(w: World, pid: Pid)
    requires ProcsOk(w.sh, w.procs) && StoresOk(w.sh, w.procs) && pid < |w.procs|
    requires Holds(w.procs[pid]) && !w.procs[pid].pc.Minted?
    ensures var a := w.procs[pid].account;
            a in w.sh.stores && a in w.sh.live && Rotating(w.sh.stores[a]) == w.sh.live[a]
  {
    OneHolder(w.sh, w.procs);
    assert ProcOk(w.sh, pid, w.procs[pid]) && StoreOk(w.sh, w.procs, w.procs[pid].account);
  }

  ghost predicate StepOk(sh: Shared, pid: Pid, p: Proc, sh': Shared, p': Proc) {
    p'.account == p.account && Follows(sh, sh', pid, p.account) && ProcOk(sh', pid, p')
  }

  lemma ExchangeOk(sh: Shared, pid: Pid, p: Proc, x: Input)
    requires ProcOk(sh, pid, p) && p.pc.Reloaded? && Decide(p.pc.cur, p.startedWith).Submit?
    requires Honest(x.reply, Rotating(p.pc.cur), sh.live[p.account], sh.issued) && sh.live[p.account] in sh.issued
    ensures StepOk(sh, pid, p, Exchange(sh, p, x).0, Exchange(sh, p, x).1)
  {
    if x.reply.Granted? {
      UpdatedRotates(p.pc.cur, x.reply.access, x.reply.credential, x.now);
    }
  }

  lemma OtherStepOk(sh: Shared, pid: Pid, p: Proc, x: Input)
    requires ProcOk(sh, pid, p) && Allowed(sh, p, x)
    requires p.pc.Locked? ==> Rotating(sh.stores[p.account]) == sh.live[p.account]
    requires !(p.pc.Reloaded? && Decide(p.pc.cur, p.startedWith).Submit?)
    ensures StepOk(sh, pid, p, ProcStep(sh, pid, p, x).0, ProcStep(sh, pid, p, x).1)
  {
  }

  lemma ProcStepOk(w: World, m: Move)
    requires Inv(w) && Enabled(w, m)
    ensures var (sh', p') := ProcStep(w.sh, m.pid, w.procs[m.pid], m.x); StepOk(w.sh, m.pid, w.procs[m.pid], sh', p')
  {
    var p := w.procs[m.pid];
    assert ProcOk(w.sh, m.pid, p);
    if p.pc.Reloaded? && Decide(p.pc.cur, p.startedWith).Submit? {
      ExchangeOk(w.sh, m.pid, p, m.x);
    } else {
      if p.pc.Locked? { NobodyMinted(w, m.pid); }
      OtherStepOk(w.sh, m.pid, p, m.x);
    }
  }

  lemma StepKeepsProcs(w: World, m: Move)
    requires Inv(w) && Enabled(w, m)
    ensures ProcsOk(Step(w, m).sh, Step(w, m).procs)
  {
    ProcStepOk(w, m);
    var (sh', p') := ProcStep(w.sh, m.pid, w.procs[m.pid], m.x);
    forall i | 0 <= i < |w.procs| ensures ProcOk(sh', i, Step(w, m).procs[i]) {
      assert ProcOk(w.sh, i, w.procs[i]);
      if i != m.pid { OtherProcOk(w.sh, sh', m.pid, p'.account, i, w.procs[i]); }
    }
  }

  /** The stores and the live credentials change only with a rotation and with its save. */
  lemma WhatChanges(sh: Shared, pid: Pid, p: Proc, x: Input)
    requires ProcOk(sh, pid, p) && Allowed(sh, p, x)
    ensures var (sh', p') := ProcStep(sh, pid, p, x);
            && (!p.pc.Minted? && !p'.pc.Minted? ==> sh'.stores == sh.stores && sh'.live == sh.live)
            && (p.pc.Minted? ==> sh'.live == sh.live && p.account in sh'.stores
                                 && Rotating(sh'.stores[p.account]) == sh.live[p.account])
            && (p.pc.Minted? ==> !p'.pc.Minted?)
  {
  }

  lemma StepKeepsStores(w: World, m: Move)
    requires Inv(w) && Enabled(w, m)
    ensures StoresOk(Step(w, m).sh, Step(w, m).procs)
  {
    ProcStepOk(w, m);
    var p := w.procs[m.pid];
    var (sh', p') := ProcStep(w.sh, m.pid, p, m.x);
    assert ProcOk(w.sh, m.pid, p);
    WhatChanges(w.sh, m.pid, p, m.x);
    forall a | a in w.sh.stores ensures StoreOk(sh', w.procs[m.pid := p'], a) {
      assert StoreOk(w.sh, w.procs, a);
      StoreStays(w.sh, w.procs, m.pid, sh', p', a);
    }
  }

  lemma StoreStays(sh: Shared, procs: seq<Proc>, pid: Pid, sh': Shared, p': Proc, a: Account)
    requires pid < |procs| && a in sh.stores && a in sh.live && StoreOk(sh, procs, a)
    requires Follows(sh, sh', pid, p'.account) && p'.account == procs[pid].account
    requires !procs[pid].pc.Minted? && !p'.pc.Minted? ==> sh'.stores == sh.stores && sh'.live == sh.live
    requires procs[pid].pc.Minted? ==> sh'.live == sh.live && p'.account in sh'.stores
                                       && Rotating(sh'.stores[p'.account]) == sh.live[p'.account]
    ensures StoreOk(sh', procs[pid := p'], a)
  {
    var procs' := procs[pid := p'];
    if MintedFor(p', a) {
      assert MintedFor(procs'[pid], a);
    } else if !MintedFor(procs[pid], a) && Rotating(sh.stores[a]) != sh.live[a] {
      var i :| 0 <= i < |procs| && MintedFor(procs[i], a);
      assert MintedFor(procs'[i], a);
    }
  }

  /** A step leaves the locks of others alone; its own is the one it keeps holding. */
  lemma OwnLocks(sh: Shared, pid: Pid, p: Proc, x: Input)
    requires ProcOk(sh, pid, p) && Allowed(sh, p, x)
    requires forall n | n in sh.locks && sh.locks[n] == pid :: Holds(p) && LockName(p.pc.uid) == n
    ensures var (sh', p') := ProcStep(sh, pid, p, x);
            forall n | n in sh'.locks ::
              if sh'.locks[n] == pid then Holds(p') && LockName(p'.pc.uid) == n
              else n in sh.locks && sh.locks[n] == sh'.locks[n]
  {
  }

  lemma StepKeepsLocks(w: World, m: Move)
    requires Inv(w) && Enabled(w, m)
    ensures LocksOk(Step(w, m).sh.locks, Step(w, m).procs)
  {
    assert ProcOk(w.sh, m.pid, w.procs[m.pid]);
    OwnLocks(w.sh, m.pid, w.procs[m.pid], m.x);
  }

  lemma StepKeepsLog(w: World, m: Move)
    requires Inv(w) && Enabled(w, m)
    ensures LogOk(Step(w, m).sh)
  {
    var p := w.procs[m.pid];
    assert ProcOk(w.sh, m.pid, p);
    if p.pc.Reloaded? && Decide(p.pc.cur, p.startedWith).Submit? && m.x.reply.Granted? {
      RotationKeepsLog(w.sh, p, m.x);
    }
  }

  lemma RotationKeepsLog(sh: Shared, p: Proc, x: Input)
    requires LogOk(sh) && p.pc.Reloaded? && p.account in sh.live && x.reply.Granted?
    requires Rotating(p.pc.cur) == p.startedWith == sh.live[p.account] && x.reply.credential !in sh.issued
    ensures LogOk(Exchange(sh, p, x).0)
  {
    var sh' := Exchange(sh, p, x).0;
    forall i | 0 <= i < |sh'.rotations| ensures RotationOk(sh', sh'.rotations[i]) {
      if i < |sh.rotations| { assert RotationOk(sh, sh.rotations[i]); }
    }
    forall i, j | 0 <= i < j < |sh'.rotations| && sh'.rotations[i].account == sh'.rotations[j].account
      ensures sh'.rotations[i].old_ != sh'.rotations[j].old_
    {
      assert RotationOk(sh, sh.rotations[i]);
    }
  }

  lemma StepKeepsInv(w: World, m: Move)
    requires Inv(w) && Enabled(w, m)
    ensures Inv(Step(w, m))
  {
    StepKeepsProcs(w, m);
    StepKeepsStores(w, m);
    StepKeepsLocks(w, m);
    StepKeepsLog(w, m);
  }

  // ----- every run -----

  lemma {:induction false} RunKeepsInv(w: World, moves: seq<Move>)
    requires Start(w) && Run(w, moves).Some?
    ensures Inv(Run(w, moves).value)
  {
    if moves != [] {
      RunKeepsInv(w, moves[..|moves| - 1]);
      StepKeepsInv(Run(w, moves[..|moves| - 1]).value, moves[|moves| - 1]);
    }
  }

  /** In every interleaving, a credential that is submitted is live, and so no call is told that
      the account is dead. */
  lemma NoDeadCredentialIsSubmitted(w0: World, moves: seq<Move>, w: World, pid: Pid)
    requires Start(w0) && Run(w0, moves) == Some(w) && pid < |w.procs|
    ensures var p := w.procs[pid];
            && (p.pc.Reloaded? && Decide(p.pc.cur, p.startedWith).Submit? ==>
                  p.account in w.sh.live && Rotating(p.pc.cur) == w.sh.live[p.account])
            && p.pc != Done(Err(AccountDeauthed))
  {
    RunKeepsInv(w0, moves);
    assert ProcOk(w.sh, pid, w.procs[pid]);
  }

  /** Credentials that are about to be returned are live while the lock is still held, whether
      adopted or minted, and they are newer than those the call started with. */
  lemma ReturnedCredentialIsLive(w0: World, moves: seq<Move>, w: World, pid: Pid)
    requires Start(w0) && Run(w0, moves) == Some(w) && pid < |w.procs|
    ensures var p := w.procs[pid];
            && (p.pc.Releasing? && p.pc.result.Ok? ==>
                  && p.account in w.sh.stores && LockedBy(w.sh, p.account, pid)
                  && p.account in w.sh.live && Rotating(p.pc.result.value) == w.sh.live[p.account])
            && (p.pc.Done? && p.pc.result.Ok? ==> Rotating(p.pc.result.value) != p.startedWith)
  {
    RunKeepsInv(w0, moves);
    assert ProcOk(w.sh, pid, w.procs[pid]);
  }

  /** Calls that all started with one credential cause at most one rotation of the account. */
  lemma OneRotationPerCredential(w0: World, moves: seq<Move>, w: World, i: nat, j: nat)
    requires Start(w0) && Run(w0, moves) == Some(w) && i < |w.sh.rotations| && j < |w.sh.rotations|
    requires w.sh.rotations[i].account == w.sh.rotations[j].account
    requires w.sh.rotations[i].startedWith == w.sh.rotations[j].startedWith
    ensures i == j
  {
    RunKeepsInv(w0, moves);
    assert RotationOk(w.sh, w.sh.rotations[i]) && RotationOk(w.sh, w.sh.rotations[j]);
  }

  /** Whenever no process is between the server's answer and its save, every store holds the
      live credential. */
  lemma StoresAreLiveAtRest(w0: World, moves: seq<Move>, w: World, a: Account)
    requires Start(w0) && Run(w0, moves) == Some(w) && a in w.sh.stores
    requires forall i | 0 <= i < |w.procs| :: !MintedFor(w.procs[i], a)
    ensures a in w.sh.live && Rotating(w.sh.stores[a]) == w.sh.live[a]
  {
    RunKeepsInv(w0, moves);
    assert StoreOk(w.sh, w.procs, a);
  }

  function Rank(p: Proc): nat {
    match p.pc
    case Starting => 5
    case Loaded(_) => 4
    case Locked(_) => 3
    case Reloaded(_, _) => 2
    case Minted(_, _) => 1
    case Releasing(_, _) => 0
    case Done(_) => 0
  }

  /** A process inside the lock gets closer to leaving it with each step. */
  ghost predicate LeavesSoon(sh: Shared, pid: Pid, q: Proc) {
    forall x | Allowed(sh, q, x) ::
      var (sh', q') := ProcStep(sh, pid, q, x);
      if q.pc.Releasing? then LockName(q.pc.uid) !in sh'.locks else Holds(q') && Rank(q') < Rank(q)
  }

  lemma HolderLeaves(sh: Shared, pid: Pid, q: Proc)
    requires ProcOk(sh, pid, q) && Holds(q)
    ensures CanStep(sh, q) && LeavesSoon(sh, pid, q)
  {
  }

  /** Nobody waits forever: the holder of a lock another process waits for can always move, and
      each of its moves brings it closer to releasing it. */
  lemma HolderCanMove(w0: World, moves: seq<Move>, w: World, pid: Pid)
    requires Start(w0) && Run(w0, moves) == Some(w) && pid < |w.procs|
    requires w.procs[pid].pc.Loaded? && !CanStep(w.sh, w.procs[pid])
    ensures var name := LockName(w.procs[pid].pc.uid);
            && name in w.sh.locks && w.sh.locks[name] < |w.procs|
            && var q := w.procs[w.sh.locks[name]];
               Holds(q) && CanStep(w.sh, q) && LeavesSoon(w.sh, w.sh.locks[name], q)
  {
    RunKeepsInv(w0, moves);
    assert ProcOk(w.sh, pid, w.procs[pid]);
    var name := LockName(w.procs[pid].pc.uid);
    HolderLeaves(w.sh, w.sh.locks[name], w.procs[w.sh.locks[name]]);
  }
}
