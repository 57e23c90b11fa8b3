/** Refreshing an account in one process: the lock file, the store and the server as objects. */
module RefreshAccount {
  import opened Credentials
  import opened Outcomes
  import opened RefreshProtocol

  /** The lock files of the runtime directory; held names are locked by somebody. */
  class LockFiles {
    var held: set<string>

    constructor ()
      ensures held == {}
    {
      held := {};
    }
  }

  /** A lock; f is None for a lock that coordinates nothing and for one already released. */
  class RefreshLock {
    var f: Option<string>

    constructor (name: Option<string>)
      ensures f == name
    {
      f := name;
    }

    /** Gives the file up once; releasing again does nothing, whoever holds the file by then. */
    method Release(os: LockFiles)
      modifies `f, os
      ensures f == None
      ensures os.held == match old(f) case Some(name) => old(os.held) - {name} case None => old(os.held)
    {
      match f
      case None => return;
      case Some(name) =>
        os.held := os.held - {name};
        f := None;
    }
  }

  class SessionStore {
    var creds: SessionCredentials

    constructor (initial: SessionCredentials)
      ensures creds == initial
    {
      creds := initial;
    }
  }

  /** A server that replaces the credential on every refresh. */
  class AuthServer {
    var live: string
    var issued: set<string>

    constructor (credential: string)
      ensures live == credential && issued == {credential}
    {
      live, issued := credential, {credential};
    }

    method Refresh(submitted: string, reply: Reply) returns (r: Reply)
      requires Honest(reply, submitted, live, issued)
      modifies this
      ensures r == reply
      ensures live == if r.Granted? then r.credential else old(live)
      ensures issued == if r.Granted? then old(issued) + {r.credential} else old(issued)
    {
      r := reply;
      if r.Granted? { live, issued := r.credential, issued + {r.credential}; }
    }
  }

  /** The directory or the lock file could not be made, or locking it failed. */
  datatype LockError = LockUnavailable

  /** The lock of an account; without a runtime directory, one that coordinates nothing.  The
      call blocks while the file is locked. */
  method AcquireRefreshLock(os: LockFiles, runtimeDir: string, uid: string, lockOk: bool)
    returns (r: Result<RefreshLock, LockError>)
    requires runtimeDir != "" && lockOk ==> LockName(uid) !in os.held
    modifies os
    ensures r.Err? <==> runtimeDir != "" && !lockOk
    ensures r.Ok? ==> fresh(r.value) && r.value.f == if runtimeDir == "" then None else Some(LockName(uid))
    ensures os.held == if runtimeDir == "" || !lockOk then old(os.held) else old(os.held) + {LockName(uid)}
  {
    if runtimeDir == "" {
      var nothing := new RefreshLock(None);
      return Ok(nothing);
    }
    if !lockOk { return Err(LockUnavailable); }
    var name := SanitizeUID(uid);
    os.held := os.held + {name};
    var lock := new RefreshLock(Some(name));
    return Ok(lock);
  }

  /** What the environment does to a call: the two loads, the lock, the server and the save. */
  datatype Conditions = Conditions(loadOk: bool, lockOk: bool, reloadOk: bool, reply: Reply, saveOk: bool, now: int)

  /** What a call leaves behind and returns. */
  datatype Effect = Effect(creds: SessionCredentials, live: string, issued: set<string>,
                           result: Result<SessionCredentials, RefreshError>)

  function Outcome(creds: SessionCredentials, live: string, issued: set<string>, startedWith: string, x: Conditions): Effect {
    if !x.loadOk || !x.reloadOk then Effect(creds, live, issued, Err(LoadFailed))
    else
      match Decide(creds, startedWith)
      case Adopt => Effect(creds, live, issued, Ok(creds))
      case NoCookie => Effect(creds, live, issued, Err(NoRefreshCookie))
      case Submit =>
        match x.reply
        case Refused(e) => Effect(creds, live, issued, Err(ErrorOf(e)))
        case Granted(access, credential) =>
          var cur := Updated(creds, access, credential, x.now);
          if x.saveOk then Effect(cur, credential, issued + {credential}, Ok(cur))
          else Effect(creds, credential, issued + {credential}, Err(SaveFailed))
  }

  /** The whole call, with the lock released on every path.  Without the lock it goes on
      uncoordinated. */
  method RefreshAccountLocked(os: LockFiles, runtimeDir: string, store: SessionStore, server: AuthServer,
                              startedWith: string, x: Conditions)
    returns (r: Result<SessionCredentials, RefreshError>)
    requires runtimeDir != "" && x.lockOk ==> LockName(store.creds.uid) !in os.held
    requires Decide(store.creds, startedWith).Submit? ==>
               Honest(x.reply, Rotating(store.creds), server.live, server.issued)
    modifies os, store, server
    ensures os.held == old(os.held)
    ensures Effect(store.creds, server.live, server.issued, r) ==
            Outcome(old(store.creds), old(server.live), old(server.issued), startedWith, x)
  {
    if !x.loadOk { return Err(LoadFailed); }
    var lock := AcquireRefreshLock(os, runtimeDir, store.creds.uid, x.lockOk);
    r := RefreshUnderLock(store, server, startedWith, x);
    if lock.Ok? { lock.value.Release(os); }
  }

  /** Reloads, and adopts or refreshes. */
  method RefreshUnderLock(store: SessionStore, server: AuthServer, startedWith: string, x: Conditions)
    returns (r: Result<SessionCredentials, RefreshError>)
    requires x.loadOk
    requires Decide(store.creds, startedWith).Submit? ==>
               Honest(x.reply, Rotating(store.creds), server.live, server.issued)
    modifies store, server
    ensures Effect(store.creds, server.live, server.issued, r) ==
            Outcome(old(store.creds), old(server.live), old(server.issued), startedWith, x)
  {
    if !x.reloadOk { return Err(LoadFailed); }
    var cur := store.creds;
    var credential := RotatingCredential(cur);
    if credential != startedWith { return Ok(cur); }
    if cur.cookieAuth && RefreshCookie(cur.cookies).None? { return Err(NoRefreshCookie); }
    r := RefreshLocked(store, server, cur, credential, x.reply, x.saveOk, x.now);
  }

  /** The exchange in the active style and the save. */
  method RefreshLocked(store: SessionStore, server: AuthServer, cur: SessionCredentials, credential: string,
                       reply: Reply, saveOk: bool, now: int)
    returns (r: Result<SessionCredentials, RefreshError>)
    requires cur == store.creds && Honest(reply, credential, server.live, server.issued)
    modifies store, server
    ensures r == match reply
                 case Refused(e) => Err(ErrorOf(e))
                 case Granted(access, fresh_) => if saveOk then Ok(Updated(cur, access, fresh_, now)) else Err(SaveFailed)
    ensures store.creds == match r case Ok(c) => c case Err(_) => cur
    ensures server.live == if reply.Granted? then reply.credential else old(server.live)
    ensures server.issued == if reply.Granted? then old(server.issued) + {reply.credential} else old(server.issued)
  {
    var answer := server.Refresh(credential, reply);
    match answer
    case Refused(e) =>
      return Err(if IsDeauthError(e) then AccountDeauthed else Transient(e));
    case Granted(access, minted) =>
      var updated := Updated(cur, access, minted, now);
      if !saveOk { return Err(SaveFailed); }
      store.creds := updated;
      return Ok(updated);
  }

  /** A call on a live store ends with the store live, and on success newer than the credential
      the caller had; only a save that fails after the server rotated leaves it behind. */
  lemma OutcomeIsLive(creds: SessionCredentials, live: string, issued: set<string>, startedWith: string, x: Conditions)
    requires Rotating(creds) == live && live in issued
    requires Decide(creds, startedWith).Submit? ==> Honest(x.reply, live, live, issued)
    ensures var e := Outcome(creds, live, issued, startedWith, x);
            && (Rotating(e.creds) == e.live <==> e.result != Err(SaveFailed))
            && (e.result == Err(SaveFailed) <==>
                  x.loadOk && x.reloadOk && Decide(creds, startedWith).Submit? && x.reply.Granted? && !x.saveOk)
            && (e.result.Ok? ==> e.result.value == e.creds && e.live != startedWith && e.live in e.issued)
            && (e.result.Err? ==> e.creds == creds && (e.live == live <==> e.result.error != SaveFailed))
            && e.result != Err(AccountDeauthed)
  {
    if Decide(creds, startedWith).Submit? && x.reply.Granted? {
      UpdatedRotates(creds, x.reply.access, x.reply.credential, x.now);
    }
  }

  /** After such a failed save the account is lost to the next caller who loads the store: what
      it submits is dead, and it is told so. */
  lemma FailedSaveDeauths(creds: SessionCredentials, live: string, issued: set<string>, startedWith: string,
                          x: Conditions, y: Conditions)
    requires Rotating(creds) == live && live in issued
    requires Decide(creds, startedWith).Submit? ==> Honest(x.reply, live, live, issued)
    requires var e := Outcome(creds, live, issued, startedWith, x);
             && e.result == Err(SaveFailed)
             && y.loadOk && y.reloadOk && Honest(y.reply, Rotating(e.creds), e.live, e.issued)
    ensures var e := Outcome(creds, live, issued, startedWith, x);
            Outcome(e.creds, e.live, e.issued, Rotating(e.creds), y) == e.(result := Err(AccountDeauthed))
  {
    OutcomeIsLive(creds, live, issued, startedWith, x);
  }

  // ----- the call is the protocol's process, run alone -----

  function StepsLeft(p: Proc): nat {
    if p.pc.Done? then 0 else Rank(p) + 1
  }

  /** Runs a process with nobody else moving; the first input is for the first load. */
  function RunAlone(sh: Shared, pid: Pid, p: Proc, load: Input, rest: Input): (Shared, Proc)
    decreases StepsLeft(p)
  {
    var x := if p.pc.Starting? then load else rest;
    if p.pc.Done? || !Allowed(sh, p, x) then (sh, p)
    else
      var (sh', p') := ProcStep(sh, pid, p, x);
      RunAlone(sh', pid, p', load, rest)
  }

  lemma AloneFromLocked(sh: Shared, pid: Pid, p: Proc, load: Input, rest: Input)
    requires p.pc.Locked? && p.account in sh.stores && p.account in sh.live
    requires p.pc.uid == sh.stores[p.account].uid
    requires Decide(sh.stores[p.account], p.startedWith).Submit? ==>
               Honest(rest.reply, Rotating(sh.stores[p.account]), sh.live[p.account], sh.issued)
    ensures var (sh', p') := RunAlone(sh, pid, p, load, rest);
            var e := Outcome(sh.stores[p.account], sh.live[p.account], sh.issued, p.startedWith,
                             Conditions(true, true, rest.loadOk, rest.reply, true, rest.now));
            && p' == Own(p, Done(e.result)) && sh'.locks == sh.locks - {LockName(p.pc.uid)}
            && sh'.stores == sh.stores[p.account := e.creds] && sh'.live == sh.live[p.account := e.live]
            && sh'.issued == e.issued
  {
    var (sh1, p1) := ProcStep(sh, pid, p, rest);
    if p1.pc.Reloaded? {
      var (sh2, p2) := ProcStep(sh1, pid, p1, rest);
      AloneFromRefreshed(sh2, pid, p2, load, rest);
    } else {
      AloneFromRefreshed(sh1, pid, p1, load, rest);
    }
  }

  lemma AloneFromRefreshed(sh: Shared, pid: Pid, p: Proc, load: Input, rest: Input)
    requires (p.pc.Minted? || p.pc.Releasing?) && p.account in sh.stores && p.account in sh.live
    ensures var (sh', p') := RunAlone(sh, pid, p, load, rest);
            && sh'.locks == sh.locks - {LockName(p.pc.uid)}
            && p' == Own(p, Done(if p.pc.Minted? then Ok(p.pc.cur) else p.pc.result))
            && sh'.stores == (if p.pc.Minted? then sh.stores[p.account := p.pc.cur] else sh.stores)
            && sh'.live == sh.live && sh'.issued == sh.issued
    decreases StepsLeft(p)
  {
    if p.pc.Minted? {
      var (sh1, p1) := ProcStep(sh, pid, p, rest);
      AloneFromRefreshed(sh1, pid, p1, load, rest);
    }
  }

  /** A process that runs alone, with the lock free, does what the call does. */
  lemma AloneIsTheCall(sh: Shared, pid: Pid, p: Proc, load: Input, rest: Input)
    requires p.pc.Starting? && p.account in sh.stores && p.account in sh.live
    requires LockName(sh.stores[p.account].uid) !in sh.locks
    requires Decide(sh.stores[p.account], p.startedWith).Submit? ==>
               Honest(rest.reply, Rotating(sh.stores[p.account]), sh.live[p.account], sh.issued)
    ensures var (sh', p') := RunAlone(sh, pid, p, load, rest);
            var e := Outcome(sh.stores[p.account], sh.live[p.account], sh.issued, p.startedWith,
                             Conditions(load.loadOk, true, rest.loadOk, rest.reply, true, rest.now));
            && p' == Own(p, Done(e.result)) && sh'.locks == sh.locks
            && sh'.stores == sh.stores[p.account := e.creds] && sh'.live == sh.live[p.account := e.live]
            && sh'.issued == e.issued
  {
    var (sh1, p1) := ProcStep(sh, pid, p, load);
    if load.loadOk {
      var (sh2, p2) := ProcStep(sh1, pid, p1, rest);
      AloneFromLocked(sh2, pid, p2, load, rest);
    }
  }
}
