/** Account credentials, the rotating credential of each authentication style, and the decision
    taken under the refresh lock. */
module Credentials {
  import opened Outcomes

  datatype Cookie = Cookie(name: string, value: string)

  datatype SessionCredentials = SessionCredentials(
    uid: string, accessToken: string, refreshToken: string,
    cookies: seq<Cookie>, lastRefresh: int, cookieAuth: bool)

  const REFRESH_PREFIX: string := "REFRESH-"

  const AUTH_PREFIX: string := "AUTH-"

  predicate IsRefreshCookie(c: Cookie) {
    REFRESH_PREFIX <= c.name
  }

  function RefreshCookie(cookies: seq<Cookie>): Option<string> {
    if cookies == [] then None
    else if IsRefreshCookie(cookies[0]) then Some(cookies[0].value)
    else RefreshCookie(cookies[1..])
  }

  /** The credential the server replaces on each refresh. */
  function Rotating(c: SessionCredentials): string {
    if !c.cookieAuth then c.refreshToken
    else match RefreshCookie(c.cookies) case Some(v) => v case None => ""
  }

  /** In the bearer style the rotating credential is the refresh token; in the cookie style it is
      the value of the first cookie whose name begins with REFRESH-, and empty without one. */
  lemma {:induction false} FirstRefreshCookie(c: SessionCredentials, i: nat)
    ensures !c.cookieAuth ==> Rotating(c) == c.refreshToken
    ensures (&& c.cookieAuth && i < |c.cookies| && "REFRESH-" <= c.cookies[i].name
             && forall j | 0 <= j < i :: !("REFRESH-" <= c.cookies[j].name)) ==>
            Rotating(c) == c.cookies[i].value
    ensures (c.cookieAuth && forall j | 0 <= j < |c.cookies| :: !("REFRESH-" <= c.cookies[j].name)) ==>
            Rotating(c) == ""
    decreases |c.cookies|
  {
    if c.cookies != [] {
      FirstRefreshCookie(c.(cookies := c.cookies[1..]), if i == 0 then 0 else i - 1);
    }
  }

  /** The loop of the source: the first cookie with the prefix wins. */
  method RotatingCredential(cur: SessionCredentials) returns (r: string)
    ensures r == Rotating(cur)
  {
    if !cur.cookieAuth { return cur.refreshToken; }
    for i := 0 to |cur.cookies|
      invariant RefreshCookie(cur.cookies) == RefreshCookie(cur.cookies[i..])
    {
      if REFRESH_PREFIX <= cur.cookies[i].name { return cur.cookies[i].value; }
    }
    return "";
  }

  /** What the jar holds after the server set the AUTH and REFRESH cookies anew. */
  function RotateCookies(cookies: seq<Cookie>, auth: string, refresh: string): seq<Cookie> {
    if cookies == [] then []
    else if IsRefreshCookie(cookies[0]) then [Cookie(cookies[0].name, refresh)] + RotateCookies(cookies[1..], auth, refresh)
    else if AUTH_PREFIX <= cookies[0].name then [Cookie(cookies[0].name, auth)] + RotateCookies(cookies[1..], auth, refresh)
    else [cookies[0]] + RotateCookies(cookies[1..], auth, refresh)
  }

  lemma {:induction false} RotatedCookie(cookies: seq<Cookie>, auth: string, refresh: string)
    ensures RefreshCookie(RotateCookies(cookies, auth, refresh)) ==
            if RefreshCookie(cookies).Some? then Some(refresh) else None
  {
    if cookies != [] {
      RotatedCookie(cookies[1..], auth, refresh);
      var rest := RotateCookies(cookies[1..], auth, refresh);
      assert forall c: Cookie :: ([c] + rest)[1..] == rest;
    }
  }

  /** Every cookie keeps its name and place; REFRESH- cookies get the credential, AUTH- cookies the
      access value, and all others keep theirs. */
  lemma {:induction false} RotatedAt(cookies: seq<Cookie>, auth: string, refresh: string)
    ensures var after := RotateCookies(cookies, auth, refresh);
            && |after| == |cookies|
            && forall i | 0 <= i < |cookies| ::
                 after[i].name == cookies[i].name &&
                 after[i].value == if "REFRESH-" <= cookies[i].name then refresh
                                   else if "AUTH-" <= cookies[i].name then auth
                                   else cookies[i].value
  {
    if cookies != [] { RotatedAt(cookies[1..], auth, refresh); }
  }

  /** The credentials after a refresh in the active style. */
  function Updated(cur: SessionCredentials, access: string, credential: string, now: int): SessionCredentials {
    if cur.cookieAuth then
      cur.(cookies := RotateCookies(cur.cookies, access, credential), lastRefresh := now)
    else
      cur.(accessToken := access, refreshToken := credential, lastRefresh := now)
  }

  lemma UpdatedRotates(cur: SessionCredentials, access: string, credential: string, now: int)
    requires Refreshable(cur)
    ensures Rotating(Updated(cur, access, credential, now)) == credential
    ensures Updated(cur, access, credential, now).uid == cur.uid
  {
    RotatedCookie(cur.cookies, access, credential);
  }

  /** Which fields a refresh replaces: in the bearer style both tokens, in the cookie style the
      values of the AUTH- and REFRESH- cookies; in both the time, and nothing else. */
  lemma UpdatedFields(cur: SessionCredentials, access: string, credential: string, now: int)
    ensures var after := Updated(cur, access, credential, now);
            && after.uid == cur.uid && after.cookieAuth == cur.cookieAuth && after.lastRefresh == now
            && (!cur.cookieAuth ==>
                  after.accessToken == access && after.refreshToken == credential && after.cookies == cur.cookies)
            && (cur.cookieAuth ==>
                  && after.accessToken == cur.accessToken && after.refreshToken == cur.refreshToken
                  && |after.cookies| == |cur.cookies|
                  && forall i | 0 <= i < |cur.cookies| ::
                       after.cookies[i].name == cur.cookies[i].name &&
                       after.cookies[i].value == if "REFRESH-" <= cur.cookies[i].name then credential
                                                 else if "AUTH-" <= cur.cookies[i].name then access
                                                 else cur.cookies[i].value)
  {
    RotatedAt(cur.cookies, access, credential);
  }

  /** A cookie session without a REFRESH cookie fails before anything is sent. */
  predicate Refreshable(cur: SessionCredentials) {
    cur.cookieAuth ==> RefreshCookie(cur.cookies).Some?
  }

  datatype ServerError = ApiError(status: int) | NetworkError

  datatype Reply = Granted(access: string, credential: string) | Refused(error: ServerError)

  /** 400 and 422 say that the rotating credential is dead. */
  predicate IsDeauthError(e: ServerError) {
    e.ApiError? && (e.status == 400 || e.status == 422)
  }

  datatype RefreshError = LoadFailed | SaveFailed | NoRefreshCookie | AccountDeauthed | Transient(error: ServerError)

  /** A refused refresh means a dead account for the statuses 400 and 422, and for nothing else. */
  lemma DeadStatuses(e: ServerError)
    ensures ErrorOf(e) == AccountDeauthed <==> e == ApiError(400) || e == ApiError(422)
    ensures ErrorOf(e) != AccountDeauthed ==> ErrorOf(e) == Transient(e)
  {
  }

  /** How a server that rotates on every refresh answers: a dead credential is rejected as
      such, the live one is replaced by one never issued before, or the call fails and nothing
      is replaced. */
  predicate Honest(reply: Reply, submitted: string, live: string, issued: set<string>) {
    match reply
    case Granted(_, credential) => submitted == live && credential !in issued
    case Refused(e) => IsDeauthError(e) <==> submitted != live
  }

  datatype Decision = Adopt | Submit | NoCookie

  /** What to do with the credentials reloaded under the lock. */
  function Decide(cur: SessionCredentials, startedWith: string): Decision {
    if Rotating(cur) != startedWith then Adopt
    else if !Refreshable(cur) then NoCookie
    else Submit
  }

  function ErrorOf(e: ServerError): RefreshError {
    if IsDeauthError(e) then AccountDeauthed else Transient(e)
  }

  // ----- the lock file -----

  predicate IsSafeRune(c: char) {
    'a' <= c <= 'z' || 'A' <= c <= 'Z' || '0' <= c <= '9' || c == '.' || c == '_' || c == '-'
  }

  function SafeRunes(uid: string): (s: string)
    ensures |s| == |uid|
  {
    if uid == "" then ""
    else SafeRunes(uid[..|uid| - 1]) + [if IsSafeRune(uid[|uid| - 1]) then uid[|uid| - 1] else '_']
  }

  function LockName(uid: string): string {
    if uid == "" then "default" else SafeRunes(uid)
  }

  method SanitizeUID(uid: string) returns (name: string)
    ensures name == LockName(uid)
  {
    var b := "";
    for i := 0 to |uid|
      invariant b == SafeRunes(uid[..i])
    {
      assert uid[..i + 1][..i] == uid[..i];
      if IsSafeRune(uid[i]) { b := b + [uid[i]]; } else { b := b + "_"; }
    }
    assert uid[..|uid|] == uid;
    if |b| == 0 { return "default"; }
    return b;
  }

  /** The characters a lock name may hold, by code point: letters, digits, dot, underscore and
      hyphen. */
  lemma SafeCharacters(c: char)
    ensures IsSafeRune(c) <==>
            var n := c as int; 97 <= n <= 122 || 65 <= n <= 90 || 48 <= n <= 57 || n == 46 || n == 95 || n == 45
  {
  }

  /** Every other character becomes an underscore, one for one. */
  lemma {:induction false} SanitizedAt(uid: string, i: nat)
    requires i < |uid|
    ensures |LockName(uid)| == |uid|
    ensures LockName(uid)[i] == if IsSafeRune(uid[i]) then uid[i] else '_'
  {
    var init := uid[..|uid| - 1];
    if i < |init| {
      SanitizedAt(init, i);
      assert LockName(uid)[i] == SafeRunes(init)[i];
    }
  }

  /** A lock name is never empty, holds only safe characters, is kept when it is safe already,
      and so is stable under sanitizing again. */
  lemma {:induction false} LockNameIsSafe(uid: string)
    ensures LockName(uid) != ""
    ensures forall c | c in LockName(uid) :: IsSafeRune(c)
    ensures (uid != "" && forall c | c in uid :: IsSafeRune(c)) ==> LockName(uid) == uid
    ensures LockName(LockName(uid)) == LockName(uid)
  {
    SafeRunesAreSafe(uid);
    SafeRunesAreSafe(LockName(uid));
    assert "default" == ['d', 'e', 'f', 'a', 'u', 'l', 't'];
  }

  lemma {:induction false} SafeRunesAreSafe(uid: string)
    ensures forall c | c in SafeRunes(uid) :: IsSafeRune(c)
    ensures (forall c | c in uid :: IsSafeRune(c)) ==> SafeRunes(uid) == uid
  {
    if uid != "" {
      var init := uid[..|uid| - 1];
      SafeRunesAreSafe(init);
      assert uid == init + [uid[|uid| - 1]];
    }
  }
}
