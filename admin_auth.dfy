/**
 * The in-memory half of modules/admin-auth.js: the login lockout per IP,
 * the session table, the cookie that carries a session id and the
 * password change. SHA-256 and `randomBytes` are outside the model: the
 * callers pass a password already hashed and the fresh session id; `now`
 * is a parameter.
 */
module AdminAuth {
  import opened Common

  /** The fifth failed login in a row locks the IP. */
  const MAX_ATTEMPTS: nat := 5
  /** A lock lasts five minutes. */
  const LOCK_DURATION: int := 5 * 60 * 1000
  /** A session lives 24 hours. */
  const SESSION_TTL: int := 24 * 60 * 60 * 1000
  /** The shortest new password accepted. */
  const MIN_PASSWORD: nat := 4

  datatype Account = Account(username: string, passwordHash: string)
  datatype AdminSession = AdminSession(username: string, createdAt: int)
  datatype Attempt = Attempt(count: nat, lockedUntil: int)

  /** `isLocked(ip)`: the IP has a record whose lock has not yet run out. */
  predicate Locked(attempts: map<string, Attempt>, ip: string, now: int)
  {
    ip in attempts && attempts[ip].lockedUntil > now
  }

  /** `ADMIN_ACCOUNTS.find(...)`: the first account with this name and hash. */
  function FindAccount(accounts: seq<Account>, username: string, hash: string): (r: Option<nat>)
    ensures r.Some? ==> r.value < |accounts| && accounts[r.value] == Account(username, hash)
    ensures r.Some? ==> forall i :: 0 <= i < r.value ==> accounts[i] != Account(username, hash)
    ensures r.None? <==> forall i :: 0 <= i < |accounts| ==> accounts[i] != Account(username, hash)
  {
    if |accounts| == 0 then None
    else if accounts[0] == Account(username, hash) then Some(0)
    else
      var r := FindAccount(accounts[1..], username, hash);
      if r.Some? then Some(r.value + 1) else None
  }

  /** The attempt record after one more failure: the fifth sets a lock and restarts the count. */
  function Failed(a: Attempt, now: int): (r: Attempt)
    ensures a.count + 1 < MAX_ATTEMPTS ==> r == Attempt(a.count + 1, a.lockedUntil)
    ensures a.count + 1 >= MAX_ATTEMPTS ==> r == Attempt(0, now + LOCK_DURATION)
  {
    if a.count + 1 >= MAX_ATTEMPTS then Attempt(0, now + LOCK_DURATION) else Attempt(a.count + 1, a.lockedUntil)
  }

  /** The result of `login` and the two tables it leaves. */
  datatype LoginOutcome = LoginOutcome(sid: Option<string>, sessions: map<string, AdminSession>,
                                       attempts: map<string, Attempt>)

  /**
   * `login(username, password, ip)`: a locked IP is refused unchecked; a
   * wrong name or password counts a failure; a match clears the IP's record
   * and opens a session under the fresh id.
   */
  function AfterLogin(accounts: seq<Account>, sessions: map<string, AdminSession>, attempts: map<string, Attempt>,
                 username: string, hash: string, ip: string, now: int, freshId: string): (r: LoginOutcome)
    ensures Locked(attempts, ip, now) ==> r == LoginOutcome(None, sessions, attempts)
    ensures r.sid.Some? <==> !Locked(attempts, ip, now) && FindAccount(accounts, username, hash).Some?
    ensures r.sid.Some? ==> r.sid == Some(freshId) && r.sessions == sessions[freshId := AdminSession(username, now)] &&
                            r.attempts == attempts - {ip}
    ensures r.sid.None? ==> r.sessions == sessions
    ensures !Locked(attempts, ip, now) && r.sid.None? ==>
      r.attempts == attempts[ip := Failed(if ip in attempts then attempts[ip] else Attempt(0, 0), now)]
  {
    if Locked(attempts, ip, now) then LoginOutcome(None, sessions, attempts)
    else
      var found := FindAccount(accounts, username, hash);
      if found.None? then
        var current := if ip in attempts then attempts[ip] else Attempt(0, 0);
        LoginOutcome(None, sessions, attempts[ip := Failed(current, now)])
      else
        LoginOutcome(Some(freshId), sessions[freshId := AdminSession(accounts[found.value].username, now)],
                     attempts - {ip})
  }

  /** `validateSession(sid)`: the verdict and the table, which loses the session once it has expired. */
  function Validate(sessions: map<string, AdminSession>, sid: string, now: int): (r: (bool, map<string, AdminSession>))
    ensures r.0 <==> sid != "" && sid in sessions && now - sessions[sid].createdAt <= SESSION_TTL
    ensures r.1 == sessions || (sid in sessions && r.1 == sessions - {sid} && !r.0)
  {
    if sid == "" || sid !in sessions then (false, sessions)
    else if now - sessions[sid].createdAt > SESSION_TTL then (false, sessions - {sid})
    else (true, sessions)
  }

  /** `logout(sid)`: the session is dropped; an empty id changes nothing. */
  function AfterLogout(sessions: map<string, AdminSession>, sid: string): (r: map<string, AdminSession>)
    ensures sid != "" ==> sid !in r
    ensures forall k :: k != sid ==> (k in r <==> k in sessions) && (k in r ==> r[k] == sessions[k])
  {
    if sid == "" then sessions else sessions - {sid}
  }

  // ---------------------------------------------------------------------
  // The cookie

  /** `[a-f0-9]` */
  predicate IsLowerHex(c: char)
  {
    '0' <= c <= '9' || 'a' <= c <= 'f'
  }

  /** The characters JavaScript's `\s` matches. */
  predicate IsRegexSpace(c: char)
  {
    c == ' ' || c == '\t' || c == '\n' || c == '\r' || c == '\U{000B}' || c == '\U{000C}' ||
    c == '\U{00A0}' || c == '\U{1680}' || ('\U{2000}' <= c <= '\U{200A}') || c == '\U{2028}' ||
    c == '\U{2029}' || c == '\U{202F}' || c == '\U{205F}' || c == '\U{3000}' || c == '\U{FEFF}'
  }

  const COOKIE_NAME: string := "admin_session="
  const SESSION_ID_LENGTH: nat := 64

  /** From `q`, the cookie name followed by 64 lowercase hex digits. */
  predicate NamedAt(h: string, q: nat)
  {
    q + |COOKIE_NAME| + SESSION_ID_LENGTH <= |h| && h[q..q + |COOKIE_NAME|] == COOKIE_NAME &&
    forall i :: q + |COOKIE_NAME| <= i < q + |COOKIE_NAME| + SESSION_ID_LENGTH ==> IsLowerHex(h[i])
  }

  /** The first index from `p` on that is not a `\s` character. */
  function SkipSpaces(h: string, p: nat): (q: nat)
    requires p <= |h|
    ensures p <= q <= |h| && (q < |h| ==> !IsRegexSpace(h[q]))
    ensures forall i :: p <= i < q ==> IsRegexSpace(h[i])
    decreases |h| - p
  {
    if p < |h| && IsRegexSpace(h[p]) then SkipSpaces(h, p + 1) else p
  }

  /** The group a match of `(?:^|;\s*)admin_session=([a-f0-9]{64})` starting at `p` captures. */
  function MatchAt(h: string, p: nat): (r: Option<string>)
    requires p <= |h|
  {
    if p == 0 && NamedAt(h, 0) then Some(h[|COOKIE_NAME|..|COOKIE_NAME| + SESSION_ID_LENGTH])
    else if p < |h| && h[p] == ';' then
      var q := SkipSpaces(h, p + 1);
      if NamedAt(h, q) then Some(h[q + |COOKIE_NAME|..q + |COOKIE_NAME| + SESSION_ID_LENGTH]) else None
    else None
  }

  /** What a match starting at each position of `h` captures. */
  function Matches(h: string): (ms: seq<Option<string>>)
    ensures |ms| == |h| + 1 && forall k :: 0 <= k <= |h| ==> ms[k] == MatchAt(h, k)
  {
    seq(|h| + 1, k requires 0 <= k <= |h| => MatchAt(h, k))
  }

  /** The first capture from `p` on, as a regular expression search reports it. */
  function Leftmost<T>(ms: seq<Option<T>>, p: nat): (r: Option<T>)
    requires p <= |ms|
    decreases |ms| - p
  {
    if p == |ms| then None
    else if ms[p].Some? then ms[p]
    else Leftmost(ms, p + 1)
  }

  /** Every match is 64 lowercase hex digits. */
  lemma MatchIsId(h: string, p: nat)
    requires p <= |h| && MatchAt(h, p).Some?
    ensures |MatchAt(h, p).value| == SESSION_ID_LENGTH
    ensures forall i :: 0 <= i < SESSION_ID_LENGTH ==> IsLowerHex(MatchAt(h, p).value[i])
  {
    var q := if p == 0 && NamedAt(h, 0) then 0 else SkipSpaces(h, p + 1);
    assert NamedAt(h, q);
    var v := MatchAt(h, p).value;
    assert v == h[q + |COOKIE_NAME|..q + |COOKIE_NAME| + SESSION_ID_LENGTH];
    forall i | 0 <= i < SESSION_ID_LENGTH
      ensures IsLowerHex(v[i])
    {
      assert v[i] == h[q + |COOKIE_NAME| + i];
    }
  }

  /** The search finds nothing only when no position from `p` has a capture. */
  lemma {:induction false} LeftmostNone<T>(ms: seq<Option<T>>, p: nat)
    requires p <= |ms|
    ensures Leftmost(ms, p).None? <==> forall k :: p <= k < |ms| ==> ms[k].None?
    decreases |ms| - p
  {
    if p < |ms| && ms[p].None? {
      LeftmostNone(ms, p + 1);
    }
  }

  /** The search gives the capture at the first position from `p` that has one. */
  lemma {:induction false} LeftmostSome<T>(ms: seq<Option<T>>, p: nat)
    requires p <= |ms| && Leftmost(ms, p).Some?
    ensures exists k :: p <= k < |ms| && ms[k] == Leftmost(ms, p) && forall j :: p <= j < k ==> ms[j].None?
    decreases |ms| - p
  {
    if ms[p].None? {
      LeftmostSome(ms, p + 1);
      var k :| p + 1 <= k < |ms| && ms[k] == Leftmost(ms, p + 1) && forall j :: p + 1 <= j < k ==> ms[j].None?;
      assert forall j :: p <= j < k ==> ms[j].None?;
    }
  }

  /** When nothing is captured before `k` and something is at `k`, that is what the search gives. */
  lemma {:induction false} LeftmostAt<T>(ms: seq<Option<T>>, p: nat, k: nat)
    requires p <= k < |ms| && ms[k].Some?
    requires forall j :: p <= j < k ==> ms[j].None?
    ensures Leftmost(ms, p) == ms[k]
    decreases k - p
  {
    if p < k {
      LeftmostAt(ms, p + 1, k);
    }
  }

  /**
   * `getSessionFromCookie(header)`: the 64 lowercase hex digits after
   * `admin_session=` at the start of the header or after a `;` and spaces,
   * the leftmost such; nothing when there is none.
   */
  function SessionFromCookie(header: string): (r: Option<string>)
    ensures r.Some? ==> |r.value| == SESSION_ID_LENGTH && forall i :: 0 <= i < |r.value| ==> IsLowerHex(r.value[i])
    ensures r.None? <==> header == "" || forall k :: 0 <= k <= |header| ==> MatchAt(header, k).None?
  {
    if header == "" then None
    else
      var ms := Matches(header);
      LeftmostNone(ms, 0);
      if Leftmost(ms, 0).Some? then
        LeftmostSome(ms, 0);
        var k :| 0 <= k < |ms| && ms[k] == Leftmost(ms, 0);
        MatchIsId(header, k);
        Leftmost(ms, 0)
      else None
  }

  /** The cookie a login sets alone in the header gives back its id. */
  lemma CookieAlone(v: string, rest: string)
    requires |v| == SESSION_ID_LENGTH && forall i :: 0 <= i < |v| ==> IsLowerHex(v[i])
    ensures SessionFromCookie(COOKIE_NAME + v + rest) == Some(v)
  {
    var h := COOKIE_NAME + v + rest;
    assert h[..|COOKIE_NAME|] == COOKIE_NAME;
    assert forall i :: |COOKIE_NAME| <= i < |COOKIE_NAME| + SESSION_ID_LENGTH ==> h[i] == v[i - |COOKIE_NAME|];
    assert h[|COOKIE_NAME|..|COOKIE_NAME| + SESSION_ID_LENGTH] == v;
    assert MatchAt(h, 0) == Some(v);
    LeftmostAt(Matches(h), 0, 0);
  }

  /**
   * After other cookies without a `;` of their own (and not starting with
   * the cookie's name), the id that follows `;` and spaces is found.
   */
  lemma CookieAfterOthers(pre: string, spaces: string, v: string, rest: string)
    requires pre != [] && pre[0] != 'a' && forall i :: 0 <= i < |pre| ==> pre[i] != ';'
    requires forall i :: 0 <= i < |spaces| ==> IsRegexSpace(spaces[i])
    requires |v| == SESSION_ID_LENGTH && forall i :: 0 <= i < |v| ==> IsLowerHex(v[i])
    ensures SessionFromCookie(pre + ";" + spaces + COOKIE_NAME + v + rest) == Some(v)
  {
    var h := pre + ";" + spaces + COOKIE_NAME + v + rest;
    var p := |pre|;
    var q := p + 1 + |spaces|;
    assert h[0] == 'a' ==> false;
    assert MatchAt(h, 0).None? by {
      assert !NamedAt(h, 0) by { assert h[0..|COOKIE_NAME|][0] == h[0]; }
    }
    forall j | 0 <= j < p
      ensures MatchAt(h, j).None?
    {
      assert h[j] == pre[j];
    }
    assert SkipSpaces(h, p + 1) == q by {
      SkipOver(h, p + 1, q);
    }
    assert h == pre + ";" + spaces + (COOKIE_NAME + v) + rest;
    NamedIn(pre + ";" + spaces, v, rest);
    assert MatchAt(h, p) == Some(v);
    LeftmostAt(Matches(h), 0, p);
  }

  /** The cookie's name and an id placed after `pre` sit at `|pre|`. */
  lemma NamedIn(pre: string, v: string, rest: string)
    requires |v| == SESSION_ID_LENGTH && forall i :: 0 <= i < |v| ==> IsLowerHex(v[i])
    ensures var h, q := pre + (COOKIE_NAME + v) + rest, |pre|;
      NamedAt(h, q) && h[q + |COOKIE_NAME|..q + |COOKIE_NAME| + SESSION_ID_LENGTH] == v
  {
    var h, q := pre + (COOKIE_NAME + v) + rest, |pre|;
    assert h[q..q + |COOKIE_NAME|] == COOKIE_NAME;
    assert forall i :: q + |COOKIE_NAME| <= i < q + |COOKIE_NAME| + SESSION_ID_LENGTH ==>
      h[i] == v[i - q - |COOKIE_NAME|];
    assert h[q + |COOKIE_NAME|..q + |COOKIE_NAME| + SESSION_ID_LENGTH] == v;
  }

  lemma SkipOver(h: string, p: nat, q: nat)
    requires p <= q < |h| && !IsRegexSpace(h[q])
    requires forall i :: p <= i < q ==> IsRegexSpace(h[i])
    ensures SkipSpaces(h, p) == q
    decreases q - p
  {
    if p < q {
      SkipOver(h, p + 1, q);
    }
  }

  // ---------------------------------------------------------------------
  // Password change

  /** The result of `changePassword`. */
  datatype Change = Changed | InvalidSession | WrongPassword | TooShort | SaveFailed

  /**
   * `changePassword(sid, current, new)` with both passwords already hashed:
   * the checks in order (a session with a non-empty user name, whatever
   * its age, since an empty name is falsy; the current password
   * of that session's user; at least four characters), then the hash
   * replaced in memory, which stays even when writing the file fails.
   */
  function AfterChange(accounts: seq<Account>, sessions: map<string, AdminSession>, sid: string,
                          currentHash: string, newPassword: string, newHash: string, saved: bool): (r: (Change, seq<Account>))
    ensures r.0 == InvalidSession <==> sid == "" || sid !in sessions || sessions[sid].username == ""
    ensures r.0 in {InvalidSession, WrongPassword, TooShort} ==> r.1 == accounts
    ensures r.0 == WrongPassword <==>
      sid != "" && sid in sessions && sessions[sid].username != "" &&
      FindAccount(accounts, sessions[sid].username, currentHash).None?
    ensures r.0 == TooShort ==> |newPassword| < MIN_PASSWORD
    ensures r.0 in {Changed, SaveFailed} ==>
      var i := FindAccount(accounts, sessions[sid].username, currentHash).value;
      |newPassword| >= MIN_PASSWORD && r.1 == accounts[i := Account(sessions[sid].username, newHash)]
    ensures r.0 == SaveFailed <==> !saved && r.0 != InvalidSession && r.0 != WrongPassword && r.0 != TooShort
  {
    if sid == "" || sid !in sessions || sessions[sid].username == "" then (InvalidSession, accounts)
    else
      var username := sessions[sid].username;
      var found := FindAccount(accounts, username, currentHash);
      if found.None? then (WrongPassword, accounts)
      else if |newPassword| < MIN_PASSWORD then (TooShort, accounts)
      else
        var updated := accounts[found.value := Account(username, newHash)];
        if saved then (Changed, updated) else (SaveFailed, updated)
  }

  // ---------------------------------------------------------------------
  // Cleanup

  /** `cleanExpiredSessions`, first loop: the sessions older than the TTL dropped. */
  function LiveSessions(sessions: map<string, AdminSession>, now: int): (r: map<string, AdminSession>)
    ensures forall k :: k in r <==> k in sessions && now - sessions[k].createdAt <= SESSION_TTL
    ensures forall k :: k in r ==> r[k] == sessions[k]
  {
    map k | k in sessions && now - sessions[k].createdAt <= SESSION_TTL :: sessions[k]
  }

  /** Second loop: the records whose lock has run out dropped; a record never locked stays. */
  function LiveAttempts(attempts: map<string, Attempt>, now: int): (r: map<string, Attempt>)
    ensures forall k :: k in r <==> k in attempts && !(attempts[k].lockedUntil > 0 && attempts[k].lockedUntil < now)
    ensures forall k :: k in r ==> r[k] == attempts[k]
  {
    map k | k in attempts && !(attempts[k].lockedUntil > 0 && attempts[k].lockedUntil < now) :: attempts[k]
  }

  // ---------------------------------------------------------------------
  // The store

  /** The module's `sessions`, `loginAttempts` and `ADMIN_ACCOUNTS`. */
  class AdminStore {
    var sessions: map<string, AdminSession>
    var loginAttempts: map<string, Attempt>
    var accounts: seq<Account>

    constructor (accounts: seq<Account>)
      ensures this.accounts == accounts && sessions == map[] && loginAttempts == map[]
    {
      this.accounts := accounts;
      sessions := map[];
      loginAttempts := map[];
    }

    method Login(username: string, hash: string, ip: string, now: int, freshId: string) returns (sid: Option<string>)
      modifies this`sessions, this`loginAttempts
      ensures LoginOutcome(sid, sessions, loginAttempts) ==
              AfterLogin(accounts, old(sessions), old(loginAttempts), username, hash, ip, now, freshId)
    {
      if ip in loginAttempts && loginAttempts[ip].lockedUntil > now {
        return None;
      }
      var found := FindAccount(accounts, username, hash);
      if found.None? {
        var current := if ip in loginAttempts then loginAttempts[ip] else Attempt(0, 0);
        current := current.(count := current.count + 1);
        if current.count >= MAX_ATTEMPTS {
          current := Attempt(0, now + LOCK_DURATION);
        }
        loginAttempts := loginAttempts[ip := current];
        return None;
      }
      loginAttempts := loginAttempts - {ip};
      sessions := sessions[freshId := AdminSession(accounts[found.value].username, now)];
      return Some(freshId);
    }

    method ValidateSession(sid: string, now: int) returns (valid: bool)
      modifies this`sessions
      ensures (valid, sessions) == Validate(old(sessions), sid, now)
    {
      if sid == "" || sid !in sessions {
        return false;
      }
      if now - sessions[sid].createdAt > SESSION_TTL {
        sessions := sessions - {sid};
        return false;
      }
      return true;
    }

    method Logout(sid: string)
      modifies this`sessions
      ensures sessions == AfterLogout(old(sessions), sid)
    {
      if sid != "" {
        sessions := sessions - {sid};
      }
    }

    method ChangePassword(sid: string, currentHash: string, newPassword: string, newHash: string, saved: bool)
      returns (result: Change)
      modifies this`accounts
      ensures (result, accounts) == AfterChange(old(accounts), sessions, sid, currentHash, newPassword, newHash, saved)
    {
      if sid == "" || sid !in sessions || sessions[sid].username == "" {
        return InvalidSession;
      }
      var username := sessions[sid].username;
      var found := FindAccount(accounts, username, currentHash);
      if found.None? {
        return WrongPassword;
      }
      if |newPassword| < MIN_PASSWORD {
        return TooShort;
      }
      accounts := accounts[found.value := Account(username, newHash)];
      if !saved {
        return SaveFailed;
      }
      return Changed;
    }

    /** `cleanExpiredSessions`: the expired sessions and the run-out locks dropped. */
    method CleanExpiredSessions(now: int)
      modifies this`sessions, this`loginAttempts
      ensures sessions == LiveSessions(old(sessions), now)
      ensures loginAttempts == LiveAttempts(old(loginAttempts), now)
    {
      DropExpiredSessions(now);
      DropExpiredLocks(now);
    }

    method DropExpiredSessions(now: int)
      modifies this`sessions
      ensures sessions == LiveSessions(old(sessions), now)
    {
      ghost var s0 := sessions;
      var todo := sessions.Keys;
      while todo != {}
        invariant todo <= s0.Keys
        invariant forall k :: k in sessions <==> k in s0 && (k in todo || now - s0[k].createdAt <= SESSION_TTL)
        invariant forall k :: k in sessions ==> sessions[k] == s0[k]
        decreases todo
      {
        var id :| id in todo;
        if now - sessions[id].createdAt > SESSION_TTL {
          sessions := sessions - {id};
        }
        todo := todo - {id};
      }
    }

    method DropExpiredLocks(now: int)
      modifies this`loginAttempts
      ensures loginAttempts == LiveAttempts(old(loginAttempts), now)
    {
      ghost var a0 := loginAttempts;
      var ips := loginAttempts.Keys;
      while ips != {}
        invariant ips <= a0.Keys
        invariant forall k :: k in loginAttempts <==>
          k in a0 && (k in ips || !(a0[k].lockedUntil > 0 && a0[k].lockedUntil < now))
        invariant forall k :: k in loginAttempts ==> loginAttempts[k] == a0[k]
        decreases ips
      {
        var ip :| ip in ips;
        if loginAttempts[ip].lockedUntil > 0 && loginAttempts[ip].lockedUntil < now {
          loginAttempts := loginAttempts - {ip};
        }
        ips := ips - {ip};
      }
    }
  }

  // ---------------------------------------------------------------------
  // Properties

  /** While an IP is locked even the right password is refused and nothing changes. */
  lemma LockRefusesRightPassword(accounts: seq<Account>, sessions: map<string, AdminSession>,
                                 attempts: map<string, Attempt>, i: nat, ip: string, now: int, freshId: string)
    requires i < |accounts| && Locked(attempts, ip, now)
    ensures AfterLogin(accounts, sessions, attempts, accounts[i].username, accounts[i].passwordHash, ip, now, freshId) ==
            LoginOutcome(None, sessions, attempts)
  {
  }

  /** Five wrong logins in a row from an IP with no record lock it for five minutes. */
  lemma FiveFailuresLock(accounts: seq<Account>, sessions: map<string, AdminSession>, attempts: map<string, Attempt>,
                         username: string, hash: string, ip: string, now: nat, freshId: string)
    requires ip !in attempts && FindAccount(accounts, username, hash).None?
    ensures var a1 := AfterLogin(accounts, sessions, attempts, username, hash, ip, now, freshId).attempts;
      var a2 := AfterLogin(accounts, sessions, a1, username, hash, ip, now, freshId).attempts;
      var a3 := AfterLogin(accounts, sessions, a2, username, hash, ip, now, freshId).attempts;
      var a4 := AfterLogin(accounts, sessions, a3, username, hash, ip, now, freshId).attempts;
      var a5 := AfterLogin(accounts, sessions, a4, username, hash, ip, now, freshId).attempts;
      !Locked(a4, ip, now) && a4[ip].count == 4 &&
      a5[ip] == Attempt(0, now + LOCK_DURATION) &&
      forall t :: now <= t < now + LOCK_DURATION ==> Locked(a5, ip, t)
  {
    var a1 := AfterLogin(accounts, sessions, attempts, username, hash, ip, now, freshId).attempts;
    assert a1[ip] == Attempt(1, 0);
    var a2 := AfterLogin(accounts, sessions, a1, username, hash, ip, now, freshId).attempts;
    assert a2[ip] == Attempt(2, 0);
    var a3 := AfterLogin(accounts, sessions, a2, username, hash, ip, now, freshId).attempts;
    assert a3[ip] == Attempt(3, 0);
    var a4 := AfterLogin(accounts, sessions, a3, username, hash, ip, now, freshId).attempts;
    assert a4[ip] == Attempt(4, 0);
  }

  /** A login opens a session that stays valid for 24 hours and is gone after. */
  lemma LoginThenValidate(accounts: seq<Account>, sessions: map<string, AdminSession>, attempts: map<string, Attempt>,
                          username: string, hash: string, ip: string, now: int, freshId: string, later: int)
    requires !Locked(attempts, ip, now) && FindAccount(accounts, username, hash).Some? && freshId != ""
    ensures var s := AfterLogin(accounts, sessions, attempts, username, hash, ip, now, freshId).sessions;
      Validate(s, freshId, later).0 <==> later - now <= SESSION_TTL
    ensures ip !in AfterLogin(accounts, sessions, attempts, username, hash, ip, now, freshId).attempts
  {
  }

  /** After a logout the session no longer validates. */
  lemma LogoutEndsSession(sessions: map<string, AdminSession>, sid: string, now: int)
    ensures !Validate(AfterLogout(sessions, sid), sid, now).0
  {
  }

  /** After a change the new password logs the user in, the old one no longer through that account. */
  lemma ChangeThenLogin(accounts: seq<Account>, sessions: map<string, AdminSession>, sid: string,
                        currentHash: string, newPassword: string, newHash: string, saved: bool)
    requires AfterChange(accounts, sessions, sid, currentHash, newPassword, newHash, saved).0 in {Changed, SaveFailed}
    ensures var after := AfterChange(accounts, sessions, sid, currentHash, newPassword, newHash, saved).1;
      FindAccount(after, sessions[sid].username, newHash).Some? &&
      |after| == |accounts| &&
      forall i :: 0 <= i < |accounts| && accounts[i] != after[i] ==>
        accounts[i] == Account(sessions[sid].username, currentHash) && after[i] == Account(sessions[sid].username, newHash)
  {
    var i := FindAccount(accounts, sessions[sid].username, currentHash).value;
    var after := accounts[i := Account(sessions[sid].username, newHash)];
    assert after[i] == Account(sessions[sid].username, newHash);
  }

  /** Cleaning changes no verdict: a session validates and an IP is locked exactly as before. */
  lemma CleanKeepsVerdicts(sessions: map<string, AdminSession>, attempts: map<string, Attempt>, sid: string,
                           ip: string, now: int)
    ensures Validate(LiveSessions(sessions, now), sid, now).0 == Validate(sessions, sid, now).0
    ensures Locked(LiveAttempts(attempts, now), ip, now) == Locked(attempts, ip, now)
  {
  }
}
