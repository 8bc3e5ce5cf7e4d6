/**
 * The in-memory half of modules/bot-auth.js: the table of IPs that recently
 * timed out for being AFK (which must pass a captcha when they reconnect)
 * and the table of pending captcha challenges keyed by session id. The
 * captcha picture, its random code and the database copy of the AFK table
 * are outside the model; the code is a parameter and `now` is passed in.
 */
module BotAuth {
  import opened GameState

  /** Reconnects within five minutes of an AFK timeout need a captcha. */
  const AUTH_WINDOW: int := 5 * 60 * 1000
  /** `createChallenge` purges challenges older than ten minutes. */
  const CHALLENGE_TIMEOUT: int := 10 * 60 * 1000
  /** A challenge must be answered within three minutes. */
  const ANSWER_TIMEOUT: int := 3 * 60 * 1000
  /** In-memory AFK records live for one hour. */
  const RECORD_TTL: int := 60 * 60 * 1000

  /** The IP strings the source treats as "no address": falsy and 'unknown'. */
  predicate NoAddress(ip: string)
  {
    ip == "" || ip == "unknown"
  }

  /** The outcome of `verifyChallenge`: `{success}` or `{success: false, reason}`. */
  datatype Verdict = Passed | NoChallenge | TimedOut | Incorrect

  /**
   * `needsBotAuth`: an addressable IP whose AFK record is set (and not the
   * falsy 0) and less than five minutes old.
   */
  function NeedsBotAuth(afk: map<string, nat>, ip: string, now: int): (r: bool)
    ensures r ==> !NoAddress(ip) && ip in afk
    ensures r <==> !NoAddress(ip) && ip in afk && afk[ip] != 0 && now - afk[ip] < AUTH_WINDOW
  {
    if NoAddress(ip) then false
    else if ip !in afk || afk[ip] == 0 then false
    else now - afk[ip] < AUTH_WINDOW
  }

  /** The challenge table with every entry older than `ttl` at `now` dropped. */
  function FreshChallenges(m: map<string, Challenge>, now: int, ttl: int): (r: map<string, Challenge>)
    ensures forall k :: k in r <==> k in m && now - m[k].timestamp <= ttl
    ensures forall k :: k in r ==> r[k] == m[k]
  {
    map k | k in m && now - m[k].timestamp <= ttl :: m[k]
  }

  /** The AFK table with every record older than `ttl` at `now` dropped. */
  function FreshRecords(m: map<string, nat>, now: int, ttl: int): (r: map<string, nat>)
    ensures forall k :: k in r <==> k in m && now - m[k] <= ttl
    ensures forall k :: k in r ==> r[k] == m[k]
  {
    map k | k in m && now - m[k] <= ttl :: m[k]
  }

  /** The table `createChallenge(sid)` leaves: the new challenge set, then the purge. */
  function AfterCreate(m: map<string, Challenge>, sid: string, code: string, now: nat): map<string, Challenge>
  {
    FreshChallenges(m[sid := Challenge(code, now)], now, CHALLENGE_TIMEOUT)
  }

  /** The verdict and the table `verifyChallenge(sid, input)` leaves. */
  function Verify(m: map<string, Challenge>, sid: string, input: string, now: int): (r: (Verdict, map<string, Challenge>))
    ensures r.0 == NoChallenge <==> sid !in m
    ensures r.0 == NoChallenge ==> r.1 == m
    ensures r.0 == TimedOut <==> sid in m && now - m[sid].timestamp > ANSWER_TIMEOUT
    ensures r.0 == Passed <==>
      sid in m && now - m[sid].timestamp <= ANSWER_TIMEOUT && input == m[sid].code
    ensures r.0 == Incorrect ==> r.1 == m
    ensures r.0 == TimedOut || r.0 == Passed ==> r.1 == m - {sid}
  {
    if sid !in m then (NoChallenge, m)
    else if now - m[sid].timestamp > ANSWER_TIMEOUT then (TimedOut, m - {sid})
    else if input == m[sid].code then (Passed, m - {sid})
    else (Incorrect, m)
  }

  /** The AFK table `recordAfkTimeout(ip)` leaves (the in-memory part). */
  function AfterRecord(m: map<string, nat>, ip: string, now: nat): map<string, nat>
  {
    if NoAddress(ip) then m else FreshRecords(m[ip := now], now, RECORD_TTL)
  }

  /** The AFK table `clearAfkTimeout(ip)` leaves. */
  function AfterClear(m: map<string, nat>, ip: string): (r: map<string, nat>)
    ensures ip !in r || NoAddress(ip)
    ensures forall k :: k != ip ==> (k in r <==> k in m)
  {
    if NoAddress(ip) then m else m - {ip}
  }

  /** The purge loop over `state.botChallenges.entries()`. */
  method PurgeChallenges(w: World, now: int, ttl: int)
    modifies w`botChallenges
    ensures w.botChallenges == FreshChallenges(old(w.botChallenges), now, ttl)
  {
    ghost var m0 := w.botChallenges;
    var todo := w.botChallenges.Keys;
    while todo != {}
      invariant todo <= m0.Keys
      invariant forall k :: k in w.botChallenges <==>
        k in m0 && (k in todo || now - m0[k].timestamp <= ttl)
      invariant forall k :: k in w.botChallenges ==> w.botChallenges[k] == m0[k]
      decreases todo
    {
      var sid :| sid in todo;
      if now - w.botChallenges[sid].timestamp > ttl {
        w.botChallenges := w.botChallenges - {sid};
      }
      todo := todo - {sid};
    }
  }

  /** The purge loop over `state.afkTimeoutIPs.entries()`. */
  method PurgeRecords(w: World, now: int, ttl: int)
    modifies w`afkTimeoutIPs
    ensures w.afkTimeoutIPs == FreshRecords(old(w.afkTimeoutIPs), now, ttl)
  {
    ghost var m0 := w.afkTimeoutIPs;
    var todo := w.afkTimeoutIPs.Keys;
    while todo != {}
      invariant todo <= m0.Keys
      invariant forall k :: k in w.afkTimeoutIPs <==>
        k in m0 && (k in todo || now - m0[k] <= ttl)
      invariant forall k :: k in w.afkTimeoutIPs ==> w.afkTimeoutIPs[k] == m0[k]
      decreases todo
    {
      var ip :| ip in todo;
      if now - w.afkTimeoutIPs[ip] > ttl {
        w.afkTimeoutIPs := w.afkTimeoutIPs - {ip};
      }
      todo := todo - {ip};
    }
  }

  /** `createChallenge(sessionId)` with the captcha's code given. */
  method CreateChallenge(w: World, sid: string, code: string, now: nat)
    modifies w`botChallenges
    ensures w.botChallenges == AfterCreate(old(w.botChallenges), sid, code, now)
  {
    w.botChallenges := w.botChallenges[sid := Challenge(code, now)];
    PurgeChallenges(w, now, CHALLENGE_TIMEOUT);
  }

  /** `verifyChallenge(sessionId, userInput)`. */
  method VerifyChallenge(w: World, sid: string, input: string, now: int) returns (v: Verdict)
    modifies w`botChallenges
    ensures (v, w.botChallenges) == Verify(old(w.botChallenges), sid, input, now)
  {
    if sid !in w.botChallenges {
      return NoChallenge;
    }
    var challenge := w.botChallenges[sid];
    if now - challenge.timestamp > ANSWER_TIMEOUT {
      w.botChallenges := w.botChallenges - {sid};
      return TimedOut;
    }
    if input == challenge.code {
      w.botChallenges := w.botChallenges - {sid};
      return Passed;
    }
    return Incorrect;
  }

  /** `recordAfkTimeout(ip)`, in-memory part. */
  method RecordAfkTimeout(w: World, ip: string, now: nat)
    modifies w`afkTimeoutIPs
    ensures w.afkTimeoutIPs == AfterRecord(old(w.afkTimeoutIPs), ip, now)
  {
    if NoAddress(ip) {
      return;
    }
    w.afkTimeoutIPs := w.afkTimeoutIPs[ip := now];
    PurgeRecords(w, now, RECORD_TTL);
  }

  /** `clearAfkTimeout(ip)`, in-memory part. */
  method ClearAfkTimeout(w: World, ip: string)
    modifies w`afkTimeoutIPs
    ensures w.afkTimeoutIPs == AfterClear(old(w.afkTimeoutIPs), ip)
  {
    if NoAddress(ip) {
      return;
    }
    w.afkTimeoutIPs := w.afkTimeoutIPs - {ip};
  }

  /**
   * A freshly created challenge is kept by the purge, and answering it with
   * its code within three minutes passes and removes it.
   */
  lemma CreateThenAnswer(m: map<string, Challenge>, sid: string, code: string, t: nat, now: int)
    requires t <= now <= t + ANSWER_TIMEOUT
    ensures sid in AfterCreate(m, sid, code, t)
    ensures Verify(AfterCreate(m, sid, code, t), sid, code, now).0 == Passed
    ensures sid !in Verify(AfterCreate(m, sid, code, t), sid, code, now).1
  {
  }

  /** A wrong answer keeps the challenge, so the right one still passes later. */
  lemma WrongAnswerKeepsChallenge(m: map<string, Challenge>, sid: string, wrong: string, now: int, later: int)
    requires sid in m && wrong != m[sid].code
    requires now <= later && later - m[sid].timestamp <= ANSWER_TIMEOUT
    ensures Verify(m, sid, wrong, now).0 == Incorrect
    ensures Verify(Verify(m, sid, wrong, now).1, sid, m[sid].code, later).0 == Passed
  {
  }

  /**
   * An addressable IP recorded at a nonzero time needs the captcha for the
   * next five minutes, and never after a clear.
   */
  lemma RecordThenNeedsAuth(m: map<string, nat>, ip: string, t: nat, now: int)
    requires !NoAddress(ip) && t > 0 && t <= now < t + AUTH_WINDOW
    ensures NeedsBotAuth(AfterRecord(m, ip, t), ip, now)
    ensures !NeedsBotAuth(AfterClear(AfterRecord(m, ip, t), ip), ip, now)
  {
  }
}
