/**
 * The per-connection message handling of the v5 server
 * (modules/network.js): opening a connection, the one- and two-byte
 * steering frames, the JSON messages (captcha answer, join, team change,
 * performance mode, viewport, chat, steering array) and closing.
 * Closing the socket and sending replies are left to the caller: each
 * handler reports the close code or the reply it would send.
 */
module Connection {
  import opened Common
  import opened GameState
  import opened ShortIds
  import opened Rects
  import opened BotAuth
  import opened Lifecycle
  import opened Visibility
  import Utf8

  const MAX_NAME: nat := 8
  const MAX_TEAM: nat := 5
  const MAX_CHAT: nat := 15
  const MAX_VIEWPORT_W: int := 540
  const MAX_VIEWPORT_H: int := 1020
  const MIN_VIEWPORT: int := 100
  /** The angle byte that keeps the current heading. */
  const KEEP_HEADING: byte := 255

  const CLOSE_NAME: nat := 4001
  const CLOSE_TEAM: nat := 4002
  const CLOSE_CHARS: nat := 4003
  const CLOSE_INVALID: nat := 4010

  // ---------------------------------------------------------------------
  // Text helpers

  function DigitChar(d: nat): (c: char)
    requires d < 10
    ensures '0' <= c <= '9'
  {
    ['0', '1', '2', '3', '4', '5', '6', '7', '8', '9'][d]
  }

  /** The decimal text of `n`, as `${n}` writes it. */
  function Decimal(n: nat): (s: string)
    ensures |s| >= 1 && forall i :: 0 <= i < |s| ==> '0' <= s[i] <= '9'
  {
    if n < 10 then [DigitChar(n)] else Decimal(n / 10) + [DigitChar(n % 10)]
  }

  /** The characters `/[\x00-\x1f\x7f]/` matches. */
  predicate IsControl(c: char)
  {
    c as int < 0x20 || c as int == 0x7f
  }

  predicate HasControl(s: string)
  {
    exists i :: 0 <= i < |s| && IsControl(s[i])
  }

  predicate IsBracket(c: char)
  {
    c == '[' || c == ']'
  }

  /** `s.replace(/[\[\]]/g, '')`: every other character kept, in order. */
  function Unbracketed(s: string): (r: string)
    ensures |r| <= |s|
    ensures forall i :: 0 <= i < |r| ==> !IsBracket(r[i])
    ensures forall c :: !IsBracket(c) ==> multiset(r)[c] == multiset(s)[c]
  {
    if s == [] then []
    else if IsBracket(s[0]) then
      assert s == [s[0]] + s[1..];
      Unbracketed(s[1..])
    else
      assert s == [s[0]] + s[1..];
      [s[0]] + Unbracketed(s[1..])
  }

  /** The string without its leading white space. */
  function TrimStart(s: string): (r: string)
    ensures |r| <= |s| && r == s[|s| - |r|..]
    ensures forall i :: 0 <= i < |s| - |r| ==> IsSpace(s[i])
    ensures r == [] || !IsSpace(r[0])
  {
    if |s| > 0 && IsSpace(s[0]) then TrimStart(s[1..]) else s
  }

  /** The string without its trailing white space. */
  function TrimEnd(s: string): (r: string)
    ensures |r| <= |s| && r == s[..|r|]
    ensures forall i :: |r| <= i < |s| ==> IsSpace(s[i])
    ensures r == [] || !IsSpace(r[|r| - 1])
  {
    if |s| > 0 && IsSpace(s[|s| - 1]) then TrimEnd(s[..|s| - 1]) else s
  }

  /** `r` is the piece of `s` at `i` with only white space before and after it. */
  predicate SpaceAround(s: string, r: string, i: int)
  {
    0 <= i <= |s| - |r| && r == s[i..i + |r|] &&
    (forall k :: 0 <= k < i ==> IsSpace(s[k])) &&
    (forall k :: i + |r| <= k < |s| ==> IsSpace(s[k]))
  }

  /** `s.trim()`: a piece of `s` with only white space around it and none at its ends. */
  function Trim(s: string): (r: string)
    ensures exists i :: SpaceAround(s, r, i)
    ensures r == [] || (!IsSpace(r[0]) && !IsSpace(r[|r| - 1]))
  {
    TrimPieces(s, TrimStart(s), TrimEnd(TrimStart(s)));
    TrimEnd(TrimStart(s))
  }

  lemma TrimPieces(s: string, t: string, r: string)
    requires |t| <= |s| && t == s[|s| - |t|..] && forall i :: 0 <= i < |s| - |t| ==> IsSpace(s[i])
    requires |r| <= |t| && r == t[..|r|] && forall i :: |r| <= i < |t| ==> IsSpace(t[i])
    requires t == [] || !IsSpace(t[0])
    requires r == [] || !IsSpace(r[|r| - 1])
    ensures exists i :: SpaceAround(s, r, i)
    ensures r == [] || (!IsSpace(r[0]) && !IsSpace(r[|r| - 1]))
  {
    var i := |s| - |t|;
    forall k | i + |r| <= k < |s|
      ensures IsSpace(s[k])
    {
      assert s[k] == t[k - i];
    }
    assert SpaceAround(s, r, i);
    if r != [] {
      assert r[0] == t[0];
    }
  }

  /** The first `n` characters of `s` (all of them when it is shorter). */
  function Take(s: string, n: nat): (r: string)
    ensures |r| == Min(n, |s|) && r == s[..|r|]
  {
    if |s| <= n then s else s[..n]
  }

  // ---------------------------------------------------------------------
  // Connect and close

  /** The player object a new connection starts with: waiting, named "P" and its id. */
  function Newcomer(id: PlayerId, color: string, ip: string, pendingAuth: bool): (p: Player)
    ensures p.state == Waiting && p.name == "P" + Decimal(id) && p.color == color && p.ip == ip
    ensures p.pendingAuth == pendingAuth && !p.isCpu && !p.hasBeenActive && !p.hasMovedSinceSpawn
    ensures p.score == 0 && p.kills == 0 && p.afkDeaths == 0 && p.gridTrail == [] && p.trail == []
  {
    Player("P" + Decimal(id), "", "", color, ip, Waiting, 0, 0, 0, 0, [], [], 0, 0, 0, 0, 0,
           false, false, false, false, pendingAuth)
  }

  /** The connection fields of a new connection: its colour remembered, nothing else set. */
  function Opened(color: string): Session
  {
    Session(color, None, 0, 0, 0, 0, false, None)
  }

  /** Every id in the pool belongs to a player or to an open connection. */
  ghost predicate Accounted(used: set<nat>, players: map<PlayerId, Player>, open: set<PlayerId>)
  {
    forall q :: q in used ==> q in players || q in open
  }

  /** Every player's id is in the pool. */
  ghost predicate Pooled(players: map<PlayerId, Player>, used: set<nat>)
  {
    forall q :: q in players ==> q in used
  }

  /**
   * The `connection` handler: a unique short id, a waiting player named
   * after it that must answer a captcha when its IP timed out recently,
   * the current version recorded as its last full sync, and its
   * connection fields. With the pool exhausted (id 0) nothing is stored.
   */
  method Connect(w: World, ip: string, color: string, now: nat) returns (id: nat)
    requires w.Valid()
    modifies w`nextShortId, w`usedShortIds, w`players, w`lastFullSyncVersion, w`sessions
    ensures w.Valid()
    ensures id == 0 ==>
      w.usedShortIds == old(w.usedShortIds) && w.players == old(w.players) &&
      w.lastFullSyncVersion == old(w.lastFullSyncVersion) && w.sessions == old(w.sessions) &&
      forall i :: 1 <= i <= MAX_SHORT_ID ==> i in old(w.usedShortIds)
    ensures id != 0 ==>
      1 <= id <= MAX_SHORT_ID && id !in old(w.usedShortIds) && w.usedShortIds == old(w.usedShortIds) + {id} &&
      w.players == old(w.players)[id := Newcomer(id, color, ip, NeedsBotAuth(w.afkTimeoutIPs, ip, now))] &&
      w.lastFullSyncVersion == old(w.lastFullSyncVersion)[id := w.version] &&
      w.sessions == old(w.sessions)[id := Opened(color)]
    ensures Pooled(old(w.players), old(w.usedShortIds)) ==>
      Pooled(w.players, w.usedShortIds) && (id != 0 ==> id !in old(w.players))
  {
    id := GenerateShortId(w);
    if id == 0 {
      return;
    }
    var pendingAuth := NeedsBotAuth(w.afkTimeoutIPs, ip, now);
    w.lastFullSyncVersion := w.lastFullSyncVersion[id := w.version];
    w.players := w.players[id := Newcomer(id, color, ip, pendingAuth)];
    w.sessions := w.sessions[id := Opened(color)];
  }

  /** The pool after `close` as written: the id is freed only while its player still exists. */
  function PoolAfterCloseAsWritten(used: set<nat>, players: map<PlayerId, Player>, id: PlayerId): set<nat>
  {
    if id in players then used - {id} else used
  }

  /** The pool after a `close` that always frees the connection's id. */
  function PoolAfterClose(used: set<nat>, id: PlayerId): (r: set<nat>)
    ensures id !in r && forall q :: q != id ==> (q in r <==> q in used)
  {
    used - {id}
  }

  /** The `close` handler as written: the id goes back to the pool only when the player is still there. */
  method CloseAsWritten(w: World, id: PlayerId)
    modifies w`players, w`lastFullSyncVersion, w`usedShortIds, w`sessions
    ensures w.usedShortIds == PoolAfterCloseAsWritten(old(w.usedShortIds), old(w.players), id)
    ensures w.players == old(w.players) - {id}
    ensures w.lastFullSyncVersion == old(w.lastFullSyncVersion) - {id}
    ensures w.sessions == old(w.sessions) - {id}
  {
    if id in w.players {
      w.usedShortIds := w.usedShortIds - {id};
    }
    w.players := w.players - {id};
    w.lastFullSyncVersion := w.lastFullSyncVersion - {id};
    w.sessions := w.sessions - {id};
  }

  /** The `close` handler with the id always returned to the pool. */
  method Close(w: World, id: PlayerId)
    modifies w`players, w`lastFullSyncVersion, w`usedShortIds, w`sessions
    ensures w.usedShortIds == PoolAfterClose(old(w.usedShortIds), id)
    ensures w.players == old(w.players) - {id}
    ensures w.lastFullSyncVersion == old(w.lastFullSyncVersion) - {id}
    ensures w.sessions == old(w.sessions) - {id}
  {
    w.usedShortIds := w.usedShortIds - {id};
    w.players := w.players - {id};
    w.lastFullSyncVersion := w.lastFullSyncVersion - {id};
    w.sessions := w.sessions - {id};
  }

  /**
   * With `close` as written, an id whose player was removed before the
   * socket closed (an AFK kick, a refused respawn) stays in the pool with
   * neither a player nor a connection: id 7 below is lost for good.
   */
  lemma KickedIdLeaks()
    ensures var used: set<nat> := {7};
      var open: set<PlayerId> := {7};
      var kicked: map<PlayerId, Player> := map[];
      Accounted(used, kicked, open) &&
      !Accounted(PoolAfterCloseAsWritten(used, kicked, 7), kicked - {7}, open - {7})
  {
    var used: set<nat> := {7};
    assert 7 in PoolAfterCloseAsWritten(used, map[], 7);
  }

  /** An AFK kick removes the player, so the later `close` as written keeps its id in the pool. */
  lemma AfkKickLeaksId(players: map<PlayerId, Player>, used: set<nat>, id: PlayerId, d: Player)
    requires KickedForAfk(d) && id in used
    ensures id in PoolAfterCloseAsWritten(used, AfterAfkCheck(players, id, d), id)
  {
    assert id !in AfterAfkCheck(players, id, d);
  }

  /**
   * With the corrected `close`, every id in the pool keeps belonging to a
   * player or an open connection through connects, removals of players
   * and closes; `Connect` keeps it as well (the new id gets both).
   */
  lemma CloseKeepsPoolAccounted(used: set<nat>, players: map<PlayerId, Player>, open: set<PlayerId>, id: PlayerId)
    requires Accounted(used, players, open)
    ensures Accounted(PoolAfterClose(used, id), players - {id}, open - {id})
    ensures Accounted(used, players - {id}, open + {id})
  {
  }

  /** Connecting and closing again leaves the pool as it was. */
  lemma ConnectCloseRestoresPool(used: set<nat>, id: PlayerId)
    requires id !in used
    ensures PoolAfterClose(used + {id}, id) == used
  {
  }

  // ---------------------------------------------------------------------
  // Steering

  /**
   * The effect of a steering input on a player (both the binary frame and
   * the `[dx, dy]` array): it counts as movement, ends auto-run and the
   * AFK count, and a new heading ends spawn protection.
   */
  function Moved(p: Player, turning: bool): (q: Player)
    ensures q.hasMovedSinceSpawn && !q.autoRun && q.afkDeaths == 0
    ensures q.invulnerableUntil == if turning then 0 else p.invulnerableUntil
    ensures q.(hasMovedSinceSpawn := p.hasMovedSinceSpawn, autoRun := p.autoRun, afkDeaths := p.afkDeaths,
               invulnerableUntil := p.invulnerableUntil) == p
  {
    var q := p.(hasMovedSinceSpawn := true, autoRun := false, afkDeaths := 0);
    if turning then q.(invulnerableUntil := 0) else q
  }

  /** The boost cooldown is over (`!p.boostCooldownUntil || now >= p.boostCooldownUntil`). */
  predicate BoostReady(p: Player, now: nat)
  {
    p.boostCooldownUntil == 0 || now >= p.boostCooldownUntil
  }

  /** A binary frame that starts a boost: an active player, second byte 1, cooldown over. */
  predicate BoostStarts(p: Player, msg: seq<byte>, now: nat)
  {
    p.state == Active && |msg| == 2 && msg[1] == 1 && BoostReady(p, now)
  }

  /**
   * A one- or two-byte steering frame: ignored unless the player is
   * active; an angle byte other than 255 is a new heading; a second byte
   * of 1 starts a two-second boost and a five-second cooldown when the
   * previous cooldown is over.
   */
  function Steered(p: Player, msg: seq<byte>, now: nat): (q: Player)
    requires |msg| == 1 || |msg| == 2
    ensures p.state != Active ==> q == p
    ensures p.state == Active ==> q.hasMovedSinceSpawn && !q.autoRun && q.afkDeaths == 0
    ensures q.invulnerableUntil == if p.state == Active && msg[0] != KEEP_HEADING then 0 else p.invulnerableUntil
    ensures BoostStarts(p, msg, now) ==> q.boostUntil == now + BOOST_DURATION && q.boostCooldownUntil == now + BOOST_COOLDOWN
    ensures !BoostStarts(p, msg, now) ==> q.boostUntil == p.boostUntil && q.boostCooldownUntil == p.boostCooldownUntil
    ensures q.state == p.state && q.score == p.score && q.x == p.x && q.y == p.y && q.gridTrail == p.gridTrail
  {
    if p.state != Active then p
    else
      var q := Moved(p, msg[0] != KEEP_HEADING);
      if BoostStarts(p, msg, now) then q.(boostUntil := now + BOOST_DURATION, boostCooldownUntil := now + BOOST_COOLDOWN)
      else q
  }

  /**
   * Two boosts start at least five seconds apart, so a boost has ended
   * three seconds before the next may begin.
   */
  lemma BoostsSpaced(p: Player, m1: seq<byte>, t1: nat, m2: seq<byte>, t2: nat)
    requires |m1| == 2 && BoostStarts(p, m1, t1)
    requires BoostStarts(Steered(p, m1, t1), m2, t2)
    ensures t2 >= t1 + BOOST_COOLDOWN
    ensures t2 >= Steered(p, m1, t1).boostUntil + (BOOST_COOLDOWN - BOOST_DURATION)
  {
  }

  /** The binary-frame branch of the message handler, for a connected player. */
  method SteerFrame(w: World, id: PlayerId, msg: seq<byte>, now: nat)
    requires |msg| == 1 || |msg| == 2
    modifies w`players
    ensures id in old(w.players) ==> w.players == old(w.players)[id := Steered(old(w.players)[id], msg, now)]
    ensures id !in old(w.players) ==> w.players == old(w.players)
  {
    if id !in w.players {
      return;
    }
    var p := w.players[id];
    if p.state != Active {
      return;
    }
    var q := Moved(p, msg[0] != KEEP_HEADING);
    if |msg| == 2 && msg[1] == 1 {
      if p.boostCooldownUntil == 0 || now >= p.boostCooldownUntil {
        q := q.(boostUntil := now + BOOST_DURATION, boostCooldownUntil := now + BOOST_COOLDOWN);
      }
    }
    w.players := w.players[id := q];
  }

  /** The `[dx, dy]` array branch: for an active player, movement and, for a non-zero vector, a new heading. */
  method SteerArray(w: World, id: PlayerId, dx: int, dy: int)
    modifies w`players
    ensures id in old(w.players) && old(w.players)[id].state == Active ==>
      w.players == old(w.players)[id := Moved(old(w.players)[id], dx != 0 || dy != 0)]
    ensures !(id in old(w.players) && old(w.players)[id].state == Active) ==> w.players == old(w.players)
  {
    if id in w.players && w.players[id].state == Active {
      w.players := w.players[id := Moved(w.players[id], dx != 0 || dy != 0)];
    }
  }

  // ---------------------------------------------------------------------
  // JSON messages

  /** A parsed JSON message; absent strings arrive as "" and absent numbers as 0. */
  datatype Message =
    | AuthAnswer(code: string)
    | Join(name: string, team: string)
    | UpdateTeam(team: string)
    | Perf(mode: string)
    | Viewport(w: int, h: int)
    | Chat(text: string)
    | Steer(dx: int, dy: int)
    | Other

  datatype Handler = ToAuth | ToJoin | ToTeam | ToPerf | ToViewport | ToChat | ToSteer | Ignore

  /**
   * `handleJsonMessage`'s dispatch: a captcha answer always reaches its
   * handler; while a captcha is pending only a join gets through; the
   * steering array only for an active player.
   */
  function Route(pendingAuth: bool, active: bool, m: Message): (h: Handler)
    ensures m.AuthAnswer? <==> h == ToAuth
    ensures pendingAuth ==> h == ToAuth || h == ToJoin || h == Ignore
    ensures pendingAuth && !m.AuthAnswer? && !m.Join? ==> h == Ignore
    ensures !pendingAuth ==>
      (m.Join? <==> h == ToJoin) && (m.UpdateTeam? <==> h == ToTeam) &&
      (m.Perf? <==> h == ToPerf) && (m.Viewport? <==> h == ToViewport) && (m.Chat? <==> h == ToChat)
    ensures h == ToSteer <==> !pendingAuth && active && m.Steer?
  {
    match m
    case AuthAnswer(_) => ToAuth
    case _ =>
      if pendingAuth && !m.Join? then Ignore
      else match m
        case Join(_, _) => ToJoin
        case UpdateTeam(_) => ToTeam
        case Perf(_) => ToPerf
        case Viewport(_, _) => ToViewport
        case Chat(_) => ToChat
        case Steer(_, _) => if active then ToSteer else Ignore
        case _ => Ignore
  }

  /** The session key a connection's captcha is stored under. */
  function ChallengeKey(id: PlayerId): string
  {
    Decimal(id)
  }

  datatype AuthReply = NotPending | AuthSucceeded(replay: Option<JoinRequest>) | AuthFailed(reason: Verdict)

  /**
   * `bot_auth_response`: ignored unless a captcha is pending. The trimmed
   * answer is checked; success clears the pending flag and the IP's AFK
   * record and hands back the saved join (cleared) for the caller to
   * replay; failure issues a new captcha with code `newCode`.
   */
  method AnswerChallenge(w: World, id: PlayerId, code: string, now: nat, newCode: string) returns (reply: AuthReply)
    requires id in w.players
    modifies w`players, w`botChallenges, w`afkTimeoutIPs, w`sessions
    ensures var p := old(w.players)[id];
      !p.pendingAuth ==>
        reply == NotPending && w.players == old(w.players) &&
        w.botChallenges == old(w.botChallenges) && w.afkTimeoutIPs == old(w.afkTimeoutIPs) && w.sessions == old(w.sessions)
    ensures var p := old(w.players)[id];
      var (v, left) := Verify(old(w.botChallenges), ChallengeKey(id), Trim(code), now);
      p.pendingAuth && v == Passed ==>
        w.players == old(w.players)[id := p.(pendingAuth := false)] && w.botChallenges == left &&
        w.afkTimeoutIPs == AfterClear(old(w.afkTimeoutIPs), p.ip) &&
        reply == AuthSucceeded(SessionOf(old(w.sessions), id).pendingJoin) &&
        w.sessions == (if reply.replay.Some? then old(w.sessions)[id := SessionOf(old(w.sessions), id).(pendingJoin := None)]
                       else old(w.sessions))
    ensures var p := old(w.players)[id];
      var (v, left) := Verify(old(w.botChallenges), ChallengeKey(id), Trim(code), now);
      p.pendingAuth && v != Passed ==>
        reply == AuthFailed(v) && w.players == old(w.players) && w.sessions == old(w.sessions) &&
        w.botChallenges == AfterCreate(left, ChallengeKey(id), newCode, now) && w.afkTimeoutIPs == old(w.afkTimeoutIPs)
  {
    var p := w.players[id];
    if !p.pendingAuth {
      return NotPending;
    }
    var v := VerifyChallenge(w, ChallengeKey(id), Trim(code), now);
    if v == Passed {
      w.players := w.players[id := p.(pendingAuth := false)];
      ClearAfkTimeout(w, p.ip);
      var s := SessionOf(w.sessions, id);
      reply := AuthSucceeded(s.pendingJoin);
      if s.pendingJoin.Some? {
        w.sessions := w.sessions[id := s.(pendingJoin := None)];
      }
    } else {
      CreateChallenge(w, ChallengeKey(id), newCode, now);
      reply := AuthFailed(v);
    }
  }

  /** The join name after validation: brackets removed, then trimmed. */
  function NameChars(raw: string): string
  {
    Trim(Unbracketed(raw))
  }

  datatype JoinCheck = Refuse(code: nat) | Accept(name: string, team: string)

  /**
   * The join validation: a name of more than 8 code points closes with
   * 4001, then a team of more than 5 with 4002, then a control character
   * in either raw field with 4003. An accepted name and team carry no
   * bracket and no control character, fit their limits, and the name has
   * no white space at either end.
   */
  function CheckJoin(rawName: string, rawTeam: string): (r: JoinCheck)
    ensures r == Refuse(CLOSE_NAME) <==> |NameChars(rawName)| > MAX_NAME
    ensures r == Refuse(CLOSE_TEAM) <==> |NameChars(rawName)| <= MAX_NAME && |Unbracketed(rawTeam)| > MAX_TEAM
    ensures r == Refuse(CLOSE_CHARS) <==>
      |NameChars(rawName)| <= MAX_NAME && |Unbracketed(rawTeam)| <= MAX_TEAM && (HasControl(rawName) || HasControl(rawTeam))
    ensures r.Refuse? ==> r.code in {CLOSE_NAME, CLOSE_TEAM, CLOSE_CHARS}
    ensures r.Accept? ==>
      |r.name| <= MAX_NAME && |r.team| <= MAX_TEAM && !HasControl(r.name) && !HasControl(r.team) &&
      (forall i :: 0 <= i < |r.name| ==> !IsBracket(r.name[i])) &&
      (forall i :: 0 <= i < |r.team| ==> !IsBracket(r.team[i])) &&
      (r.name == [] || (!IsSpace(r.name[0]) && !IsSpace(r.name[|r.name| - 1])))
  {
    var name := NameChars(rawName);
    var team := Unbracketed(rawTeam);
    if |name| > MAX_NAME then Refuse(CLOSE_NAME)
    else if |team| > MAX_TEAM then Refuse(CLOSE_TEAM)
    else if HasControl(rawName) || HasControl(rawTeam) then Refuse(CLOSE_CHARS)
    else
      CleanKept(rawName, Unbracketed(rawName), name);
      assert SpaceAround(team, team, 0);
      CleanKept(rawTeam, team, team);
      Accept(name, Take(team, MAX_TEAM))
  }

  /** A piece of a control-free, bracket-stripped string is control-free and bracket-free. */
  lemma CleanKept(raw: string, stripped: string, piece: string)
    requires !HasControl(raw)
    requires forall c :: !IsBracket(c) ==> multiset(stripped)[c] == multiset(raw)[c]
    requires forall i :: 0 <= i < |stripped| ==> !IsBracket(stripped[i])
    requires exists i :: SpaceAround(stripped, piece, i)
    ensures !HasControl(piece)
    ensures forall i :: 0 <= i < |piece| ==> !IsBracket(piece[i])
  {
    var at :| SpaceAround(stripped, piece, at);
    forall k | 0 <= k < |piece|
      ensures !IsControl(piece[k]) && !IsBracket(piece[k])
    {
      var c := piece[k];
      assert c == stripped[at + k];
      assert c in multiset(stripped);
      assert c in multiset(raw);
      var j :| 0 <= j < |raw| && raw[j] == c;
    }
  }

  /** `TEAM_COLORS`: the four teams with a fixed colour. */
  function FixedColour(team: string): (c: Option<string>)
    ensures c.Some? <==> team in {"RED", "BLUE", "GREEN", "YELLOW"}
  {
    if team == "RED" then Some("#ef4444")
    else if team == "BLUE" then Some("#3b82f6")
    else if team == "GREEN" then Some("#22c55e")
    else if team == "YELLOW" then Some("#eab308")
    else None
  }

  /** `q` is another player of team `team`. */
  predicate Mate(players: map<PlayerId, Player>, id: PlayerId, team: string, q: PlayerId)
  {
    q in players && q != id && players[q].team == team
  }

  /** No entry of `ids` before index `k` is a mate. */
  predicate NoMateBefore(players: map<PlayerId, Player>, ids: seq<PlayerId>, id: PlayerId, team: string, k: nat)
    requires k <= |ids|
  {
    forall j :: 0 <= j < k ==> !Mate(players, id, team, ids[j])
  }

  /** The first mate in the order of `ids`, as `Object.values(players).find` scans. */
  function Teammate(players: map<PlayerId, Player>, ids: seq<PlayerId>, id: PlayerId, team: string): (r: Option<PlayerId>)
    ensures r.Some? ==> r.value in ids && Mate(players, id, team, r.value)
    ensures r.Some? ==> exists k :: 0 <= k < |ids| && ids[k] == r.value && NoMateBefore(players, ids, id, team, k)
    ensures r.None? ==> forall k :: 0 <= k < |ids| ==> !Mate(players, id, team, ids[k])
  {
    if ids == [] then None
    else if Mate(players, id, team, ids[0]) then
      assert NoMateBefore(players, ids, id, team, 0);
      Some(ids[0])
    else
      var r := Teammate(players, ids[1..], id, team);
      assert r.Some? ==> exists k :: 0 <= k < |ids| && ids[k] == r.value && NoMateBefore(players, ids, id, team, k) by {
        if r.Some? {
          var k :| 0 <= k < |ids[1..]| && ids[1..][k] == r.value && NoMateBefore(players, ids[1..], id, team, k);
          assert ids[k + 1] == r.value;
          assert forall j :: 1 <= j < k + 1 ==> ids[j] == ids[1..][j - 1];
          assert NoMateBefore(players, ids, id, team, k + 1);
        }
      }
      assert r.None? ==> forall k :: 0 <= k < |ids| ==> !Mate(players, id, team, ids[k]) by {
        if r.None? {
          assert forall k :: 1 <= k < |ids| ==> ids[k] == ids[1..][k - 1];
        }
      }
      r
  }

  lemma LeastExists(s: set<PlayerId>)
    requires s != {}
    ensures exists least :: least in s && forall k :: k in s ==> least <= k
  {
    var least := LeastId(s);
  }

  /** The lowest-numbered other player of team `team`: the first one `Object.values` lists. */
  ghost function FirstTeammate(players: map<PlayerId, Player>, id: PlayerId, team: string): (r: Option<PlayerId>)
    ensures r.Some? ==> Mate(players, id, team, r.value) && forall q :: Mate(players, id, team, q) ==> r.value <= q
    ensures r.None? ==> forall q :: !Mate(players, id, team, q)
  {
    var mates := set q | q in players && Mate(players, id, team, q);
    assert forall q :: Mate(players, id, team, q) ==> q in mates;
    if mates == {} then None
    else
      LeastExists(mates);
      var least :| least in mates && forall k :: k in mates ==> least <= k;
      Some(least)
  }

  /** Scanning the ids in ascending order finds the lowest-numbered mate. */
  lemma TeammateIsFirst(players: map<PlayerId, Player>, ids: seq<PlayerId>, id: PlayerId, team: string)
    requires forall i, j :: 0 <= i < j < |ids| ==> ids[i] < ids[j]
    requires forall q :: q in players <==> q in ids
    ensures Teammate(players, ids, id, team) == FirstTeammate(players, id, team)
  {
    var r := Teammate(players, ids, id, team);
    var f := FirstTeammate(players, id, team);
    if r.Some? {
      var k :| 0 <= k < |ids| && ids[k] == r.value && NoMateBefore(players, ids, id, team, k);
      forall q | Mate(players, id, team, q)
        ensures r.value <= q
      {
        var m :| 0 <= m < |ids| && ids[m] == q;
        assert k <= m;
        if k < m {
          assert ids[k] < ids[m];
        }
      }
    } else {
      forall q | q in players
        ensures !Mate(players, id, team, q)
      {
        var m :| 0 <= m < |ids| && ids[m] == q;
      }
    }
  }

  /** Another player already has colour `c`. */
  predicate ColourTaken(players: map<PlayerId, Player>, id: PlayerId, c: string)
  {
    exists q :: q in players && q != id && players[q].color == c
  }

  /**
   * The colour a join settles on: the connection's own colour in SOLO
   * mode; in TEAM mode the team's fixed colour, else the colour of the
   * teammate `mate` found, else the current colour unless another player
   * has it, in which case `unique` (what `getUniqueColor` returns).
   */
  function JoinColour(p: Player, s: Session, teamMode: bool, players: map<PlayerId, Player>,
                      id: PlayerId, team: string, mate: Option<PlayerId>, unique: string): (c: string)
    ensures !teamMode ==> c == s.originalColor
    ensures teamMode && FixedColour(team).Some? ==> c == FixedColour(team).value
    ensures teamMode && team != "" && FixedColour(team).None? && mate.Some? && mate.value in players ==>
      c == players[mate.value].color
    ensures teamMode && FixedColour(team).None? && (team == "" || mate.None?) ==>
      (c == p.color && !ColourTaken(players, id, p.color)) || c == unique
  {
    if !teamMode then s.originalColor
    else if team != "" && FixedColour(team).Some? then FixedColour(team).value
    else if team != "" && mate.Some? && mate.value in players then players[mate.value].color
    else if ColourTaken(players, id, p.color) then unique
    else p.color
  }

  /** The Japanese "nameless" prefix of a default name. */
  const NAMELESS: string := "\U{540D}\U{7121}\U{3057}"

  /** The characters a default name's two-character suffix is drawn from. */
  predicate SuffixChar(c: char)
  {
    ('A' <= c <= 'Z') || ('a' <= c <= 'z') || ('0' <= c <= '9')
  }

  /**
   * The player after a validated join of `name` and `team` (empty name:
   * the "nameless" prefix and the random suffix): the requested team is
   * kept; in SOLO mode no team and the plain name; in TEAM mode the team
   * and, with a team, the name "[team] name".
   */
  function JoinedAs(p: Player, s: Session, teamMode: bool, players: map<PlayerId, Player>, id: PlayerId,
                    name: string, team: string, mate: Option<PlayerId>, suffix: string, unique: string): (q: Player)
    ensures q.requestedTeam == team
    ensures q.team == if teamMode then team else ""
    ensures q.name == if teamMode && team != "" then "[" + team + "] " + (if name == "" then NAMELESS + suffix else name)
                      else (if name == "" then NAMELESS + suffix else name)
    ensures q.color == JoinColour(p, s, teamMode, players, id, team, mate, unique)
    ensures q.(name := p.name, team := p.team, requestedTeam := p.requestedTeam, color := p.color) == p
  {
    var shown := if name == "" then NAMELESS + suffix else name;
    var colour := JoinColour(p, s, teamMode, players, id, team, mate, unique);
    if !teamMode then p.(requestedTeam := team, team := "", color := colour, name := shown)
    else if team != "" then p.(requestedTeam := team, team := team, name := "[" + team + "] " + shown, color := colour)
    else p.(requestedTeam := team, team := team, name := shown, color := colour)
  }

  /**
   * A validated join is refused by `respawnPlayer` exactly when the
   * player typed "Unknown" and the name is shown without a team prefix
   * (SOLO mode, or TEAM mode without a team): every other accepted name is
   * neither blank nor "Unknown".
   */
  lemma JoinRefusedOnlyForUnknown(p: Player, s: Session, teamMode: bool, players: map<PlayerId, Player>, id: PlayerId,
                                  rawName: string, rawTeam: string, mate: Option<PlayerId>, suffix: string, unique: string)
    requires CheckJoin(rawName, rawTeam).Accept?
    requires |suffix| == 2 && SuffixChar(suffix[0]) && SuffixChar(suffix[1])
    ensures var a := CheckJoin(rawName, rawTeam);
      InvalidName(JoinedAs(p, s, teamMode, players, id, a.name, a.team, mate, suffix, unique).name) <==>
      a.name == "Unknown" && (!teamMode || a.team == "")
  {
    var a := CheckJoin(rawName, rawTeam);
    ShownNameRefused(p, s, teamMode, players, id, a.name, a.team, mate, suffix, unique);
  }

  /** The same for any name that does not start with a space. */
  lemma ShownNameRefused(p: Player, s: Session, teamMode: bool, players: map<PlayerId, Player>, id: PlayerId,
                         name: string, team: string, mate: Option<PlayerId>, suffix: string, unique: string)
    requires name == [] || !IsSpace(name[0])
    requires |suffix| == 2 && SuffixChar(suffix[0]) && SuffixChar(suffix[1])
    ensures InvalidName(JoinedAs(p, s, teamMode, players, id, name, team, mate, suffix, unique).name) <==>
      name == "Unknown" && (!teamMode || team == "")
  {
    var q := JoinedAs(p, s, teamMode, players, id, name, team, mate, suffix, unique);
    var shown := if name == "" then NAMELESS + suffix else name;
    assert !Blank(shown) by {
      if name == "" {
        assert !IsSpace(shown[0]);
      } else {
        assert !IsSpace(name[0]);
      }
    }
    if teamMode && team != "" {
      assert q.name[0] == '[';
      assert !Blank(q.name) by {
        assert !IsSpace(q.name[0]);
      }
      assert q.name != "Unknown" by {
        assert q.name[0] != "Unknown"[0];
      }
    } else {
      assert q.name == shown;
      if name == "" {
        assert shown[0] != "Unknown"[0];
      }
    }
  }

  datatype JoinReply = JoinRefused(code: nat) | ChallengeSent | Joined | JoinRejected

  /**
   * `join`: while a captcha is pending the join is saved and a new captcha
   * (code `newCode`) issued; otherwise a refused name or team closes the
   * connection untouched, and an accepted one enters the game.
   */
  method JoinGame(w: World, id: PlayerId, rawName: string, rawTeam: string, now: nat, newCode: string,
                  suffix: string, unique: string, sx: int, sy: int) returns (reply: JoinReply)
    requires w.Valid() && id in w.players
    modifies w`grid, w`rects, w`version, w`pending, w`changed, w`players, w`roundParticipants,
             w`lastFullSyncVersion, w`botChallenges, w`sessions
    ensures w.Valid()
    ensures JoinOutcome(old(w.players), old(w.sessions), old(w.teamMode), old(w.RectState()), old(w.roundParticipants),
                        old(w.lastFullSyncVersion), old(w.botChallenges), id, rawName, rawTeam, now, newCode, suffix,
                        unique, sx, sy, reply, w.players, w.sessions, w.RectState(), w.roundParticipants,
                        w.lastFullSyncVersion, w.botChallenges) == true
  {
    if w.players[id].pendingAuth {
      reply := SaveJoin(w, id, rawName, rawTeam, now, newCode, suffix, unique, sx, sy);
    } else {
      reply := CheckedJoin(w, id, rawName, rawTeam, now, newCode, suffix, unique, sx, sy);
    }
  }

  /** `join` while a captcha is pending: the join is kept for later and a new captcha issued. */
  method SaveJoin(w: World, id: PlayerId, rawName: string, rawTeam: string, now: nat, newCode: string,
                  suffix: string, unique: string, sx: int, sy: int) returns (reply: JoinReply)
    requires w.Valid() && id in w.players && w.players[id].pendingAuth
    modifies w`grid, w`rects, w`version, w`pending, w`changed, w`players, w`roundParticipants,
             w`lastFullSyncVersion, w`botChallenges, w`sessions
    ensures w.Valid()
    ensures JoinOutcome(old(w.players), old(w.sessions), old(w.teamMode), old(w.RectState()), old(w.roundParticipants),
                        old(w.lastFullSyncVersion), old(w.botChallenges), id, rawName, rawTeam, now, newCode, suffix,
                        unique, sx, sy, reply, w.players, w.sessions, w.RectState(), w.roundParticipants,
                        w.lastFullSyncVersion, w.botChallenges) == true
  {
    var s := SessionOf(w.sessions, id);
    w.sessions := w.sessions[id := s.(pendingJoin := Some(JoinRequest(rawName, rawTeam)))];
    CreateChallenge(w, ChallengeKey(id), newCode, now);
    return ChallengeSent;
  }

  /** `join` with no captcha pending: the name and team are checked, then the player enters. */
  method CheckedJoin(w: World, id: PlayerId, rawName: string, rawTeam: string, now: nat, newCode: string,
                  suffix: string, unique: string, sx: int, sy: int) returns (reply: JoinReply)
    requires w.Valid() && id in w.players && !w.players[id].pendingAuth
    modifies w`grid, w`rects, w`version, w`pending, w`changed, w`players, w`roundParticipants,
             w`lastFullSyncVersion, w`botChallenges, w`sessions
    ensures w.Valid()
    ensures JoinOutcome(old(w.players), old(w.sessions), old(w.teamMode), old(w.RectState()), old(w.roundParticipants),
                        old(w.lastFullSyncVersion), old(w.botChallenges), id, rawName, rawTeam, now, newCode, suffix,
                        unique, sx, sy, reply, w.players, w.sessions, w.RectState(), w.roundParticipants,
                        w.lastFullSyncVersion, w.botChallenges) == true
  {
    var check := CheckJoin(rawName, rawTeam);
    if check.Refuse? {
      return JoinRefused(check.code);
    }
    reply := AcceptJoin(w, id, rawName, rawTeam, suffix, unique, now, sx, sy);
    AdmittedOutcome(old(w.players), w.sessions, w.teamMode, old(w.RectState()), old(w.roundParticipants),
                    old(w.lastFullSyncVersion), w.botChallenges, id, rawName, rawTeam, now, newCode, suffix,
                    unique, sx, sy, reply, w.players, w.RectState(), w.roundParticipants, w.lastFullSyncVersion);
  }

  /** An admitted join with no captcha pending is the third outcome of `join`. */
  lemma AdmittedOutcome(players0: map<PlayerId, Player>, sessions0: map<PlayerId, Session>, teamMode: bool,
                        ix0: RectIndex, part0: set<PlayerId>, sync0: map<PlayerId, nat>,
                        chal0: map<string, Challenge>, id: PlayerId, rawName: string, rawTeam: string,
                        now: nat, newCode: string, suffix: string, unique: string, sx: int, sy: int,
                        reply: JoinReply, players: map<PlayerId, Player>, ix: RectIndex, part: set<PlayerId>,
                        sync: map<PlayerId, nat>)
    requires id in players0 && !players0[id].pendingAuth
    requires Admitted(players0, sessions0, teamMode, ix0, part0, sync0, id, rawName, rawTeam, suffix, unique, now,
                      sx, sy, reply, players, ix, part, sync)
    ensures JoinOutcome(players0, sessions0, teamMode, ix0, part0, sync0, chal0, id, rawName, rawTeam, now, newCode,
                        suffix, unique, sx, sy, reply, players, sessions0, ix, part, sync, chal0)
  {
  }

  /**
   * What `join` does to the player table, the sessions, the rectangle
   * index, the round participants, the snapshot versions and the captchas
   * (primed names are the state before): a pending captcha saves the join
   * and issues a new captcha; a refused name or team changes nothing; an
   * accepted one leaves sessions and captchas alone and is `Admitted`.
   */
  ghost predicate JoinOutcome(players0: map<PlayerId, Player>, sessions0: map<PlayerId, Session>, teamMode: bool,
                              ix0: RectIndex, part0: set<PlayerId>, sync0: map<PlayerId, nat>,
                              chal0: map<string, Challenge>, id: PlayerId, rawName: string, rawTeam: string,
                              now: nat, newCode: string, suffix: string, unique: string, sx: int, sy: int,
                              reply: JoinReply, players: map<PlayerId, Player>, sessions: map<PlayerId, Session>,
                              ix: RectIndex, part: set<PlayerId>, sync: map<PlayerId, nat>, chal: map<string, Challenge>)
  {
    id in players0 &&
    if players0[id].pendingAuth then
      reply == ChallengeSent && players == players0 && ix == ix0 && part == part0 && sync == sync0 &&
      sessions == sessions0[id := SessionOf(sessions0, id).(pendingJoin := Some(JoinRequest(rawName, rawTeam)))] &&
      chal == AfterCreate(chal0, ChallengeKey(id), newCode, now)
    else if CheckJoin(rawName, rawTeam).Refuse? then
      reply == JoinRefused(CheckJoin(rawName, rawTeam).code) && players == players0 && ix == ix0 &&
      part == part0 && sync == sync0 && sessions == sessions0 && chal == chal0
    else
      sessions == sessions0 && chal == chal0 &&
      Admitted(players0, sessions0, teamMode, ix0, part0, sync0, id, rawName, rawTeam, suffix, unique, now, sx, sy,
               reply, players, ix, part, sync)
  }

  /** The accepted branch of `join`: name, team and colour set, then `EnterGame`. */
  method AcceptJoin(w: World, id: PlayerId, rawName: string, rawTeam: string, suffix: string, unique: string,
                    now: nat, sx: int, sy: int) returns (reply: JoinReply)
    requires w.Valid() && id in w.players && CheckJoin(rawName, rawTeam).Accept?
    modifies w`grid, w`rects, w`version, w`pending, w`changed, w`players, w`roundParticipants, w`lastFullSyncVersion
    ensures w.Valid()
    ensures Admitted(old(w.players), w.sessions, w.teamMode, old(w.RectState()), old(w.roundParticipants),
                     old(w.lastFullSyncVersion), id, rawName, rawTeam, suffix, unique, now, sx, sy,
                     reply, w.players, w.RectState(), w.roundParticipants, w.lastFullSyncVersion) == true
  {
    var check := CheckJoin(rawName, rawTeam);
    var ids := AscendingIds(w.players);
    TeammateIsFirst(w.players, ids, id, check.team);
    var mate := Teammate(w.players, ids, id, check.team);
    var q := JoinedAs(w.players[id], SessionOf(w.sessions, id), w.teamMode, w.players, id, check.name, check.team, mate, suffix, unique);
    reply := EnterGame(w, id, q, now, sx, sy, unique);
  }

  /**
   * An accepted join of `rawName` and `rawTeam` entered the game: the
   * player took the name, team and colour `JoinedAs` gives (the teammate
   * being the lowest-numbered one) and was then respawned as `Entered`
   * says.
   */
  ghost predicate Admitted(players0: map<PlayerId, Player>, sessions0: map<PlayerId, Session>, teamMode: bool, ix0: RectIndex,
                           part0: set<PlayerId>, sync0: map<PlayerId, nat>, id: PlayerId, rawName: string, rawTeam: string,
                           suffix: string, unique: string, now: nat, sx: int, sy: int, reply: JoinReply,
                           players: map<PlayerId, Player>, ix: RectIndex, part: set<PlayerId>, sync: map<PlayerId, nat>)
  {
    id in players0 && CheckJoin(rawName, rawTeam).Accept? &&
    var a := CheckJoin(rawName, rawTeam);
    var q := JoinedAs(players0[id], SessionOf(sessions0, id), teamMode, players0, id, a.name, a.team,
                      FirstTeammate(players0, id, a.team), suffix, unique);
    Entered(players0, ix0, part0, sync0, id, q, now, sx, sy, unique, reply, players, ix, part, sync)
  }

  /**
   * The end of a join for the player `q` is to become, with the spawn
   * point (`sx`, `sy`) the random search settled on: stored, respawned
   * with a full reset, and marked for a full snapshot. A respawn refusal
   * ("Unknown") removes the player and closes with 4010.
   */
  ghost predicate Entered(players0: map<PlayerId, Player>, ix0: RectIndex, part0: set<PlayerId>, sync0: map<PlayerId, nat>,
                          id: PlayerId, q: Player, now: nat, sx: int, sy: int, unique: string, reply: JoinReply,
                          players: map<PlayerId, Player>, ix: RectIndex, part: set<PlayerId>, sync: map<PlayerId, nat>)
  {
    |ix0.pending| <= HISTORY_LIMIT && sync == sync0[id := 0] &&
    (InvalidName(q.name) ==>
      reply == JoinRejected && players == players0 - {id} && ix == ix0 && part == part0) &&
    (!InvalidName(q.name) ==>
      var p1 := Spawned(q, true, now, sx, sy, unique);
      var after := SpawnPlayers(players0[id := q], ix0.grid, id, p1, ToGrid(sx), ToGrid(sy));
      reply == Joined && players == after && part == part0 + {id} &&
      ix == Rebuild(ix0.(grid := SpawnGrid(ix0.grid, id, ToGrid(sx), ToGrid(sy))), after))
  }

  method EnterGame(w: World, id: PlayerId, q: Player, now: nat, sx: int, sy: int, unique: string) returns (reply: JoinReply)
    requires w.Valid()
    modifies w`grid, w`rects, w`version, w`pending, w`changed, w`players, w`roundParticipants, w`lastFullSyncVersion
    ensures w.Valid()
    ensures Entered(old(w.players), old(w.RectState()), old(w.roundParticipants), old(w.lastFullSyncVersion),
                    id, q, now, sx, sy, unique, reply, w.players, w.RectState(), w.roundParticipants, w.lastFullSyncVersion) == true
  {
    w.players := w.players[id := q];
    var rejected := RespawnPlayer(w, id, true, now, sx, sy, unique);
    w.lastFullSyncVersion := w.lastFullSyncVersion[id := 0];
    reply := if rejected then JoinRejected else Joined;
  }

  /** `update_team`: the requested team becomes the first five code points of the bracket-free text. */
  method UpdateRequestedTeam(w: World, id: PlayerId, rawTeam: string)
    modifies w`players
    ensures id in old(w.players) ==>
      w.players == old(w.players)[id := old(w.players)[id].(requestedTeam := Take(Unbracketed(rawTeam), MAX_TEAM))]
    ensures id !in old(w.players) ==> w.players == old(w.players)
    ensures id in w.players ==> |w.players[id].requestedTeam| <= MAX_TEAM
  {
    if id in w.players {
      w.players := w.players[id := w.players[id].(requestedTeam := Take(Unbracketed(rawTeam), MAX_TEAM))];
    }
  }

  /** `perf`: "auto", "high" and "low" set the mode; anything else is ignored. */
  function PerfModeOf(mode: string): (m: Option<PerfMode>)
    ensures m == Some(PerfAuto) <==> mode == "auto"
    ensures m == Some(PerfHigh) <==> mode == "high"
    ensures m == Some(PerfLow) <==> mode == "low"
  {
    if mode == "auto" then Some(PerfAuto)
    else if mode == "high" then Some(PerfHigh)
    else if mode == "low" then Some(PerfLow)
    else None
  }

  method SetPerfMode(w: World, id: PlayerId, mode: string)
    modifies w`sessions
    ensures PerfModeOf(mode).Some? ==>
      w.sessions == old(w.sessions)[id := SessionOf(old(w.sessions), id).(perfMode := PerfModeOf(mode))]
    ensures PerfModeOf(mode).None? ==> w.sessions == old(w.sessions)
  {
    var m := PerfModeOf(mode);
    if m.Some? {
      w.sessions := w.sessions[id := SessionOf(w.sessions, id).(perfMode := m)];
    }
  }

  /**
   * `viewport`: a screen wider than 540 or taller than 1020 closes the
   * connection with 4010; one of at least 100 by 100 is stored with its
   * half-sizes `min(2500, round(0.6 v + 200))`; anything smaller is
   * ignored.
   */
  method SetViewport(w: World, id: PlayerId, vw: int, vh: int) returns (close: Option<nat>)
    modifies w`sessions
    ensures vw > MAX_VIEWPORT_W || vh > MAX_VIEWPORT_H ==> close == Some(CLOSE_INVALID) && w.sessions == old(w.sessions)
    ensures vw <= MAX_VIEWPORT_W && vh <= MAX_VIEWPORT_H ==> close == None
    ensures MIN_VIEWPORT <= vw <= MAX_VIEWPORT_W && MIN_VIEWPORT <= vh <= MAX_VIEWPORT_H ==>
      w.sessions == old(w.sessions)[id := SessionOf(old(w.sessions), id).(viewportWidth := vw, viewportHeight := vh,
        aoiHalfWidth := ViewportHalf(vw), aoiHalfHeight := ViewportHalf(vh))]
    ensures vw <= MAX_VIEWPORT_W && vh <= MAX_VIEWPORT_H && (vw < MIN_VIEWPORT || vh < MIN_VIEWPORT) ==>
      w.sessions == old(w.sessions)
    ensures id in w.sessions && w.sessions[id].aoiHalfWidth != SessionOf(old(w.sessions), id).aoiHalfWidth ==>
      260 <= w.sessions[id].aoiHalfWidth <= 524 && 260 <= w.sessions[id].aoiHalfHeight <= 812
  {
    if vw > MAX_VIEWPORT_W || vh > MAX_VIEWPORT_H {
      return Some(CLOSE_INVALID);
    }
    close := None;
    if vw >= MIN_VIEWPORT && vh >= MIN_VIEWPORT {
      ViewportHalfRange(vw);
      ViewportHalfRange(vh);
      var s := SessionOf(w.sessions, id);
      w.sessions := w.sessions[id := s.(viewportWidth := vw, viewportHeight := vh,
                                        aoiHalfWidth := ViewportHalf(vw), aoiHalfHeight := ViewportHalf(vh))];
    }
  }

  /** `min(2500, round(0.6 v + 200))` for an accepted side grows with the side and stays within 260..812. */
  lemma ViewportHalfRange(v: nat)
    requires MIN_VIEWPORT <= v <= MAX_VIEWPORT_H
    ensures 260 <= ViewportHalf(v) <= 812
    ensures v <= MAX_VIEWPORT_W ==> ViewportHalf(v) <= 524
  {
  }

  /**
   * `chat`: at most one line per round. Text with a control character is
   * ignored; otherwise its first 15 UTF-16 code units are broadcast when
   * they are not blank, and the player has then chatted this round. A
   * surrogate pair the cut splits leaves its high half, which the message
   * encoder writes as U+FFFD.
   */
  method SendChat(w: World, id: PlayerId, raw: string) returns (line: Option<string>)
    modifies w`sessions
    ensures SessionOf(old(w.sessions), id).hasChattedInRound || HasControl(raw) || Blank(Utf8.Substring(raw, MAX_CHAT)) ==>
      line == None && w.sessions == old(w.sessions)
    ensures !SessionOf(old(w.sessions), id).hasChattedInRound && !HasControl(raw) && !Blank(Utf8.Substring(raw, MAX_CHAT)) ==>
      line == Some(Utf8.Substring(raw, MAX_CHAT)) &&
      w.sessions == old(w.sessions)[id := SessionOf(old(w.sessions), id).(hasChattedInRound := true)]
    ensures line.Some? ==>
      Utf8.UnitCount(line.value) <= MAX_CHAT && !HasControl(line.value) && !Blank(line.value) &&
      (forall i :: 0 <= i < |line.value| ==>
         line.value[i] == raw[i] || (i == |line.value| - 1 && line.value[i] == Utf8.REPLACEMENT)) &&
      w.sessions[id].hasChattedInRound
  {
    var s := SessionOf(w.sessions, id);
    if s.hasChattedInRound || HasControl(raw) {
      return None;
    }
    var text := Utf8.Substring(raw, MAX_CHAT);
    if Blank(text) {
      return None;
    }
    forall i | 0 <= i < |text|
      ensures !IsControl(text[i])
    {
      if text[i] != raw[i] {
        assert text[i] == Utf8.REPLACEMENT;
      }
    }
    w.sessions := w.sessions[id := s.(hasChattedInRound := true)];
    line := Some(text);
  }
}
