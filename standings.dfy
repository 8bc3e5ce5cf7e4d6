/**
 * The end-of-round standings of the v5 server (`endRound`): the ten best
 * players, the team totals and the five best teams, and the team head
 * counts of `getTeamStats`. Players are visited in ascending id order,
 * the order `Object.values` lists integer keys in. Teams are keyed by
 * name, so `Object.keys` lists the names that are array indexes first, by
 * value, and the others in the order they were first met; a stable sort
 * keeps that order among equal values.
 */
module Standings {
  import opened Common
  import opened GameState
  import opened Sorting

  /** Rows kept in the player ranking and in the team ranking. */
  const RANKING_SIZE: nat := 10
  const TEAM_RANKING_SIZE: nat := 5

  // ---------------------------------------------------------------------
  // Players
  // ---------------------------------------------------------------------

  /** A player together with its id. */
  datatype Entry = Entry(id: PlayerId, p: Player)

  function EntryId(e: Entry): int { e.id }

  /** Only players who took part and scored or killed are ranked. */
  predicate Ranked(p: Player)
  {
    p.state != Waiting && (p.score > 0 || p.kills > 0)
  }

  /** The ranking comparator: higher score first, then more kills. */
  predicate Outranks(a: Entry, b: Entry)
  {
    a.p.score > b.p.score || (a.p.score == b.p.score && a.p.kills > b.p.kills)
  }

  lemma OutranksStrictWeak()
    ensures StrictWeak(Outranks)
  {
  }

  /** The ranked players among `ids`, in the order of `ids`. */
  function RankedEntries(players: map<PlayerId, Player>, ids: seq<PlayerId>): (r: seq<Entry>)
    requires forall i :: 0 <= i < |ids| ==> ids[i] in players
    ensures forall e :: e in r <==> e.id in ids && e.p == players[e.id] && Ranked(e.p)
  {
    if ids == [] then []
    else
      var p := players[ids[0]];
      assert ids == [ids[0]] + ids[1..];
      (if Ranked(p) then [Entry(ids[0], p)] else []) + RankedEntries(players, ids[1..])
  }

  /** Ids in ascending order give entries in ascending id order. */
  lemma {:induction false} RankedAscending(players: map<PlayerId, Player>, ids: seq<PlayerId>)
    requires forall i :: 0 <= i < |ids| ==> ids[i] in players
    requires forall i, j :: 0 <= i < j < |ids| ==> ids[i] < ids[j]
    ensures Increasing(RankedEntries(players, ids), EntryId)
  {
    if ids != [] {
      var rest := RankedEntries(players, ids[1..]);
      RankedAscending(players, ids[1..]);
      forall e | e in rest
        ensures ids[0] < e.id
      {
        var k :| 0 <= k < |ids[1..]| && ids[1..][k] == e.id;
        assert ids[k + 1] == e.id;
      }
      if Ranked(players[ids[0]]) {
        IncreasingCons(Entry(ids[0], players[ids[0]]), rest, EntryId);
      }
    }
  }

  /** The first ten of the ranked players among `ids`, sorted by the ranking comparator. */
  function Rankings(players: map<PlayerId, Player>, ids: seq<PlayerId>): (r: seq<Entry>)
    requires forall i :: 0 <= i < |ids| ==> ids[i] in players
  {
    Best(RankedEntries(players, ids), Outranks, RANKING_SIZE)
  }

  /** `ids` lists every player of the table once, in ascending order. */
  ghost predicate Lists(ids: seq<PlayerId>, players: map<PlayerId, Player>)
  {
    (forall i, j :: 0 <= i < j < |ids| ==> ids[i] < ids[j]) && forall q :: q in players <==> q in ids
  }

  /**
   * The player ranking holds at most ten ranked players as the table has
   * them, ordered by score, then kills, then id; a ranked player left out
   * comes after all ten.
   */
  lemma RankingsChosen(players: map<PlayerId, Player>, ids: seq<PlayerId>)
    requires Lists(ids, players)
    ensures var r := Rankings(players, ids);
      |r| <= RANKING_SIZE &&
      (forall e :: e in r ==> e.id in players && players[e.id] == e.p && Ranked(e.p)) &&
      Chain(r, Outranks, EntryId) &&
      forall q :: q in players && Ranked(players[q]) && Entry(q, players[q]) !in r ==>
        |r| == RANKING_SIZE && forall e :: e in r ==> Ahead(e, Entry(q, players[q]), Outranks, EntryId)
  {
    RankedAscending(players, ids);
    OutranksStrictWeak();
    BestChosen(RankedEntries(players, ids), Outranks, EntryId, RANKING_SIZE);
  }

  /**
   * `toExpScore`: a cell count as a percentage of the `totalCells` cells,
   * in hundredths, rounded to the nearest; 0 stays 0.
   */
  function ExpScore(raw: nat, totalCells: nat): (pct: nat)
    requires totalCells > 0
    ensures 2 * raw * 10000 <= 2 * pct * totalCells + totalCells
    ensures 2 * pct * totalCells <= 2 * raw * 10000 + totalCells
  {
    if raw == 0 then 0 else (2 * raw * 10000 + totalCells) / (2 * totalCells)
  }

  /** More cells never shows as a smaller percentage. */
  lemma ExpScoreMonotone(a: nat, b: nat, totalCells: nat)
    requires totalCells > 0 && a <= b
    ensures ExpScore(a, totalCells) <= ExpScore(b, totalCells)
  {
    if a > 0 {
      var d := 2 * totalCells;
      var x, y := 2 * a * 10000 + totalCells, 2 * b * 10000 + totalCells;
      assert x <= y;
      DivMonotone(x, y, d);
    }
  }

  lemma DivMonotone(x: nat, y: nat, d: nat)
    requires d > 0 && x <= y
    ensures x / d <= y / d
  {
    var qx, qy := x / d, y / d;
    assert qx * d <= x;
    assert y < (qy + 1) * d;
    MulCancel(qx, qy + 1, d);
  }

  lemma MulCancel(a: int, b: int, d: nat)
    requires d > 0 && a * d < b * d
    ensures a < b
  {
  }

  // ---------------------------------------------------------------------
  // Teams
  // ---------------------------------------------------------------------

  /** A team's running totals: summed score and kills, and its member count. */
  datatype Tally = Tally(team: string, score: nat, kills: nat, members: nat)

  /** The team `endRound` counts a player under: "" when waiting or teamless. */
  function RoundTeam(p: Player): string
  {
    if p.state != Waiting then p.team else ""
  }

  /** The team `getTeamStats` counts a player under: the requested team, else the current one. */
  function StatsTeam(p: Player): string
  {
    if p.requestedTeam != "" then p.requestedTeam else p.team
  }

  /** The position of team `t` in `ts`, or -1. */
  function Find(ts: seq<Tally>, t: string): (i: int)
    ensures -1 <= i < |ts|
    ensures i >= 0 ==> ts[i].team == t
    ensures i < 0 ==> forall j :: 0 <= j < |ts| ==> ts[j].team != t
  {
    if ts == [] then -1
    else if ts[|ts| - 1].team == t then |ts| - 1
    else Find(ts[..|ts| - 1], t)
  }

  /** The players counted for team `t` among `ids`, in the order of `ids`. */
  function Roster(players: map<PlayerId, Player>, ids: seq<PlayerId>, key: Player -> string, t: string): seq<Player>
    requires forall i :: 0 <= i < |ids| ==> ids[i] in players
  {
    if ids == [] then []
    else
      var p := players[ids[|ids| - 1]];
      Roster(players, ids[..|ids| - 1], key, t) + (if key(p) == t then [p] else [])
  }

  function ScoreSum(ps: seq<Player>): nat
  {
    if ps == [] then 0 else ScoreSum(ps[..|ps| - 1]) + ps[|ps| - 1].score
  }

  function KillSum(ps: seq<Player>): nat
  {
    if ps == [] then 0 else KillSum(ps[..|ps| - 1]) + ps[|ps| - 1].kills
  }

  /** `p` added to the totals of its team, a new team appended at the end. */
  function Count(ts: seq<Tally>, p: Player, key: Player -> string): seq<Tally>
  {
    var t := key(p);
    if t == "" then ts
    else
      var i := Find(ts, t);
      if i < 0 then ts + [Tally(t, p.score, p.kills, 1)]
      else ts[i := Tally(t, ts[i].score + p.score, ts[i].kills + p.kills, ts[i].members + 1)]
  }

  /** The per-team totals over `ids`, teams in the order they were first met. */
  function Tallies(players: map<PlayerId, Player>, ids: seq<PlayerId>, key: Player -> string): seq<Tally>
    requires forall i :: 0 <= i < |ids| ==> ids[i] in players
  {
    if ids == [] then []
    else Count(Tallies(players, ids[..|ids| - 1], key), players[ids[|ids| - 1]], key)
  }

  /** Some player among `ids` is counted for team `t`. */
  predicate Fielded(players: map<PlayerId, Player>, ids: seq<PlayerId>, key: Player -> string, t: string)
    requires forall i :: 0 <= i < |ids| ==> ids[i] in players
  {
    exists i :: 0 <= i < |ids| && key(players[ids[i]]) == t
  }

  /** No team is listed twice. */
  predicate Distinct(ts: seq<Tally>)
  {
    forall i, j :: 0 <= i < j < |ts| ==> ts[i].team != ts[j].team
  }

  /** Team `t` has an entry in `ts`. */
  predicate Listed(ts: seq<Tally>, t: string)
  {
    exists i :: 0 <= i < |ts| && ts[i].team == t
  }

  /** The totals list exactly the fielded teams. */
  ghost predicate Names(ts: seq<Tally>, players: map<PlayerId, Player>, ids: seq<PlayerId>, key: Player -> string)
    requires forall i :: 0 <= i < |ids| ==> ids[i] in players
  {
    forall t :: Listed(ts, t) <==> t != "" && Fielded(players, ids, key, t)
  }

  /** Each entry adds up exactly its team's roster. */
  ghost predicate Sums(ts: seq<Tally>, players: map<PlayerId, Player>, ids: seq<PlayerId>, key: Player -> string)
    requires forall i :: 0 <= i < |ids| ==> ids[i] in players
  {
    forall i :: 0 <= i < |ts| ==> Sum(ts[i], Roster(players, ids, key, ts[i].team))
  }

  /** `e` holds the totals of the players in `roster`. */
  predicate Sum(e: Tally, roster: seq<Player>)
  {
    e.score == ScoreSum(roster) && e.kills == KillSum(roster) && e.members == |roster|
  }

  /** The totals name each fielded team once and add up exactly its roster. */
  ghost predicate Accounts(ts: seq<Tally>, players: map<PlayerId, Player>, ids: seq<PlayerId>, key: Player -> string)
    requires forall i :: 0 <= i < |ids| ==> ids[i] in players
  {
    Distinct(ts) && Names(ts, players, ids, key) && Sums(ts, players, ids, key)
  }

  /** Whatever the visiting order, each team's totals are the sums over its roster. */
  lemma {:induction false} TalliesAccount(players: map<PlayerId, Player>, ids: seq<PlayerId>, key: Player -> string)
    requires forall i :: 0 <= i < |ids| ==> ids[i] in players
    ensures Accounts(Tallies(players, ids, key), players, ids, key)
  {
    if ids != [] {
      var init := ids[..|ids| - 1];
      var p := players[ids[|ids| - 1]];
      var ts := Tallies(players, init, key);
      TalliesAccount(players, init, key);
      var r := Count(ts, p, key);
      assert r == Tallies(players, ids, key);
      CountDistinct(ts, p, key);
      CountNames(ts, players, ids, key);
      forall i | 0 <= i < |r|
        ensures Sum(r[i], Roster(players, ids, key, r[i].team))
      {
        CountSums(ts, players, ids, key, i);
      }
    }
  }

  lemma CountDistinct(ts: seq<Tally>, p: Player, key: Player -> string)
    requires Distinct(ts)
    ensures Distinct(Count(ts, p, key))
  {
  }

  /** Counting the last player of `ids` lists its team, and no other new one. */
  lemma CountNames(ts: seq<Tally>, players: map<PlayerId, Player>, ids: seq<PlayerId>, key: Player -> string)
    requires forall i :: 0 <= i < |ids| ==> ids[i] in players
    requires ids != [] && Names(ts, players, ids[..|ids| - 1], key)
    ensures Names(Count(ts, players[ids[|ids| - 1]], key), players, ids, key)
  {
    var init := ids[..|ids| - 1];
    var p := players[ids[|ids| - 1]];
    var r := Count(ts, p, key);
    forall t
      ensures Listed(r, t) <==> t != "" && Fielded(players, ids, key, t)
    {
      if t != "" && Fielded(players, ids, key, t) {
        var k :| 0 <= k < |ids| && key(players[ids[k]]) == t;
        if k < |init| {
          assert key(players[init[k]]) == t;
          assert Fielded(players, init, key, t);
          var i :| 0 <= i < |ts| && ts[i].team == t;
          assert r[i].team == t;
        } else if Find(ts, t) < 0 {
          assert r[|ts|].team == t;
        } else {
          assert r[Find(ts, t)].team == t;
        }
      }
      if Listed(r, t) {
        var i :| 0 <= i < |r| && r[i].team == t;
        if i < |ts| && ts[i].team == t {
          assert Listed(ts, t);
          var k :| 0 <= k < |init| && key(players[init[k]]) == t;
          assert key(players[ids[k]]) == t;
        } else {
          assert key(players[ids[|ids| - 1]]) == t;
        }
      }
    }
  }

  /** The totals of entry `i` after counting the last player of `ids`. */
  lemma CountSums(ts: seq<Tally>, players: map<PlayerId, Player>, ids: seq<PlayerId>, key: Player -> string, i: nat)
    requires forall i :: 0 <= i < |ids| ==> ids[i] in players
    requires ids != [] && Accounts(ts, players, ids[..|ids| - 1], key)
    requires i < |Count(ts, players[ids[|ids| - 1]], key)|
    ensures var r := Count(ts, players[ids[|ids| - 1]], key);
            Sum(r[i], Roster(players, ids, key, r[i].team))
  {
    var p := players[ids[|ids| - 1]];
    var r := Count(ts, p, key);
    if key(p) != r[i].team {
      CountSumsOther(ts, players, ids, key, i);
    } else if Find(ts, key(p)) < 0 {
      CountSumsNew(ts, players, ids, key, i);
    } else {
      assert Listed(ts, key(p));
      CountSumsSame(ts, players, ids, key, i);
    }
  }

  /** An entry of another team than the counted player's keeps its totals and its roster. */
  lemma CountSumsOther(ts: seq<Tally>, players: map<PlayerId, Player>, ids: seq<PlayerId>, key: Player -> string, i: nat)
    requires forall i :: 0 <= i < |ids| ==> ids[i] in players
    requires ids != [] && Sums(ts, players, ids[..|ids| - 1], key)
    requires i < |Count(ts, players[ids[|ids| - 1]], key)|
    requires key(players[ids[|ids| - 1]]) != Count(ts, players[ids[|ids| - 1]], key)[i].team
    ensures var r := Count(ts, players[ids[|ids| - 1]], key);
            Sum(r[i], Roster(players, ids, key, r[i].team))
  {
    var init := ids[..|ids| - 1];
    var p := players[ids[|ids| - 1]];
    var r := Count(ts, p, key);
    if key(p) != "" && Find(ts, key(p)) < 0 {
      assert i < |ts|;
    }
    assert r[i] == ts[i];
    assert Sum(ts[i], Roster(players, init, key, ts[i].team));
    var before := Roster(players, init, key, r[i].team);
    assert before + [] == before;
    assert Roster(players, ids, key, r[i].team) == before;
  }

  /** The entry of a team met for the first time holds just the counted player. */
  lemma CountSumsNew(ts: seq<Tally>, players: map<PlayerId, Player>, ids: seq<PlayerId>, key: Player -> string, i: nat)
    requires forall i :: 0 <= i < |ids| ==> ids[i] in players
    requires ids != [] && Names(ts, players, ids[..|ids| - 1], key)
    requires i < |Count(ts, players[ids[|ids| - 1]], key)|
    requires key(players[ids[|ids| - 1]]) == Count(ts, players[ids[|ids| - 1]], key)[i].team
    requires Find(ts, key(players[ids[|ids| - 1]])) < 0
    ensures var r := Count(ts, players[ids[|ids| - 1]], key);
            Sum(r[i], Roster(players, ids, key, r[i].team))
  {
    var init := ids[..|ids| - 1];
    var p := players[ids[|ids| - 1]];
    var t := key(p);
    var r := Count(ts, p, key);
    assert i == |ts|;
    var before := Roster(players, init, key, t);
    assert !Fielded(players, init, key, t) by {
      assert !Listed(ts, t);
    }
    assert before == [] by {
      if before != [] {
        RosterFielded(players, init, key, t);
      }
    }
    assert Roster(players, ids, key, t) == [p];
    assert [p][..0] == [];
  }

  /** The entry of a team met before adds the counted player to its totals. */
  lemma CountSumsSame(ts: seq<Tally>, players: map<PlayerId, Player>, ids: seq<PlayerId>, key: Player -> string, i: nat)
    requires forall i :: 0 <= i < |ids| ==> ids[i] in players
    requires ids != [] && Distinct(ts) && Sums(ts, players, ids[..|ids| - 1], key)
    requires i < |Count(ts, players[ids[|ids| - 1]], key)|
    requires key(players[ids[|ids| - 1]]) == Count(ts, players[ids[|ids| - 1]], key)[i].team != ""
    requires Find(ts, key(players[ids[|ids| - 1]])) >= 0
    ensures var r := Count(ts, players[ids[|ids| - 1]], key);
            Sum(r[i], Roster(players, ids, key, r[i].team))
  {
    var init := ids[..|ids| - 1];
    var p := players[ids[|ids| - 1]];
    var t := key(p);
    var r := Count(ts, p, key);
    var j := Find(ts, t);
    CountDistinct(ts, p, key);
    FindUnique(r, t, i);
    FindUnique(r, t, j);
    var before := Roster(players, init, key, t);
    assert Sum(ts[j], before);
    AddOne(ts[j], before, p);
    assert Roster(players, ids, key, t) == before + [p];
  }

  /** In a list without repeated teams, `Find` returns the one entry of the team. */
  lemma {:induction false} FindUnique(ts: seq<Tally>, t: string, i: nat)
    requires Distinct(ts) && i < |ts| && ts[i].team == t
    ensures Find(ts, t) == i
  {
    if i < |ts| - 1 {
      assert ts[|ts| - 1].team != t;
      FindUnique(ts[..|ts| - 1], t, i);
    }
  }

  /** Adding a player to a roster adds it to the totals. */
  lemma AddOne(e: Tally, roster: seq<Player>, p: Player)
    requires Sum(e, roster)
    ensures Sum(Tally(e.team, e.score + p.score, e.kills + p.kills, e.members + 1), roster + [p])
  {
    assert (roster + [p])[..|roster|] == roster;
  }

  /** A non-empty roster means the team was fielded. */
  lemma {:induction false} RosterFielded(players: map<PlayerId, Player>, ids: seq<PlayerId>, key: Player -> string, t: string)
    requires forall i :: 0 <= i < |ids| ==> ids[i] in players
    requires Roster(players, ids, key, t) != []
    ensures Fielded(players, ids, key, t)
  {
    var init := ids[..|ids| - 1];
    if key(players[ids[|ids| - 1]]) != t {
      RosterFielded(players, init, key, t);
      var k :| 0 <= k < |init| && key(players[init[k]]) == t;
      assert key(players[ids[k]]) == t;
    }
  }

  // ---------------------------------------------------------------------
  // endRound's team totals as written
  // ---------------------------------------------------------------------

  /**
   * `endRound`'s loop body as written: the totals of a team start over
   * whenever its running score is 0 (`!teamScores[p.team]`), dropping the
   * kills and the head count of the members met so far.
   */
  function CountAsWritten(ts: seq<Tally>, p: Player, key: Player -> string): seq<Tally>
  {
    var t := key(p);
    if t == "" then ts
    else
      var i := Find(ts, t);
      if i < 0 then ts + [Tally(t, p.score, p.kills, 1)]
      else if ts[i].score == 0 then ts[i := Tally(t, p.score, p.kills, 1)]
      else ts[i := Tally(t, ts[i].score + p.score, ts[i].kills + p.kills, ts[i].members + 1)]
  }

  function TalliesAsWritten(players: map<PlayerId, Player>, ids: seq<PlayerId>, key: Player -> string): seq<Tally>
    requires forall i :: 0 <= i < |ids| ==> ids[i] in players
  {
    if ids == [] then []
    else CountAsWritten(TalliesAsWritten(players, ids[..|ids| - 1], key), players[ids[|ids| - 1]], key)
  }

  /** A player of the table with the given team, state, score and kills. */
  function Member(team: string, state: PlayerState, score: nat, kills: nat): Player
  {
    Player("", team, "", "", "", state, score, kills, 0, 0, [], [], 0, 0, 0, 0, 0, false, false, false, false, false)
  }

  /** Player 1, dead with no cells and three kills, and player 2, alive with 50 cells, both of team "A". */
  function ResetTable(): map<PlayerId, Player>
  {
    map[1 := Member("A", Dead, 0, 3), 2 := Member("A", Active, 50, 0)]
  }

  /** On that table the loop as written reports one member and no kills. */
  lemma ZeroScoreResets()
    ensures TalliesAsWritten(ResetTable(), [1, 2], RoundTeam) == [Tally("A", 50, 0, 1)]
  {
    var players := ResetTable();
    var ids: seq<PlayerId> := [1, 2];
    var first := [Tally("A", 0, 3, 1)];
    assert ids[..1] == [1] && [1][..0] == [];
    assert TalliesAsWritten(players, [1], RoundTeam) == first;
    assert Find(first, "A") == 0;
  }

  /** On that table the totals are two members and three kills. */
  lemma ZeroScoreCounted()
    ensures Tallies(ResetTable(), [1, 2], RoundTeam) == [Tally("A", 50, 3, 2)]
  {
    var players := ResetTable();
    var ids: seq<PlayerId> := [1, 2];
    var first := [Tally("A", 0, 3, 1)];
    assert ids[..1] == [1] && [1][..0] == [];
    assert Tallies(players, [1], RoundTeam) == first;
    assert Find(first, "A") == 0;
  }

  // ---------------------------------------------------------------------
  // Team rankings and team head counts
  // ---------------------------------------------------------------------

  // ---------------------------------------------------------------------
  // The order `Object.keys` lists the teams in
  // ---------------------------------------------------------------------

  /** The keys `Object.keys` lists first: canonical numbers below 2^32 - 1. */
  const INDEX_LIMIT: nat := 4294967295

  function Digit(d: nat): char
    requires d < 10
  {
    (48 + d) as char
  }

  function DigitValue(c: char): nat
  {
    if '0' <= c <= '9' then c as nat - 48 else 0
  }

  /** `String(n)`: the decimal form of `n`, without leading zeros. */
  function Decimal(n: nat): (s: string)
    ensures |s| >= 1 && (|s| == 1 <==> n < 10)
  {
    if n < 10 then [Digit(n)] else Decimal(n / 10) + [Digit(n % 10)]
  }

  /** The value of a string of decimal digits. */
  function Num(s: string): nat
  {
    if s == [] then 0 else Num(s[..|s| - 1]) * 10 + DigitValue(s[|s| - 1])
  }

  /** Reading back the decimal form of a number gives the number. */
  lemma {:induction false} NumDecimal(n: nat)
    ensures Num(Decimal(n)) == n
  {
    if n >= 10 {
      NumDecimal(n / 10);
      var d := Decimal(n);
      assert d[..|d| - 1] == Decimal(n / 10);
    }
  }

  /**
   * An array index: a key that is the decimal form of the number it reads
   * as, and that number is below 2^32 - 1. Such keys own an object's first
   * places, in ascending numeric order; all others follow in the order they
   * were first set.
   */
  predicate ArrayIndex(t: string)
  {
    Num(t) < INDEX_LIMIT && Decimal(Num(t)) == t
  }

  /** Where the key of team `t`, first met at place `i`, stands among the keys. */
  function KeyRank(t: string, i: nat): (k: nat)
    ensures ArrayIndex(t) ==> k < INDEX_LIMIT
    ensures !ArrayIndex(t) ==> k >= INDEX_LIMIT
  {
    if ArrayIndex(t) then Num(t) else INDEX_LIMIT + i
  }

  /**
   * The order `Object.keys` puts two of the teams of `ts` in, spelled out:
   * an array index comes before any other key, two array indexes by
   * value, two other keys by the order they were first met in.
   */
  predicate KeyBefore(ts: seq<Tally>, a: string, b: string)
  {
    if ArrayIndex(a) then !ArrayIndex(b) || Num(a) < Num(b)
    else !ArrayIndex(b) && Find(ts, a) < Find(ts, b)
  }

  /** A team's totals, the value it is ranked by, and the place of its key. */
  datatype Standing = Standing(t: Tally, value: nat, order: nat)

  function Order(s: Standing): int { s.order }

  /** The team comparator: the larger value first. */
  predicate Higher(a: Standing, b: Standing)
  {
    a.value > b.value
  }

  lemma HigherStrictWeak()
    ensures StrictWeak(Higher)
  {
  }

  /** Each team's totals with the value it is ranked by and the place of its key, in first-met order. */
  function Rows(ts: seq<Tally>, value: Tally -> nat): (r: seq<Standing>)
    ensures |r| == |ts|
    ensures forall i :: 0 <= i < |r| ==> r[i] == Standing(ts[i], value(ts[i]), KeyRank(ts[i].team, i))
  {
    seq(|ts|, i requires 0 <= i < |ts| => Standing(ts[i], value(ts[i]), KeyRank(ts[i].team, i)))
  }

  predicate Earlier(a: Standing, b: Standing)
  {
    a.order < b.order
  }

  /** `Object.keys`: the rows in the order of their keys. */
  function Keys(rows: seq<Standing>): (k: seq<Standing>)
    ensures multiset(k) == multiset(rows)
  {
    SortBy(rows, Earlier)
  }

  /** The rows of distinct teams have distinct key places. */
  lemma RowsApartRanks(ts: seq<Tally>, value: Tally -> nat)
    requires Distinct(ts)
    ensures forall i, j :: 0 <= i < j < |ts| ==> Rows(ts, value)[i].order != Rows(ts, value)[j].order
  {
    var rows := Rows(ts, value);
    forall i, j | 0 <= i < j < |ts|
      ensures rows[i].order != rows[j].order
    {
      assert ts[i].team != ts[j].team;
    }
  }

  /** The keys come out in increasing place. */
  lemma KeysIncreasing(ts: seq<Tally>, value: Tally -> nat)
    requires Distinct(ts)
    ensures Increasing(Keys(Rows(ts, value)), Order)
  {
    RowsApartRanks(ts, value);
    SortIncreasing(Rows(ts, value), Earlier, Order);
  }

  /** The place of a row's key, read back from its team. */
  lemma RowRank(ts: seq<Tally>, value: Tally -> nat, s: Standing)
    requires Distinct(ts) && s in multiset(Rows(ts, value))
    ensures Listed(ts, s.t.team) && s.order == KeyRank(s.t.team, Find(ts, s.t.team))
  {
    var rows := Rows(ts, value);
    var i :| 0 <= i < |rows| && rows[i] == s;
    FindUnique(ts, s.t.team, i);
  }

  /** A lower key place means the key comes first in `Object.keys`. */
  lemma RankBefore(ts: seq<Tally>, a: string, b: string)
    requires Listed(ts, a) && Listed(ts, b)
    requires KeyRank(a, Find(ts, a)) < KeyRank(b, Find(ts, b))
    ensures KeyBefore(ts, a, b)
  {
  }

  /** `Object.keys` lists the teams of `ts` in exactly the order `KeyBefore` spells out. */
  lemma KeysInJsOrder(ts: seq<Tally>, value: Tally -> nat)
    requires Distinct(ts)
    ensures var k := Keys(Rows(ts, value));
      forall i, j :: 0 <= i < j < |k| ==> KeyBefore(ts, k[i].t.team, k[j].t.team)
  {
    var k := Keys(Rows(ts, value));
    KeysIncreasing(ts, value);
    forall i, j | 0 <= i < j < |k|
      ensures KeyBefore(ts, k[i].t.team, k[j].t.team)
    {
      assert k[i] in multiset(k) && k[j] in multiset(k);
      RowRank(ts, value, k[i]);
      RowRank(ts, value, k[j]);
      RankBefore(ts, k[i].t.team, k[j].t.team);
    }
  }

  /** A team's head count, the value `getTeamStats` ranks by. */
  function Members(t: Tally): nat { t.members }

  /** A team's share of the grid, the value `teamRankings` ranks by. */
  function Share(totalCells: nat): Tally -> nat
    requires totalCells > 0
  {
    (t: Tally) => ExpScore(t.score, totalCells)
  }

  /**
   * `teamRankings`: the teams of the players who took part, in the order
   * of their keys, by their share of the grid, the best five.
   */
  function TeamRankings(players: map<PlayerId, Player>, ids: seq<PlayerId>, totalCells: nat): seq<Standing>
    requires forall i :: 0 <= i < |ids| ==> ids[i] in players
    requires totalCells > 0
  {
    var keys := Keys(Rows(Tallies(players, ids, RoundTeam), Share(totalCells)));
    Best(keys, Higher, TEAM_RANKING_SIZE)
  }

  /**
   * Rows drawn from the rows of distinct teams and chained by value and
   * key place: each row before a later one has the larger value, or the
   * same value and a key `Object.keys` lists first.
   */
  lemma ChainKeyBefore(ts: seq<Tally>, value: Tally -> nat, r: seq<Standing>)
    requires Distinct(ts) && Chain(r, Higher, Order)
    requires forall s :: s in r ==> s in multiset(Rows(ts, value))
    ensures forall i, j :: 0 <= i < j < |r| ==>
      r[i].value > r[j].value || (r[i].value == r[j].value && KeyBefore(ts, r[i].t.team, r[j].t.team))
  {
    forall i, j | 0 <= i < j < |r|
      ensures r[i].value > r[j].value || (r[i].value == r[j].value && KeyBefore(ts, r[i].t.team, r[j].t.team))
    {
      assert Ahead(r[i], r[j], Higher, Order);
      if r[i].value <= r[j].value {
        RowRank(ts, value, r[i]);
        RowRank(ts, value, r[j]);
        RankBefore(ts, r[i].t.team, r[j].t.team);
      }
    }
  }

  /** The best five drawn from the keys are team rows, best first. */
  lemma RankingsFromRows(ts: seq<Tally>, value: Tally -> nat)
    requires Distinct(ts)
    ensures var keys := Keys(Rows(ts, value));
      var r := Best(keys, Higher, TEAM_RANKING_SIZE);
      (forall s :: s in r ==> s in multiset(Rows(ts, value))) && Chain(r, Higher, Order) &&
      forall s :: s in Rows(ts, value) && s !in r ==>
        |r| == TEAM_RANKING_SIZE && forall e :: e in r ==> Ahead(e, s, Higher, Order)
  {
    var rows := Rows(ts, value);
    var keys := Keys(rows);
    KeysIncreasing(ts, value);
    HigherStrictWeak();
    BestChosen(keys, Higher, Order, TEAM_RANKING_SIZE);
    forall s | s in rows
      ensures s in keys
    {
      assert s in multiset(keys);
    }
    forall s | s in Best(keys, Higher, TEAM_RANKING_SIZE)
      ensures s in multiset(rows)
    {
      assert s in multiset(keys);
    }
  }

  /**
   * The team ranking: at most five teams, each fielded by a player who took
   * part, with the summed score and kills and the head count of its roster
   * and its share of the grid; ordered by that share, equal shares in the
   * order `Object.keys` lists the teams; a team left out comes after all five.
   */
  lemma TeamRankingsChosen(players: map<PlayerId, Player>, ids: seq<PlayerId>, totalCells: nat)
    requires forall i :: 0 <= i < |ids| ==> ids[i] in players
    requires totalCells > 0
    ensures var r := TeamRankings(players, ids, totalCells);
      var ts := Tallies(players, ids, RoundTeam);
      |r| <= TEAM_RANKING_SIZE &&
      (forall s :: s in r ==>
         s.t.team != "" && Fielded(players, ids, RoundTeam, s.t.team) &&
         Sum(s.t, Roster(players, ids, RoundTeam, s.t.team)) &&
         s.value == ExpScore(s.t.score, totalCells)) &&
      (forall i, j :: 0 <= i < j < |r| ==>
         r[i].value > r[j].value || (r[i].value == r[j].value && KeyBefore(ts, r[i].t.team, r[j].t.team))) &&
      forall s :: s in Rows(ts, Share(totalCells)) && s !in r ==>
        |r| == TEAM_RANKING_SIZE && forall e :: e in r ==> Ahead(e, s, Higher, Order)
  {
    var ts := Tallies(players, ids, RoundTeam);
    var rows := Rows(ts, Share(totalCells));
    var r := TeamRankings(players, ids, totalCells);
    TalliesAccount(players, ids, RoundTeam);
    RankingsFromRows(ts, Share(totalCells));
    ChainKeyBefore(ts, Share(totalCells), r);
    forall s | s in r
      ensures s.t.team != "" && Fielded(players, ids, RoundTeam, s.t.team)
      ensures Sum(s.t, Roster(players, ids, RoundTeam, s.t.team))
      ensures s.value == ExpScore(s.t.score, totalCells)
    {
      RoundRowFacts(players, ids, totalCells, s);
    }
  }

  /** A row of the round's team table is a fielded team with its roster's totals and its share. */
  lemma RoundRowFacts(players: map<PlayerId, Player>, ids: seq<PlayerId>, totalCells: nat, s: Standing)
    requires forall i :: 0 <= i < |ids| ==> ids[i] in players
    requires totalCells > 0
    requires s in Rows(Tallies(players, ids, RoundTeam), Share(totalCells))
    ensures s.t.team != "" && Fielded(players, ids, RoundTeam, s.t.team)
    ensures Sum(s.t, Roster(players, ids, RoundTeam, s.t.team))
    ensures s.value == ExpScore(s.t.score, totalCells)
  {
    var ts := Tallies(players, ids, RoundTeam);
    var rows := Rows(ts, Share(totalCells));
    TalliesAccount(players, ids, RoundTeam);
    var i :| 0 <= i < |rows| && rows[i] == s;
    assert Listed(ts, ts[i].team);
  }

  /** `getTeamStats`: every team named by some player, in the order of their keys, by head count, largest first. */
  function TeamStats(players: map<PlayerId, Player>, ids: seq<PlayerId>): seq<Standing>
    requires forall i :: 0 <= i < |ids| ==> ids[i] in players
  {
    SortBy(Keys(Rows(Tallies(players, ids, StatsTeam), Members)), Higher)
  }

  /** Some player of the table is counted for team `t`. */
  ghost predicate Named(players: map<PlayerId, Player>, key: Player -> string, t: string)
  {
    exists q :: q in players && key(players[q]) == t
  }

  /** The number of players of the table counted for team `t`. */
  ghost function HeadCount(players: map<PlayerId, Player>, key: Player -> string, t: string): nat
  {
    |set q | q in players && key(players[q]) == t|
  }

  /** Some row of `r` is team `t`. */
  predicate Shown(r: seq<Standing>, t: string)
  {
    exists i :: 0 <= i < |r| && r[i].t.team == t
  }

  /**
   * The team head counts: one row per team some player requested or is
   * in, each counting exactly the players of the table under that team,
   * largest first and equal counts in the order `Object.keys` lists the
   * teams.
   */
  lemma TeamStatsCounted(players: map<PlayerId, Player>, ids: seq<PlayerId>)
    requires Lists(ids, players)
    ensures var r := TeamStats(players, ids);
      var ts := Tallies(players, ids, StatsTeam);
      (forall i, j :: 0 <= i < j < |r| ==>
         r[i].value > r[j].value || (r[i].value == r[j].value && KeyBefore(ts, r[i].t.team, r[j].t.team))) &&
      (forall i, j :: 0 <= i < j < |r| ==> r[i].t.team != r[j].t.team) &&
      (forall t :: t != "" && Named(players, StatsTeam, t) <==> Shown(r, t)) &&
      forall s :: s in r ==> s.value == s.t.members == HeadCount(players, StatsTeam, s.t.team)
  {
    var ts := Tallies(players, ids, StatsTeam);
    var rows := Rows(ts, Members);
    var r := TeamStats(players, ids);
    TalliesAccount(players, ids, StatsTeam);
    StatsFromRows(ts);
    RowsSorted(ts, Members, r);
    ChainKeyBefore(ts, Members, r);
    forall t
      ensures t != "" && Named(players, StatsTeam, t) <==> Shown(r, t)
    {
      StatsNamed(players, ids, t);
    }
    forall s | s in r
      ensures s.value == s.t.members == HeadCount(players, StatsTeam, s.t.team)
    {
      var i :| 0 <= i < |ts| && rows[i] == s;
      StatsCount(players, ids, i);
    }
  }

  /** The head counts sorted from the keys: the team rows, chained by count and key place. */
  lemma StatsFromRows(ts: seq<Tally>)
    requires Distinct(ts)
    ensures var r := SortBy(Keys(Rows(ts, Members)), Higher);
      multiset(r) == multiset(Rows(ts, Members)) && Chain(r, Higher, Order) &&
      forall s :: s in r ==> s in multiset(Rows(ts, Members))
  {
    var r := SortBy(Keys(Rows(ts, Members)), Higher);
    KeysIncreasing(ts, Members);
    HigherStrictWeak();
    SortChain(Keys(Rows(ts, Members)), Higher, Order);
    forall s | s in r
      ensures s in multiset(Rows(ts, Members))
    {
      assert s in multiset(r);
    }
  }

  /** Player 1 of team "B" and player 2 of team "7". */
  function NumberedTable(): map<PlayerId, Player>
  {
    map[1 := Member("B", Active, 0, 0), 2 := Member("7", Active, 0, 0)]
  }

  lemma NumberedTallies()
    ensures Tallies(NumberedTable(), [1, 2], StatsTeam) == [Tally("B", 0, 0, 1), Tally("7", 0, 0, 1)]
  {
    var players := NumberedTable();
    var ids: seq<PlayerId> := [1, 2];
    var first := [Tally("B", 0, 0, 1)];
    assert ids[..1] == [1] && [1][..0] == [];
    assert Tallies(players, [1], StatsTeam) == first;
    assert Find(first, "7") == -1;
  }

  lemma NumberedKeys()
    ensures ArrayIndex("7") && Num("7") == 7 && !ArrayIndex("B")
  {
    assert Decimal(7) == "7";
    assert Num("B") == 0;
    assert Decimal(0) == "0";
  }

  /** With equal head counts, team "7" is listed before team "B", met first. */
  lemma IndexKeyFirst()
    ensures var r := TeamStats(NumberedTable(), [1, 2]);
      |r| == 2 && r[0].t.team == "7" && r[1].t.team == "B"
  {
    var ts := [Tally("B", 0, 0, 1), Tally("7", 0, 0, 1)];
    NumberedTallies();
    NumberedKeys();
    var rows := Rows(ts, Members);
    assert rows == [Standing(ts[0], 1, INDEX_LIMIT), Standing(ts[1], 1, 7)];
    SortPair(rows[0], rows[1], Earlier);
    var keys := [rows[1], rows[0]];
    SortPair(keys[0], keys[1], Higher);
  }

  /** A team has a head-count row exactly when some player counts for it. */
  lemma StatsNamed(players: map<PlayerId, Player>, ids: seq<PlayerId>, t: string)
    requires Lists(ids, players)
    ensures t != "" && Named(players, StatsTeam, t) <==> Shown(Rows(Tallies(players, ids, StatsTeam), Members), t)
  {
    var ts := Tallies(players, ids, StatsTeam);
    TalliesAccount(players, ids, StatsTeam);
    NamedFielded(players, ids, StatsTeam, t);
    assert Listed(ts, t) <==> Shown(Rows(ts, Members), t);
  }

  /** Row `i` of the head counts counts exactly the players of its team. */
  lemma StatsCount(players: map<PlayerId, Player>, ids: seq<PlayerId>, i: nat)
    requires Lists(ids, players)
    requires i < |Tallies(players, ids, StatsTeam)|
    ensures var s := Rows(Tallies(players, ids, StatsTeam), Members)[i];
      s.value == s.t.members == HeadCount(players, StatsTeam, s.t.team)
  {
    var ts := Tallies(players, ids, StatsTeam);
    TalliesAccount(players, ids, StatsTeam);
    var rows := Rows(ts, Members);
    assert rows[i] == Standing(ts[i], ts[i].members, KeyRank(ts[i].team, i));
    assert Sum(ts[i], Roster(players, ids, StatsTeam, ts[i].team));
    RosterSize(players, ids, StatsTeam, ts[i].team);
  }

  /** A sort of the rows of distinct teams: the same rows, still one per team. */
  lemma RowsSorted(ts: seq<Tally>, value: Tally -> nat, r: seq<Standing>)
    requires Distinct(ts) && multiset(r) == multiset(Rows(ts, value)) && Chain(r, Higher, Order)
    ensures forall s :: s in r ==> exists i :: 0 <= i < |ts| && Rows(ts, value)[i] == s
    ensures forall t :: Shown(r, t) <==> Shown(Rows(ts, value), t)
    ensures forall i, j :: 0 <= i < j < |r| ==> r[i].t.team != r[j].t.team
  {
    RowsFrom(ts, value, r);
    RowsShown(Rows(ts, value), r);
    forall i, j | 0 <= i < j < |r|
      ensures r[i].t.team != r[j].t.team
    {
      RowsApart(ts, value, r, i, j);
    }
  }

  lemma RowsFrom(ts: seq<Tally>, value: Tally -> nat, r: seq<Standing>)
    requires multiset(r) == multiset(Rows(ts, value))
    ensures forall s :: s in r ==> exists i :: 0 <= i < |ts| && Rows(ts, value)[i] == s
  {
    var rows := Rows(ts, value);
    forall s | s in r
      ensures exists i :: 0 <= i < |ts| && rows[i] == s
    {
      assert s in multiset(rows);
    }
  }

  lemma RowsShown(rows: seq<Standing>, r: seq<Standing>)
    requires multiset(r) == multiset(rows)
    ensures forall t :: Shown(r, t) <==> Shown(rows, t)
  {
    forall t
      ensures Shown(r, t) <==> Shown(rows, t)
    {
      if Shown(r, t) {
        var i :| 0 <= i < |r| && r[i].t.team == t;
        assert r[i] in multiset(rows);
      }
      if Shown(rows, t) {
        var i :| 0 <= i < |rows| && rows[i].t.team == t;
        assert rows[i] in multiset(r);
      }
    }
  }

  lemma RowsApart(ts: seq<Tally>, value: Tally -> nat, r: seq<Standing>, i: nat, j: nat)
    requires Distinct(ts) && multiset(r) == multiset(Rows(ts, value)) && Chain(r, Higher, Order)
    requires i < j < |r|
    ensures r[i].t.team != r[j].t.team
  {
    var rows := Rows(ts, value);
    assert r[i] in multiset(rows) && r[j] in multiset(rows);
    var a :| 0 <= a < |rows| && rows[a] == r[i];
    var b :| 0 <= b < |rows| && rows[b] == r[j];
    assert Ahead(r[i], r[j], Higher, Order);
  }

  /** Over a listing of the table, a team is fielded exactly when some player of the table counts for it. */
  lemma NamedFielded(players: map<PlayerId, Player>, ids: seq<PlayerId>, key: Player -> string, t: string)
    requires Lists(ids, players)
    ensures Named(players, key, t) <==> Fielded(players, ids, key, t)
  {
    if Named(players, key, t) {
      var q :| q in players && key(players[q]) == t;
      var k :| 0 <= k < |ids| && ids[k] == q;
    }
    if Fielded(players, ids, key, t) {
      var k :| 0 <= k < |ids| && key(players[ids[k]]) == t;
      assert ids[k] in players;
    }
  }

  /** The ids among `ids` counted for team `t`. */
  ghost function Holders(players: map<PlayerId, Player>, ids: seq<PlayerId>, key: Player -> string, t: string): set<PlayerId>
    requires forall i :: 0 <= i < |ids| ==> ids[i] in players
  {
    set k | 0 <= k < |ids| && key(players[ids[k]]) == t :: ids[k]
  }

  /** Over a listing of the table, a roster has one entry per player counted for its team. */
  lemma RosterSize(players: map<PlayerId, Player>, ids: seq<PlayerId>, key: Player -> string, t: string)
    requires Lists(ids, players)
    ensures |Roster(players, ids, key, t)| == HeadCount(players, key, t)
  {
    RosterHolders(players, ids, key, t);
    assert Holders(players, ids, key, t) == set q | q in players && key(players[q]) == t by {
      forall q | q in players && key(players[q]) == t
        ensures q in Holders(players, ids, key, t)
      {
        var k :| 0 <= k < |ids| && ids[k] == q;
      }
    }
  }

  lemma {:induction false} RosterHolders(players: map<PlayerId, Player>, ids: seq<PlayerId>, key: Player -> string, t: string)
    requires forall i :: 0 <= i < |ids| ==> ids[i] in players
    requires forall i, j :: 0 <= i < j < |ids| ==> ids[i] < ids[j]
    ensures |Roster(players, ids, key, t)| == |Holders(players, ids, key, t)|
  {
    if ids != [] {
      var init := ids[..|ids| - 1];
      var last := ids[|ids| - 1];
      RosterHolders(players, init, key, t);
      var h := Holders(players, init, key, t);
      var more := if key(players[last]) == t then {last} else {};
      HoldersSnoc(players, ids, key, t);
      assert last !in h by {
        forall q | q in h
          ensures q < last
        {
          var k :| 0 <= k < |init| && key(players[init[k]]) == t && init[k] == q;
          assert ids[k] == q;
        }
      }
      assert |h + more| == |h| + |more|;
    }
  }

  lemma HoldersSnoc(players: map<PlayerId, Player>, ids: seq<PlayerId>, key: Player -> string, t: string)
    requires forall i :: 0 <= i < |ids| ==> ids[i] in players
    requires ids != []
    ensures var last := ids[|ids| - 1];
      Holders(players, ids, key, t) ==
      Holders(players, ids[..|ids| - 1], key, t) + (if key(players[last]) == t then {last} else {})
  {
    var init := ids[..|ids| - 1];
    forall q | q in Holders(players, ids, key, t)
      ensures q in Holders(players, init, key, t) || (q == ids[|ids| - 1] && key(players[q]) == t)
    {
      var k :| 0 <= k < |ids| && key(players[ids[k]]) == t && ids[k] == q;
      if k < |init| {
        assert init[k] == q;
      }
    }
    forall q | q in Holders(players, init, key, t)
      ensures q in Holders(players, ids, key, t)
    {
      var k :| 0 <= k < |init| && key(players[init[k]]) == t && init[k] == q;
      assert ids[k] == q;
    }
  }
}
