/**
 * The grid-trail bookkeeping of the v5 tick (server.v5.js): the rounding
 * that places the intermediate cells of a long step, the interpolation loop
 * that inserts a corner cell on every diagonal step so that the trail stays
 * 4-connected, and the two pixel-space hit tests (self-intersection and
 * cutting another player's trail).
 */
module TrailV5 {
  import opened Common
  import opened GameState

  /**
   * `Math.round(x0 + d * i / s)` over the integers: half-way values round
   * up, which is `floor((2 * (x0 * s + d * i) + s) / (2 * s))`.
   */
  function RoundStep(x0: int, d: int, i: int, s: int): int
    requires s > 0
  {
    (2 * (x0 * s + d * i) + s) / (2 * s)
  }

  /** Multiplying by a positive `m` keeps the order. */
  lemma MulMono(j: int, k: int, m: int)
    requires m > 0
    ensures j <= k ==> j * m <= k * m
  {
    if j <= k {
      assert k * m - j * m == (k - j) * m;
    }
  }

  /** `(q * m + r) / m == q` for a remainder `r` in range. */
  lemma DivExact(q: int, r: int, m: int)
    requires m > 0 && 0 <= r < m
    ensures (q * m + r) / m == q
  {
    var a := q * m + r;
    var k := a / m - q;
    assert a == (a / m) * m + a % m;
    assert k * m == r - a % m by {
      assert (a / m) * m == (k + q) * m == k * m + q * m;
    }
    MulMono(1, k, m);
    MulMono(k, -1, m);
  }

  /** Step 0 of the rounding is the start and step `s` is the end. */
  lemma RoundEnds(x0: int, d: int, s: int)
    requires s > 0
    ensures RoundStep(x0, d, 0, s) == x0
    ensures RoundStep(x0, d, s, s) == x0 + d
  {
    assert 2 * (x0 * s + d * 0) + s == x0 * (2 * s) + s;
    DivExact(x0, s, 2 * s);
    assert 2 * (x0 * s + d * s) + s == (x0 + d) * (2 * s) + s;
    DivExact(x0 + d, s, 2 * s);
  }

  /**
   * Consecutive rounded points move by at most one cell, in the direction
   * of `d`, when the step count `s` is at least `|d|`.
   */
  lemma RoundClose(x0: int, d: int, i: int, s: int)
    requires s > 0 && Abs(d) <= s
    ensures d >= 0 ==> 0 <= RoundStep(x0, d, i + 1, s) - RoundStep(x0, d, i, s) <= 1
    ensures d <= 0 ==> -1 <= RoundStep(x0, d, i + 1, s) - RoundStep(x0, d, i, s) <= 0
  {
    var m := 2 * s;
    var a := 2 * (x0 * s + d * i) + s;
    var b := 2 * (x0 * s + d * (i + 1)) + s;
    assert b == a + 2 * d by {
      assert d * (i + 1) == d * i + d;
    }
    var qa, ra := a / m, a % m;
    var qb, rb := b / m, b % m;
    var k := qb - qa;
    assert k * m == 2 * d + ra - rb by {
      assert a == qa * m + ra && b == qb * m + rb;
      assert qb * m - qa * m == k * m;
    }
    MulMono(k, -1, m);
    MulMono(2, k, m);
    MulMono(k, -2, m);
    MulMono(1, k, m);
  }

  /** Two cells side by side: one apart along exactly one axis. */
  predicate Adjacent4(a: Pos, b: Pos)
  {
    Abs(a.x - b.x) + Abs(a.y - b.y) == 1
  }

  /** Every cell of `t` from index `from` on is 4-adjacent to the one before it. */
  predicate ConnectedFrom(t: seq<Pos>, from: nat)
  {
    forall k :: from <= k < |t| && k >= 1 ==> Adjacent4(t[k - 1], t[k])
  }

  /** `c` lies from `o` on the side that (dx, dy) points to, axis by axis. */
  predicate Toward(o: Pos, dx: int, dy: int, c: Pos)
  {
    (dx >= 0 ==> c.x >= o.x) && (dx <= 0 ==> c.x <= o.x) &&
    (dy >= 0 ==> c.y >= o.y) && (dy <= 0 ==> c.y <= o.y)
  }

  /**
   * One step of the interpolation loop: the corner (new x, old y) first when
   * the step to `n` is diagonal, then `n` unless it equals the last cell.
   */
  method PushStep(r: seq<Pos>, n: Pos) returns (r': seq<Pos>)
    requires |r| > 0 && Abs(n.x - r[|r| - 1].x) <= 1 && Abs(n.y - r[|r| - 1].y) <= 1
    ensures |r'| == |r| + Abs(n.x - r[|r| - 1].x) + Abs(n.y - r[|r| - 1].y)
    ensures r'[..|r|] == r && r'[|r'| - 1] == n
    ensures forall k :: |r| <= k < |r'| ==> Adjacent4(r'[k - 1], r'[k])
  {
    r' := r;
    var prev := r'[|r'| - 1];
    if prev.x != n.x && prev.y != n.y {
      r' := r' + [Pos(n.x, prev.y)];
      prev := r'[|r'| - 1];
    }
    if prev.x != n.x || prev.y != n.y {
      r' := r' + [n];
    }
  }

  /**
   * The interpolation loop of the tick: from the last trail cell to the new
   * cell (gx, gy) in `max(|dx|, |dy|)` rounded steps, each pushed by
   * `PushStep`. The appended cells walk the trail to (gx, gy) one
   * 4-neighbour at a time, with no detour: there are exactly `|dx| + |dy|`
   * of them.
   */
  method Interpolate(gt: seq<Pos>, gx: int, gy: int) returns (r: seq<Pos>)
    requires |gt| > 0 && gt[|gt| - 1] != Pos(gx, gy)
    ensures |r| == |gt| + Abs(gx - gt[|gt| - 1].x) + Abs(gy - gt[|gt| - 1].y)
    ensures r[..|gt|] == gt
    ensures r[|r| - 1] == Pos(gx, gy)
    ensures ConnectedFrom(r, |gt|)
  {
    var last := gt[|gt| - 1];
    var dx, dy := gx - last.x, gy - last.y;
    var steps := Max(Abs(dx), Abs(dy));
    RoundEnds(last.x, dx, steps);
    RoundEnds(last.y, dy, steps);
    r := gt;
    for i := 1 to steps + 1
      invariant |r| >= |gt| && r[..|gt|] == gt
      invariant Toward(last, dx, dy, r[|r| - 1])
      invariant r[|r| - 1] == Pos(RoundStep(last.x, dx, i - 1, steps), RoundStep(last.y, dy, i - 1, steps))
      invariant |r| == |gt| + Abs(r[|r| - 1].x - last.x) + Abs(r[|r| - 1].y - last.y)
      invariant ConnectedFrom(r, |gt|)
    {
      RoundClose(last.x, dx, i - 1, steps);
      RoundClose(last.y, dy, i - 1, steps);
      var igx := RoundStep(last.x, dx, i, steps);
      var igy := RoundStep(last.y, dy, i, steps);
      assert Toward(r[|r| - 1], dx, dy, Pos(igx, igy));
      ghost var r0 := r;
      r := PushStep(r, Pos(igx, igy));
      Extended(gt, r0, r, last, dx, dy);
    }
  }

  /** A `PushStep` toward (dx, dy) keeps the trail so far, and the walk stays 4-connected and without detour. */
  lemma Extended(gt: seq<Pos>, r0: seq<Pos>, r: seq<Pos>, last: Pos, dx: int, dy: int)
    requires |r0| >= |gt| > 0 && r0[..|gt|] == gt && ConnectedFrom(r0, |gt|)
    requires |r0| == |gt| + Abs(r0[|r0| - 1].x - last.x) + Abs(r0[|r0| - 1].y - last.y)
    requires |r| >= |r0| && r[..|r0|] == r0 && forall k :: |r0| <= k < |r| ==> Adjacent4(r[k - 1], r[k])
    requires |r| == |r0| + Abs(r[|r| - 1].x - r0[|r0| - 1].x) + Abs(r[|r| - 1].y - r0[|r0| - 1].y)
    requires Toward(last, dx, dy, r0[|r0| - 1]) && Toward(last, dx, dy, r[|r| - 1])
    requires Toward(r0[|r0| - 1], dx, dy, r[|r| - 1])
    ensures r[..|gt|] == gt && ConnectedFrom(r, |gt|)
    ensures |r| == |gt| + Abs(r[|r| - 1].x - last.x) + Abs(r[|r| - 1].y - last.y)
  {
    assert r[..|gt|] == r[..|r0|][..|gt|];
    forall k | |gt| <= k < |r| && k >= 1
      ensures Adjacent4(r[k - 1], r[k])
    {
      if k < |r0| {
        assert r[k - 1] == r0[k - 1] && r[k] == r0[k];
      }
    }
  }

  /**
   * The pixel-space proximity test `getDistSq(p, a, b) < r2`: the squared
   * distance from point `p` to the segment from `a` to `b` is below `r2`.
   * Its floating-point geometry is not modelled; the tick takes it as a
   * parameter.
   */
  type Near = (Pos, Pos, Pos, nat) -> bool

  /** Squared radius of the self-intersection test. */
  const SELF_R2: nat := 64
  /** Squared radius of the trail-cut test. */
  const CUT_R2: nat := 225
  /** Number of most recent trail points the self test skips. */
  const SELF_SKIP: nat := 10

  /**
   * The self-intersection rule: only a pixel trail of more than ten points
   * is tested, and only its segments that start more than ten points back.
   */
  predicate SelfHits(near: Near, at: Pos, trail: seq<Pos>)
  {
    |trail| > SELF_SKIP &&
    exists i :: 0 <= i < |trail| - SELF_SKIP && near(at, trail[i], trail[i + 1], SELF_R2)
  }

  /** The self-intersection loop, stopping at the first hit. */
  method SelfHit(near: Near, at: Pos, trail: seq<Pos>) returns (hit: bool)
    ensures hit == SelfHits(near, at, trail)
  {
    hit := false;
    if |trail| > SELF_SKIP {
      var i := 0;
      while i < |trail| - SELF_SKIP && !hit
        invariant 0 <= i <= |trail| - SELF_SKIP
        invariant hit ==> i >= 1 && near(at, trail[i - 1], trail[i], SELF_R2)
        invariant !hit ==> forall k :: 0 <= k < i ==> !near(at, trail[k], trail[k + 1], SELF_R2)
      {
        if near(at, trail[i], trail[i + 1], SELF_R2) {
          hit := true;
        }
        i := i + 1;
      }
    }
  }

  /** Trails of at most ten points never hit themselves. */
  lemma ShortTrailSafe(near: Near, at: Pos, trail: seq<Pos>)
    requires |trail| <= SELF_SKIP
    ensures !SelfHits(near, at, trail)
  {
  }

  /**
   * The self test never looks at the nine most recent points: two trails
   * of the same length that agree up to there give the same answer.
   */
  lemma SelfHitIgnoresRecent(near: Near, at: Pos, t: seq<Pos>, u: seq<Pos>)
    requires |t| == |u| > SELF_SKIP && t[..|t| - SELF_SKIP + 1] == u[..|u| - SELF_SKIP + 1]
    ensures SelfHits(near, at, t) == SelfHits(near, at, u)
  {
    forall i | 0 <= i < |t| - SELF_SKIP
      ensures near(at, t[i], t[i + 1], SELF_R2) == near(at, u[i], u[i + 1], SELF_R2)
    {
      assert t[i] == t[..|t| - SELF_SKIP + 1][i];
      assert t[i + 1] == t[..|t| - SELF_SKIP + 1][i + 1];
    }
  }

  /**
   * The trail-cut rule: the mover at `at` is within reach of one of the
   * target's trail segments, or of the segment from the last trail point
   * to the target itself.
   */
  predicate CutsTrail(near: Near, at: Pos, t: Player)
  {
    |t.trail| > 0 &&
    ((exists i :: 0 <= i < |t.trail| - 1 && near(at, t.trail[i], t.trail[i + 1], CUT_R2)) ||
     near(at, t.trail[|t.trail| - 1], Pos(t.x, t.y), CUT_R2))
  }

  /** The trail-cut loop over the target's segments, stopping at the first hit, then the closing segment. */
  method TrailHit(near: Near, at: Pos, t: Player) returns (hit: bool)
    requires |t.trail| > 0
    ensures hit == CutsTrail(near, at, t)
  {
    hit := false;
    var i := 0;
    while i < |t.trail| - 1 && !hit
      invariant 0 <= i <= |t.trail| - 1
      invariant hit ==> i >= 1 && near(at, t.trail[i - 1], t.trail[i], CUT_R2)
      invariant !hit ==> forall k :: 0 <= k < i ==> !near(at, t.trail[k], t.trail[k + 1], CUT_R2)
    {
      if near(at, t.trail[i], t.trail[i + 1], CUT_R2) {
        hit := true;
      }
      i := i + 1;
    }
    if !hit {
      var last := t.trail[|t.trail| - 1];
      if near(at, last, Pos(t.x, t.y), CUT_R2) {
        hit := true;
      }
    }
  }
}
