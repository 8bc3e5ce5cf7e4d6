/**
 * The short-id pool of modules/game.js (`generateShortId`): a counter that
 * walks 1..65535 cyclically and a set of ids in use.
 */
module ShortIds {
  import opened GameState

  /** The counter's successor: `nextShortId++`, then back to 1 past 65535. */
  function Succ(n: nat): (r: nat)
    requires 1 <= n <= MAX_SHORT_ID
    ensures 1 <= r <= MAX_SHORT_ID
    ensures r == if n == MAX_SHORT_ID then 1 else n + 1
  {
    if n + 1 > MAX_SHORT_ID then 1 else n + 1
  }

  /** The id probed after `k` steps from `start`. */
  function Probe(start: nat, k: nat): (r: nat)
    requires 1 <= start <= MAX_SHORT_ID
    ensures 1 <= r <= MAX_SHORT_ID
  {
    (start - 1 + k) % MAX_SHORT_ID + 1
  }

  /** Probing one step further is one more application of `Succ`. */
  lemma ProbeStep(start: nat, k: nat)
    requires 1 <= start <= MAX_SHORT_ID
    ensures Probe(start, k + 1) == Succ(Probe(start, k))
  {
    var m := start - 1 + k;
    var q, r := m / MAX_SHORT_ID, m % MAX_SHORT_ID;
    assert m == q * MAX_SHORT_ID + r;
    if r + 1 < MAX_SHORT_ID {
      assert m + 1 == q * MAX_SHORT_ID + (r + 1);
    } else {
      assert m + 1 == (q + 1) * MAX_SHORT_ID;
    }
  }

  /** Every id of the pool is probed within one full cycle from any start. */
  lemma ProbeCoversPool(start: nat, id: nat)
    requires 1 <= start <= MAX_SHORT_ID && 1 <= id <= MAX_SHORT_ID
    ensures exists k :: 0 <= k < MAX_SHORT_ID && Probe(start, k) == id
  {
    var k := (id - start + MAX_SHORT_ID) % MAX_SHORT_ID;
    assert Probe(start, k) == id;
  }

  /** A full cycle of probes brings the counter back to where it started. */
  lemma ProbeFullCycle(start: nat)
    requires 1 <= start <= MAX_SHORT_ID
    ensures Probe(start, MAX_SHORT_ID) == start
  {
  }

  /**
   * `generateShortId`: probes at most 65535 ids from `nextShortId`; the
   * first free one is marked used and returned, and 0 means every id of
   * the pool was already in use.
   */
  method GenerateShortId(w: World) returns (id: nat)
    requires w.Valid()
    modifies w`nextShortId, w`usedShortIds
    ensures w.Valid()
    ensures id == 0 ==>
      w.usedShortIds == old(w.usedShortIds) && w.nextShortId == old(w.nextShortId) &&
      forall i :: 1 <= i <= MAX_SHORT_ID ==> i in old(w.usedShortIds)
    ensures id != 0 ==>
      1 <= id <= MAX_SHORT_ID && id !in old(w.usedShortIds) &&
      w.usedShortIds == old(w.usedShortIds) + {id} && w.nextShortId == Succ(id) &&
      exists k :: 0 <= k < MAX_SHORT_ID && id == Probe(old(w.nextShortId), k) &&
        forall j :: 0 <= j < k ==> Probe(old(w.nextShortId), j) in old(w.usedShortIds)
  {
    ghost var start := w.nextShortId;
    var limit := MAX_SHORT_ID;
    while limit > 0
      invariant 0 <= limit <= MAX_SHORT_ID
      invariant w.Valid() && w.usedShortIds == old(w.usedShortIds)
      invariant w.nextShortId == Probe(start, MAX_SHORT_ID - limit)
      invariant forall j :: 0 <= j < MAX_SHORT_ID - limit ==> Probe(start, j) in w.usedShortIds
    {
      var probe := w.nextShortId;
      w.nextShortId := w.nextShortId + 1;
      if w.nextShortId > MAX_SHORT_ID {
        w.nextShortId := 1;
      }
      ProbeStep(start, MAX_SHORT_ID - limit);
      if probe !in w.usedShortIds {
        w.usedShortIds := w.usedShortIds + {probe};
        return probe;
      }
      limit := limit - 1;
    }
    forall i | 1 <= i <= MAX_SHORT_ID
      ensures i in old(w.usedShortIds)
    {
      ProbeCoversPool(start, i);
    }
    ProbeFullCycle(start);
    return 0;
  }
}
