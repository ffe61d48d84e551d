/** The message id allocator that all handles of a connection share. The largest id is a parameter. */
module MsgId {
  import opened Bytes

  /** What holds of the counter and the set of ids in use in every reachable state. */
  ghost predicate Sane(max: int, last: int, inUse: set<int>)
  {
    && 1 <= max && 0 <= last <= max
    && (forall x :: x in inUse ==> 1 <= x <= max)
    && (last == 0 ==> inUse == {})
  }

  /** The k-th id after last, going round from max to 1. */
  function Ahead(max: int, last: int, k: int): (id: int)
    requires 0 <= last <= max && 0 <= k <= max
    ensures k > 0 ==> 1 <= id <= max
  {
    if last + k <= max then last + k else last + k - max
  }

  /** The number of steps to the first free id, looking from the k-th on. */
  function StepsFrom(max: int, last: int, inUse: set<int>, k: int): (r: Option<int>)
    requires 0 <= last <= max && 1 <= k
    ensures r.Some? ==> k <= r.value <= max
    decreases max - k
  {
    if k > max then None
    else if Ahead(max, last, k) !in inUse then Some(k)
    else StepsFrom(max, last, inUse, k + 1)
  }

  function Steps(max: int, last: int, inUse: set<int>): (r: Option<int>)
    requires 0 <= last <= max
    ensures r.Some? ==> 1 <= r.value <= max
  {
    StepsFrom(max, last, inUse, 1)
  }

  /** The id that would be handed out; None when the assertion of the source fires. */
  function FirstFree(max: int, last: int, inUse: set<int>): (r: Option<int>)
    requires 0 <= last <= max
  {
    match Steps(max, last, inUse)
    case None => None
    case Some(k) => Some(Ahead(max, last, k))
  }

  class MsgMap {
    const max: int
    var last: int
    var inUse: set<int>

    ghost predicate Valid()
      reads this
    {
      Sane(max, last, inUse)
    }

    constructor (max: int)
      requires 1 <= max
      ensures this.max == max && Valid() && last == 0 && inUse == {}
    {
      this.max := max;
      last, inUse := 0, {};
    }

    /** next_msgid. It terminates because a counter that never moved leaves the set empty. */
    method NextMsgId() returns (r: Option<int>)
      requires Valid()
      modifies this
      ensures Valid()
      ensures r == FirstFree(max, old(last), old(inUse))
      ensures r.Some? ==> last == r.value && inUse == old(inUse) + {r.value}
      ensures r.None? ==> last == old(last) && inUse == old(inUse)
    {
      var next := last;
      ghost var k := 0;
      while true
        invariant 0 <= k < max && next == Ahead(max, last, k)
        invariant StepsFrom(max, last, inUse, k + 1) == Steps(max, last, inUse)
        decreases max - k
      {
        if next == max {
          next := 1;
        } else {
          next := next + 1;
        }
        k := k + 1;
        if next !in inUse {
          break;
        }
        if next == last {
          return None;
        }
      }
      last := next;
      inUse := inUse + {next};
      return Some(next);
    }

    method Release(id: int)
      requires Valid()
      modifies this
      ensures Valid() && last == old(last) && inUse == old(inUse) - {id}
    {
      inUse := inUse - {id};
    }
  }

  lemma {:induction false} StepsFromMeans(max: int, last: int, inUse: set<int>, k: int)
    requires 0 <= last <= max && 1 <= k <= max + 1
    ensures var r := StepsFrom(max, last, inUse, k);
            var end := if r.Some? then r.value else max + 1;
            && (forall j :: k <= j < end ==> Ahead(max, last, j) in inUse)
            && (r.Some? ==> Ahead(max, last, r.value) !in inUse)
    decreases max - k
  {
    if k <= max && Ahead(max, last, k) in inUse {
      StepsFromMeans(max, last, inUse, k + 1);
    }
  }

  /** Every id is met once on a full round. */
  lemma {:induction false} RoundCovers(max: int, last: int, id: int)
    requires 0 <= last <= max && 1 <= id <= max
    ensures var j := if id > last then id - last else id - last + max;
            1 <= j <= max && Ahead(max, last, j) == id
  {
  }

  /**
   * The id handed out is the first free one going round from the last, and nothing is handed out exactly
   * when every id from 1 to max is in use.
   */
  lemma {:induction false} FirstFreeMeans(max: int, last: int, inUse: set<int>)
    requires 1 <= max && 0 <= last <= max
    ensures var r := FirstFree(max, last, inUse);
            && (r.None? <==> forall id :: 1 <= id <= max ==> id in inUse)
            && (r.Some? ==> 1 <= r.value <= max && r.value !in inUse)
            && (r.Some? ==> exists k :: 1 <= k <= max && Ahead(max, last, k) == r.value
                                        && forall j :: 1 <= j < k ==> Ahead(max, last, j) in inUse)
  {
    StepsFromMeans(max, last, inUse, 1);
    var steps := Steps(max, last, inUse);
    if steps.Some? {
      assert 1 <= steps.value <= max;
    } else {
      forall id | 1 <= id <= max ensures id in inUse {
        RoundCovers(max, last, id);
      }
    }
  }

  // ----- Reuse distance -----

  datatype PoolEvent = Take | Free(id: int)

  datatype Pool = Pool(last: int, inUse: set<int>)

  /** An id the counter passed over: handed out, or found in use. */
  datatype Pass = HandedOut(id: int) | FoundInUse(id: int)

  function Passes(max: int, p: Pool, k: int): (ps: seq<Pass>)
    requires 0 <= p.last <= max && 0 <= k <= max
    ensures |ps| == k
  {
    if k == 0 then []
    else
      var id := Ahead(max, p.last, k);
      Passes(max, p, k - 1) + [if id in p.inUse then FoundInUse(id) else HandedOut(id)]
  }

  ghost predicate Can(max: int, p: Pool, e: PoolEvent)
  {
    && Sane(max, p.last, p.inUse)
    && (e.Take? ==> FirstFree(max, p.last, p.inUse).Some?)
  }

  ghost function Next(max: int, p: Pool, e: PoolEvent): Pool
    requires Can(max, p, e)
  {
    match e
    case Free(id) => p.(inUse := p.inUse - {id})
    case Take =>
      var id := FirstFree(max, p.last, p.inUse).value;
      Pool(id, p.inUse + {id})
  }

  ghost function StepsOf(max: int, p: Pool, e: PoolEvent): (k: int)
    requires Can(max, p, e)
    ensures 0 <= k <= max && (e.Take? ==> k > 0 && Next(max, p, e).last == Ahead(max, p.last, k))
  {
    if e.Take? then Steps(max, p.last, p.inUse).value else 0
  }

  ghost predicate CanRun(max: int, p: Pool, es: seq<PoolEvent>)
    decreases |es|
  {
    es == [] || (Can(max, p, es[0]) && CanRun(max, Next(max, p, es[0]), es[1..]))
  }

  ghost function After(max: int, p: Pool, es: seq<PoolEvent>): Pool
    requires CanRun(max, p, es)
    decreases |es|
  {
    if es == [] then p else After(max, Next(max, p, es[0]), es[1..])
  }

  /** Everything the counter passes over during a run. */
  ghost function PassedIn(max: int, p: Pool, es: seq<PoolEvent>): seq<Pass>
    requires CanRun(max, p, es)
    decreases |es|
  {
    if es == [] then []
    else Passes(max, p, StepsOf(max, p, es[0])) + PassedIn(max, Next(max, p, es[0]), es[1..])
  }

  lemma {:induction false} PassAt(max: int, p: Pool, k: int, j: int)
    requires 0 <= p.last <= max && 0 <= k <= max && 1 <= j <= k
    ensures Passes(max, p, k)[j - 1].id == Ahead(max, p.last, j)
  {
    if j < k {
      PassAt(max, p, k - 1, j);
    }
  }

  /** A take passes over ids in use until the one it hands out. */
  lemma {:induction false} TakePasses(max: int, p: Pool, j: int)
    requires Can(max, p, Take) && 1 <= j <= StepsOf(max, p, Take)
    ensures var k := StepsOf(max, p, Take);
            Passes(max, p, k)[j - 1]
            == if j < k then FoundInUse(Ahead(max, p.last, j)) else HandedOut(Next(max, p, Take).last)
  {
    var k := StepsOf(max, p, Take);
    StepsFromMeans(max, p.last, p.inUse, 1);
    PassKind(max, p, k, j);
  }

  lemma {:induction false} PassKind(max: int, p: Pool, k: int, j: int)
    requires 0 <= p.last <= max && 0 <= k <= max && 1 <= j <= k
    ensures var id := Ahead(max, p.last, j);
            Passes(max, p, k)[j - 1] == if id in p.inUse then FoundInUse(id) else HandedOut(id)
  {
    if j < k {
      PassKind(max, p, k - 1, j);
    }
  }

  ghost predicate Passed(ps: seq<Pass>, id: int)
  {
    exists i :: 0 <= i < |ps| && ps[i].id == id
  }

  lemma {:induction false} PassedEither(a: seq<Pass>, b: seq<Pass>, id: int)
    requires Passed(a, id) || Passed(b, id)
    ensures Passed(a + b, id)
  {
    if Passed(a, id) {
      var i :| 0 <= i < |a| && a[i].id == id;
      assert (a + b)[i].id == id;
    } else {
      var i :| 0 <= i < |b| && b[i].id == id;
      assert (a + b)[|a| + i].id == id;
    }
  }

  /**
   * From the counter standing t steps after x, a run that ends with the counter on x again has passed over
   * every id that the first t steps have not.
   */
  lemma {:induction false} ReturnPasses(max: int, x: int, t: int, p: Pool, es: seq<PoolEvent>, j: int)
    requires CanRun(max, p, es) && 1 <= x <= max && 0 <= t < max && p.last == Ahead(max, x, t)
    requires t < j <= max
    requires After(max, p, es).last == x && (t > 0 || Take in es)
    ensures Passed(PassedIn(max, p, es), Ahead(max, x, j))
    decreases |es|
  {
    assert es != [];
    var e, p', rest := es[0], Next(max, p, es[0]), es[1..];
    var k := StepsOf(max, p, e);
    var now := Passes(max, p, k);
    if e.Take? && j <= t + k {
      PassAt(max, p, k, j - t);
      assert now[j - t - 1].id == Ahead(max, x, j);
      assert Passed(now, Ahead(max, x, j));
    } else {
      ReturnPasses(max, x, t + k, p', rest, j);
    }
    PassedEither(now, PassedIn(max, p', rest), Ahead(max, x, j));
  }

  /**
   * Reuse distance: however takes and frees are interleaved, when the counter that stands on x is on x again
   * after some take, it has passed over every id from 1 to max on the way.
   */
  lemma {:induction false} ReuseDistance(max: int, x: int, p: Pool, es: seq<PoolEvent>, id: int)
    requires CanRun(max, p, es) && p.last == x && Take in es && After(max, p, es).last == x
    requires 1 <= x <= max && 1 <= id <= max
    ensures Passed(PassedIn(max, p, es), id)
  {
    RoundCovers(max, x, id);
    ReturnPasses(max, x, 0, p, es, if id > x then id - x else id - x + max);
  }
}
