/** Ids that are never given back: searches read to the end and dropped without a scrub. */
module MultiplexerLeaks {
  import opened Connection
  import opened Multiplexer
  import opened MultiplexerRouting
  import opened MultiplexerPool
  import MsgId

  /** A search that the loop has handled and whose stream is gone, with no scrub on its way. */
  ghost predicate Leaked(s: State, t: nat)
  {
    && t < |s.ops| && !Pending(s, t) && t in s.retired
    && s.ops[t].id in s.accounts.searching && s.accounts.searching[s.ops[t].id] == t
    && s.ops[t].id !in s.core.scrubs
  }

  /** A stream that ends in the state Done sends no scrub. */
  lemma {:induction false} RetireLeaks(max: int, es: seq<Event>, t: nat)
    requires 1 <= max && IsRun(max, es) && TimeoutFree(es)
    requires Enabled(max, Reach(max, es), Retire(t)) && !Pending(Reach(max, es), t)
    ensures Leaked(Step(max, Reach(max, es), Retire(t)), t)
  {
    PoolRun(max, es);
    var s := Reach(max, es);
    SameQueueSamePending(s, Step(max, s, Retire(t)));
    assert Searching(s) && Scrubbing(s);
  }

  lemma {:induction false} LeakedTake(max: int, s: State, t: nat)
    requires Consistent(s) && Pool(max, s) && Leaked(s, t) && Enabled(max, s, TakeOp)
    ensures Leaked(Step(max, s, TakeOp), t)
  {
    var s' := Step(max, s, TakeOp);
    HeadIsWaiting(max, s, s');
    assert Holders(s, s.core.queue[0].id) == 1;
  }

  lemma {:induction false} LeakedStep(max: int, s: State, e: Event, t: nat)
    requires Consistent(s) && Pool(max, s) && Leaked(s, t) && Enabled(max, s, e) && !e.Timeout?
    ensures Leaked(Step(max, s, e), t)
  {
    var s' := Step(max, s, e);
    match e
    case TakeOp => LeakedTake(max, s, t);
    case Allocate(kind) => PendingAfterAllocate(max, s, kind, t);
    case Send(u) => PendingAfterSend(s, s', u, t);
    case Finish(u) =>
      SameQueueSamePending(s, s');
      assert s.ops[u].id != s.ops[t].id;
    case _ => SameQueueSamePending(s, s');
  }

  /** It stays so in every continuation of the run. */
  lemma {:induction false} LeakedForever(max: int, es: seq<Event>, more: seq<Event>, t: nat)
    requires 1 <= max && IsRun(max, es) && Leaked(Reach(max, es), t)
    requires IsRun(max, es + more) && TimeoutFree(es + more)
    ensures Leaked(Reach(max, es + more), t) && Reach(max, es + more).ops[t] == Reach(max, es).ops[t]
    decreases |more|
  {
    if more == [] {
      assert es + more == es;
    } else {
      var n := |more| - 1;
      var before := es + more[..n];
      assert (es + more)[..|es + more| - 1] == before && (es + more)[|es + more| - 1] == more[n];
      assert forall i :: 0 <= i < |before| ==> before[i] == (es + more)[i];
      LeakedForever(max, es, more[..n], t);
      ConsistentRun(max, before);
      PoolRun(max, before);
      LeakedStep(max, Reach(max, before), more[n], t);
    }
  }

  /** So its id is in use in every later state, and is never handed out again. */
  lemma {:induction false} LeakedIdStaysInUse(max: int, es: seq<Event>, more: seq<Event>, t: nat)
    requires 1 <= max && IsRun(max, es) && Leaked(Reach(max, es), t)
    requires IsRun(max, es + more) && TimeoutFree(es + more)
    ensures Reach(max, es).ops[t].id in Reach(max, es + more).core.inUse
  {
    LeakedForever(max, es, more, t);
    PoolRun(max, es + more);
    var s := Reach(max, es + more);
    assert Holders(s, s.ops[t].id) == if s.ops[t].id in s.core.inUse then 1 else 0;
  }

  // ----- When there are as many of them as there are ids -----

  lemma {:induction false} Interval(n: nat) returns (ids: set<int>)
    ensures |ids| == n && forall x :: x in ids <==> 1 <= x <= n
  {
    ids := {};
    if n > 0 {
      var below := Interval(n - 1);
      ids := below + {n};
    }
  }

  /** A set of leaked searches has as many ids. */
  lemma {:induction false} DistinctIds(s: State, leaked: set<nat>) returns (ids: set<int>)
    requires forall t :: t in leaked ==> Leaked(s, t)
    ensures |ids| == |leaked|
    ensures forall x :: x in ids ==> exists t :: t in leaked && t < |s.ops| && s.ops[t].id == x
    decreases |leaked|
  {
    ids := {};
    if leaked != {} {
      var t :| t in leaked;
      var others := DistinctIds(s, leaked - {t});
      forall u | u in leaked - {t} ensures s.ops[u].id != s.ops[t].id {
      }
      ids := others + {s.ops[t].id};
    }
  }

  lemma {:induction false} FullSet(a: set<int>, b: set<int>)
    requires a <= b && |a| == |b|
    ensures a == b
  {
    assert b == a + (b - a);
    assert |b - a| == 0;
    assert b - a == {};
  }

  /** As many leaked searches as there are ids: from then on nothing can be allocated in any continuation. */
  lemma {:induction false} LeaksExhaust(max: int, es: seq<Event>, more: seq<Event>, leaked: set<nat>, kind: Kind)
    requires 1 <= max && IsRun(max, es) && IsRun(max, es + more) && TimeoutFree(es + more)
    requires |leaked| == max && forall t :: t in leaked ==> Leaked(Reach(max, es), t)
    ensures !Enabled(max, Reach(max, es + more), Allocate(kind))
  {
    var s, s' := Reach(max, es), Reach(max, es + more);
    forall t | t in leaked ensures s.ops[t].id in s'.core.inUse {
      LeakedIdStaysInUse(max, es, more, t);
    }
    var ids := DistinctIds(s, leaked);
    SaneRun(max, es + more);
    var all := Interval(max);
    forall x | x in s'.core.inUse ensures x in all {
      assert 1 <= x <= max;
    }
    forall x | x in ids ensures x in s'.core.inUse {
      var t :| t in leaked && t < |s.ops| && s.ops[t].id == x;
      assert s.ops[t].id in s'.core.inUse;
    }
    FullSet(ids, all);
    MsgId.FirstFreeMeans(max, s'.core.last, s'.core.inUse);
    assert forall id :: 1 <= id <= max ==> id in all;
  }

  // ----- And it does happen -----

  /** k searches have been made one after the other, each read to its Done. */
  ghost predicate Spent(s: State, k: nat)
  {
    && s.core == Core(k, s.core.inUse, [], [], map[], map[], true)
    && (forall x :: x in s.core.inUse <==> 1 <= x <= k)
    && |s.ops| == k && s.unsent == {}
    && forall t :: 0 <= t < k ==> Leaked(s, t)
  }

  /** The next search, up to its being registered. */
  lemma {:induction false} RegisterNext(max: int, es: seq<Event>, k: nat) returns (es': seq<Event>)
    requires k < max && IsRun(max, es) && TimeoutFree(es) && Spent(Reach(max, es), k)
    ensures IsRun(max, es') && TimeoutFree(es')
    ensures var s, s' := Reach(max, es), Reach(max, es');
            && s'.core == Core(k + 1, s.core.inUse + {k + 1}, [], [], map[], map[k + 1 := k], true)
            && s'.ops == s.ops + [Op(k + 1, Search, k)] && s'.unsent == {} && s'.retired == s.retired
            && s'.receivers == s.receivers + {k}
            && forall t :: 0 <= t < k ==> Leaked(s', t)
  {
    var s := Reach(max, es);
    assert MsgId.Ahead(max, k, 1) == k + 1;
    var e1 := es + [Allocate(Search)];
    KeepLeaks(max, es, Allocate(Search), k);
    assert Reach(max, e1).unsent == {k};
    var e2 := e1 + [Send(k)];
    KeepLeaks(max, e1, Send(k), k);
    assert Reach(max, e2).core.queue == [Op(k + 1, Search, k)];
    es' := e2 + [TakeOp];
    KeepLeaks(max, e2, TakeOp, k);
  }

  /** A step of a run, and what has leaked before it. */
  lemma {:induction false} KeepLeaks(max: int, es: seq<Event>, e: Event, k: nat)
    requires 1 <= max && IsRun(max, es) && TimeoutFree(es) && !e.Timeout? && Enabled(max, Reach(max, es), e)
    requires forall t :: 0 <= t < k ==> Leaked(Reach(max, es), t)
    ensures IsRun(max, es + [e]) && TimeoutFree(es + [e])
    ensures Reach(max, es + [e]) == Step(max, Reach(max, es), e)
    ensures forall t :: 0 <= t < k ==> Leaked(Reach(max, es + [e]), t)
  {
    RunOn(max, es, e);
    ConsistentRun(max, es);
    PoolRun(max, es);
    forall t | 0 <= t < k ensures Leaked(Step(max, Reach(max, es), e), t) {
      LeakedStep(max, Reach(max, es), e, t);
    }
  }

  lemma {:induction false} SpendNext(max: int, es: seq<Event>, k: nat) returns (es': seq<Event>)
    requires k < max && IsRun(max, es) && TimeoutFree(es) && Spent(Reach(max, es), k)
    ensures IsRun(max, es') && TimeoutFree(es') && Spent(Reach(max, es'), k + 1)
  {
    var e3 := RegisterNext(max, es, k);
    var done := Respond(Response(k + 1, SEARCH_DONE, 0));
    KeepLeaks(max, e3, done, k);
    var e4 := e3 + [done];
    var s4 := Reach(max, e4);
    assert s4.core.searchmap == map[] && !Pending(s4, k);
    ConsistentRun(max, e3);
    NotRetired(max, es);
    KeepLeaks(max, e4, Retire(k), k);
    RetireLeaks(max, e4, k);
    es' := e4 + [Retire(k)];
  }

  /** Only streams that exist are retired. */
  lemma {:induction false} NotRetired(max: int, es: seq<Event>)
    requires IsRun(max, es)
    ensures forall t :: t in Reach(max, es).retired ==> t < |Reach(max, es).ops|
  {
    if es != [] {
      NotRetired(max, es[..|es| - 1]);
    }
  }

  lemma {:induction false} SpendAll(max: int, k: nat) returns (es: seq<Event>)
    requires 1 <= max && k <= max
    ensures IsRun(max, es) && TimeoutFree(es) && Spent(Reach(max, es), k)
  {
    es := [];
    if k > 0 {
      var before := SpendAll(max, k - 1);
      es := SpendNext(max, before, k - 1);
    }
  }

  /**
   * For every number of ids there is a run without timeouts after which no operation is live, and yet nothing can
   * be allocated any more: as many searches as there are ids, each read to its Done.
   */
  lemma {:induction false} IdsRunOut(max: int) returns (es: seq<Event>)
    requires 1 <= max
    ensures IsRun(max, es) && TimeoutFree(es)
    ensures var s := Reach(max, es);
            && (forall t :: 0 <= t < |s.ops| ==> s.ops[t].kind.Search? && !Live(s, t))
            && forall kind :: !Enabled(max, s, Allocate(kind))
  {
    es := SpendAll(max, max);
    var s := Reach(max, es);
    PoolRun(max, es);
    MsgId.FirstFreeMeans(max, s.core.last, s.core.inUse);
    forall t | 0 <= t < |s.ops| ensures s.ops[t].kind.Search? && !Live(s, t) {
      assert Leaked(s, t) && Searching(s);
      assert !Registered(s, t);
    }
  }
}
