/** The pool of ids: where every id in use is, and that none is handed out while it is still routed. */
module MultiplexerPool {
  import opened Connection
  import opened Multiplexer
  import opened MultiplexerRouting
  import MsgId

  // ----- The invariant of timeout-free runs -----

  ghost predicate Waiting(s: State)
  {
    && (forall t: nat :: Pending(s, t) ==>
          t < |s.ops| && s.ops[t].id in s.accounts.waiting && s.accounts.waiting[s.ops[t].id] == t)
    && (forall d :: d in s.accounts.waiting ==>
          var t := s.accounts.waiting[d];
          t < |s.ops| && s.ops[t].id == d && Pending(s, t))
  }

  ghost predicate Searching(s: State)
  {
    && (forall d :: d in s.accounts.searching ==>
          var t := s.accounts.searching[d];
          t < |s.ops| && s.ops[t].id == d && s.ops[t].kind.Search? && !Pending(s, t))
    && (forall d :: d in s.core.searchmap ==>
          d in s.accounts.searching && s.accounts.searching[d] == s.core.searchmap[d])
    && (forall t :: 0 <= t < |s.ops| && s.ops[t].kind.Search? && !Pending(s, t) && t !in s.retired ==>
          s.ops[t].id in s.accounts.searching && s.accounts.searching[s.ops[t].id] == t)
  }

  ghost predicate Scrubbing(s: State)
  {
    && (forall i :: 0 <= i < |s.core.scrubs| ==>
          s.core.scrubs[i] in s.accounts.searching && s.accounts.searching[s.core.scrubs[i]] in s.retired)
    && (forall i, j :: 0 <= i < j < |s.core.scrubs| ==> s.core.scrubs[i] != s.core.scrubs[j])
  }

  /** The number of accounts that hold the id. */
  ghost function Holders(s: State, d: int): (n: nat)
    ensures n <= 5
  {
    (if d in s.accounts.waiting then 1 else 0)
    + (if d in s.core.resultmap then 1 else 0)
    + (if d in s.accounts.abandoned then 1 else 0)
    + (if d in s.accounts.searching then 1 else 0)
    + (if d in s.accounts.unbound then 1 else 0)
  }

  /** An id in use is in exactly one account, and any other id in none. */
  ghost predicate Balanced(s: State)
  {
    forall d :: Holders(s, d) == if d in s.core.inUse then 1 else 0
  }

  ghost predicate Pool(max: int, s: State)
  {
    && MsgId.Sane(max, s.core.last, s.core.inUse)
    && Waiting(s) && Searching(s) && Scrubbing(s) && Balanced(s)
  }

  // ----- It is kept -----

  lemma {:induction false} PoolAllocate(max: int, s: State, kind: Kind)
    requires Consistent(s) && Pool(max, s) && Enabled(max, s, Allocate(kind))
    ensures Pool(max, Step(max, s, Allocate(kind)))
  {
    var s' := Step(max, s, Allocate(kind));
    MsgId.FirstFreeMeans(max, s.core.last, s.core.inUse);
    var id := s'.core.last;
    assert Holders(s, id) == 0;
    forall t: nat ensures Pending(s', t) <==> Pending(s, t) || t == |s.ops| {
      PendingAfterAllocate(max, s, kind, t);
    }
    NewIsNotPending(s);
    forall d ensures Holders(s', d) == if d in s'.core.inUse then 1 else 0 {
      assert Holders(s, d) == if d in s.core.inUse then 1 else 0;
    }
  }

  lemma {:induction false} PoolSend(max: int, s: State, u: nat)
    requires Consistent(s) && Pool(max, s) && Enabled(max, s, Send(u))
    ensures Pool(max, Step(max, s, Send(u)))
  {
    var s' := Step(max, s, Send(u));
    forall t: nat ensures Pending(s', t) <==> Pending(s, t) {
      PendingAfterSend(s, s', u, t);
    }
    forall d ensures Holders(s', d) == Holders(s, d) {
    }
  }

  lemma {:induction false} BalancedTake(max: int, s: State, d: int)
    requires Consistent(s) && Pool(max, s) && Enabled(max, s, TakeOp)
    ensures var s' := Step(max, s, TakeOp);
            Holders(s', d) == if d in s'.core.inUse then 1 else 0
  {
    var op := s.core.queue[0];
    assert InQueue(s, op.token) && Pending(s, op.token);
    assert op == s.ops[op.token];
    assert Holders(s, d) == if d in s.core.inUse then 1 else 0;
    assert Holders(s, op.id) == if op.id in s.core.inUse then 1 else 0;
  }

  lemma {:induction false} HeadIsWaiting(max: int, s: State, s': State)
    requires Consistent(s) && Pool(max, s) && s.core.queue != []
    requires s'.core.queue == s.core.queue[1..] && s'.unsent == s.unsent && s'.ops == s.ops
    ensures var op := s.core.queue[0];
            && op.token < |s.ops| && op == s.ops[op.token] && Pending(s, op.token)
            && op.id in s.accounts.waiting && s.accounts.waiting[op.id] == op.token
            && Holders(s, op.id) == 1
            && forall t: nat :: Pending(s', t) <==> Pending(s, t) && t != op.token
  {
    var op := s.core.queue[0];
    assert InQueue(s, op.token) && Pending(s, op.token);
    assert Holders(s, op.id) <= 1;
    forall t: nat ensures Pending(s', t) <==> Pending(s, t) && t != op.token {
      PendingAfterTake(s, s', t);
    }
  }

  lemma {:induction false} WaitingTake(max: int, s: State)
    requires Consistent(s) && Pool(max, s) && Enabled(max, s, TakeOp)
    ensures Waiting(Step(max, s, TakeOp))
  {
    var s' := Step(max, s, TakeOp);
    HeadIsWaiting(max, s, s');
    assert s'.accounts.waiting == s.accounts.waiting - {s.core.queue[0].id};
  }

  lemma {:induction false} SearchingTake(max: int, s: State)
    requires Consistent(s) && Pool(max, s) && Enabled(max, s, TakeOp)
    ensures Searching(Step(max, s, TakeOp)) && Scrubbing(Step(max, s, TakeOp))
  {
    var s' := Step(max, s, TakeOp);
    var op := s.core.queue[0];
    HeadIsWaiting(max, s, s');
    assert s'.accounts.searching
        == if op.kind.Search? then s.accounts.searching[op.id := op.token] else s.accounts.searching;
  }

  lemma {:induction false} PoolTake(max: int, s: State)
    requires Consistent(s) && Pool(max, s) && Enabled(max, s, TakeOp)
    ensures Pool(max, Step(max, s, TakeOp))
  {
    WaitingTake(max, s);
    SearchingTake(max, s);
    forall d ensures var s' := Step(max, s, TakeOp); Holders(s', d) == if d in s'.core.inUse then 1 else 0 {
      BalancedTake(max, s, d);
    }
  }

  lemma {:induction false} PoolScrub(max: int, s: State)
    requires Consistent(s) && Pool(max, s) && Enabled(max, s, TakeScrub)
    ensures Pool(max, Step(max, s, TakeScrub))
  {
    var s' := Step(max, s, TakeScrub);
    SameQueueSamePending(s, s');
    var id := s.core.scrubs[0];
    assert Holders(s, id) <= 1;
    forall d ensures Holders(s', d) == if d in s'.core.inUse then 1 else 0 {
      assert Holders(s, d) == if d in s.core.inUse then 1 else 0;
    }
  }

  lemma {:induction false} PoolRespond(max: int, s: State, m: Response)
    requires Consistent(s) && Pool(max, s) && Enabled(max, s, Respond(m))
    ensures Pool(max, Step(max, s, Respond(m)))
  {
    var s' := Step(max, s, Respond(m));
    SameQueueSamePending(s, s');
    forall d ensures Holders(s', d) == if d in s'.core.inUse then 1 else 0 {
      assert Holders(s, d) == if d in s.core.inUse then 1 else 0;
    }
  }

  lemma {:induction false} PoolStream(max: int, s: State, e: Event)
    requires Consistent(s) && Pool(max, s) && Enabled(max, s, e)
    requires e.DropReceiver? || e.Finish? || e.Retire?
    ensures Pool(max, Step(max, s, e))
  {
    var s' := Step(max, s, e);
    SameQueueSamePending(s, s');
    forall d ensures Holders(s', d) == Holders(s, d) {
    }
  }

  lemma {:induction false} PoolStep(max: int, s: State, e: Event)
    requires Consistent(s) && Pool(max, s) && Enabled(max, s, e) && !e.Timeout?
    ensures Pool(max, Step(max, s, e))
  {
    match e
    case Allocate(kind) => PoolAllocate(max, s, kind);
    case Send(t) => PoolSend(max, s, t);
    case TakeOp => PoolTake(max, s);
    case TakeScrub => PoolScrub(max, s);
    case Respond(m) => PoolRespond(max, s, m);
    case _ => PoolStream(max, s, e);
  }

  lemma {:induction false} PoolRun(max: int, es: seq<Event>)
    requires 1 <= max && IsRun(max, es) && TimeoutFree(es)
    ensures Pool(max, Reach(max, es))
  {
    if es != [] {
      var n := |es| - 1;
      assert forall i :: 0 <= i < n ==> es[..n][i] == es[i];
      PoolRun(max, es[..n]);
      ConsistentRun(max, es[..n]);
      PoolStep(max, Reach(max, es[..n]), es[n]);
    }
  }

  // ----- What it means -----

  /** The ids of the operations that the loop has not handled yet. */
  ghost function PendingIds(s: State): set<int>
  {
    set t | 0 <= t < |s.ops| && Pending(s, t) :: s.ops[t].id
  }

  /**
   * Exact accounting, in every reachable state of a timeout-free run, wraparound included: the ids in use are
   * the disjoint union of the ids not handled yet, the waiting singles, the singles removed by an Abandon, the
   * searches handled and not scrubbed, and the unbinds handled.
   */
  lemma {:induction false} ExactAccounting(max: int, es: seq<Event>)
    requires 1 <= max && IsRun(max, es) && TimeoutFree(es)
    ensures var s := Reach(max, es);
            var waiting, single := PendingIds(s), s.core.resultmap.Keys;
            var abandoned, searching, unbound := s.accounts.abandoned, s.accounts.searching.Keys, s.accounts.unbound;
            && s.core.inUse == waiting + single + abandoned + searching + unbound
            && waiting !! single !! abandoned !! searching !! unbound
            && (forall x :: x in s.core.inUse ==> 1 <= x <= max)
  {
    PoolRun(max, es);
    var s := Reach(max, es);
    WaitingIsPending(s);
    BalancedMeans(s);
  }

  lemma {:induction false} WaitingIsPending(s: State)
    requires Waiting(s)
    ensures PendingIds(s) == s.accounts.waiting.Keys
  {
    forall d ensures d in PendingIds(s) <==> d in s.accounts.waiting {
      if d in s.accounts.waiting {
        assert s.ops[s.accounts.waiting[d]].id == d;
      }
    }
  }

  lemma {:induction false} BalancedMeans(s: State)
    requires Balanced(s)
    ensures var a := s.accounts;
            && s.core.inUse
               == a.waiting.Keys + s.core.resultmap.Keys + a.abandoned + a.searching.Keys + a.unbound
            && a.waiting.Keys !! s.core.resultmap.Keys !! a.abandoned !! a.searching.Keys !! a.unbound
  {
    var a := s.accounts;
    var all := a.waiting.Keys + s.core.resultmap.Keys + a.abandoned + a.searching.Keys + a.unbound;
    forall d ensures d in s.core.inUse <==> d in all {
      assert Holders(s, d) == if d in s.core.inUse then 1 else 0;
    }
    forall d | d in s.core.resultmap.Keys ensures d !in a.waiting.Keys {
      assert Holders(s, d) <= 1;
    }
    forall d | d in a.abandoned ensures d !in a.waiting.Keys + s.core.resultmap.Keys {
      assert Holders(s, d) <= 1;
    }
    forall d | d in a.searching.Keys ensures d !in a.waiting.Keys + s.core.resultmap.Keys + a.abandoned {
      assert Holders(s, d) <= 1;
    }
    forall d | d in a.unbound
      ensures d !in a.waiting.Keys + s.core.resultmap.Keys + a.abandoned + a.searching.Keys
    {
      assert Holders(s, d) <= 1;
    }
  }

  /** In every run, with timeouts too, the allocator finds its counter and set as it needs them to terminate. */
  lemma {:induction false} SaneRun(max: int, es: seq<Event>)
    requires 1 <= max && IsRun(max, es)
    ensures var c := Reach(max, es).core; MsgId.Sane(max, c.last, c.inUse)
  {
    if es != [] {
      var n := |es| - 1;
      SaneRun(max, es[..n]);
      var c := Reach(max, es[..n]).core;
      MsgId.FirstFreeMeans(max, c.last, c.inUse);
    }
  }

  // ----- With timeouts, until the counter wraps -----

  ghost predicate Unwrapped(s: State)
  {
    && s.core.last == |s.ops|
    && (forall t :: 0 <= t < |s.ops| ==> s.ops[t].id == t + 1)
    && (forall x :: x in s.core.inUse ==> 1 <= x <= |s.ops|)
  }

  lemma {:induction false} UnwrappedStep(max: int, s: State, e: Event)
    requires Consistent(s) && Unwrapped(s) && Enabled(max, s, e) && |Step(max, s, e).ops| <= max
    ensures Unwrapped(Step(max, s, e))
  {
    if e.Allocate? {
      assert MsgId.Ahead(max, s.core.last, 1) == |s.ops| + 1;
    }
  }

  lemma {:induction false} UnwrappedRun(max: int, es: seq<Event>)
    requires IsRun(max, es) && |Reach(max, es).ops| <= max
    ensures Unwrapped(Reach(max, es))
  {
    if es != [] {
      var n := |es| - 1;
      UnwrappedRun(max, es[..n]);
      ConsistentRun(max, es[..n]);
      UnwrappedStep(max, Reach(max, es[..n]), es[n]);
    }
  }

  // ----- Any run: timeouts and wraparound -----

  /** No scrub that names an operation still pending is handled. */
  ghost predicate Timely(s: State, e: Event)
  {
    e.TakeScrub? && s.core.scrubs != [] ==>
      forall t :: 0 <= t < |s.ops| && Pending(s, t) ==> s.ops[t].id != s.core.scrubs[0]
  }

  ghost predicate TimelyRun(max: int, es: seq<Event>)
    requires IsRun(max, es)
    decreases |es|
  {
    es == [] || (TimelyRun(max, es[..|es| - 1]) && Timely(Reach(max, es[..|es| - 1]), es[|es| - 1]))
  }

  /** The ids of live operations are in use. */
  ghost predicate Held(s: State)
  {
    forall t :: 0 <= t < |s.ops| && Live(s, t) ==> s.ops[t].id in s.core.inUse
  }

  ghost predicate Unshared(max: int, s: State)
  {
    NoAlias(s) && Held(s) && MsgId.Sane(max, s.core.last, s.core.inUse)
  }

  lemma {:induction false} UnsharedAllocate(max: int, s: State, kind: Kind)
    requires Consistent(s) && Unshared(max, s) && Enabled(max, s, Allocate(kind))
    ensures Unshared(max, Step(max, s, Allocate(kind)))
  {
    var s' := Step(max, s, Allocate(kind));
    MsgId.FirstFreeMeans(max, s.core.last, s.core.inUse);
    NewIsNotPending(s);
    forall t | 0 <= t < |s'.ops| ensures Live(s', t) <==> t == |s.ops| || (t < |s.ops| && Live(s, t)) {
      PendingAfterAllocate(max, s, kind, t);
    }
  }

  lemma {:induction false} UnsharedSend(max: int, s: State, u: nat)
    requires Consistent(s) && Unshared(max, s) && Enabled(max, s, Send(u))
    ensures Unshared(max, Step(max, s, Send(u)))
  {
    var s' := Step(max, s, Send(u));
    forall t | 0 <= t < |s'.ops| ensures Live(s', t) <==> Live(s, t) {
      PendingAfterSend(s, s', u, t);
    }
  }

  /** Only an operation that was live is live after the loop has handled one, and not an abandon itself. */
  lemma {:induction false} LiveAfterTake(max: int, s: State, t: nat)
    requires Consistent(s) && Enabled(max, s, TakeOp) && t < |s.ops| && Live(Step(max, s, TakeOp), t)
    ensures Live(s, t) && (t == s.core.queue[0].token ==> !s.core.queue[0].kind.Abandon?)
  {
    var op := s.core.queue[0];
    PendingAfterTake(s, Step(max, s, TakeOp), t);
    assert InQueue(s, op.token) && op == s.ops[op.token];
  }

  lemma {:induction false} UnsharedTake(max: int, s: State)
    requires Consistent(s) && Unshared(max, s) && Enabled(max, s, TakeOp)
    ensures Unshared(max, Step(max, s, TakeOp))
  {
    var s' := Step(max, s, TakeOp);
    var op := s.core.queue[0];
    assert InQueue(s, op.token) && Live(s, op.token) && op == s.ops[op.token];
    forall t | 0 <= t < |s'.ops| && Live(s', t) ensures Live(s, t) && s.ops[t].id in s'.core.inUse {
      LiveAfterTake(max, s, t);
    }
  }

  lemma {:induction false} UnsharedElse(max: int, s: State, e: Event)
    requires Consistent(s) && Unshared(max, s) && Enabled(max, s, e) && Timely(s, e)
    requires !e.Allocate? && !e.Send? && !e.TakeOp?
    ensures Unshared(max, Step(max, s, e))
  {
    var s' := Step(max, s, e);
    SameQueueSamePending(s, s');
    forall t | 0 <= t < |s'.ops| && Live(s', t) ensures Live(s, t) && s.ops[t].id in s'.core.inUse {
      assert Live(s, t);
      if e.Respond? && RouteOf(s.core, e.m.id).ToSingle? {
        assert Live(s, s.core.resultmap[e.m.id]);
      }
    }
  }

  lemma {:induction false} UnsharedStep(max: int, s: State, e: Event)
    requires Consistent(s) && Unshared(max, s) && Enabled(max, s, e) && Timely(s, e)
    ensures Unshared(max, Step(max, s, e))
  {
    match e
    case Allocate(kind) => UnsharedAllocate(max, s, kind);
    case Send(t) => UnsharedSend(max, s, t);
    case TakeOp => UnsharedTake(max, s);
    case _ => UnsharedElse(max, s, e);
  }

  /** In every timely run no two live operations share an id, and every live id is in use. */
  lemma {:induction false} UnsharedRun(max: int, es: seq<Event>)
    requires 1 <= max && IsRun(max, es) && TimelyRun(max, es)
    ensures Unshared(max, Reach(max, es))
  {
    if es != [] {
      var n := |es| - 1;
      UnsharedRun(max, es[..n]);
      ConsistentRun(max, es[..n]);
      UnsharedStep(max, Reach(max, es[..n]), es[n]);
    }
  }

  /** Ids not handled yet and the keys of both maps are pairwise disjoint, and all of them are in use. */
  lemma {:induction false} RoutedIdsDisjoint(max: int, es: seq<Event>)
    requires 1 <= max && IsRun(max, es) && TimelyRun(max, es)
    ensures var s := Reach(max, es);
            && PendingIds(s) !! s.core.resultmap.Keys !! s.core.searchmap.Keys
            && PendingIds(s) + s.core.resultmap.Keys + s.core.searchmap.Keys <= s.core.inUse
  {
    UnsharedRun(max, es);
    ConsistentRun(max, es);
    var s := Reach(max, es);
    forall d | d in s.core.resultmap ensures d in s.core.inUse && d !in PendingIds(s) && d !in s.core.searchmap {
      assert Live(s, s.core.resultmap[d]);
      NotPendingToo(s, s.core.resultmap[d]);
      if d in s.core.searchmap {
        assert Live(s, s.core.searchmap[d]);
      }
    }
    forall d | d in s.core.searchmap ensures d in s.core.inUse && d !in PendingIds(s) {
      assert Live(s, s.core.searchmap[d]);
      NotPendingToo(s, s.core.searchmap[d]);
    }
  }

  lemma {:induction false} NotPendingToo(s: State, t: nat)
    requires NoAlias(s) && t < |s.ops| && Live(s, t) && !Pending(s, t)
    ensures s.ops[t].id !in PendingIds(s)
  {
    forall u | 0 <= u < |s.ops| && Pending(s, u) ensures s.ops[u].id != s.ops[t].id {
      assert Live(s, u);
    }
  }

  /** An id handed out is not the id of any operation that is still pending or routed. */
  lemma {:induction false} NeverReissued(max: int, es: seq<Event>, kind: Kind, t: nat)
    requires 1 <= max && IsRun(max, es) && TimelyRun(max, es) && Enabled(max, Reach(max, es), Allocate(kind))
    requires t < |Reach(max, es).ops| && Live(Reach(max, es), t)
    ensures Step(max, Reach(max, es), Allocate(kind)).core.last != Reach(max, es).ops[t].id
  {
    var s := Reach(max, es);
    UnsharedRun(max, es);
    MsgId.FirstFreeMeans(max, s.core.last, s.core.inUse);
  }

  // ----- A scrub that is not timely can always make an alias -----

  ghost predicate Allocations(es: seq<Event>)
  {
    forall i :: 0 <= i < |es| ==> es[i].Allocate?
  }

  lemma {:induction false} RunOn(max: int, es: seq<Event>, e: Event)
    requires IsRun(max, es) && Enabled(max, Reach(max, es), e)
    ensures IsRun(max, es + [e]) && Reach(max, es + [e]) == Step(max, Reach(max, es), e)
  {
    assert (es + [e])[..|es|] == es;
  }

  ghost function FreeIds(max: int, inUse: set<int>): set<int>
  {
    set id | 1 <= id <= max && id !in inUse
  }

  /** A pending operation whose id has been freed. */
  ghost predicate Exposed(max: int, s: State, t: nat)
  {
    t < |s.ops| && Pending(s, t) && 1 <= s.ops[t].id <= max && s.ops[t].id !in s.core.inUse
  }

  /** One allocation takes that id, or another one that was free. */
  lemma {:induction false} AllocateBeside(max: int, s: State, t: nat)
    requires Consistent(s) && MsgId.Sane(max, s.core.last, s.core.inUse) && Exposed(max, s, t)
    ensures Enabled(max, s, Allocate(Single))
    ensures var s' := Step(max, s, Allocate(Single));
            if s'.core.last == s.ops[t].id then !NoAlias(s')
            else Exposed(max, s', t) && |FreeIds(max, s'.core.inUse)| < |FreeIds(max, s.core.inUse)|
  {
    MsgId.FirstFreeMeans(max, s.core.last, s.core.inUse);
    var s' := Step(max, s, Allocate(Single));
    PendingAfterAllocate(max, s, Single, t);
    PendingAfterAllocate(max, s, Single, |s.ops|);
    assert Live(s', t) && Live(s', |s.ops|);
    assert s'.core.last in FreeIds(max, s.core.inUse);
    assert FreeIds(max, s'.core.inUse) == FreeIds(max, s.core.inUse) - {s'.core.last};
  }

  lemma {:induction false} AllocateNext(max: int, es: seq<Event>, es': seq<Event>, t: nat)
    requires 1 <= max && IsRun(max, es) && Exposed(max, Reach(max, es), t) && es' == es + [Allocate(Single)]
    ensures IsRun(max, es')
    ensures var s, s' := Reach(max, es), Reach(max, es');
            !NoAlias(s') || (Exposed(max, s', t) && |FreeIds(max, s'.core.inUse)| < |FreeIds(max, s.core.inUse)|)
  {
    ConsistentRun(max, es);
    SaneRun(max, es);
    AllocateBeside(max, Reach(max, es), t);
    RunOn(max, es, Allocate(Single));
  }

  /** Some allocations and nothing else bring two live operations with the same id. */
  ghost predicate CanAlias(max: int, es: seq<Event>)
  {
    exists more :: Allocations(more) && IsRun(max, es + more) && !NoAlias(Reach(max, es + more))
  }

  lemma {:induction false} AliasNow(max: int, es: seq<Event>)
    requires IsRun(max, es) && !NoAlias(Reach(max, es))
    ensures CanAlias(max, es)
  {
    assert Allocations([]) && es + [] == es;
  }

  lemma {:induction false} AliasLater(max: int, es: seq<Event>, es': seq<Event>)
    requires es' == es + [Allocate(Single)] && CanAlias(max, es')
    ensures CanAlias(max, es)
  {
    var later :| Allocations(later) && IsRun(max, es' + later) && !NoAlias(Reach(max, es' + later));
    assert es' + later == es + ([Allocate(Single)] + later);
    assert Allocations([Allocate(Single)] + later);
  }

  /** Where the id of a pending operation is free, the allocator comes round to it. */
  lemma {:induction false} AllocatorComesRound(max: int, es: seq<Event>, t: nat, free: nat)
    requires 1 <= max && IsRun(max, es) && Exposed(max, Reach(max, es), t)
    requires |FreeIds(max, Reach(max, es).core.inUse)| <= free
    ensures CanAlias(max, es)
    decreases free
  {
    var es' := es + [Allocate(Single)];
    AllocateNext(max, es, es', t);
    if NoAlias(Reach(max, es')) {
      AllocatorComesRound(max, es', t, free - 1);
    } else {
      AliasNow(max, es');
    }
    AliasLater(max, es, es');
  }

  lemma {:induction false} IdsInRange(max: int, es: seq<Event>, t: nat)
    requires 1 <= max && IsRun(max, es) && t < |Reach(max, es).ops|
    ensures 1 <= Reach(max, es).ops[t].id <= max
  {
    if es != [] {
      var n := |es| - 1;
      var s := Reach(max, es[..n]);
      SaneRun(max, es[..n]);
      if t < |s.ops| {
        IdsInRange(max, es[..n], t);
      } else {
        MsgId.FirstFreeMeans(max, s.core.last, s.core.inUse);
      }
    }
  }

  lemma {:induction false} UntimelyAliases(max: int, es: seq<Event>)
    requires 1 <= max && IsRun(max, es) && es != []
    requires !Timely(Reach(max, es[..|es| - 1]), es[|es| - 1])
    ensures CanAlias(max, es)
  {
    var s, s' := Reach(max, es[..|es| - 1]), Reach(max, es);
    var t :| 0 <= t < |s.ops| && Pending(s, t) && s.ops[t].id == s.core.scrubs[0];
    SameQueueSamePending(s, s');
    IdsInRange(max, es, t);
    AllocatorComesRound(max, es, t, |FreeIds(max, s'.core.inUse)|);
  }

  /** Whenever in the run the clients go on to allocate, no two live operations share an id. */
  ghost predicate NeverAliases(max: int, es: seq<Event>)
  {
    forall k :: 0 <= k <= |es| ==> !CanAlias(max, es[..k])
  }

  lemma {:induction false} TimelyPrefix(max: int, es: seq<Event>, k: nat)
    requires IsRun(max, es) && TimelyRun(max, es) && k <= |es|
    ensures IsRun(max, es[..k]) && TimelyRun(max, es[..k])
    decreases |es|
  {
    if k == |es| {
      assert es[..k] == es;
    } else {
      TimelyPrefix(max, es[..|es| - 1], k);
      assert es[..|es| - 1][..k] == es[..k];
    }
  }

  lemma {:induction false} TimelyAllocations(max: int, es: seq<Event>, more: seq<Event>)
    requires IsRun(max, es) && TimelyRun(max, es) && Allocations(more) && IsRun(max, es + more)
    ensures TimelyRun(max, es + more)
    decreases |more|
  {
    if more == [] {
      assert es + more == es;
    } else {
      var n := |more| - 1;
      assert (es + more)[..|es + more| - 1] == es + more[..n];
      TimelyAllocations(max, es, more[..n]);
    }
  }

  lemma {:induction false} FirstUntimely(max: int, es: seq<Event>) returns (k: nat)
    requires IsRun(max, es) && !TimelyRun(max, es)
    ensures 0 < k <= |es| && IsRun(max, es[..k]) && IsRun(max, es[..k][..k - 1])
    ensures !Timely(Reach(max, es[..k][..k - 1]), es[..k][k - 1])
    decreases |es|
  {
    var n := |es| - 1;
    if TimelyRun(max, es[..n]) {
      k := |es|;
      assert es[..k] == es;
    } else {
      k := FirstUntimely(max, es[..n]);
      assert es[..n][..k] == es[..k];
    }
  }

  /**
   * The exact condition, over all runs, timeouts and wraparound included: ids stay unshared, whatever is allocated
   * at whatever point, exactly when no scrub is handled before the operation it names.
   */
  lemma {:induction false} NeverAliasesExactlyWhen(max: int, es: seq<Event>)
    requires 1 <= max && IsRun(max, es)
    ensures NeverAliases(max, es) <==> TimelyRun(max, es)
  {
    if TimelyRun(max, es) {
      forall k | 0 <= k <= |es| ensures !CanAlias(max, es[..k]) {
        TimelyPrefix(max, es, k);
        TimelyCannotAlias(max, es[..k]);
      }
    } else {
      var k := FirstUntimely(max, es);
      UntimelyAliases(max, es[..k]);
    }
  }

  lemma {:induction false} TimelyCannotAlias(max: int, es: seq<Event>)
    requires 1 <= max && IsRun(max, es) && TimelyRun(max, es)
    ensures !CanAlias(max, es)
  {
    forall more | Allocations(more) && IsRun(max, es + more) ensures NoAlias(Reach(max, es + more)) {
      TimelyAllocations(max, es, more);
      UnsharedRun(max, es + more);
    }
  }

  /** Without timeouts every scrub is that of a search which the loop has handled. */
  lemma {:induction false} TimeoutFreeIsTimely(max: int, es: seq<Event>)
    requires 1 <= max && IsRun(max, es) && TimeoutFree(es)
    ensures TimelyRun(max, es)
  {
    if es != [] {
      var n := |es| - 1;
      assert forall i :: 0 <= i < n ==> es[..n][i] == es[i];
      TimeoutFreeIsTimely(max, es[..n]);
      PoolRun(max, es[..n]);
      var s := Reach(max, es[..n]);
      if s.core.scrubs != [] {
        assert Holders(s, s.core.scrubs[0]) <= 1;
      }
    }
  }

  // ----- No alias, over runs -----

  /**
   * The runs for which routing is promised: those whose scrubs are all timely, as they are without timeouts, and
   * those with no more operations than there are ids.
   */
  ghost predicate Sound(max: int, es: seq<Event>)
    requires IsRun(max, es)
  {
    1 <= max && (TimelyRun(max, es) || |Reach(max, es).ops| <= max)
  }

  lemma {:induction false} SoundPrefix(max: int, es: seq<Event>)
    requires IsRun(max, es) && Sound(max, es) && es != []
    ensures Sound(max, es[..|es| - 1])
  {
  }

  lemma {:induction false} NoAliasRun(max: int, es: seq<Event>)
    requires IsRun(max, es) && Sound(max, es)
    ensures NoAlias(Reach(max, es))
  {
    if TimelyRun(max, es) {
      UnsharedRun(max, es);
    } else {
      UnwrappedRun(max, es);
    }
  }

  /** In every such run the loop has delivered what the specification says, to whom it says. */
  lemma {:induction false} FaithfulRun(max: int, es: seq<Event>)
    requires IsRun(max, es) && Sound(max, es)
    ensures Faithful(Reach(max, es))
  {
    if es != [] {
      var n := |es| - 1;
      SoundPrefix(max, es);
      FaithfulRun(max, es[..n]);
      ConsistentRun(max, es[..n]);
      NoAliasRun(max, es[..n]);
      FaithfulStep(max, Reach(max, es[..n]), es[n]);
    }
  }

  /** With one id: an operation is allocated, and its timeout is scrubbed before the loop has seen it. */
  lemma {:induction false} ScrubbedEarly() returns (es: seq<Event>)
    ensures IsRun(1, es)
    ensures var s := Reach(1, es);
            s.core == Initial().(last := 1) && s.ops == [Op(1, Single, 0)] && 0 in s.unsent
  {
    MsgId.FirstFreeMeans(1, 0, {});
    RunOn(1, [], Allocate(Single));
    var e1: seq<Event> := [] + [Allocate(Single)];
    assert Reach(1, e1).ops == [Op(1, Single, 0)] && Reach(1, e1).core.inUse == {1};
    RunOn(1, e1, Timeout(0));
    RunOn(1, e1 + [Timeout(0)], TakeScrub);
    es := e1 + [Timeout(0)] + [TakeScrub];
  }

  /** The id is free, and the operation that bears it is still pending: it is handed out again. */
  lemma {:induction false} HandedOutAgain(s: State)
    requires |s.views| == |s.ops| && s.core == Initial().(last := 1) && s.ops == [Op(1, Single, 0)] && 0 in s.unsent
    ensures Enabled(1, s, Allocate(Single)) && !NoAlias(Step(1, s, Allocate(Single)))
  {
    MsgId.FirstFreeMeans(1, 1, {});
    var s' := Step(1, s, Allocate(Single));
    assert s'.ops == [Op(1, Single, 0), Op(1, Single, 1)];
    assert Live(s', 0) && Live(s', 1);
  }

  /** With timeouts and a wrapped counter the promise fails: two operations that are both pending share an id. */
  lemma {:induction false} TimeoutsCanAlias()
    ensures exists es: seq<Event> :: IsRun(1, es) && !NoAlias(Reach(1, es))
  {
    var es := ScrubbedEarly();
    HandedOutAgain(Reach(1, es));
    RunOn(1, es, Allocate(Single));
  }
}
