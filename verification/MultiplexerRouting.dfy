/** Routing: the loop delivers exactly what is owed, as long as no two live operations share an id. */
module MultiplexerRouting {
  import opened Connection
  import opened Multiplexer

  // ----- Structure: holds in every run, with timeouts or without -----

  ghost predicate OpsNamed(s: State)
  {
    && |s.views| == |s.ops| && |s.handed| == |s.ops|
    && (forall t :: 0 <= t < |s.ops| ==> s.ops[t].token == t)
    && (forall t :: t in s.unsent ==> t < |s.ops|)
  }

  ghost predicate QueueNamed(s: State)
  {
    && (forall i :: 0 <= i < |s.core.queue| ==>
          s.core.queue[i].token < |s.ops| && s.core.queue[i] == s.ops[s.core.queue[i].token]
          && s.core.queue[i].token !in s.unsent)
    && (forall i, j :: 0 <= i < j < |s.core.queue| ==> s.core.queue[i].token != s.core.queue[j].token)
  }

  ghost predicate ResultsNamed(s: State)
  {
    forall d :: d in s.core.resultmap ==>
      var t := s.core.resultmap[d];
      t < |s.ops| && s.ops[t].id == d && s.ops[t].kind.Single? && !Pending(s, t)
  }

  ghost predicate SearchesNamed(s: State)
  {
    forall d :: d in s.core.searchmap ==>
      var t := s.core.searchmap[d];
      t < |s.ops| && s.ops[t].id == d && s.ops[t].kind.Search? && !Pending(s, t)
  }

  ghost predicate Consistent(s: State)
  {
    OpsNamed(s) && QueueNamed(s) && ResultsNamed(s) && SearchesNamed(s)
  }

  ghost predicate Registered(s: State, t: nat)
  {
    && t < |s.ops|
    && var d := s.ops[t].id;
       (d in s.core.resultmap && s.core.resultmap[d] == t) || (d in s.core.searchmap && s.core.searchmap[d] == t)
  }

  /** An operation whose id must not be anyone else's. */
  ghost predicate Live(s: State, t: nat)
  {
    Pending(s, t) || Registered(s, t)
  }

  ghost predicate NoAlias(s: State)
  {
    forall t, u :: 0 <= t < |s.ops| && 0 <= u < |s.ops| && Live(s, t) && Live(s, u) && s.ops[t].id == s.ops[u].id
      ==> t == u
  }

  /** The loop and the specification agree. */
  ghost predicate Faithful(s: State)
  {
    && OpsNamed(s)
    && forall t :: 0 <= t < |s.ops| ==>
         (s.views[t].listening <==> Registered(s, t)) && s.handed[t] == s.views[t].got
  }

  // ----- Pending, step by step -----

  lemma {:induction false} PendingAfterTake(s: State, s': State, t: nat)
    requires Consistent(s) && s.core.queue != []
    requires s'.core.queue == s.core.queue[1..] && s'.unsent == s.unsent && s'.ops == s.ops
    ensures Pending(s', t) <==> Pending(s, t) && t != s.core.queue[0].token
  {
    var q, q' := s.core.queue, s'.core.queue;
    if InQueue(s, t) && t != q[0].token {
      var i :| 0 <= i < |q| && q[i].token == t;
      assert q'[i - 1].token == t;
    }
    if InQueue(s', t) {
      var i :| 0 <= i < |q'| && q'[i].token == t;
      assert q[i + 1].token == t;
    }
  }

  lemma {:induction false} PendingAfterSend(s: State, s': State, u: nat, t: nat)
    requires OpsNamed(s) && u in s.unsent && s'.unsent == s.unsent - {u}
    requires s'.core.queue == s.core.queue + [s.ops[u]]
    ensures Pending(s', t) <==> Pending(s, t)
  {
    var q, q' := s.core.queue, s'.core.queue;
    if InQueue(s, t) {
      var i :| 0 <= i < |q| && q[i].token == t;
      assert q'[i].token == t;
    }
    if t == u {
      assert q'[|q|].token == u;
    }
    if InQueue(s', t) {
      var i :| 0 <= i < |q'| && q'[i].token == t;
      assert i < |q| ==> q[i].token == t;
    }
  }

  lemma {:induction false} PendingAfterAllocate(max: int, s: State, kind: Kind, t: nat)
    requires Consistent(s) && Enabled(max, s, Allocate(kind))
    ensures Pending(Step(max, s, Allocate(kind)), t) <==> Pending(s, t) || t == |s.ops|
  {
    var s' := Step(max, s, Allocate(kind));
    assert s'.core.queue == s.core.queue;
    assert InQueue(s', t) <==> InQueue(s, t);
  }

  lemma {:induction false} NewIsNotPending(s: State)
    requires Consistent(s)
    ensures !Pending(s, |s.ops|)
  {
  }

  // ----- Consistency is kept -----

  lemma {:induction false} ConsistentTake(max: int, s: State)
    requires Consistent(s) && Enabled(max, s, TakeOp)
    ensures Consistent(Step(max, s, TakeOp))
  {
    var s' := Step(max, s, TakeOp);
    var op := s.core.queue[0];
    forall t: nat ensures Pending(s', t) <==> Pending(s, t) && t != op.token {
      PendingAfterTake(s, s', t);
    }
    assert op == s.ops[op.token];
  }

  lemma {:induction false} ConsistentSend(max: int, s: State, u: nat)
    requires Consistent(s) && Enabled(max, s, Send(u))
    ensures Consistent(Step(max, s, Send(u)))
  {
    var s' := Step(max, s, Send(u));
    forall t: nat ensures Pending(s', t) <==> Pending(s, t) {
      PendingAfterSend(s, s', u, t);
    }
  }

  lemma {:induction false} ConsistentAllocate(max: int, s: State, kind: Kind)
    requires Consistent(s) && Enabled(max, s, Allocate(kind))
    ensures Consistent(Step(max, s, Allocate(kind)))
  {
    var s' := Step(max, s, Allocate(kind));
    forall t: nat ensures Pending(s', t) <==> Pending(s, t) || t == |s.ops| {
      PendingAfterAllocate(max, s, kind, t);
    }
  }

  lemma {:induction false} SameQueueSamePending(s: State, s': State)
    requires s'.core.queue == s.core.queue && s'.unsent == s.unsent
    ensures forall t: nat :: Pending(s', t) <==> Pending(s, t)
  {
    forall t: nat ensures InQueue(s', t) <==> InQueue(s, t) {
    }
  }

  lemma {:induction false} ConsistentStep(max: int, s: State, e: Event)
    requires Consistent(s) && Enabled(max, s, e)
    ensures Consistent(Step(max, s, e))
  {
    match e
    case Allocate(kind) => ConsistentAllocate(max, s, kind);
    case Send(t) => ConsistentSend(max, s, t);
    case TakeOp => ConsistentTake(max, s);
    case _ => SameQueueSamePending(s, Step(max, s, e));
  }

  lemma {:induction false} ConsistentRun(max: int, es: seq<Event>)
    requires IsRun(max, es)
    ensures Consistent(Reach(max, es))
  {
    if es != [] {
      ConsistentRun(max, es[..|es| - 1]);
      ConsistentStep(max, Reach(max, es[..|es| - 1]), es[|es| - 1]);
    }
  }

  // ----- Faithfulness is kept where there is no alias -----

  lemma {:induction false} FaithfulTake(max: int, s: State, t: nat)
    requires Consistent(s) && NoAlias(s) && Faithful(s) && Enabled(max, s, TakeOp) && t < |s.ops|
    ensures var s' := Step(max, s, TakeOp);
            (s'.views[t].listening <==> Registered(s', t)) && s'.handed[t] == s'.views[t].got
  {
    var op := s.core.queue[0];
    assert InQueue(s, op.token) && Live(s, op.token);
    assert op == s.ops[op.token];
    assert Registered(s, t) ==> Live(s, t);
  }

  lemma {:induction false} FaithfulScrub(max: int, s: State, t: nat)
    requires Consistent(s) && Faithful(s) && Enabled(max, s, TakeScrub) && t < |s.ops|
    ensures var s' := Step(max, s, TakeScrub);
            (s'.views[t].listening <==> Registered(s', t)) && s'.handed[t] == s'.views[t].got
  {
  }

  /** A message goes to the request that listens on its id, and to no other. */
  lemma {:induction false} RoutedToListener(s: State, t: nat)
    requires Consistent(s) && NoAlias(s) && Registered(s, t)
    ensures RouteOf(s.core, s.ops[t].id) == if s.ops[t].kind.Single? then ToSingle(t) else ToSearch(t)
  {
    var d := s.ops[t].id;
    if d in s.core.searchmap {
      var u := s.core.searchmap[d];
      assert Live(s, u) && Live(s, t);
    }
  }

  lemma {:induction false} FaithfulRespond(max: int, s: State, m: Response, t: nat)
    requires Consistent(s) && NoAlias(s) && Faithful(s) && Enabled(max, s, Respond(m)) && t < |s.ops|
    ensures var s' := Step(max, s, Respond(m));
            (s'.views[t].listening <==> Registered(s', t)) && s'.handed[t] == s'.views[t].got
  {
    if Registered(s, t) {
      RoutedToListener(s, t);
    }
  }

  lemma {:induction false} FaithfulStep(max: int, s: State, e: Event)
    requires Consistent(s) && NoAlias(s) && Faithful(s) && Enabled(max, s, e)
    ensures Faithful(Step(max, s, e))
  {
    var s' := Step(max, s, e);
    ConsistentStep(max, s, e);
    forall t | 0 <= t < |s'.ops|
      ensures (s'.views[t].listening <==> Registered(s', t)) && s'.handed[t] == s'.views[t].got
    {
      match e
      case TakeOp => FaithfulTake(max, s, t);
      case TakeScrub => FaithfulScrub(max, s, t);
      case Respond(m) => FaithfulRespond(max, s, m, t);
      case Allocate(kind) =>
        if t == |s.ops| {
          assert !Registered(s', t);
        } else {
          assert Registered(s', t) <==> Registered(s, t);
        }
      case _ => assert Registered(s', t) <==> Registered(s, t);
    }
  }
}
