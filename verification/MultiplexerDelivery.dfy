/** What a request receives over a whole run, said in terms of what arrived and nothing else. */
module MultiplexerDelivery {
  import opened Connection
  import opened Multiplexer
  import opened MultiplexerRouting
  import opened MultiplexerPool

  /** Everything up to and including the first Done. */
  function UpToDone(a: seq<Response>): (r: seq<Response>)
    ensures r <= a
  {
    if a == [] then []
    else if a[0].opId == 5 then [a[0]]
    else [a[0]] + UpToDone(a[1..])
  }

  predicate HasDone(a: seq<Response>)
  {
    exists i :: 0 <= i < |a| && a[i].opId == 5
  }

  /** What a request should have been given when these messages with its id have arrived since it was registered. */
  function Owed(kind: Kind, a: seq<Response>): (r: seq<Response>)
    ensures r <= a
  {
    match kind
    case Single => if a == [] then [] else a[..1]
    case Search => UpToDone(a)
    case _ => []
  }

  /** More is owed. */
  predicate Open(kind: Kind, a: seq<Response>)
  {
    match kind
    case Single => a == []
    case Search => !HasDone(a)
    case _ => false
  }

  // ----- The history of one request -----

  function NextArrived(s: State, e: Event, t: nat, a: seq<Response>): seq<Response>
    requires t < |s.ops|
  {
    if e.Respond? && !Pending(s, t) && e.m.id == s.ops[t].id then a + [e.m] else a
  }

  /** After the request is registered, an Abandon or a scrub names its id, or a message finds its receiver gone. */
  predicate Stops(s: State, e: Event, t: nat)
    requires t < |s.ops|
  {
    && !Pending(s, t)
    && match e
       case TakeOp => s.core.queue != [] && s.core.queue[0].kind == Abandon(s.ops[t].id)
       case TakeScrub => s.core.scrubs != [] && s.core.scrubs[0] == s.ops[t].id
       case Respond(m) => m.id == s.ops[t].id && s.ops[t].kind.Search? && t !in s.receivers
       case _ => false
  }

  /** The messages with the id of t that arrived after the loop handled t. */
  ghost function Arrived(max: int, es: seq<Event>, t: nat): seq<Response>
    requires IsRun(max, es)
    decreases |es|
  {
    if es == [] then []
    else
      var before := Reach(max, es[..|es| - 1]);
      var a := Arrived(max, es[..|es| - 1], t);
      if t < |before.ops| then NextArrived(before, es[|es| - 1], t, a) else a
  }

  ghost predicate Stopped(max: int, es: seq<Event>, t: nat)
    requires IsRun(max, es)
    decreases |es|
  {
    es != [] &&
      var before := Reach(max, es[..|es| - 1]);
      Stopped(max, es[..|es| - 1], t) || (t < |before.ops| && Stops(before, es[|es| - 1], t))
  }

  // ----- What is owed -----

  lemma {:induction false} OpenOwesAll(kind: Kind, a: seq<Response>)
    requires Open(kind, a)
    ensures Owed(kind, a) == a
  {
    if kind.Search? && a != [] {
      assert forall i :: 0 <= i < |a| - 1 ==> a[1..][i] == a[i + 1];
      OpenOwesAll(kind, a[1..]);
    }
  }

  lemma {:induction false} UpToDoneAppend(a: seq<Response>, m: Response)
    ensures UpToDone(a + [m]) == if HasDone(a) then UpToDone(a) else a + [m]
  {
    if a != [] {
      assert (a + [m])[1..] == a[1..] + [m];
      UpToDoneAppend(a[1..], m);
      if HasDone(a) && a[0].opId != 5 {
        var i :| 0 <= i < |a| && a[i].opId == 5;
        assert a[1..][i - 1].opId == 5;
      }
    }
  }

  lemma {:induction false} OwedAppend(kind: Kind, a: seq<Response>, m: Response)
    ensures Owed(kind, a + [m]) == if Open(kind, a) then a + [m] else Owed(kind, a)
    ensures Open(kind, a + [m]) == (Open(kind, a) && kind.Search? && m.opId != 5)
  {
    UpToDoneAppend(a, m);
    if HasDone(a) {
      var i :| 0 <= i < |a| && a[i].opId == 5;
      assert (a + [m])[i].opId == 5;
    } else if m.opId == 5 {
      assert (a + [m])[|a|].opId == 5;
    }
  }

  lemma {:induction false} DoneIsLast(a: seq<Response>, i: nat)
    requires i < |UpToDone(a)| - 1
    ensures UpToDone(a)[i].opId != 5
  {
    if i > 0 {
      DoneIsLast(a[1..], i - 1);
    }
  }

  // ----- The invariant that ties views to histories -----

  ghost predicate Told(s: State, t: nat, a: seq<Response>, stopped: bool)
    requires t < |s.ops| == |s.views|
  {
    var kind, v := s.ops[t].kind, s.views[t];
    && (Pending(s, t) ==> v == View(false, []) && a == [])
    && v.got <= Owed(kind, a)
    && (s.core.alive && v.listening ==> v.got == a && Open(kind, a))
    && (s.core.alive && !v.listening && !Pending(s, t) && !stopped ==> v.got == Owed(kind, a) && !Open(kind, a))
  }

  lemma {:induction false} ToldTake(max: int, s: State, t: nat, a: seq<Response>, stopped: bool)
    requires Consistent(s) && Enabled(max, s, TakeOp) && t < |s.ops| && Told(s, t, a, stopped)
    ensures Told(Step(max, s, TakeOp), t, a, stopped || Stops(s, TakeOp, t))
  {
    var s' := Step(max, s, TakeOp);
    PendingAfterTake(s, s', t);
    var head := s.core.queue[0];
    assert InQueue(s, head.token) && s.ops[t].token == t;
  }

  lemma {:induction false} ToldRespond(max: int, s: State, m: Response, t: nat, a: seq<Response>, stopped: bool)
    requires Consistent(s) && NoAlias(s) && Faithful(s) && Enabled(max, s, Respond(m))
    requires t < |s.ops| && Told(s, t, a, stopped)
    ensures var e := Respond(m); Told(Step(max, s, e), t, NextArrived(s, e, t, a), stopped || Stops(s, e, t))
  {
    var s' := Step(max, s, Respond(m));
    SameQueueSamePending(s, s');
    OwedAppend(s.ops[t].kind, a, m);
    if Registered(s, t) {
      RoutedToListener(s, t);
    }
  }

  lemma {:induction false} ToldStep(max: int, s: State, e: Event, t: nat, a: seq<Response>, stopped: bool)
    requires Consistent(s) && NoAlias(s) && Faithful(s) && Enabled(max, s, e)
    requires t < |s.ops| && Told(s, t, a, stopped)
    ensures Told(Step(max, s, e), t, NextArrived(s, e, t, a), stopped || Stops(s, e, t))
  {
    var s' := Step(max, s, e);
    match e
    case TakeOp => ToldTake(max, s, t, a, stopped);
    case Respond(m) => ToldRespond(max, s, m, t, a, stopped);
    case Allocate(kind) => PendingAfterAllocate(max, s, kind, t);
    case Send(u) => PendingAfterSend(s, s', u, t);
    case _ => SameQueueSamePending(s, s');
  }

  /** Before it is allocated a request has no history. */
  lemma {:induction false} NoHistory(max: int, es: seq<Event>, t: nat)
    requires IsRun(max, es) && t >= |Reach(max, es).ops|
    ensures Arrived(max, es, t) == [] && !Stopped(max, es, t)
  {
    if es != [] {
      NoHistory(max, es[..|es| - 1], t);
    }
  }

  lemma {:induction false} ToldNew(max: int, s: State, e: Event, t: nat)
    requires Consistent(s) && Enabled(max, s, e) && |s.ops| <= t < |Step(max, s, e).ops|
    ensures Told(Step(max, s, e), t, [], false)
  {
    var s' := Step(max, s, e);
    assert e.Allocate? && t == |s.ops| && t in s'.unsent;
    assert s'.views[t] == View(false, []);
  }

  lemma {:induction false} ToldRun(max: int, es: seq<Event>, t: nat)
    requires IsRun(max, es) && Sound(max, es) && t < |Reach(max, es).ops|
    ensures Told(Reach(max, es), t, Arrived(max, es, t), Stopped(max, es, t))
  {
    if es != [] {
      var n := |es| - 1;
      var s := Reach(max, es[..n]);
      ConsistentRun(max, es[..n]);
      if t < |s.ops| {
        SoundPrefix(max, es);
        ToldRun(max, es[..n], t);
        NoAliasRun(max, es[..n]);
        FaithfulRun(max, es[..n]);
        ToldStep(max, s, es[n], t, Arrived(max, es[..n], t), Stopped(max, es[..n], t));
      } else {
        NoHistory(max, es[..n], t);
        ToldNew(max, s, es[n], t);
      }
    }
  }

  lemma {:induction false} ArrivedBears(max: int, es: seq<Event>, t: nat, i: nat)
    requires IsRun(max, es) && t < |Reach(max, es).ops| && i < |Arrived(max, es, t)|
    ensures Arrived(max, es, t)[i].id == Reach(max, es).ops[t].id
  {
    var n := |es| - 1;
    var s := Reach(max, es[..n]);
    if t >= |s.ops| {
      NoHistory(max, es[..n], t);
    } else if i < |Arrived(max, es[..n], t)| {
      ArrivedBears(max, es[..n], t, i);
    }
  }

  // ----- When the loop lives -----

  /** A message for a registered search that no search can make anything of. */
  predicate Strays(s: State, e: Event)
  {
    e.Respond? && e.m.id in s.core.searchmap && !ForSearch(e.m.opId)
  }

  ghost predicate Strayed(max: int, es: seq<Event>)
    requires IsRun(max, es)
    decreases |es|
  {
    es != [] && (Strayed(max, es[..|es| - 1]) || Strays(Reach(max, es[..|es| - 1]), es[|es| - 1]))
  }

  /** The loop dies of such a message and of nothing else. */
  lemma {:induction false} AliveExactlyWhen(max: int, es: seq<Event>)
    requires IsRun(max, es)
    ensures Reach(max, es).core.alive <==> !Strayed(max, es)
  {
    if es != [] {
      AliveExactlyWhen(max, es[..|es| - 1]);
      AliveStep(max, Reach(max, es[..|es| - 1]), es[|es| - 1]);
    }
  }

  lemma {:induction false} AliveStep(max: int, s: State, e: Event)
    requires |s.views| == |s.ops| && Enabled(max, s, e)
    ensures Step(max, s, e).core.alive <==> s.core.alive && !Strays(s, e)
  {
  }

  /** The server answers a search that listens only with what a search may receive. */
  ghost predicate Answers(s: State, e: Event)
    requires |s.views| == |s.ops|
  {
    e.Respond? ==>
      forall t :: 0 <= t < |s.ops| && s.ops[t].kind.Search? && s.views[t].listening && s.ops[t].id == e.m.id
                  ==> ForSearch(e.m.opId)
  }

  ghost predicate Orderly(max: int, es: seq<Event>)
    requires IsRun(max, es)
    decreases |es|
  {
    es == [] || (Orderly(max, es[..|es| - 1]) && Answers(Reach(max, es[..|es| - 1]), es[|es| - 1]))
  }

  lemma {:induction false} OrderlyLives(max: int, es: seq<Event>)
    requires IsRun(max, es) && Sound(max, es) && Orderly(max, es)
    ensures Reach(max, es).core.alive
  {
    if es != [] {
      var before := es[..|es| - 1];
      SoundPrefix(max, es);
      OrderlyLives(max, before);
      ConsistentRun(max, before);
      FaithfulRun(max, before);
      AnswersNoStray(Reach(max, before), es[|es| - 1]);
      AliveStep(max, Reach(max, before), es[|es| - 1]);
    }
  }

  lemma {:induction false} AnswersNoStray(s: State, e: Event)
    requires Consistent(s) && Faithful(s) && Answers(s, e)
    ensures !Strays(s, e)
  {
    if e.Respond? && e.m.id in s.core.searchmap {
      assert Registered(s, s.core.searchmap[e.m.id]);
    }
  }

  // ----- The theorems -----

  /**
   * In every run whose scrubs are all timely, and in every run before the counter wraps: what a request has received is
   * the beginning of what it is owed, and all of it unless it was stopped, as long as the loop lives, which it does
   * as long as the server answers searches with entries, references, intermediate messages and done. A single
   * operation is owed the first message with its id, a search all of them up to the first Done, in the order
   * of arrival.
   */
  lemma {:induction false} Delivered(max: int, es: seq<Event>, t: nat)
    requires IsRun(max, es) && Sound(max, es) && t < |Reach(max, es).ops|
    ensures |Reach(max, es).handed| == |Reach(max, es).ops|
    ensures var s := Reach(max, es);
            var owed := Owed(s.ops[t].kind, Arrived(max, es, t));
            && s.handed[t] <= owed
            && (s.core.alive && !Stopped(max, es, t) ==> s.handed[t] == owed)
            && (Orderly(max, es) && !Stopped(max, es, t) ==> s.handed[t] == owed)
  {
    if Orderly(max, es) {
      OrderlyLives(max, es);
    }
    ToldRun(max, es, t);
    FaithfulRun(max, es);
    if Open(Reach(max, es).ops[t].kind, Arrived(max, es, t)) {
      OpenOwesAll(Reach(max, es).ops[t].kind, Arrived(max, es, t));
    }
  }

  /** All that is received bears the request's own id; a single gets at most one message, a search none after Done. */
  lemma {:induction false} ReceivesItsOwn(max: int, es: seq<Event>, t: nat)
    requires IsRun(max, es) && Sound(max, es) && t < |Reach(max, es).ops|
    ensures |Reach(max, es).handed| == |Reach(max, es).ops|
    ensures var s := Reach(max, es);
            var op, got := s.ops[t], s.handed[t];
            && (forall i :: 0 <= i < |got| ==> got[i].id == op.id)
            && (op.kind.Single? ==> |got| <= 1)
            && (op.kind.Search? ==> forall i :: 0 <= i < |got| - 1 ==> got[i].opId != 5)
            && (!op.kind.Single? && !op.kind.Search? ==> got == [])
  {
    Delivered(max, es, t);
    var s := Reach(max, es);
    var a, got := Arrived(max, es, t), s.handed[t];
    forall i | 0 <= i < |got| ensures got[i].id == s.ops[t].id {
      ArrivedBears(max, es, t, i);
    }
    if s.ops[t].kind.Search? {
      forall i | 0 <= i < |got| - 1 ensures got[i].opId != 5 {
        DoneIsLast(a, i);
      }
    }
  }

  /** A message for a request that is outstanding, and neither stopped nor answered in full, is routed to it. */
  lemma {:induction false} OutstandingIsMatched(max: int, es: seq<Event>, t: nat)
    requires IsRun(max, es) && Sound(max, es) && t < |Reach(max, es).ops|
    requires var s := Reach(max, es);
             (s.core.alive || Orderly(max, es)) && !Pending(s, t) && !Stopped(max, es, t)
             && Open(s.ops[t].kind, Arrived(max, es, t))
    ensures var s := Reach(max, es);
            RouteOf(s.core, s.ops[t].id) == if s.ops[t].kind.Single? then ToSingle(t) else ToSearch(t)
  {
    if Orderly(max, es) {
      OrderlyLives(max, es);
    }
    ToldRun(max, es, t);
    FaithfulRun(max, es);
    ConsistentRun(max, es);
    NoAliasRun(max, es);
    RoutedToListener(Reach(max, es), t);
  }

  /** Without timeouts, the only scrub that can stop a registered search is the one of its own stream. */
  lemma {:induction false} ScrubIsOwn(max: int, es: seq<Event>, t: nat)
    requires 1 <= max && IsRun(max, es) && TimeoutFree(es)
    requires var s := Reach(max, es); s.core.scrubs != [] && Registered(s, t) && s.core.scrubs[0] == s.ops[t].id
    ensures Reach(max, es).ops[t].kind.Search? && t in Reach(max, es).retired
  {
    PoolRun(max, es);
    ConsistentRun(max, es);
    var s := Reach(max, es);
    assert Holders(s, s.ops[t].id) <= 1;
  }
}
