/** Whom a scrub stops: it names an id, and the id may have been handed out again. */
module MultiplexerScrubs {
  import opened Connection
  import opened Multiplexer
  import opened MultiplexerRouting
  import opened MultiplexerPool
  import MsgId

  // ----- For whom the scrubs on the channel were sent -----

  function NextOwners(owners: seq<nat>, e: Event): seq<nat>
  {
    match e
    case Finish(t) => owners + [t]
    case Timeout(t) => owners + [t]
    case TakeScrub => if owners == [] then [] else owners[1..]
    case _ => owners
  }

  ghost function Owners(max: int, es: seq<Event>): seq<nat>
    requires IsRun(max, es)
    decreases |es|
  {
    if es == [] then [] else NextOwners(Owners(max, es[..|es| - 1]), es[|es| - 1])
  }

  ghost predicate Owned(s: State, owners: seq<nat>)
  {
    && |owners| == |s.core.scrubs|
    && forall i :: 0 <= i < |owners| ==> owners[i] < |s.ops| && s.ops[owners[i]].id == s.core.scrubs[i]
  }

  lemma {:induction false} OwnedStep(max: int, s: State, e: Event, owners: seq<nat>)
    requires |s.views| == |s.ops| && Enabled(max, s, e) && Owned(s, owners)
    ensures Owned(Step(max, s, e), NextOwners(owners, e))
  {
    var s', owners' := Step(max, s, e), NextOwners(owners, e);
    assert forall t :: 0 <= t < |s.ops| ==> s'.ops[t] == s.ops[t];
  }

  lemma {:induction false} OwnedRun(max: int, es: seq<Event>)
    requires IsRun(max, es)
    ensures Owned(Reach(max, es), Owners(max, es))
  {
    if es != [] {
      var before := es[..|es| - 1];
      OwnedRun(max, before);
      OwnedStep(max, Reach(max, before), es[|es| - 1], Owners(max, before));
    }
  }

  // ----- Scrubs that would stop somebody else -----

  /** The i-th scrub on the channel will meet u, for whom it was not sent, before any scrub of its own stops u. */
  ghost predicate Threat(s: State, owners: seq<nat>, u: nat, i: nat)
  {
    && u < |s.ops| && Live(s, u)
    && i < |s.core.scrubs| && i < |owners| && s.core.scrubs[i] == s.ops[u].id && owners[i] != u
    && (Pending(s, u) || forall j :: 0 <= j < i ==> s.core.scrubs[j] != s.ops[u].id)
  }

  ghost predicate Danger(s: State, owners: seq<nat>)
  {
    exists u, i :: Threat(s, owners, u, i)
  }

  /**
   * No id is handed out while a scrub that names it is on the channel, and no scrub is sent for a request whose id
   * another live request bears, unless that one has been handled and has a scrub on the channel already.
   */
  ghost predicate Polite(max: int, s: State, e: Event)
  {
    s.core.alive ==>
      match e
      case Allocate(_) =>
        0 <= s.core.last <= max && MsgId.FirstFree(max, s.core.last, s.core.inUse).Some?
        ==> MsgId.FirstFree(max, s.core.last, s.core.inUse).value !in s.core.scrubs
      case Finish(t) => Alone(s, t)
      case Timeout(t) => Alone(s, t)
      case _ => true
  }

  ghost predicate Alone(s: State, t: nat)
  {
    t < |s.ops| ==>
      forall u :: 0 <= u < |s.ops| && u != t && Live(s, u) && s.ops[u].id == s.ops[t].id
                  ==> !Pending(s, u) && s.ops[u].id in s.core.scrubs
  }

  ghost predicate PoliteRun(max: int, es: seq<Event>)
    requires IsRun(max, es)
    decreases |es|
  {
    es == [] || (PoliteRun(max, es[..|es| - 1]) && Polite(max, Reach(max, es[..|es| - 1]), es[|es| - 1]))
  }

  // ----- Polite steps make no danger -----

  lemma {:induction false} ThreatAllocate(max: int, s: State, kind: Kind, owners: seq<nat>, u: nat, i: nat)
    requires Consistent(s) && Enabled(max, s, Allocate(kind)) && Polite(max, s, Allocate(kind)) && s.core.alive
    requires Owned(s, owners) && Threat(Step(max, s, Allocate(kind)), owners, u, i)
    ensures Threat(s, owners, u, i)
  {
    PendingAfterAllocate(max, s, kind, u);
    assert s.core.scrubs[i] in s.core.scrubs;
    assert u < |s.ops|;
  }

  lemma {:induction false} ThreatTake(max: int, s: State, owners: seq<nat>, u: nat, i: nat)
    requires Consistent(s) && Enabled(max, s, TakeOp) && Threat(Step(max, s, TakeOp), owners, u, i)
    ensures Threat(s, owners, u, i)
  {
    LiveAfterTake(max, s, u);
    var s' := Step(max, s, TakeOp);
    PendingAfterTake(s, s', u);
    assert !Pending(s', u) ==> forall j :: 0 <= j < i ==> s.core.scrubs[j] != s.ops[u].id;
  }

  lemma {:induction false} ThreatScrub(max: int, s: State, owners: seq<nat>, u: nat, i: nat)
    requires Consistent(s) && Enabled(max, s, TakeScrub) && Owned(s, owners)
    requires Threat(Step(max, s, TakeScrub), owners[1..], u, i)
    ensures Threat(s, owners, u, i + 1)
  {
    var s' := Step(max, s, TakeScrub);
    SameQueueSamePending(s, s');
    assert Live(s, u);
    if !Pending(s, u) {
      forall j | 0 <= j < i + 1 ensures s.core.scrubs[j] != s.ops[u].id {
        if j > 0 {
          assert s'.core.scrubs[j - 1] == s.core.scrubs[j];
        }
      }
    }
  }

  lemma {:induction false} ThreatSent(max: int, s: State, e: Event, t: nat, owners: seq<nat>, u: nat, i: nat)
    requires Consistent(s) && Enabled(max, s, e) && (e == Finish(t) || e == Timeout(t))
    requires Polite(max, s, e) && s.core.alive
    requires Owned(s, owners) && Threat(Step(max, s, e), owners + [t], u, i)
    ensures Threat(s, owners, u, i)
  {
    var s' := Step(max, s, e);
    SameQueueSamePending(s, s');
    assert Live(s, u);
    forall j | 0 <= j < |s.core.scrubs| ensures s'.core.scrubs[j] == s.core.scrubs[j] {
    }
  }

  lemma {:induction false} ThreatElse(max: int, s: State, e: Event, owners: seq<nat>, u: nat, i: nat)
    requires Consistent(s) && Enabled(max, s, e) && Threat(Step(max, s, e), owners, u, i)
    requires e.Send? || e.Respond? || e.DropReceiver? || e.Retire?
    ensures Threat(s, owners, u, i)
  {
    var s' := Step(max, s, e);
    if e.Send? {
      PendingAfterSend(s, s', e.token, u);
    } else {
      SameQueueSamePending(s, s');
    }
    assert Live(s, u);
  }

  lemma {:induction false} SafeStep(max: int, s: State, e: Event, owners: seq<nat>)
    requires Consistent(s) && Enabled(max, s, e) && Polite(max, s, e) && s.core.alive
    requires Owned(s, owners) && !Danger(s, owners)
    ensures !Danger(Step(max, s, e), NextOwners(owners, e))
  {
    forall u, i | Threat(Step(max, s, e), NextOwners(owners, e), u, i) ensures Danger(s, owners) {
      match e
      case Allocate(kind) => ThreatAllocate(max, s, kind, owners, u, i);
      case TakeOp => ThreatTake(max, s, owners, u, i);
      case TakeScrub => ThreatScrub(max, s, owners, u, i);
      case Finish(t) => ThreatSent(max, s, e, t, owners, u, i);
      case Timeout(t) => ThreatSent(max, s, e, t, owners, u, i);
      case _ => ThreatElse(max, s, e, owners, u, i);
    }
  }

  lemma {:induction false} SafeRun(max: int, es: seq<Event>)
    requires IsRun(max, es) && PoliteRun(max, es) && Reach(max, es).core.alive
    ensures !Danger(Reach(max, es), Owners(max, es))
  {
    if es != [] {
      var before := es[..|es| - 1];
      SafeRun(max, before);
      ConsistentRun(max, before);
      OwnedRun(max, before);
      SafeStep(max, Reach(max, before), es[|es| - 1], Owners(max, before));
    }
  }

  // ----- Impolite steps make danger -----

  lemma {:induction false} ImpoliteStep(max: int, s: State, e: Event, owners: seq<nat>)
    requires Consistent(s) && Enabled(max, s, e) && !Polite(max, s, e) && Owned(s, owners)
    ensures Danger(Step(max, s, e), NextOwners(owners, e)) && Step(max, s, e).core.alive
  {
    var s' := Step(max, s, e);
    match e
    case Allocate(kind) =>
      var u := |s.ops|;
      PendingAfterAllocate(max, s, kind, u);
      var i :| 0 <= i < |s.core.scrubs| && s.core.scrubs[i] == s'.core.last;
      assert Threat(s', owners, u, i);
    case Finish(t) => ImpoliteSent(max, s, e, t, owners);
    case Timeout(t) => ImpoliteSent(max, s, e, t, owners);
  }

  lemma {:induction false} ImpoliteSent(max: int, s: State, e: Event, t: nat, owners: seq<nat>)
    requires Consistent(s) && Enabled(max, s, e) && (e == Finish(t) || e == Timeout(t))
    requires !Alone(s, t) && Owned(s, owners)
    ensures Danger(Step(max, s, e), owners + [t])
  {
    var s', n := Step(max, s, e), |s.core.scrubs|;
    SameQueueSamePending(s, s');
    var u :| 0 <= u < |s.ops| && u != t && Live(s, u) && s.ops[u].id == s.ops[t].id
             && (Pending(s, u) || s.ops[u].id !in s.core.scrubs);
    assert Live(s', u) && s'.core.scrubs[n] == s.ops[u].id;
    if !Pending(s, u) {
      forall j | 0 <= j < n ensures s'.core.scrubs[j] != s.ops[u].id {
        assert s.core.scrubs[j] in s.core.scrubs;
      }
    }
    assert Threat(s', owners + [t], u, n);
  }

  // ----- What the loop does with it -----

  /** The next scrub stops u, for whom it was not sent. */
  ghost predicate StopsAnother(max: int, es: seq<Event>, u: nat)
    requires IsRun(max, es)
  {
    var s, owners := Reach(max, es), Owners(max, es);
    && Enabled(max, s, TakeScrub) && |owners| > 0
    && u < |s.ops| && Live(s, u) && s.core.scrubs[0] == s.ops[u].id && owners[0] != u
  }

  ghost predicate Scrubs(es: seq<Event>)
  {
    forall i :: 0 <= i < |es| ==> es[i] == TakeScrub
  }

  /** Reading on from its channel of scrubs, the loop comes to one that stops somebody else. */
  ghost predicate CanStopAnother(max: int, es: seq<Event>)
  {
    exists more, u :: Scrubs(more) && IsRun(max, es + more) && StopsAnother(max, es + more, u)
  }

  lemma {:induction false} StopLater(max: int, es: seq<Event>, es': seq<Event>)
    requires es' == es + [TakeScrub] && CanStopAnother(max, es')
    ensures CanStopAnother(max, es)
  {
    var more, u :| Scrubs(more) && IsRun(max, es' + more) && StopsAnother(max, es' + more, u);
    assert es' + more == es + ([TakeScrub] + more);
    assert Scrubs([TakeScrub] + more);
  }

  lemma {:induction false} StopNow(max: int, es: seq<Event>, u: nat)
    requires IsRun(max, es) && StopsAnother(max, es, u)
    ensures CanStopAnother(max, es)
  {
    assert Scrubs([]) && es + [] == es;
  }

  /** A threat that is not at the head of the channel comes nearer. */
  lemma {:induction false} ThreatNearer(max: int, s: State, owners: seq<nat>, u: nat, i: nat)
    requires Consistent(s) && s.core.alive && Owned(s, owners) && Threat(s, owners, u, i)
    requires i > 0 && !(s.core.scrubs[0] == s.ops[u].id && owners[0] != u)
    ensures Enabled(max, s, TakeScrub) && Threat(Step(max, s, TakeScrub), owners[1..], u, i - 1)
  {
    var s' := Step(max, s, TakeScrub);
    SameQueueSamePending(s, s');
    if !Pending(s, u) {
      assert s.core.scrubs[0] != s.ops[u].id;
      forall j | 0 <= j < i - 1 ensures s'.core.scrubs[j] != s.ops[u].id {
        assert s'.core.scrubs[j] == s.core.scrubs[j + 1];
      }
    }
    assert Live(s', u);
  }

  lemma {:induction false} ThreatComesTrue(max: int, es: seq<Event>, u: nat, i: nat)
    requires IsRun(max, es) && Reach(max, es).core.alive && Threat(Reach(max, es), Owners(max, es), u, i)
    ensures CanStopAnother(max, es)
    decreases i
  {
    var s, owners := Reach(max, es), Owners(max, es);
    OwnedRun(max, es);
    ConsistentRun(max, es);
    if s.core.scrubs[0] == s.ops[u].id && owners[0] != u {
      StopNow(max, es, u);
    } else {
      ThreatNearer(max, s, owners, u, i);
      var es' := es + [TakeScrub];
      RunOn(max, es, TakeScrub);
      assert es'[..|es|] == es;
      ThreatComesTrue(max, es', u, i - 1);
      StopLater(max, es, es');
    }
  }

  lemma {:induction false} PoliteScrubs(max: int, es: seq<Event>, more: seq<Event>)
    requires IsRun(max, es) && PoliteRun(max, es) && Scrubs(more) && IsRun(max, es + more)
    ensures PoliteRun(max, es + more)
    decreases |more|
  {
    if more == [] {
      assert es + more == es;
    } else {
      var n := |more| - 1;
      assert (es + more)[..|es + more| - 1] == es + more[..n];
      PoliteScrubs(max, es, more[..n]);
    }
  }

  /** In a polite run a scrub stops only the request it was sent for. */
  lemma {:induction false} ScrubStopsItsOwn(max: int, es: seq<Event>, u: nat)
    requires IsRun(max, es) && PoliteRun(max, es)
    ensures !StopsAnother(max, es, u)
  {
    if StopsAnother(max, es, u) {
      SafeRun(max, es);
      assert Threat(Reach(max, es), Owners(max, es), u, 0);
    }
  }

  lemma {:induction false} PoliteCannotStop(max: int, es: seq<Event>)
    requires IsRun(max, es) && PoliteRun(max, es)
    ensures !CanStopAnother(max, es)
  {
    forall more, u | Scrubs(more) && IsRun(max, es + more) ensures !StopsAnother(max, es + more, u) {
      PoliteScrubs(max, es, more);
      ScrubStopsItsOwn(max, es + more, u);
    }
  }

  lemma {:induction false} ImpoliteCanStop(max: int, es: seq<Event>)
    requires IsRun(max, es) && es != [] && !Polite(max, Reach(max, es[..|es| - 1]), es[|es| - 1])
    ensures CanStopAnother(max, es)
  {
    var before := es[..|es| - 1];
    ConsistentRun(max, before);
    OwnedRun(max, before);
    ImpoliteStep(max, Reach(max, before), es[|es| - 1], Owners(max, before));
    var u, i :| Threat(Reach(max, es), Owners(max, es), u, i);
    ThreatComesTrue(max, es, u, i);
  }

  ghost predicate NeverStopsAnother(max: int, es: seq<Event>)
  {
    forall k :: 0 <= k <= |es| ==> !CanStopAnother(max, es[..k])
  }

  lemma {:induction false} PolitePrefix(max: int, es: seq<Event>, k: nat)
    requires IsRun(max, es) && PoliteRun(max, es) && k <= |es|
    ensures IsRun(max, es[..k]) && PoliteRun(max, es[..k])
    decreases |es|
  {
    if k == |es| {
      assert es[..k] == es;
    } else {
      PolitePrefix(max, es[..|es| - 1], k);
      assert es[..|es| - 1][..k] == es[..k];
    }
  }

  lemma {:induction false} ImpolitePrefix(max: int, es: seq<Event>) returns (k: nat)
    requires IsRun(max, es) && !PoliteRun(max, es)
    ensures 0 < k <= |es| && IsRun(max, es[..k]) && IsRun(max, es[..k][..k - 1])
    ensures !Polite(max, Reach(max, es[..k][..k - 1]), es[..k][k - 1])
    decreases |es|
  {
    var n := |es| - 1;
    if PoliteRun(max, es[..n]) {
      k := |es|;
      assert es[..k] == es;
    } else {
      k := ImpolitePrefix(max, es[..n]);
      assert es[..n][..k] == es[..k];
    }
  }

  /**
   * The exact condition, over all runs, timeouts and wraparound included: at no point can the loop, reading on from
   * its channel of scrubs, stop a request that the scrub was not sent for, exactly when every step is polite.
   */
  lemma {:induction false} NeverStopsAnotherExactlyWhen(max: int, es: seq<Event>)
    requires IsRun(max, es)
    ensures NeverStopsAnother(max, es) <==> PoliteRun(max, es)
  {
    if PoliteRun(max, es) {
      forall k | 0 <= k <= |es| ensures !CanStopAnother(max, es[..k]) {
        PolitePrefix(max, es, k);
        PoliteCannotStop(max, es[..k]);
      }
    } else {
      var k := ImpolitePrefix(max, es);
      ImpoliteCanStop(max, es[..k]);
    }
  }

  /** Runs without timeouts are polite. */
  lemma {:induction false} TimeoutFreeIsPolite(max: int, es: seq<Event>)
    requires 1 <= max && IsRun(max, es) && TimeoutFree(es)
    ensures PoliteRun(max, es)
  {
    if es != [] {
      var n := |es| - 1;
      assert forall i :: 0 <= i < n ==> es[..n][i] == es[i];
      TimeoutFreeIsPolite(max, es[..n]);
      ConsistentRun(max, es[..n]);
      PoolRun(max, es[..n]);
      PoolPolite(max, Reach(max, es[..n]), es[n]);
    }
  }

  lemma {:induction false} PoolPolite(max: int, s: State, e: Event)
    requires Consistent(s) && Pool(max, s) && Enabled(max, s, e) && !e.Timeout?
    ensures Polite(max, s, e)
  {
    match e
    case Allocate(_) =>
      MsgId.FirstFreeMeans(max, s.core.last, s.core.inUse);
      var id := MsgId.FirstFree(max, s.core.last, s.core.inUse).value;
      assert Holders(s, id) == 0;
    case Finish(t) =>
      assert s.accounts.searching[s.ops[t].id] == t;
      forall u | 0 <= u < |s.ops| && u != t && s.ops[u].id == s.ops[t].id ensures !Live(s, u) {
        assert Holders(s, s.ops[t].id) <= 1;
      }
    case _ =>
  }

  // ----- It does happen, in a timely run -----

  /** What a longer run comes to, from the shorter one. */
  lemma {:induction false} Unfolded(max: int, es: seq<Event>, es': seq<Event>, e: Event)
    requires es' == es + [e]
    ensures es' != [] && es'[..|es'| - 1] == es && es'[|es'| - 1] == e
  {
  }

  lemma {:induction false} TimelyOn(max: int, es: seq<Event>, e: Event) returns (es': seq<Event>)
    requires IsRun(max, es) && TimelyRun(max, es) && Enabled(max, Reach(max, es), e) && Timely(Reach(max, es), e)
    ensures IsRun(max, es') && TimelyRun(max, es')
    ensures Reach(max, es') == Step(max, Reach(max, es), e) && Owners(max, es') == NextOwners(Owners(max, es), e)
  {
    es' := es + [e];
    Unfolded(max, es, es', e);
  }

  /** With one id and an idle loop: an operation is allocated, sent and handled. */
  lemma {:induction false} HandledSteps(s: State, kind: Kind) returns (s1: State, s2: State, s3: State)
    requires |s.views| == |s.ops| && (kind.Single? || kind.Search?)
    requires s.core == Initial().(last := s.core.last) && 0 <= s.core.last <= 1 && s.unsent == {}
    ensures Enabled(1, s, Allocate(kind)) && s1 == Step(1, s, Allocate(kind))
    ensures Enabled(1, s1, Send(|s.ops|)) && s2 == Step(1, s1, Send(|s.ops|))
    ensures Enabled(1, s2, TakeOp) && s3 == Step(1, s2, TakeOp)
    ensures s3.core == (if kind.Single? then Initial().(last := 1, inUse := {1}, resultmap := map[1 := |s.ops|])
                        else Initial().(last := 1, inUse := {1}, searchmap := map[1 := |s.ops|]))
    ensures s3.ops == s.ops + [Op(1, kind, |s.ops|)] && s3.unsent == {} && s3.retired == s.retired
  {
    MsgId.FirstFreeMeans(1, s.core.last, {});
    s1 := Step(1, s, Allocate(kind));
    s2 := Step(1, s1, Send(|s.ops|));
    assert s2.core.queue == [Op(1, kind, |s.ops|)] && s2.unsent == {};
    s3 := Step(1, s2, TakeOp);
  }

  lemma {:induction false} Handle(es: seq<Event>, kind: Kind) returns (es': seq<Event>)
    requires IsRun(1, es) && TimelyRun(1, es) && (kind.Single? || kind.Search?)
    requires var s := Reach(1, es);
             s.core == Initial().(last := s.core.last) && 0 <= s.core.last <= 1 && s.unsent == {}
    ensures IsRun(1, es') && TimelyRun(1, es') && Owners(1, es') == Owners(1, es)
    ensures var s, s' := Reach(1, es), Reach(1, es');
            && s'.core == (if kind.Single? then Initial().(last := 1, inUse := {1}, resultmap := map[1 := |s.ops|])
                           else Initial().(last := 1, inUse := {1}, searchmap := map[1 := |s.ops|]))
            && s'.ops == s.ops + [Op(1, kind, |s.ops|)] && s'.unsent == {} && s'.retired == s.retired
  {
    var s := Reach(1, es);
    var s1, s2, s3 := HandledSteps(s, kind);
    var e1 := TimelyOn(1, es, Allocate(kind));
    var e2 := TimelyOn(1, e1, Send(|s.ops|));
    es' := TimelyOn(1, e2, TakeOp);
  }

  /** A search is registered, and its timeout is scrubbed in time. */
  lemma {:induction false} TimedOut() returns (es: seq<Event>)
    ensures IsRun(1, es) && TimelyRun(1, es) && Owners(1, es) == []
    ensures var s := Reach(1, es);
            s.core == Initial().(last := 1) && s.ops == [Op(1, Search, 0)] && s.unsent == {} && s.retired == {}
  {
    var e3 := Handle([], Search);
    var e4 := TimelyOn(1, e3, Timeout(0));
    es := TimelyOn(1, e4, TakeScrub);
  }

  /** A registered request, and a scrub for another one that names its id. */
  lemma {:induction false} FinishedElsewhere(s: State) returns (s': State)
    requires |s.views| == |s.ops| && s.ops == [Op(1, Search, 0), Op(1, Single, 1)] && s.unsent == {} && s.retired == {}
    requires s.core == Initial().(last := 1, inUse := {1}, resultmap := map[1 := 1])
    ensures Enabled(1, s, Finish(0)) && s' == Step(1, s, Finish(0))
    ensures Enabled(1, s', TakeScrub) && |s'.ops| == 2 && Live(s', 1) && s'.core.scrubs[0] == s'.ops[1].id
  {
    s' := Step(1, s, Finish(0));
    assert Registered(s', 1);
  }

  /** Its finish sends a second scrub, which stops the request that has got its id. */
  lemma {:induction false} SecondScrubStopsAnother() returns (es: seq<Event>)
    ensures IsRun(1, es) && TimelyRun(1, es) && StopsAnother(1, es, 1)
  {
    var e5 := TimedOut();
    var e8 := Handle(e5, Single);
    assert Reach(1, e8).ops == [Op(1, Search, 0), Op(1, Single, 1)];
    var s' := FinishedElsewhere(Reach(1, e8));
    es := TimelyOn(1, e8, Finish(0));
  }
}
