/**
 * Many handles, one loop: the system of all steps that handles, streams, the loop and the server can take,
 * and what the users of the connection are meant to observe.
 */
module Multiplexer {
  import opened Connection
  import MsgId

  /**
   * What a request is owed: whether it is listening, and what it has been given. This is the specification;
   * it looks at ids and at the order of events, never at the maps of the loop.
   */
  datatype View = View(listening: bool, got: seq<Response>)

  /**
   * Where the ids in use are: allocated and not handled by the loop, singles that an Abandon has removed,
   * searches handled by the loop and not scrubbed, and unbinds handled by the loop. The singles that wait
   * for their response are in the result map.
   */
  datatype Accounts = Accounts(waiting: map<int, nat>, abandoned: set<int>, searching: map<int, nat>, unbound: set<int>)

  /**
   * ops lists every operation by its token, in the order of allocation; unsent are the tokens whose operation
   * is not on the channel yet; receivers are the searches whose receiver exists; retired are the streams that
   * will send no scrub; handed is what the loop has actually delivered.
   */
  datatype State = State(core: Core, ops: seq<Op>, unsent: set<nat>, receivers: set<nat>, retired: set<nat>,
                         handed: seq<seq<Response>>, views: seq<View>, accounts: Accounts)

  datatype Event =
    | Allocate(kind: Kind)    // next_msgid in op_call
    | Send(token: nat)        // the operation goes onto the channel
    | TakeOp                  // the loop handles the operation at the head of the channel
    | TakeScrub               // the loop handles the scrub at the head of its channel
    | Respond(m: Response)    // a message arrives from the server
    | DropReceiver(token: nat) // a search receiver goes away
    | Finish(token: nat)      // finish() in a state other than Done: scrub, and the receiver goes away
    | Retire(token: nat)      // a stream ends without a scrub
    | Timeout(token: nat)     // a timeout sends a scrub, at any time after the allocation

  function Start(): State
  {
    State(Initial(), [], {}, {}, {}, [], [], Accounts(map[], {}, map[], {}))
  }

  predicate InQueue(s: State, t: nat)
  {
    exists i :: 0 <= i < |s.core.queue| && s.core.queue[i].token == t
  }

  /** Allocated, and not handled by the loop yet. */
  predicate Pending(s: State, t: nat)
  {
    t in s.unsent || InQueue(s, t)
  }

  ghost predicate Enabled(max: int, s: State, e: Event)
  {
    match e
    case Allocate(_) => 0 <= s.core.last <= max && MsgId.FirstFree(max, s.core.last, s.core.inUse).Some?
    case Send(t) => t in s.unsent && t < |s.ops|
    case TakeOp => s.core.alive && s.core.queue != []
    case TakeScrub => s.core.alive && s.core.scrubs != []
    case Respond(_) => s.core.alive
    case DropReceiver(t) => t in s.receivers
    case Finish(t) => t < |s.ops| && s.ops[t].kind.Search? && !Pending(s, t) && t !in s.retired
    case Retire(t) => t < |s.ops| && s.ops[t].kind.Search? && t !in s.retired
    case Timeout(t) => t < |s.ops|
  }

  // ----- The specification of what is observed -----

  /**
   * The operations of section 4.5.2 of RFC 4511 that answer a search, and the intermediate response: entry 4, done 5,
   * reference 19, intermediate 25.
   */
  predicate ForSearch(opId: nat)
  {
    opId == 4 || opId == 5 || opId == 19 || opId == 25
  }

  /** One event seen by the request with this token, kind and id. */
  ghost function See(v: View, s: State, e: Event, op: Op): View
  {
    match e
    case TakeOp =>
      if s.core.queue == [] then v
      else
        var head := s.core.queue[0];
        if head.token == op.token then v.(listening := op.kind.Single? || op.kind.Search?)
        else if head.kind == Abandon(op.id) then v.(listening := false)
        else v
    case TakeScrub => if s.core.scrubs != [] && s.core.scrubs[0] == op.id then v.(listening := false) else v
    case Respond(m) =>
      if !v.listening || m.id != op.id then v
      else if op.kind.Single? then View(false, v.got + [m])
      else if !ForSearch(m.opId) then v
      else if op.token !in s.receivers then v.(listening := false)
      else View(m.opId != 5, v.got + [m])
    case _ => v
  }

  ghost function SeeAll(s: State, e: Event): (vs: seq<View>)
    requires |s.views| == |s.ops|
    ensures |vs| == |s.ops| && forall t :: 0 <= t < |vs| ==> vs[t] == See(s.views[t], s, e, s.ops[t])
  {
    seq(|s.ops|, t requires 0 <= t < |s.ops| => See(s.views[t], s, e, s.ops[t]))
  }

  // ----- Steps -----

  function Deliver(handed: seq<seq<Response>>, t: nat, m: Response): seq<seq<Response>>
  {
    if t < |handed| then handed[t := handed[t] + [m]] else handed
  }

  function Route(s: State, m: Response): (handed: seq<seq<Response>>)
    ensures |handed| == |s.handed|
  {
    match RouteOf(s.core, m.id)
    case ToSearch(t) => if Recognized(m.opId) && t in s.receivers then Deliver(s.handed, t, m) else s.handed
    case ToSingle(t) => Deliver(s.handed, t, m)
    case Unmatched => s.handed
  }

  /** Whether the channel of the search with this id still has a receiver. */
  predicate Received(s: State, id: int)
  {
    id in s.core.searchmap && s.core.searchmap[id] in s.receivers
  }

  function AfterOp(s: State): Accounts
    requires s.core.queue != []
  {
    var op, a := s.core.queue[0], s.accounts.(waiting := s.accounts.waiting - {s.core.queue[0].id});
    match op.kind
    case Single => a
    case Search => a.(searching := a.searching[op.id := op.token])
    case Abandon(target) => if target in s.core.resultmap then a.(abandoned := a.abandoned + {target}) else a
    case Unbind => a.(unbound := a.unbound + {op.id})
  }

  ghost function Step(max: int, s: State, e: Event): (s': State)
    requires Enabled(max, s, e) && |s.views| == |s.ops|
    ensures |s'.views| == |s'.ops|
  {
    match e
    case Allocate(kind) =>
      var id := MsgId.FirstFree(max, s.core.last, s.core.inUse).value;
      var t := |s.ops|;
      State(s.core.(last := id, inUse := s.core.inUse + {id}), s.ops + [Op(id, kind, t)], s.unsent + {t},
            if kind.Search? then s.receivers + {t} else s.receivers, s.retired,
            s.handed + [[]], s.views + [View(false, [])], s.accounts.(waiting := s.accounts.waiting[id := t]))
    case Send(t) =>
      s.(core := s.core.(queue := s.core.queue + [s.ops[t]]), unsent := s.unsent - {t})
    case TakeOp => s.(core := HandleOp(s.core), views := SeeAll(s, e), accounts := AfterOp(s))
    case TakeScrub =>
      s.(core := HandleScrub(s.core), views := SeeAll(s, e),
         accounts := s.accounts.(searching := s.accounts.searching - {s.core.scrubs[0]}))
    case Respond(m) =>
      s.(core := HandleResponse(s.core, m, Received(s, m.id)), handed := Route(s, m), views := SeeAll(s, e))
    case DropReceiver(t) => s.(receivers := s.receivers - {t})
    case Finish(t) =>
      s.(core := s.core.(scrubs := s.core.scrubs + [s.ops[t].id]), receivers := s.receivers - {t},
         retired := s.retired + {t})
    case Retire(t) => s.(receivers := s.receivers - {t}, retired := s.retired + {t})
    case Timeout(t) => s.(core := s.core.(scrubs := s.core.scrubs + [s.ops[t].id]))
  }

  // ----- Runs -----

  ghost predicate IsRun(max: int, es: seq<Event>)
    decreases |es|, 0
  {
    es == [] || (IsRun(max, es[..|es| - 1]) && Enabled(max, Reach(max, es[..|es| - 1]), es[|es| - 1]))
  }

  ghost function Reach(max: int, es: seq<Event>): (s: State)
    requires IsRun(max, es)
    ensures |s.views| == |s.ops|
    decreases |es|, 1
  {
    if es == [] then Start() else Step(max, Reach(max, es[..|es| - 1]), es[|es| - 1])
  }

  ghost predicate TimeoutFree(es: seq<Event>)
  {
    forall i :: 0 <= i < |es| ==> !es[i].Timeout?
  }
}
