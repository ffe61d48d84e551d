/** The event loop of a connection: what each branch of its select does to the maps it owns. */
module Connection {
  import opened Bytes
  import MsgId

  datatype Kind = Single | Search | Abandon(target: int) | Unbind

  /** An operation on its way; the token stands for the reply channel it carries. */
  datatype Op = Op(id: int, kind: Kind, token: nat)

  /** A server message: its id, the number of its protocol operation, and the rest. */
  datatype Response = Response(id: int, opId: nat, body: nat)

  const SEARCH_DONE: nat := 5

  /** The protocol operations a search may receive: entry, intermediate, reference and done. */
  predicate Recognized(opId: nat)
  {
    opId == 4 || opId == 25 || opId == 19 || opId == SEARCH_DONE
  }

  datatype Core = Core(last: int, inUse: set<int>, queue: seq<Op>, scrubs: seq<int>,
                       resultmap: map<int, nat>, searchmap: map<int, nat>, alive: bool)

  function Initial(): Core
  {
    Core(0, {}, [], [], map[], map[], true)
  }

  function Forget(c: Core, id: int): Core
  {
    c.(resultmap := c.resultmap - {id}, searchmap := c.searchmap - {id})
  }

  function HandleScrub(c: Core): Core
    requires c.scrubs != []
  {
    var id := c.scrubs[0];
    Forget(c, id).(scrubs := c.scrubs[1..], inUse := c.inUse - {id})
  }

  function HandleOp(c: Core): Core
    requires c.queue != []
  {
    var op := c.queue[0];
    var c' := c.(queue := c.queue[1..]);
    match op.kind
    case Single => c'.(resultmap := c.resultmap[op.id := op.token])
    case Search => c'.(searchmap := c.searchmap[op.id := op.token])
    case Abandon(target) => Forget(c', target).(inUse := c.inUse - {op.id})
    case Unbind => c'
  }

  datatype Route = ToSearch(token: nat) | ToSingle(token: nat) | Unmatched

  function RouteOf(c: Core, id: int): Route
  {
    if id in c.searchmap then ToSearch(c.searchmap[id])
    else if id in c.resultmap then ToSingle(c.resultmap[id])
    else Unmatched
  }

  /** received tells whether the receiver at the other end of the channel still exists. */
  function HandleResponse(c: Core, m: Response, received: bool): Core
  {
    match RouteOf(c, m.id)
    case ToSearch(_) =>
      if !Recognized(m.opId) then c.(alive := false)
      else if m.opId == SEARCH_DONE || !received then c.(searchmap := c.searchmap - {m.id})
      else c
    case ToSingle(_) => c.(resultmap := c.resultmap - {m.id}, inUse := c.inUse - {m.id})
    case Unmatched => c
  }

  /** LdapConnAsync with the message map it shares with the handles, and the channels into the loop. */
  class LdapConnection {
    const msgmap: MsgId.MsgMap
    var queue: seq<Op>
    var scrubs: seq<int>
    var resultmap: map<int, nat>
    var searchmap: map<int, nat>
    var alive: bool

    ghost function Abs(): Core
      reads this, msgmap
    {
      Core(msgmap.last, msgmap.inUse, queue, scrubs, resultmap, searchmap, alive)
    }

    /** conn_pair */
    constructor (max: int)
      requires 1 <= max
      ensures Abs() == Initial() && msgmap.max == max && msgmap.Valid() && fresh(msgmap)
    {
      msgmap := new MsgId.MsgMap(max);
      queue, scrubs := [], [];
      resultmap, searchmap := map[], map[];
      alive := true;
    }

    /** The first half of op_call; None is the panic of next_msgid. */
    method AllocateId() returns (r: Option<int>)
      requires msgmap.Valid()
      modifies msgmap
      ensures msgmap.Valid()
      ensures r == MsgId.FirstFree(msgmap.max, old(msgmap.last), old(msgmap.inUse))
      ensures Abs() == if r.Some? then old(Abs()).(last := r.value, inUse := old(msgmap.inUse) + {r.value})
                       else old(Abs())
    {
      r := msgmap.NextMsgId();
    }

    method OnScrub()
      requires scrubs != [] && msgmap.Valid()
      modifies this, msgmap
      ensures msgmap.Valid() && Abs() == HandleScrub(old(Abs()))
    {
      var id := scrubs[0];
      scrubs := scrubs[1..];
      resultmap := resultmap - {id};
      searchmap := searchmap - {id};
      msgmap.Release(id);
    }

    method OnOperation()
      requires queue != [] && msgmap.Valid()
      modifies this, msgmap
      ensures msgmap.Valid() && Abs() == HandleOp(old(Abs()))
    {
      var op := queue[0];
      queue := queue[1..];
      if op.kind.Search? {
        searchmap := searchmap[op.id := op.token];
      }
      match op.kind
      case Single => resultmap := resultmap[op.id := op.token];
      case Search =>
      case Abandon(target) =>
        resultmap := resultmap - {target};
        searchmap := searchmap - {target};
        msgmap.Release(op.id);
      case Unbind =>
    }

    method OnResponse(m: Response, received: bool) returns (route: Route)
      requires msgmap.Valid()
      modifies this, msgmap
      ensures msgmap.Valid() && route == RouteOf(old(Abs()), m.id)
      ensures Abs() == HandleResponse(old(Abs()), m, received)
    {
      if m.id in searchmap {
        route := ToSearch(searchmap[m.id]);
        if !Recognized(m.opId) {
          alive := false;
          return;
        }
        var remove := m.opId == SEARCH_DONE;
        if !received {
          remove := true;
        }
        if remove {
          searchmap := searchmap - {m.id};
        }
      } else if m.id in resultmap {
        route := ToSingle(resultmap[m.id]);
        resultmap := resultmap - {m.id};
        msgmap.Release(m.id);
      } else {
        route := Unmatched;
      }
    }
  }
}
