/**
 * Search streams: the values a stream is made of, and what one call of start, next or finish does to them,
 * directly or through a chain of adapters.
 */
module SearchStream {
  import opened Bytes
  import opened Ber
  import opened Controls
  import opened BerInteger
  import FilterParser
  import SearchEntry

  // ----- Values -----

  datatype SearchOptions = SearchOptions(deref: nat, typesOnly: bool, timeLimit: int, sizeLimit: int)

  const DEFAULT_OPTIONS: SearchOptions := SearchOptions(0, false, 0, 0)

  /** What a handle carries besides its channels. */
  datatype Handle = Handle(lastId: int, timeout: Option<nat>, controls: Option<seq<RawControl>>,
                           options: Option<SearchOptions>)

  datatype Params = Params(base: seq<byte>, scope: nat, filter: seq<byte>, attrs: seq<seq<byte>>)

  datatype Request = Request(params: Params, options: SearchOptions, controls: Option<seq<RawControl>>)

  datatype LdapResult = LdapResult(rc: nat, matched: seq<byte>, text: string, refs: seq<seq<byte>>, ctrls: seq<Control>)

  datatype SearchItem = Entry(tag: StructureTag) | Referral(tag: StructureTag) | Done(result: LdapResult)

  datatype ResultEntry = ResultEntry(tag: StructureTag, ctrls: seq<Control>)

  /** What a receiver gets: an item, or a wait long enough for a timeout, if one is set. */
  datatype Arrival = Item(item: SearchItem, ctrls: seq<Control>) | Elapsed

  /**
   * How the connection reacts to a search request, and the message id it has given it: the channel is closed,
   * no acknowledgement comes, or the request is on its way and these items will arrive before the sender of
   * the channel is dropped.
   */
  datatype Reply = Unsent(id: int) | Failed(id: int, elapsed: bool) | Accepted(id: int, arrivals: seq<Arrival>)

  /** The connection as streams see it: its reactions to come, the requests made and the scrubs sent. */
  datatype Wire = Wire(script: seq<Reply>, issued: seq<Request>, scrubs: seq<int>)

  datatype LdapError = FilterParsing | AdapterInit | OpSend | ResultRecv | Timeout | EndOfStream

  datatype Cause = MissingReceiver | MalformedReference | MalformedPaging | AdapterNotStarted

  datatype Ret<T> = Ok(value: T) | Err(error: LdapError) | Panic(cause: Cause)

  datatype StreamState = Fresh | Active | Done | Closed | Error

  datatype Adapter =
    | EntriesOnly(refs: seq<seq<byte>>)
    | PagedResults(pageSize: i32, saved: Option<(Handle, Params)>)

  datatype Stream = Stream(handle: Handle, rx: Option<seq<Arrival>>, state: StreamState, adapters: seq<Adapter>,
                           ax: nat, timeout: Option<nat>, res: Option<LdapResult>, wire: Wire)

  function New(h: Handle, adapters: seq<Adapter>, w: Wire): Stream
  {
    Stream(h, None, Fresh, adapters, 0, None, None, w)
  }

  // ----- How much can still arrive -----

  function Weight(script: seq<Reply>): nat
  {
    if script == [] then 0
    else 1 + (if script[0].Accepted? then |script[0].arrivals| else 0) + Weight(script[1..])
  }

  function Budget(s: Stream): nat
  {
    Weight(s.wire.script) + if s.rx.Some? then |s.rx.value| else 0
  }

  // ----- The direct operations -----

  /** op_call for a search. */
  function OpCall(h: Handle, w: Wire, req: Request): (o: (Ret<seq<Arrival>>, Handle, Wire))
    ensures !o.0.Panic?
    ensures Weight(o.2.script) <= Weight(w.script)
    ensures o.0.Ok? ==> |o.0.value| + Weight(o.2.script) < Weight(w.script)
  {
    var reply := if w.script == [] then Unsent(1) else w.script[0];
    var w' := w.(script := if w.script == [] then [] else w.script[1..], issued := w.issued + [req]);
    var h' := h.(lastId := reply.id, controls := None);
    match reply
    case Unsent(_) => (Err(OpSend), h', w')
    case Failed(id, elapsed) =>
      if elapsed && h.timeout.Some? then (Err(Timeout), h'.(timeout := None), w'.(scrubs := w.scrubs + [id]))
      else (Err(ResultRecv), h'.(timeout := None), w')
    case Accepted(_, arrivals) => (Ok(arrivals), h'.(timeout := None), w')
  }

  predicate Compiles(filter: seq<byte>)
  {
    FilterParser.Parse(filter).Some?
  }

  function StartInner(s: Stream, p: Params): (o: (Ret<()>, Stream))
    ensures !o.0.Panic? && o.1.adapters == s.adapters && o.1.ax == s.ax
    ensures s.rx.None? ==> Budget(o.1) <= Budget(s)
    ensures s.rx.None? && o.0.Ok? && s.state == Fresh ==> Budget(o.1) < Budget(s)
  {
    var opts := if s.handle.options.Some? then s.handle.options.value else DEFAULT_OPTIONS;
    var s1 := s.(handle := s.handle.(options := None), timeout := s.handle.timeout);
    if !Compiles(p.filter) then (Err(FilterParsing), s1)
    else
      var (r, h, w) := OpCall(s1.handle, s.wire, Request(p, opts, s.handle.controls));
      if r.Ok? then (Ok(()), s1.(handle := h, wire := w, rx := Some(r.value), state := Active))
      else (Err(r.error), s1.(handle := h, wire := w, rx := Some([])))
  }

  /** The next thing the receiver gives; without a timeout it waits as long as it takes. None: the sender is gone. */
  function Pull(timed: bool, q: seq<Arrival>): (o: (Option<Arrival>, seq<Arrival>))
    ensures |o.1| <= |q| && (o.0.Some? ==> |o.1| < |q|)
  {
    if q == [] then (None, [])
    else if q[0].Elapsed? && !timed then Pull(timed, q[1..])
    else (Some(q[0]), q[1..])
  }

  function NextInner(s: Stream): (o: (Ret<Option<ResultEntry>>, Stream))
    ensures o.1.adapters == s.adapters && o.1.ax == s.ax && o.1.state == s.state
    ensures Budget(o.1) <= Budget(s)
    ensures o.0.Ok? && o.0.value.Some? ==> Budget(o.1) < Budget(s)
  {
    if s.rx.None? then (Panic(MissingReceiver), s)
    else
      match Pull(s.timeout.Some?, s.rx.value)
      case (None, _) => (Err(EndOfStream), s.(rx := None))
      case (Some(Elapsed), rest) =>
        (Err(Timeout), s.(rx := Some(rest), wire := s.wire.(scrubs := s.wire.scrubs + [s.handle.lastId])))
      case (Some(Item(Done(res), ctrls)), _) => (Ok(None), s.(rx := None, res := Some(res.(ctrls := ctrls))))
      case (Some(Item(item, ctrls)), rest) => (Ok(Some(ResultEntry(item.tag, ctrls))), s.(rx := Some(rest)))
  }

  const CANCELLED: LdapResult := LdapResult(88, [], "user cancelled", [], [])
  const ALREADY_FINAL: LdapResult := LdapResult(80, [], "stream already finalized", [], [])

  function FinishInner(s: Stream): (o: (LdapResult, Stream))
    ensures o.1.adapters == s.adapters && o.1.ax == s.ax
  {
    var scrubs := if s.state != StreamState.Done then s.wire.scrubs + [s.handle.lastId] else s.wire.scrubs;
    (if s.res.Some? then s.res.value else CANCELLED,
     s.(state := Closed, rx := None, res := None, wire := s.wire.(scrubs := scrubs)))
  }

  // ----- start -----

  function Start(s: Stream, p: Params): (o: (Ret<()>, Stream))
    ensures !o.0.Panic? && |o.1.adapters| == |s.adapters| && o.1.ax == s.ax
    decreases |s.adapters| - s.ax, 1
  {
    if s.state != Fresh then (Ok(()), s)
    else if s.ax >= |s.adapters| then Marked(StartInner(s, p))
    else
      var (r, me, s') := AdapterStart(s.adapters[s.ax], s.(ax := s.ax + 1), p);
      Marked((r, Unlock(s', me)))
  }

  /** The adapter gives its lock back, and the index goes back with it. */
  function Unlock(s: Stream, me: Adapter): (s': Stream)
    requires 0 < s.ax <= |s.adapters|
  {
    s.(adapters := s.adapters[s.ax - 1 := me], ax := s.ax - 1)
  }

  function Marked<T>(o: (Ret<T>, Stream)): (o': (Ret<T>, Stream))
  {
    (o.0, if o.0.Err? then o.1.(state := StreamState.Error) else o.1)
  }

  predicate IsPaging(rc: RawControl)
  {
    rc.ctype == PAGED_RESULTS_OID
  }

  predicate HasPaging(rcs: seq<RawControl>)
  {
    exists i :: 0 <= i < |rcs| && IsPaging(rcs[i])
  }

  function UserControls(h: Handle): seq<RawControl>
  {
    if h.controls.Some? then h.controls.value else []
  }

  function AdapterStart(me: Adapter, s: Stream, p: Params): (o: (Ret<()>, Adapter, Stream))
    ensures !o.0.Panic? && |o.2.adapters| == |s.adapters| && o.2.ax == s.ax
    decreases |s.adapters| - s.ax, 2
  {
    match me
    case EntriesOnly(_) =>
      var (r, s') := Start(s, p);
      (r, EntriesOnly([]), s')
    case PagedResults(size, _) =>
      var user := UserControls(s.handle);
      if HasPaging(user) then (Err(AdapterInit), me, s)
      else
        var saved := Handle(0, s.handle.timeout, Some(user), s.handle.options);
        var first := s.handle.(controls := Some(user + [PagingControl(Paging(size, []))]));
        var (r, s') := Start(s.(handle := first), p);
        (r, Adapter.PagedResults(size, Some((saved, p))), s')
  }

  // ----- next -----

  function Next(s: Stream): (o: (Ret<Option<ResultEntry>>, Stream))
    ensures |o.1.adapters| == |s.adapters| && Budget(o.1) <= Budget(s)
    ensures !o.0.Panic? ==> o.1.ax == s.ax
    ensures o.0.Ok? && o.0.value.Some? ==> Budget(o.1) < Budget(s)
    decreases Budget(s), |s.adapters| - s.ax, 1
  {
    if s.state != Active then (Ok(None), s)
    else if s.ax >= |s.adapters| then Marked(NextInner(s))
    else
      var (r, me, s') := AdapterNext(s.adapters[s.ax], s.(ax := s.ax + 1));
      if r.Panic? then (r, s')
      else
        var s'' := Unlock(s', me);
        if r == Ok(None) && s''.ax == 0 then (r, s''.(state := StreamState.Done)) else Marked((r, s''))
  }

  function AdapterNext(me: Adapter, s: Stream): (o: (Ret<Option<ResultEntry>>, Adapter, Stream))
    ensures |o.2.adapters| == |s.adapters| && Budget(o.2) <= Budget(s)
    ensures !o.0.Panic? ==> o.2.ax == s.ax
    ensures o.0.Ok? && o.0.value.Some? ==> Budget(o.2) < Budget(s)
    decreases Budget(s), |s.adapters| - s.ax, 2
  {
    var (r, s') := Next(s);
    match me
    case EntriesOnly(refs) =>
      if !(r.Ok? && r.value.Some?) then (r, me, s')
      else if IsIntermediate(r.value.value) then AdapterNext(me, s')
      else if !IsRef(r.value.value) then (r, me, s')
      else
        (match SearchEntry.ParseRefs(r.value.value.tag)
         case None => (Panic(MalformedReference), me, s')
         case Some(uris) => AdapterNext(EntriesOnly(refs + uris), s'))
    case PagedResults(_, _) =>
      if r != Ok(None) then (r, me, s')
      else
        match PageEnd(s'.res)
        case Last(res) => (Ok(None), me, s'.(res := res))
        case Broken => (Panic(MalformedPaging), me, s')
        case More(cookie) =>
          var (turned, s'') := TurnPage(me, s', cookie);
          if turned.Ok? then AdapterNext(me, s'')
          else if turned.Err? then (Err(turned.error), me, s'')
          else (Panic(turned.cause), me, s'')
  }

  predicate IsIntermediate(re: ResultEntry) { re.tag.id == 25 }

  predicate IsRef(re: ResultEntry) { re.tag.id == 19 }

  datatype End = Last(res: Option<LdapResult>) | More(cookie: seq<byte>) | Broken

  /** The place of the first paging control, or the length of the list. */
  function PagingAt(cs: seq<Control>): (k: nat)
    ensures k <= |cs|
    ensures forall j :: 0 <= j < k ==> cs[j].known != Some(ControlType.PagedResults)
    ensures k < |cs| ==> cs[k].known == Some(ControlType.PagedResults)
  {
    if cs == [] || cs[0].known == Some(ControlType.PagedResults) then 0 else 1 + PagingAt(cs[1..])
  }

  /** What the result of a page says about the next one. */
  function PageEnd(res: Option<LdapResult>): End
  {
    if res.None? then Last(None)
    else
      var cs := res.value.ctrls;
      var k := PagingAt(cs);
      if k == |cs| then Last(res)
      else if cs[k].raw.val.None? then Broken
      else
        match ParsePaging(cs[k].raw.val.value)
        case None => Broken
        case Some(pr) =>
          if pr.cookie == [] then Last(Some(res.value.(ctrls := cs[..k] + cs[k + 1..]))) else More(pr.cookie)
  }

  /** A new search with the saved handle; the stream takes over its handle and its receiver. */
  function TurnPage(me: Adapter, s: Stream, cookie: seq<byte>): (o: (Ret<()>, Stream))
    requires me.PagedResults?
    ensures o.1.adapters == s.adapters && o.1.ax == s.ax && Budget(o.1) <= Budget(s)
    ensures o.0.Ok? ==> Budget(o.1) < Budget(s)
  {
    if me.saved.None? || me.saved.value.0.controls.None? then (Panic(AdapterNotStarted), s)
    else
      var (h, p) := me.saved.value;
      var again := h.(lastId := 0, controls := Some(h.controls.value + [PagingControl(Paging(me.pageSize, cookie))]));
      var (r, n) := StartInner(New(again, [], s.wire), p);
      if r.Ok? then (r, s.(handle := n.handle, rx := n.rx, wire := n.wire)) else (r, s.(wire := n.wire))
  }

  // ----- finish -----

  function Finish(s: Stream): (o: (LdapResult, Stream))
    ensures |o.1.adapters| == |s.adapters| && o.1.ax == s.ax
    decreases |s.adapters| - s.ax, 1
  {
    if s.state == Closed then (ALREADY_FINAL, s)
    else if s.ax >= |s.adapters| then FinishInner(s)
    else
      var (r, me, s') := AdapterFinish(s.adapters[s.ax], s.(ax := s.ax + 1));
      (r, Unlock(s', me))
  }

  function AdapterFinish(me: Adapter, s: Stream): (o: (LdapResult, Adapter, Stream))
    ensures |o.2.adapters| == |s.adapters| && o.2.ax == s.ax
    decreases |s.adapters| - s.ax, 2
  {
    var (r, s') := Finish(s);
    match me
    case EntriesOnly(refs) => (r.(refs := r.refs + refs), EntriesOnly([]), s')
    case PagedResults(_, _) => (r, me, s')
  }

  // ----- The handle's operations on top of streams -----

  /** streaming_search_with: the stream gets the handle's timeout, controls and options. */
  function StreamingSearch(h: Handle, w: Wire, adapters: seq<Adapter>, p: Params): (o: (Ret<()>, Stream))
    ensures !o.0.Panic? && |o.1.adapters| == |adapters| && o.1.ax == 0
  {
    Start(New(h.(lastId := 0), adapters, w), p)
  }

  /** next until it gives no entry. */
  function Collect(s: Stream): (o: (seq<ResultEntry>, Ret<()>, Stream))
    decreases Budget(s)
  {
    var (r, s') := Next(s);
    if r.Panic? then ([], Panic(r.cause), s')
    else if r.Err? then ([], Err(r.error), s')
    else if r.value.None? then ([], Ok(()), s')
    else
      var (rest, end, s'') := Collect(s');
      ([r.value.value] + rest, end, s'')
  }

  /** search with any adapters: start, collect, finish. */
  function SearchWith(h: Handle, w: Wire, adapters: seq<Adapter>, p: Params)
    : (o: (Ret<(seq<ResultEntry>, LdapResult)>, Wire))
  {
    var (r, s) := StreamingSearch(h, w, adapters, p);
    if r.Err? then (Err(r.error), s.wire)
    else
      var (entries, end, s') := Collect(s);
      if end.Panic? then (Panic(end.cause), s'.wire)
      else if end.Err? then (Err(end.error), s'.wire)
      else
        var (res, s'') := Finish(s');
        (Ok((entries, res)), s''.wire)
  }
}
