/** What holds of every chain of adapters, and of every sequence of calls on a stream. */
module SearchStreamLaws {
  import opened Bytes
  import opened Controls
  import opened BerInteger
  import opened SearchStream
  import FilterParser
  import SearchEntry

  // ----- Calls from user code -----

  datatype Call = CallStart(params: Params) | CallNext | CallFinish

  function After(s: Stream, c: Call): Stream
  {
    match c
    case CallStart(p) => Start(s, p).1
    case CallNext => Next(s).1
    case CallFinish => Finish(s).1
  }

  predicate Panics(s: Stream, c: Call)
  {
    c.CallNext? && Next(s).0.Panic?
  }

  /** No call panics before the last. */
  predicate Survives(s: Stream, cs: seq<Call>)
    decreases |cs|
  {
    cs == [] || (!Panics(s, cs[0]) && Survives(After(s, cs[0]), cs[1..]))
  }

  function AfterAll(s: Stream, cs: seq<Call>): Stream
    decreases |cs|
  {
    if cs == [] then s else AfterAll(After(s, cs[0]), cs[1..])
  }

  // ----- Adapters that have been started -----

  predicate Started(a: Adapter)
  {
    a.PagedResults? ==> a.saved.Some? && a.saved.value.0.controls.Some?
  }

  ghost predicate StartedFrom(adapters: seq<Adapter>, k: nat)
  {
    forall i :: k <= i < |adapters| ==> Started(adapters[i])
  }

  /** The filter it will search with again is one. */
  predicate Compiled(a: Adapter)
  {
    a.PagedResults? && a.saved.Some? ==> Compiles(a.saved.value.1.filter)
  }

  ghost predicate CompiledFrom(adapters: seq<Adapter>, k: nat)
  {
    forall i :: k <= i < |adapters| ==> Compiled(adapters[i])
  }

  /** The adapters whose lock is held are left alone. */
  ghost predicate BelowKept(s: Stream, s': Stream, k: nat)
  {
    && |s'.adapters| == |s.adapters|
    && forall i :: 0 <= i < k && i < |s.adapters| ==> s'.adapters[i] == s.adapters[i]
  }

  /** A stream that can be read: it has a receiver, and the adapters still to be called have been started. */
  ghost predicate Readable(s: Stream)
  {
    s.state == Active && s.rx.Some? && StartedFrom(s.adapters, s.ax)
  }

  lemma {:induction false} StartMakesReadable(s: Stream, p: Params)
    requires s.state == Fresh
    ensures var (r, s') := Start(s, p);
            && BelowKept(s, s', s.ax) && s'.res == s.res
            && (r.Ok? ==> Readable(s') && CompiledFrom(s'.adapters, s.ax) && Compiles(p.filter))
            && (r.Err? ==> s'.state == StreamState.Error)
    decreases |s.adapters| - s.ax, 1
  {
    if s.ax < |s.adapters| {
      AdapterStartMakesReadable(s.adapters[s.ax], s.(ax := s.ax + 1), p);
    }
  }

  lemma {:induction false} AdapterStartMakesReadable(me: Adapter, s: Stream, p: Params)
    requires s.state == Fresh
    ensures var (r, me', s') := AdapterStart(me, s, p);
            && BelowKept(s, s', s.ax) && s'.res == s.res
            && (r.Ok? ==> Readable(s') && Started(me')
                          && CompiledFrom(s'.adapters, s.ax) && Compiled(me') && Compiles(p.filter))
    decreases |s.adapters| - s.ax, 2
  {
    match me
    case EntriesOnly(_) => StartMakesReadable(s, p);
    case PagedResults(size, _) =>
      var user := UserControls(s.handle);
      if !HasPaging(user) {
        StartMakesReadable(s.(handle := s.handle.(controls := Some(user + [PagingControl(Paging(size, []))]))), p);
      }
  }

  predicate Avoided(c: Cause)
  {
    c != MissingReceiver && c != AdapterNotStarted
  }

  /** What one call of next does to a readable stream, at any place in the chain. */
  ghost predicate NextOutcome(s: Stream, r: Ret<Option<ResultEntry>>, s': Stream)
  {
    && BelowKept(s, s', s.ax)
    && (r.Panic? ==> Avoided(r.cause))
    && (r.Ok? ==> StartedFrom(s'.adapters, s.ax))
    && (r.Ok? && r.value.Some? ==> s'.state == Active && s'.rx.Some?)
  }

  lemma {:induction false} NextOnReadable(s: Stream)
    requires Readable(s)
    ensures var (r, s') := Next(s);
            && NextOutcome(s, r, s')
            && (r == Ok(None) ==> s'.state == if s.ax == 0 < |s.adapters| then StreamState.Done else Active)
            && (r.Err? ==> s'.state == StreamState.Error)
    decreases Budget(s), |s.adapters| - s.ax, 1
  {
    if s.ax < |s.adapters| {
      AdapterNextOnReadable(s.adapters[s.ax], s.(ax := s.ax + 1));
    }
  }

  lemma {:induction false} AdapterNextOnReadable(me: Adapter, s: Stream)
    requires Readable(s) && Started(me) && s.ax > 0
    ensures var (r, me', s') := AdapterNext(me, s);
            NextOutcome(s, r, s') && Started(me') && (r == Ok(None) ==> s'.state == Active)
    decreases Budget(s), |s.adapters| - s.ax, 2
  {
    NextOnReadable(s);
    var (r, s') := Next(s);
    if r.Ok? {
      match me
      case EntriesOnly(refs) =>
        if r.value.Some? && IsIntermediate(r.value.value) {
          AdapterNextOnReadable(me, s');
        } else if r.value.Some? && IsRef(r.value.value) {
          var uris := SearchEntry.ParseRefs(r.value.value.tag);
          if uris.Some? {
            AdapterNextOnReadable(EntriesOnly(refs + uris.value), s');
          }
        }
      case PagedResults(_, _) =>
        var end := PageEnd(s'.res);
        if r.value.None? && end.More? {
          var (turned, s'') := TurnPage(me, s', end.cookie);
          if turned.Ok? {
            AdapterNextOnReadable(me, s'');
          }
        }
    }
  }

  // ----- finish -----

  /** The references of the adapters from the k-th on, the innermost first. */
  function RefsFrom(adapters: seq<Adapter>, k: nat): seq<seq<byte>>
    decreases |adapters| - k
  {
    if k >= |adapters| then []
    else RefsFrom(adapters, k + 1) + if adapters[k].EntriesOnly? then adapters[k].refs else []
  }

  lemma {:induction false} FinishMeans(s: Stream)
    requires s.state != Closed
    ensures var (r, s') := Finish(s);
            var base := Reported(s.res);
            && r == base.(refs := base.refs + RefsFrom(s.adapters, s.ax))
            && s'.state == Closed && s'.rx == None && s'.res == None && s'.ax == s.ax
            && s'.wire == s.wire.(scrubs := s.wire.scrubs
                                            + if s.state == StreamState.Done then [] else [s.handle.lastId])
    decreases |s.adapters| - s.ax
  {
    if s.ax < |s.adapters| {
      FinishMeans(s.(ax := s.ax + 1));
    }
  }

  /** Nothing changes a closed stream any more. */
  lemma {:induction false} ClosedIsFinal(s: Stream, cs: seq<Call>)
    requires s.state == Closed
    ensures Survives(s, cs) && AfterAll(s, cs) == s
    ensures Next(s).0 == Ok(None) && Finish(s).0 == LdapResult(80, [], "stream already finalized", [], [])
  {
    if cs != [] {
      ClosedIsFinal(s, cs[1..]);
    }
  }

  // ----- Adapted streams are safe -----

  /** Holds between the calls of user code. */
  ghost predicate Safe(s: Stream)
  {
    s.ax == 0 && s.adapters != [] && (s.state == Active ==> Readable(s))
  }

  lemma {:induction false} SafeCall(s: Stream, c: Call)
    requires Safe(s) && !Panics(s, c)
    ensures Safe(After(s, c))
  {
    match c
    case CallStart(p) =>
      if s.state == Fresh {
        StartMakesReadable(s, p);
      }
    case CallNext =>
      if s.state == Active {
        NextOnReadable(s);
      }
    case CallFinish =>
      if s.state != Closed {
        FinishMeans(s);
      }
  }

  lemma {:induction false} SafeCalls(s: Stream, cs: seq<Call>)
    requires Safe(s) && Survives(s, cs)
    ensures Safe(AfterAll(s, cs))
    decreases |cs|
  {
    if cs != [] {
      SafeCall(s, cs[0]);
      SafeCalls(After(s, cs[0]), cs[1..]);
    }
  }

  /**
   * In every state that user code can bring an adapted stream into, the index is back at the start of the
   * chain, an active stream has a receiver, and next never misses a receiver or an adapter's saved request.
   */
  lemma {:induction false} AdaptedStreamIsSafe(h: Handle, adapters: seq<Adapter>, w: Wire, cs: seq<Call>)
    requires adapters != [] && Survives(New(h, adapters, w), cs)
    ensures var s := AfterAll(New(h, adapters, w), cs);
            && s.ax == 0 && (s.state == Active ==> s.rx.Some?)
            && (Next(s).0.Panic? ==> Avoided(Next(s).0.cause))
  {
    var s := AfterAll(New(h, adapters, w), cs);
    SafeCalls(New(h, adapters, w), cs);
    if s.state == Active {
      NextOnReadable(s);
    }
  }

  /** Once next has given no entry, or an error, an adapted stream gives no entry and does not change. */
  lemma {:induction false} AdaptedStreamStaysEnded(s: Stream)
    requires s.ax == 0 && s.adapters != [] && (Next(s).0 == Ok(None) || Next(s).0.Err?)
    ensures Next(Next(s).1) == (Ok(None), Next(s).1)
  {
    var s' := Next(s).1;
    assert s'.state != Active;
  }

  // ----- Direct streams are not -----

  /** Holds of direct streams between the calls of user code. */
  ghost predicate Direct(s: Stream)
  {
    && s.ax == 0 && s.adapters == []
    && (s.res.Some? ==> s.state == Active)
    && (s.state == Active ==> (s.rx.None? <==> s.res.Some?))
  }

  lemma {:induction false} DirectCalls(s: Stream, cs: seq<Call>)
    requires Direct(s) && Survives(s, cs)
    ensures Direct(AfterAll(s, cs))
    decreases |cs|
  {
    if cs != [] {
      DirectCalls(After(s, cs[0]), cs[1..]);
    }
  }

  /** A direct stream panics exactly when it is active and has read the final result already. */
  lemma {:induction false} DirectPanicsExactlyWhen(h: Handle, w: Wire, cs: seq<Call>)
    requires Survives(New(h, [], w), cs)
    ensures var s := AfterAll(New(h, [], w), cs);
            && (Next(s).0.Panic? <==> s.state == Active && s.res.Some?)
            && (Next(s).0.Panic? ==> Next(s) == (Panic(MissingReceiver), s))
  {
    DirectCalls(New(h, [], w), cs);
  }

  /** So next must not be called again after the end. */
  lemma {:induction false} DirectStreamEndsOnce(s: Stream)
    requires s.ax == 0 && s.adapters == [] && s.state == Active && Next(s).0 == Ok(None)
    ensures Next(Next(s).1) == (Panic(MissingReceiver), Next(s).1)
  {
  }

  // ----- start -----

  /** The paging adapters from the k-th on. */
  function PagersFrom(adapters: seq<Adapter>, k: nat): nat
    decreases |adapters| - k
  {
    if k >= |adapters| then 0
    else PagersFrom(adapters, k + 1) + if adapters[k].PagedResults? then 1 else 0
  }

  /** 1.2.840.113556.1.4.319, the type of the paged results control (RFC 2696). */
  const PAGING: seq<byte> :=
    [0x31, 0x2E, 0x32, 0x2E, 0x38, 0x34, 0x30, 0x2E, 0x31, 0x31, 0x33, 0x35, 0x35, 0x36,
     0x2E, 0x31, 0x2E, 0x34, 0x2E, 0x33, 0x31, 0x39]

  /** The controls given with a handle. */
  function OwnControls(h: Handle): seq<RawControl>
  {
    match h.controls
    case None => []
    case Some(rcs) => rcs
  }

  /** The error of a request that was not accepted, and the scrub that goes with it. */
  function Refusal(reply: Reply, timeout: Option<nat>): LdapError
  {
    if reply.Unsent? then OpSend
    else if reply.Failed? && reply.elapsed && timeout.Some? then Timeout
    else ResultRecv
  }

  function RefusalScrubs(reply: Reply, timeout: Option<nat>): seq<int>
  {
    if reply.Failed? && reply.elapsed && timeout.Some? then [reply.id] else []
  }

  /** One of the controls is a paged results control. */
  ghost predicate AsksForPaging(rcs: seq<RawControl>)
  {
    exists i :: 0 <= i < |rcs| && rcs[i].ctype == PAGING
  }

  lemma {:induction false} PagingIs()
    ensures PAGED_RESULTS_OID == PAGING
  {
    var s := "1.2.840.113556.1.4.319";
    assert |s| == |PAGING|;
    forall i | 0 <= i < |s| ensures s[i] as int == PAGING[i] {
    }
  }

  lemma {:induction false} SamePaging(rcs: seq<RawControl>)
    ensures HasPaging(rcs) <==> AsksForPaging(rcs)
  {
    PagingIs();
    if HasPaging(rcs) {
      var i :| 0 <= i < |rcs| && IsPaging(rcs[i]);
      assert rcs[i].ctype == PAGING;
    }
    if AsksForPaging(rcs) {
      var i :| 0 <= i < |rcs| && rcs[i].ctype == PAGING;
      assert IsPaging(rcs[i]);
    }
  }

  /** A stream as a paging adapter passes it on. */
  function PagerStart(s: Stream, size: i32): Stream
  {
    s.(handle := s.handle.(controls := Some(OwnControls(s.handle) + [PagingControl(Paging(size, []))])))
  }

  ghost predicate Clash(s: Stream)
  {
    PagersFrom(s.adapters, s.ax) + (if AsksForPaging(OwnControls(s.handle)) then 1 else 0) >= 2
    && PagersFrom(s.adapters, s.ax) >= 1
  }

  lemma {:induction false} PagingAdded(rcs: seq<RawControl>, pr: Paging)
    ensures AsksForPaging(rcs + [PagingControl(pr)])
  {
    PagingIs();
    assert (rcs + [PagingControl(pr)])[|rcs|].ctype == PAGING;
  }

  /**
   * start fails for the sake of an adapter exactly when paging is asked for twice: by two adapters, or by an
   * adapter and by the user's own control. Nothing has been sent then.
   */
  lemma {:induction false} StartClashesExactlyWhen(s: Stream, p: Params)
    requires s.state == Fresh
    ensures Start(s, p).0 == Err(AdapterInit) <==> Clash(s)
    ensures Clash(s) ==> Start(s, p).1.wire == s.wire && Start(s, p).1.state == StreamState.Error
    decreases |s.adapters| - s.ax
  {
    if s.ax < |s.adapters| {
      var inside := s.(ax := s.ax + 1);
      match s.adapters[s.ax]
      case EntriesOnly(_) => StartClashesExactlyWhen(inside, p);
      case PagedResults(size, _) =>
        SamePaging(OwnControls(s.handle));
        PagingAdded(OwnControls(s.handle), Paging(size, []));
        StartClashesExactlyWhen(PagerStart(inside, size), p);
    }
  }

  /** The controls of the first request: the user's, and those of a paging adapter if there is one. */
  function FirstControls(s: Stream, k: nat): Option<seq<RawControl>>
    decreases |s.adapters| - k
  {
    if k >= |s.adapters| then s.handle.controls
    else if s.adapters[k].PagedResults? then
      Some(OwnControls(s.handle) + [PagingControl(Paging(s.adapters[k].pageSize, []))])
    else FirstControls(s, k + 1)
  }

  lemma {:induction false} NoPagersNoControls(s: Stream, k: nat)
    requires PagersFrom(s.adapters, k) == 0
    ensures FirstControls(s, k) == s.handle.controls
    decreases |s.adapters| - k
  {
    if k < |s.adapters| {
      NoPagersNoControls(s, k + 1);
    }
  }

  lemma {:induction false} SameAdaptersSameControls(s: Stream, s': Stream, k: nat)
    requires s'.adapters == s.adapters && s'.handle == s.handle
    ensures FirstControls(s', k) == FirstControls(s, k)
    decreases |s.adapters| - k
  {
    if k < |s.adapters| {
      SameAdaptersSameControls(s, s', k + 1);
    }
  }

  /** The options of a search: those given, or never dereferencing, types and values, and no limits. */
  function Asked(options: Option<SearchOptions>): SearchOptions
  {
    if options.Some? then options.value else SearchOptions(0, false, 0, 0)
  }

  /** Otherwise the whole chain makes one request, with the parameters unchanged, unless the filter is no filter. */
  lemma {:induction false} StartIssuesOne(s: Stream, p: Params)
    requires s.state == Fresh && !Clash(s)
    ensures var (r, s') := Start(s, p);
            var opts := Asked(s.handle.options);
            && (r == Err(FilterParsing) <==> FilterParser.Parse(p.filter).None?)
            && s'.wire.issued
               == s.wire.issued
                  + if FilterParser.Parse(p.filter).None? then [] else [Request(p, opts, FirstControls(s, s.ax))]
    decreases |s.adapters| - s.ax
  {
    if s.ax < |s.adapters| {
      var inside := s.(ax := s.ax + 1);
      assert Start(s, p).1.wire == AdapterStart(s.adapters[s.ax], inside, p).2.wire;
      match s.adapters[s.ax]
      case EntriesOnly(_) =>
        StartIssuesOne(inside, p);
        SameAdaptersSameControls(s, inside, s.ax + 1);
      case PagedResults(size, _) =>
        SamePaging(OwnControls(s.handle));
        NoPagersNoControls(PagerStart(inside, size), s.ax + 1);
        StartIssuesOne(PagerStart(inside, size), p);
    }
  }

  // ----- When a result is stored -----

  /** More requests than base have been made exactly when a result is stored. */
  predicate Counted(s: Stream, base: nat)
  {
    |s.wire.issued| >= base && (s.res.Some? <==> |s.wire.issued| > base)
  }

  /** What a call of next keeps, also when it ends in an error; at the end of the stream a result is stored. */
  ghost predicate CountOutcome(s: Stream, r: Ret<Option<ResultEntry>>, s': Stream, base: nat)
  {
    && CompiledFrom(s'.adapters, s.ax)
    && (r == Ok(None) ==> |s'.wire.issued| >= base && s'.res.Some?)
    && (!r.Panic? && r != Ok(None) ==> Counted(s', base))
  }

  lemma {:induction false} NextCounts(s: Stream, base: nat)
    requires Readable(s) && CompiledFrom(s.adapters, s.ax) && Counted(s, base)
    ensures !Next(s).0.Panic? ==> CountOutcome(s, Next(s).0, Next(s).1, base)
    decreases Budget(s), |s.adapters| - s.ax, 1
  {
    if s.ax < |s.adapters| {
      AdapterNextOnReadable(s.adapters[s.ax], s.(ax := s.ax + 1));
      AdapterNextCounts(s.adapters[s.ax], s.(ax := s.ax + 1), base);
    }
  }

  lemma {:induction false} AdapterNextCounts(me: Adapter, s: Stream, base: nat)
    requires Readable(s) && Started(me) && Compiled(me) && s.ax > 0
    requires CompiledFrom(s.adapters, s.ax) && Counted(s, base)
    ensures var (r, me', s') := AdapterNext(me, s);
            !r.Panic? ==> CountOutcome(s, r, s', base) && Compiled(me')
    decreases Budget(s), |s.adapters| - s.ax, 3
  {
    NextOnReadable(s);
    NextCounts(s, base);
    if !Next(s).0.Panic? {
      if me.EntriesOnly? {
        EntriesCounts(me, s, base);
      } else {
        PagesCount(me, s, base);
      }
    }
  }

  lemma {:induction false} EntriesCounts(me: Adapter, s: Stream, base: nat)
    requires me.EntriesOnly? && s.ax > 0 && CountOutcome(s, Next(s).0, Next(s).1, base)
    requires NextOutcome(s, Next(s).0, Next(s).1) && !Next(s).0.Panic?
    ensures var (r, me', s') := AdapterNext(me, s);
            !r.Panic? ==> CountOutcome(s, r, s', base) && Compiled(me')
    decreases Budget(s), |s.adapters| - s.ax, 2
  {
    var (r, s') := Next(s);
    if r.Ok? && r.value.Some? {
      assert Readable(s');
      if IsIntermediate(r.value.value) {
        AdapterNextCounts(me, s', base);
      } else if IsRef(r.value.value) {
        var uris := SearchEntry.ParseRefs(r.value.value.tag);
        if uris.Some? {
          AdapterNextCounts(EntriesOnly(me.refs + uris.value), s', base);
        }
      }
    }
  }

  lemma {:induction false} PagesCount(me: Adapter, s: Stream, base: nat)
    requires me.PagedResults? && Started(me) && Compiled(me) && s.ax > 0
    requires CountOutcome(s, Next(s).0, Next(s).1, base) && !Next(s).0.Panic?
    requires NextOutcome(s, Next(s).0, Next(s).1) && (Next(s).0 == Ok(None) ==> Next(s).1.state == Active)
    ensures var (r, me', s') := AdapterNext(me, s);
            !r.Panic? ==> CountOutcome(s, r, s', base) && Compiled(me')
    decreases Budget(s), |s.adapters| - s.ax, 2
  {
    var (r, s') := Next(s);
    var end := PageEnd(s'.res);
    if r == Ok(None) && end.More? {
      var (turned, s'') := TurnPage(me, s', end.cookie);
      TurnCounts(me, s', end.cookie);
      assert Counted(s'', base);
      if turned.Ok? {
        assert Readable(s'');
        AdapterNextCounts(me, s'', base);
      }
    }
  }

  /** Turning a page makes one request, accepted or not, and leaves the stored result alone. */
  lemma {:induction false} TurnCounts(me: Adapter, s: Stream, cookie: seq<byte>)
    requires me.PagedResults? && Started(me) && Compiled(me)
    ensures var (r, s') := TurnPage(me, s, cookie);
            && !r.Panic? && |s'.wire.issued| == |s.wire.issued| + 1 && s'.res == s.res && s'.state == s.state
            && s'.adapters == s.adapters && s'.ax == s.ax && (r.Ok? ==> s'.rx.Some?)
  {
  }

  /** Holds between the calls of user code. */
  ghost predicate Tallied(s: Stream, before: nat)
  {
    && (s.state == Fresh ==> |s.wire.issued| == before && s.res.None?)
    && (s.state == Active ==> Counted(s, before + 1) && CompiledFrom(s.adapters, 0))
    && (s.state == StreamState.Error ==> (s.res.None? <==> |s.wire.issued| <= before + 1))
    && (s.state == StreamState.Done ==> s.res.Some?)
  }

  lemma {:induction false} TallyStart(s: Stream, p: Params, before: nat)
    requires Safe(s) && Tallied(s, before) && s.state == Fresh
    ensures Tallied(Start(s, p).1, before)
  {
    StartMakesReadable(s, p);
    StartClashesExactlyWhen(s, p);
    if !Clash(s) {
      StartIssuesOne(s, p);
    }
  }

  lemma {:induction false} TallyNext(s: Stream, before: nat)
    requires Safe(s) && Tallied(s, before) && s.state == Active && !Next(s).0.Panic?
    ensures Tallied(Next(s).1, before)
  {
    NextOnReadable(s);
    NextCounts(s, before + 1);
  }

  lemma {:induction false} TallyCall(s: Stream, c: Call, before: nat)
    requires Safe(s) && Tallied(s, before) && !Panics(s, c)
    ensures Tallied(After(s, c), before)
  {
    match c
    case CallStart(p) =>
      if s.state == Fresh {
        TallyStart(s, p, before);
      }
    case CallNext =>
      if s.state == Active {
        TallyNext(s, before);
      }
    case CallFinish =>
      if s.state != Closed {
        FinishMeans(s);
      }
  }

  lemma {:induction false} TallyCalls(s: Stream, cs: seq<Call>, before: nat)
    requires Safe(s) && Tallied(s, before) && Survives(s, cs)
    ensures Tallied(AfterAll(s, cs), before)
    decreases |cs|
  {
    if cs != [] {
      TallyCall(s, cs[0], before);
      SafeCall(s, cs[0]);
      TallyCalls(After(s, cs[0]), cs[1..], before);
    }
  }

  /** What finish makes of the stored result. */
  function Reported(res: Option<LdapResult>): LdapResult
  {
    if res.Some? then res.value else LdapResult(88, [], "user cancelled", [], [])
  }

  /**
   * After any calls on any adapted stream that is not closed, what finish returns: in the state Done a stored
   * result, and in every other state, Error included, the cancellation exactly when the stream has made no
   * request after its first one. So the cancellation is missing once a page has been turned, or was to be turned.
   */
  lemma {:induction false} CancelledExactlyWhen(h: Handle, adapters: seq<Adapter>, w: Wire, cs: seq<Call>)
    requires adapters != [] && Survives(New(h, adapters, w), cs)
    ensures var s := AfterAll(New(h, adapters, w), cs);
            s.state != Closed ==>
              && Finish(s).0 == Reported(s.res).(refs := Reported(s.res).refs + RefsFrom(s.adapters, 0))
              && (s.state == StreamState.Done ==> s.res.Some?)
              && (s.state != StreamState.Done ==> (s.res.None? <==> |s.wire.issued| <= |w.issued| + 1))
  {
    var s := AfterAll(New(h, adapters, w), cs);
    SafeCalls(New(h, adapters, w), cs);
    TallyCalls(New(h, adapters, w), cs, |w.issued|);
    if s.state != Closed {
      FinishMeans(s);
    }
  }

  /**
   * On a direct stream it is the cancellation in every state but one: active, with the final result read and the
   * receiver gone.
   */
  lemma {:induction false} DirectCancelledExactlyWhen(h: Handle, w: Wire, cs: seq<Call>)
    requires Survives(New(h, [], w), cs)
    ensures var s := AfterAll(New(h, [], w), cs);
            s.state != Closed ==>
              && Finish(s).0 == Reported(s.res)
              && (s.res.None? <==> !(s.state == Active && s.rx.None?))
  {
    DirectCalls(New(h, [], w), cs);
  }
}
