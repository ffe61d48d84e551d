/** What the connection's reactions and the receiver's arrivals come to, through every chain of adapters. */
module SearchStreamArrivals {
  import opened Bytes
  import opened SearchStream
  import opened SearchStreamLaws
  import opened Controls
  import FilterGrammar
  import FilterSound
  import SearchEntry

  // ----- The reaction to the first request -----

  /** What start should give on this reaction, with this timeout. */
  ghost predicate Reacts(reply: Reply, timeout: Option<nat>, w: Wire, r: Ret<()>, s': Stream)
  {
    match reply
    case Unsent(_) => r == Err(OpSend) && s'.wire.scrubs == w.scrubs
    case Failed(id, elapsed) =>
      if elapsed && timeout.Some? then r == Err(Timeout) && s'.wire.scrubs == w.scrubs + [id]
      else r == Err(ResultRecv) && s'.wire.scrubs == w.scrubs
    case Accepted(id, arrivals) =>
      r == Ok(()) && s'.rx == Some(arrivals) && s'.handle.lastId == id && s'.timeout == timeout
      && s'.wire.scrubs == w.scrubs
  }

  lemma {:induction false} InnerReacts(s: Stream, p: Params)
    requires s.state == Fresh && s.ax >= |s.adapters| && Compiles(p.filter) && s.wire.script != []
    ensures var (r, s') := Start(s, p);
            Reacts(s.wire.script[0], s.handle.timeout, s.wire, r, s') && s'.wire.script == s.wire.script[1..]
  {
  }

  /** Only the state, the index and the adapters change on the way back. */
  lemma {:induction false} StartThrough(s: Stream, p: Params)
    requires s.state == Fresh && s.ax < |s.adapters|
    ensures var (r, _, s') := AdapterStart(s.adapters[s.ax], s.(ax := s.ax + 1), p);
            var (r0, s0) := Start(s, p);
            r0 == r && s0.rx == s'.rx && s0.handle == s'.handle && s0.timeout == s'.timeout && s0.wire == s'.wire
  {
  }

  /** Through any chain, start passes on the reaction of the connection to its request. */
  lemma {:induction false} StartReacts(s: Stream, p: Params)
    requires s.state == Fresh && !Clash(s) && Compiles(p.filter) && s.wire.script != []
    ensures var (r, s') := Start(s, p);
            Reacts(s.wire.script[0], s.handle.timeout, s.wire, r, s') && s'.wire.script == s.wire.script[1..]
    decreases |s.adapters| - s.ax
  {
    if s.ax >= |s.adapters| {
      InnerReacts(s, p);
    } else {
      var inside := s.(ax := s.ax + 1);
      StartThrough(s, p);
      match s.adapters[s.ax]
      case EntriesOnly(_) => StartReacts(inside, p);
      case PagedResults(size, _) =>
        SamePaging(OwnControls(s.handle));
        StartReacts(PagerStart(inside, size), p);
    }
  }

  // ----- Arrivals -----

  /** A wait longer than the timeout ends every chain with an error and one scrub of the last id. */
  lemma {:induction false} ElapsedTimed(s: Stream, rest: seq<Arrival>)
    requires s.state == Active && s.rx == Some([Elapsed] + rest) && s.timeout.Some?
    ensures var (r, s') := Next(s);
            && r == Err(Timeout) && s'.state == StreamState.Error && s'.rx == Some(rest) && s'.res == s.res
            && s'.wire == s.wire.(scrubs := s.wire.scrubs + [s.handle.lastId])
    decreases |s.adapters| - s.ax
  {
    assert ([Elapsed] + rest)[1..] == rest;
    if s.ax < |s.adapters| {
      var inside := s.(ax := s.ax + 1);
      ElapsedTimed(inside, rest);
      ErrorPasses(s.adapters[s.ax], inside, Timeout);
    }
  }

  /** The end of the channel ends every chain with an error, and nothing is sent. */
  lemma {:induction false} ChannelClosed(s: Stream)
    requires s.state == Active && s.rx == Some([])
    ensures var (r, s') := Next(s);
            && r == Err(EndOfStream) && s'.state == StreamState.Error && s'.rx == None && s'.res == s.res
            && s'.wire == s.wire
    decreases |s.adapters| - s.ax
  {
    if s.ax < |s.adapters| {
      var inside := s.(ax := s.ax + 1);
      ChannelClosed(inside);
      ErrorPasses(s.adapters[s.ax], inside, EndOfStream);
    }
  }

  /** Adapters pass an error on. */
  lemma {:induction false} ErrorPasses(me: Adapter, s: Stream, e: LdapError)
    requires Next(s).0 == Err(e)
    ensures AdapterNext(me, s) == (Err(e), me, Next(s).1)
  {
  }

  /** Without a timeout a wait changes nothing. */
  lemma {:induction false} ElapsedUntimed(s: Stream, rest: seq<Arrival>)
    requires s.state == Active && s.rx == Some([Elapsed] + rest) && s.timeout.None?
    ensures Next(s) == Next(s.(rx := Some(rest)))
    decreases |s.adapters| - s.ax
  {
    assert ([Elapsed] + rest)[1..] == rest;
    if s.ax < |s.adapters| {
      var inside := s.(ax := s.ax + 1);
      ElapsedUntimed(inside, rest);
      SameThrough(s.adapters[s.ax], inside, inside.(rx := Some(rest)));
    }
  }

  lemma {:induction false} SameThrough(me: Adapter, s: Stream, s': Stream)
    requires Next(s) == Next(s')
    ensures AdapterNext(me, s) == AdapterNext(me, s')
  {
  }

  /** A reference without the form of one, or a paging control without, is a panic. */
  lemma {:induction false} MalformedPanics(me: Adapter, s: Stream)
    requires Next(s).0.Ok?
    ensures me.EntriesOnly? && Next(s).0.value.Some? && Next(s).0.value.value.tag.id == 19
            && SearchEntry.ParseRefs(Next(s).0.value.value.tag).None?
            ==> AdapterNext(me, s).0 == Panic(MalformedReference)
    ensures me.PagedResults? && Next(s).0.value.None? && Next(s).1.res.Some? && Unreadable(Next(s).1.res.value.ctrls)
            ==> AdapterNext(me, s).0 == Panic(MalformedPaging)
  {
  }

  /** The first paging control has no value, or none that reads as one. */
  predicate Unreadable(ctrls: seq<Control>)
  {
    var k := PagingAt(ctrls);
    && k < |ctrls|
    && (ctrls[k].raw.val.None? || ParsePaging(ctrls[k].raw.val.value).None?)
  }

  /** The filters that start lets through are the texts that the grammar of filters gives a meaning. */
  lemma {:induction false} CompilesExactlyWhen(filter: seq<byte>)
    ensures Compiles(filter)
            <==> exists f :: FilterGrammar.Valid(f) && FilterGrammar.Clear(f) && FilterSound.Spells(f, filter)
  {
    if Compiles(filter) {
      var f := FilterSound.Accepted(filter);
    } else if f :| FilterGrammar.Valid(f) && FilterGrammar.Clear(f) && FilterSound.Spells(f, filter) {
      FilterSound.AcceptsExactly(filter, FilterGrammar.TagOf(f));
    }
  }

  // ----- What a paging adapter saves -----

  /** After a start that succeeds, a paging adapter has the timeout, controls and options of the user for its pages. */
  lemma {:induction false} StartSaves(s: Stream, p: Params)
    requires s.state == Fresh && Start(s, p).0.Ok?
    ensures forall i :: s.ax <= i < |s.adapters| && s.adapters[i].PagedResults? ==>
              Start(s, p).1.adapters[i]
              == Adapter.PagedResults(s.adapters[i].pageSize,
                                      Some((Handle(0, s.handle.timeout, Some(OwnControls(s.handle)),
                                                   s.handle.options), p)))
    decreases |s.adapters| - s.ax
  {
    StartClashesExactlyWhen(s, p);
    if s.ax < |s.adapters| {
      var inside := s.(ax := s.ax + 1);
      match s.adapters[s.ax]
      case EntriesOnly(_) =>
        StartMakesReadable(inside, p);
        StartSaves(inside, p);
      case PagedResults(size, _) =>
        SamePaging(OwnControls(s.handle));
        StartMakesReadable(PagerStart(inside, size), p);
        OnePager(s.adapters, s.ax + 1);
    }
  }

  lemma {:induction false} OnePager(adapters: seq<Adapter>, k: nat)
    requires PagersFrom(adapters, k) == 0
    ensures forall i :: k <= i < |adapters| ==> !adapters[i].PagedResults?
    decreases |adapters| - k
  {
    if k < |adapters| {
      OnePager(adapters, k + 1);
    }
  }

  /** The request for another page: its error is that of the connection, with the saved timeout. */
  lemma {:induction false} TurnReacts(me: Adapter, s: Stream, cookie: seq<byte>)
    requires me.PagedResults? && Started(me) && Compiled(me) && s.wire.script != []
    ensures var (r, s') := TurnPage(me, s, cookie);
            var reply, timeout := s.wire.script[0], me.saved.value.0.timeout;
            && (r.Ok? <==> reply.Accepted?)
            && (!reply.Accepted? ==> r == Err(Refusal(reply, timeout))
                                     && s'.wire.scrubs == s.wire.scrubs + RefusalScrubs(reply, timeout))
            && (reply.Accepted? ==> s'.rx == Some(reply.arrivals) && s'.handle.lastId == reply.id
                                    && s'.wire.scrubs == s.wire.scrubs)
  {
    assert s.wire.scrubs + [] == s.wire.scrubs;
  }

  // ----- What a stream remembers of its requests -----

  /**
   * As many reactions have been used up as requests made, and the last of them was the acceptance of the request
   * whose id the handle has.
   */
  ghost predicate Latest(s: Stream, w: Wire)
  {
    var n := |s.wire.issued| - |w.issued|;
    && 1 <= n <= |w.script| && s.wire.script == w.script[n..]
    && w.script[n - 1].Accepted? && s.handle.lastId == w.script[n - 1].id
  }

  lemma {:induction false} NextKeepsLatest(s: Stream, w: Wire)
    requires Latest(s, w)
    ensures var (r, s') := Next(s); s'.timeout == s.timeout && (r.Ok? ==> Latest(s', w))
    decreases Budget(s), |s.adapters| - s.ax, 1
  {
    if s.state == Active && s.ax < |s.adapters| {
      AdapterKeepsLatest(s.adapters[s.ax], s.(ax := s.ax + 1), w);
      NextThrough(s);
      LatestSame(AdapterNext(s.adapters[s.ax], s.(ax := s.ax + 1)).2, Next(s).1, w);
    } else if s.state == Active {
      InnerKeepsLatest(s, w);
    }
  }

  lemma {:induction false} LatestSame(s: Stream, s': Stream, w: Wire)
    requires s'.handle == s.handle && s'.wire == s.wire
    ensures Latest(s', w) <==> Latest(s, w)
  {
  }

  lemma {:induction false} InnerKeepsLatest(s: Stream, w: Wire)
    requires Latest(s, w) && s.state == Active && s.ax >= |s.adapters|
    ensures var (r, s') := Next(s); s'.timeout == s.timeout && (r.Ok? ==> Latest(s', w))
  {
  }

  /** Only the state, the index and the adapters change on the way back. */
  lemma {:induction false} NextThrough(s: Stream)
    requires s.state == Active && s.ax < |s.adapters|
    ensures var (r, _, s') := AdapterNext(s.adapters[s.ax], s.(ax := s.ax + 1));
            var (r0, s0) := Next(s);
            r0 == r && s0.handle == s'.handle && s0.timeout == s'.timeout && s0.wire == s'.wire
  {
  }

  lemma {:induction false} AdapterKeepsLatest(me: Adapter, s: Stream, w: Wire)
    requires Latest(s, w)
    ensures var (r, _, s') := AdapterNext(me, s); s'.timeout == s.timeout && (r.Ok? ==> Latest(s', w))
    decreases Budget(s), |s.adapters| - s.ax, 3
  {
    NextKeepsLatest(s, w);
    if Next(s).0.Ok? {
      if me.EntriesOnly? {
        EntriesKeepLatest(me, s, w);
      } else {
        PagesKeepLatest(me, s, w);
      }
    }
  }

  lemma {:induction false} EntriesKeepLatest(me: Adapter, s: Stream, w: Wire)
    requires me.EntriesOnly? && Next(s).0.Ok? && Latest(Next(s).1, w) && Next(s).1.timeout == s.timeout
    ensures var (r, _, s') := AdapterNext(me, s); s'.timeout == s.timeout && (r.Ok? ==> Latest(s', w))
    decreases Budget(s), |s.adapters| - s.ax, 2
  {
    var (r, s') := Next(s);
    if r.value.Some? && IsIntermediate(r.value.value) {
      AdapterKeepsLatest(me, s', w);
    } else if r.value.Some? && IsRef(r.value.value) {
      var uris := SearchEntry.ParseRefs(r.value.value.tag);
      if uris.Some? {
        AdapterKeepsLatest(EntriesOnly(me.refs + uris.value), s', w);
      }
    }
  }

  lemma {:induction false} PagesKeepLatest(me: Adapter, s: Stream, w: Wire)
    requires me.PagedResults? && Next(s).0.Ok? && Latest(Next(s).1, w) && Next(s).1.timeout == s.timeout
    ensures var (r, _, s') := AdapterNext(me, s); s'.timeout == s.timeout && (r.Ok? ==> Latest(s', w))
    decreases Budget(s), |s.adapters| - s.ax, 2
  {
    var (r, s') := Next(s);
    var end := PageEnd(s'.res);
    if r == Ok(None) && end.More? {
      TurnKeepsLatest(me, s', end.cookie, w);
      var (turned, s'') := TurnPage(me, s', end.cookie);
      if turned.Ok? {
        AdapterKeepsLatest(me, s'', w);
      }
    }
  }

  lemma {:induction false} TurnKeepsLatest(me: Adapter, s: Stream, cookie: seq<byte>, w: Wire)
    requires me.PagedResults? && Latest(s, w)
    ensures var (r, s') := TurnPage(me, s, cookie); s'.timeout == s.timeout && (r.Ok? ==> Latest(s', w))
  {
    var n := |s.wire.issued| - |w.issued|;
    if n < |w.script| {
      assert s.wire.script[0] == w.script[n] && s.wire.script[1..] == w.script[n + 1..];
    }
  }

  // ----- Over every sequence of calls -----

  ghost predicate Remembers(s: Stream, h: Handle, w: Wire)
  {
    && s.ax == 0
    && (s.state == Fresh ==> s.handle == h && s.wire == w)
    && (s.state == Active ==> Latest(s, w) && s.timeout == h.timeout)
  }

  lemma {:induction false} StartRemembers(s: Stream, p: Params, h: Handle, w: Wire)
    requires Remembers(s, h, w) && s.state == Fresh
    ensures Remembers(Start(s, p).1, h, w)
  {
    StartMakesReadable(s, p);
    StartClashesExactlyWhen(s, p);
    if Start(s, p).0.Ok? {
      StartIssuesOne(s, p);
      ScriptUsed(s, p);
      StartReacts(s, p);
    }
  }

  /** A start that succeeds has met an acceptance. */
  lemma {:induction false} ScriptUsed(s: Stream, p: Params)
    requires s.state == Fresh && Start(s, p).0.Ok?
    ensures s.wire.script != []
    decreases |s.adapters| - s.ax
  {
    if s.ax < |s.adapters| {
      var inside := s.(ax := s.ax + 1);
      match s.adapters[s.ax]
      case EntriesOnly(_) => ScriptUsed(inside, p);
      case PagedResults(size, _) => ScriptUsed(PagerStart(inside, size), p);
    }
  }

  lemma {:induction false} CallRemembers(s: Stream, c: Call, h: Handle, w: Wire)
    requires Remembers(s, h, w) && !Panics(s, c)
    ensures Remembers(After(s, c), h, w)
  {
    match c
    case CallStart(p) =>
      if s.state == Fresh {
        StartRemembers(s, p, h, w);
      }
    case CallNext =>
      if s.state == Active {
        NextKeepsLatest(s, w);
        ErrorEnds(s);
      }
    case CallFinish =>
      if s.state != Closed {
        FinishMeans(s);
      }
  }

  lemma {:induction false} ErrorEnds(s: Stream)
    requires s.state == Active
    ensures Next(s).0.Err? ==> Next(s).1.state == StreamState.Error
    ensures Next(s).1.state != Fresh
    decreases Budget(s), |s.adapters| - s.ax
  {
    NeverFresh(s);
  }

  lemma {:induction false} NeverFresh(s: Stream)
    requires s.state != Fresh
    ensures Next(s).1.state != Fresh
    decreases Budget(s), |s.adapters| - s.ax, 1
  {
    if s.state == Active && s.ax < |s.adapters| {
      AdapterNeverFresh(s.adapters[s.ax], s.(ax := s.ax + 1));
    }
  }

  lemma {:induction false} AdapterNeverFresh(me: Adapter, s: Stream)
    requires s.state != Fresh
    ensures AdapterNext(me, s).2.state != Fresh
    decreases Budget(s), |s.adapters| - s.ax, 2
  {
    NeverFresh(s);
    var (r, s') := Next(s);
    if r.Ok? {
      match me
      case EntriesOnly(refs) =>
        if r.value.Some? && IsIntermediate(r.value.value) {
          AdapterNeverFresh(me, s');
        } else if r.value.Some? && IsRef(r.value.value) {
          var uris := SearchEntry.ParseRefs(r.value.value.tag);
          if uris.Some? {
            AdapterNeverFresh(EntriesOnly(refs + uris.value), s');
          }
        }
      case PagedResults(_, _) =>
        var end := PageEnd(s'.res);
        if r.value.None? && end.More? {
          var (turned, s'') := TurnPage(me, s', end.cookie);
          if turned.Ok? {
            AdapterNeverFresh(me, s'');
          }
        }
    }
  }

  lemma {:induction false} CallsRemember(s: Stream, cs: seq<Call>, h: Handle, w: Wire)
    requires Remembers(s, h, w) && Survives(s, cs)
    ensures Remembers(AfterAll(s, cs), h, w)
    decreases |cs|
  {
    if cs != [] {
      CallRemembers(s, cs[0], h, w);
      CallsRemember(After(s, cs[0]), cs[1..], h, w);
    }
  }

  /**
   * After any calls on a stream made from a handle, direct or adapted: at a wait longer than the handle's timeout
   * next gives the timeout error, and exactly one scrub is sent, of the id that the connection gave to the last
   * request; without a timeout the wait changes nothing.
   */
  lemma {:induction false} TimeoutScrubs(h: Handle, adapters: seq<Adapter>, w: Wire, cs: seq<Call>, rest: seq<Arrival>)
    requires Survives(New(h, adapters, w), cs)
    requires var s := AfterAll(New(h, adapters, w), cs); s.state == Active && s.rx == Some([Elapsed] + rest)
    ensures var s := AfterAll(New(h, adapters, w), cs);
            var n := |s.wire.issued| - |w.issued|;
            && 1 <= n <= |w.script|
            && (h.timeout.Some? ==>
                  && Next(s).0 == Err(Timeout) && Next(s).1.state == StreamState.Error
                  && Next(s).1.wire == s.wire.(scrubs := s.wire.scrubs + [w.script[n - 1].id]))
            && (h.timeout.None? ==> Next(s) == Next(s.(rx := Some(rest))))
  {
    var s := AfterAll(New(h, adapters, w), cs);
    CallsRemember(New(h, adapters, w), cs, h, w);
    if h.timeout.Some? {
      ElapsedTimed(s, rest);
    } else {
      ElapsedUntimed(s, rest);
    }
  }

  /** After any calls, finishing an active stream scrubs the id of its last request. */
  lemma {:induction false} FinishScrubsLast(h: Handle, adapters: seq<Adapter>, w: Wire, cs: seq<Call>)
    requires Survives(New(h, adapters, w), cs) && AfterAll(New(h, adapters, w), cs).state == Active
    ensures var s := AfterAll(New(h, adapters, w), cs);
            var n := |s.wire.issued| - |w.issued|;
            && 1 <= n <= |w.script|
            && Finish(s).1.wire == s.wire.(scrubs := s.wire.scrubs + [w.script[n - 1].id])
  {
    CallsRemember(New(h, adapters, w), cs, h, w);
    FinishMeans(AfterAll(New(h, adapters, w), cs));
  }

  /** Calls that do nothing: start when not fresh, next when not active. */
  lemma {:induction false} IdleCalls(s: Stream, p: Params)
    ensures s.state != Fresh ==> Start(s, p) == (Ok(()), s)
    ensures s.state != Active ==> Next(s) == (Ok(None), s)
  {
  }
}
