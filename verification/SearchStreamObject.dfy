/** Search streams as objects: the same operations, updating the fields of the stream in place, under locks. */
module SearchStreamObject {
  import opened Bytes
  import opened Controls
  import S = SearchStream
  import SearchEntry

  /** The channels to the connection, shared by all handles. */
  class Link {
    var script: seq<S.Reply>
    var issued: seq<S.Request>
    var scrubs: seq<int>

    ghost function Abs(): S.Wire
      reads this
    {
      S.Wire(script, issued, scrubs)
    }

    method Scrub(id: int)
      modifies this
      ensures Abs() == old(Abs()).(scrubs := old(scrubs) + [id])
    {
      scrubs := scrubs + [id];
    }

    method OpCall(h: S.Handle, req: S.Request) returns (r: S.Ret<seq<S.Arrival>>, h': S.Handle)
      modifies this
      ensures (r, h', Abs()) == S.OpCall(h, old(Abs()), req)
    {
      var reply := S.Unsent(1);
      if script != [] {
        reply := script[0];
        script := script[1..];
      }
      issued := issued + [req];
      h' := h.(lastId := reply.id, controls := None);
      if reply.Unsent? {
        return S.Err(S.OpSend), h';
      }
      var timeout := h'.timeout;
      h' := h'.(timeout := None);
      match reply
      case Accepted(_, arrivals) => r := S.Ok(arrivals);
      case Failed(id, elapsed) =>
        if elapsed && timeout.Some? {
          Scrub(id);
          r := S.Err(S.Timeout);
        } else {
          r := S.Err(S.ResultRecv);
        }
    }
  }

  class SearchStream {
    const link: Link
    var handle: S.Handle
    var rx: Option<seq<S.Arrival>>
    var state: S.StreamState
    var adapters: seq<S.Adapter>
    var ax: nat
    var timeout: Option<nat>
    var res: Option<S.LdapResult>
    var held: set<nat> // the adapters whose lock is held

    ghost function Abs(): S.Stream
      reads this, link
    {
      S.Stream(handle, rx, state, adapters, ax, timeout, res, link.Abs())
    }

    /** The locks held are exactly those below the index. */
    ghost predicate Valid()
      reads this
    {
      ax <= |adapters| && forall i: nat :: i in held <==> i < ax
    }

    constructor (link: Link, handle: S.Handle, adapters: seq<S.Adapter>)
      ensures Valid() && held == {} && this.link == link
      ensures Abs() == S.New(handle, adapters, link.Abs())
    {
      this.link := link;
      this.handle := handle;
      this.adapters := adapters;
      rx, state, ax, timeout, res := None, S.Fresh, 0, None, None;
      held := {};
    }

    /** The lock is not reentrant: a call that found it held would wait for itself. */
    method Lock() returns (me: S.Adapter)
      requires Valid() && ax < |adapters| && ax !in held
      modifies this
      ensures Valid() && Abs() == old(Abs()).(ax := old(ax) + 1) && me == adapters[old(ax)]
    {
      held := held + {ax};
      me := adapters[ax];
      ax := ax + 1;
    }

    method Unlock(me: S.Adapter)
      requires Valid() && ax > 0
      modifies this
      ensures Valid() && Abs() == S.Unlock(old(Abs()), me)
    {
      ax := ax - 1;
      adapters := adapters[ax := me];
      held := held - {ax};
    }

    // ----- start -----

    method StartInner(p: S.Params) returns (r: S.Ret<()>)
      requires Valid()
      modifies this, link
      ensures Valid() && (r, Abs()) == S.StartInner(old(Abs()), p)
    {
      var opts := S.DEFAULT_OPTIONS;
      if handle.options.Some? {
        opts := handle.options.value;
      }
      handle := handle.(options := None);
      timeout := handle.timeout;
      if !S.Compiles(p.filter) {
        return S.Err(S.FilterParsing);
      }
      if timeout.Some? {
        handle := handle.(timeout := timeout);
      }
      var arrivals, h := link.OpCall(handle, S.Request(p, opts, handle.controls));
      handle := h;
      if arrivals.Ok? {
        rx := Some(arrivals.value);
        state := S.Active;
        r := S.Ok(());
      } else {
        rx := Some([]);
        r := S.Err(arrivals.error);
      }
    }

    method Start(p: S.Params) returns (r: S.Ret<()>)
      requires Valid()
      modifies this, link
      ensures Valid() && (r, Abs()) == S.Start(old(Abs()), p)
      decreases |adapters| - ax, 1
    {
      if state != S.Fresh {
        return S.Ok(());
      }
      if ax == |adapters| {
        r := StartInner(p);
        if r.Err? {
          state := S.StreamState.Error;
        }
        return;
      }
      var me := Lock();
      r, me := AdapterStart(me, p);
      Unlock(me);
      if r.Err? {
        state := S.StreamState.Error;
      }
    }

    method AdapterStart(me: S.Adapter, p: S.Params) returns (r: S.Ret<()>, me': S.Adapter)
      requires Valid()
      modifies this, link
      ensures Valid() && (r, me', Abs()) == S.AdapterStart(me, old(Abs()), p)
      decreases |adapters| - ax, 2
    {
      me' := me;
      match me
      case EntriesOnly(_) =>
        me' := S.EntriesOnly([]);
        r := Start(p);
      case PagedResults(size, _) =>
        var saved := S.Handle(0, handle.timeout, None, handle.options);
        var user := S.UserControls(handle);
        if S.HasPaging(user) {
          return S.Err(S.AdapterInit), me;
        }
        saved := saved.(controls := Some(user));
        handle := handle.(controls := Some(user + [PagingControl(Paging(size, []))]));
        me' := S.Adapter.PagedResults(size, Some((saved, p)));
        r := Start(p);
    }

    // ----- next -----

    method NextInner() returns (r: S.Ret<Option<S.ResultEntry>>)
      requires Valid()
      modifies this, link
      ensures Valid() && (r, Abs()) == S.NextInner(old(Abs()))
    {
      if rx.None? {
        return S.Panic(S.MissingReceiver);
      }
      var (item, rest) := S.Pull(timeout.Some?, rx.value);
      rx := Some(rest);
      match item
      case None =>
        rx := None;
        r := S.Err(S.EndOfStream);
      case Some(Elapsed) =>
        link.Scrub(handle.lastId);
        r := S.Err(S.Timeout);
      case Some(Item(item, ctrls)) =>
        if item.Done? {
          res := Some(item.result.(ctrls := ctrls));
          rx := None;
          r := S.Ok(None);
        } else {
          r := S.Ok(Some(S.ResultEntry(item.tag, ctrls)));
        }
    }

    method Next() returns (r: S.Ret<Option<S.ResultEntry>>)
      requires Valid()
      modifies this, link
      ensures !r.Panic? ==> Valid()
      ensures (r, Abs()) == S.Next(old(Abs()))
      decreases S.Budget(Abs()), |adapters| - ax, 1
    {
      if state != S.Active {
        return S.Ok(None);
      }
      if ax == |adapters| {
        r := NextInner();
        if r.Err? {
          state := S.StreamState.Error;
        }
        return;
      }
      var me := Lock();
      r, me := AdapterNext(me);
      if r.Panic? {
        return;
      }
      Unlock(me);
      if r == S.Ok(None) && ax == 0 {
        state := S.StreamState.Done;
      } else if r.Err? {
        state := S.StreamState.Error;
      }
    }

    method AdapterNext(me: S.Adapter) returns (r: S.Ret<Option<S.ResultEntry>>, me': S.Adapter)
      requires Valid()
      modifies this, link
      ensures !r.Panic? ==> Valid()
      ensures (r, me', Abs()) == S.AdapterNext(me, old(Abs()))
      decreases S.Budget(Abs()), |adapters| - ax, 3
    {
      if me.EntriesOnly? {
        r, me' := EntriesNext(me);
      } else {
        me' := me;
        r := PagedNext(me);
      }
    }

    /** EntriesOnly::next */
    method EntriesNext(me: S.Adapter) returns (r: S.Ret<Option<S.ResultEntry>>, me': S.Adapter)
      requires Valid() && me.EntriesOnly?
      modifies this, link
      ensures !r.Panic? ==> Valid()
      ensures (r, me', Abs()) == S.AdapterNext(me, old(Abs()))
      decreases S.Budget(Abs()), |adapters| - ax, 2
    {
      me' := me;
      while true
        invariant Valid() && me'.EntriesOnly? && ax == old(ax) && |adapters| == |old(adapters)|
        invariant S.Budget(Abs()) <= S.Budget(old(Abs()))
        invariant S.AdapterNext(me', Abs()) == S.AdapterNext(me, old(Abs()))
        decreases S.Budget(Abs())
      {
        r := Next();
        if !(r.Ok? && r.value.Some?) {
          return;
        }
        var re := r.value.value;
        if S.IsIntermediate(re) {
          continue;
        } else if S.IsRef(re) {
          var uris := SearchEntry.ParseRefs(re.tag);
          if uris.None? {
            return S.Panic(S.MalformedReference), me';
          }
          me' := S.EntriesOnly(me'.refs + uris.value);
          continue;
        } else {
          return;
        }
      }
    }

    /** PagedResults::next */
    method PagedNext(me: S.Adapter) returns (r: S.Ret<Option<S.ResultEntry>>)
      requires Valid() && me.PagedResults?
      modifies this, link
      ensures !r.Panic? ==> Valid()
      ensures (r, me, Abs()) == S.AdapterNext(me, old(Abs()))
      decreases S.Budget(Abs()), |adapters| - ax, 2
    {
      while true
        invariant Valid() && ax == old(ax) && |adapters| == |old(adapters)|
        invariant S.Budget(Abs()) <= S.Budget(old(Abs()))
        invariant S.AdapterNext(me, Abs()) == S.AdapterNext(me, old(Abs()))
        decreases S.Budget(Abs())
      {
        r := Next();
        if r != S.Ok(None) || res.None? {
          return;
        }
        var ctrls := res.value.ctrls;
        var at := FindPaging(ctrls);
        if at == |ctrls| {
          return;
        }
        var raw := ctrls[at].raw;
        var pr := if raw.val.Some? then ParsePaging(raw.val.value) else None;
        if pr.None? {
          return S.Panic(S.MalformedPaging);
        }
        if pr.value.cookie == [] {
          res := Some(res.value.(ctrls := ctrls[..at] + ctrls[at + 1..]));
          return;
        }
        var turned := TurnPage(me, pr.value.cookie);
        if turned.Panic? {
          return S.Panic(turned.cause);
        }
        if turned.Err? {
          return S.Err(turned.error);
        }
      }
    }

    method FindPaging(ctrls: seq<Control>) returns (at: nat)
      ensures at == S.PagingAt(ctrls)
    {
      at := 0;
      while at < |ctrls| && ctrls[at].known != Some(ControlType.PagedResults)
        invariant at <= |ctrls| && forall j :: 0 <= j < at ==> ctrls[j].known != Some(ControlType.PagedResults)
      {
        at := at + 1;
      }
    }

    method TurnPage(me: S.Adapter, cookie: seq<byte>) returns (r: S.Ret<()>)
      requires Valid() && me.PagedResults?
      modifies this, link
      ensures Valid() && (r, Abs()) == S.TurnPage(me, old(Abs()), cookie)
    {
      if me.saved.None? || me.saved.value.0.controls.None? {
        return S.Panic(S.AdapterNotStarted);
      }
      var (h, p) := me.saved.value;
      var controls := h.controls.value + [PagingControl(Paging(me.pageSize, cookie))];
      var again := new SearchStream(link, h.(lastId := 0, controls := Some(controls)), []);
      r := again.StartInner(p);
      if r.Ok? {
        handle := again.handle;
        rx := again.rx;
      }
    }

    // ----- finish -----

    method FinishInner() returns (r: S.LdapResult)
      requires Valid()
      modifies this, link
      ensures Valid() && (r, Abs()) == S.FinishInner(old(Abs()))
    {
      if state != S.StreamState.Done {
        link.Scrub(handle.lastId);
      }
      state := S.Closed;
      rx := None;
      r := if res.Some? then res.value else S.CANCELLED;
      res := None;
    }

    method Finish() returns (r: S.LdapResult)
      requires Valid()
      modifies this, link
      ensures Valid() && (r, Abs()) == S.Finish(old(Abs()))
      decreases |adapters| - ax, 1
    {
      if state == S.Closed {
        return S.ALREADY_FINAL;
      }
      if ax == |adapters| {
        r := FinishInner();
        return;
      }
      var me := Lock();
      r, me := AdapterFinish(me);
      Unlock(me);
    }

    method AdapterFinish(me: S.Adapter) returns (r: S.LdapResult, me': S.Adapter)
      requires Valid()
      modifies this, link
      ensures Valid() && (r, me', Abs()) == S.AdapterFinish(me, old(Abs()))
      decreases |adapters| - ax, 2
    {
      me' := me;
      r := Finish();
      if me.EntriesOnly? {
        r := r.(refs := r.refs + me.refs);
        me' := S.EntriesOnly([]);
      }
    }
  }

  /** What is collected from here on, after what has been collected. */
  ghost function Resumed(entries: seq<S.ResultEntry>, s: S.Stream): (seq<S.ResultEntry>, S.Ret<()>, S.Stream)
  {
    var o := S.Collect(s);
    (entries + o.0, o.1, o.2)
  }

  lemma {:induction false} ResumedStep(entries: seq<S.ResultEntry>, s: S.Stream)
    ensures var (r, s') := S.Next(s);
            Resumed(entries, s) == if r.Panic? then (entries, S.Panic(r.cause), s')
                                   else if r.Err? then (entries, S.Err(r.error), s')
                                   else if r.value.None? then (entries, S.Ok(()), s')
                                   else Resumed(entries + [r.value.value], s')
  {
    var (r, s') := S.Next(s);
    if r.Ok? && r.value.Some? {
      var more := S.Collect(s').0;
      assert entries + ([r.value.value] + more) == entries + [r.value.value] + more;
    } else {
      assert entries + [] == entries;
    }
  }

  /** The loop of Ldap::search, for any stream: collect entries until there are no more. */
  method Collect(stream: SearchStream) returns (entries: seq<S.ResultEntry>, end: S.Ret<()>)
    requires stream.Valid()
    modifies stream, stream.link
    ensures (entries, end, stream.Abs()) == S.Collect(old(stream.Abs()))
    ensures !end.Panic? ==> stream.Valid()
  {
    entries := [];
    ghost var all := S.Collect(stream.Abs());
    assert [] + all.0 == all.0;
    while true
      invariant stream.Valid() && Resumed(entries, stream.Abs()) == all
      decreases S.Budget(stream.Abs())
    {
      ResumedStep(entries, stream.Abs());
      var r := stream.Next();
      match r
      case Panic(cause) => return entries, S.Panic(cause);
      case Err(error) => return entries, S.Err(error);
      case Ok(None) => return entries, S.Ok(());
      case Ok(Some(entry)) => entries := entries + [entry];
    }
  }

  /** Ldap::search, with the adapters as a parameter; the handle gives away its timeout, controls and options. */
  method Search(link: Link, handle: S.Handle, adapters: seq<S.Adapter>, p: S.Params)
    returns (r: S.Ret<(seq<S.ResultEntry>, S.LdapResult)>)
    modifies link
    ensures (r, link.Abs()) == S.SearchWith(handle, old(link.Abs()), adapters, p)
  {
    var stream := new SearchStream(link, handle.(lastId := 0), adapters);
    var started := stream.Start(p);
    if started.Err? {
      return S.Err(started.error);
    }
    var entries, end := Collect(stream);
    if end.Panic? {
      return S.Panic(end.cause);
    }
    if end.Err? {
      return S.Err(end.error);
    }
    var res := stream.Finish();
    return S.Ok((entries, res));
  }
}
