/** Searches that fail: what search returns, and what it leaves on the wire. */
module SearchFailures {
  import opened Bytes
  import opened SearchStream
  import opened PagedSearch
  import SearchStreamLaws
  import SearchStreamArrivals
  import SearchEntry

  /** The items are followed by the end of the channel, or by a wait longer than the timeout. */
  ghost predicate Breaks(s: Stream, items: seq<Arrival>, end: seq<Arrival>)
  {
    && s.state == Active && s.ax == 1 && |s.adapters| == 1 && s.rx == Some(items + end) && AllProper(items)
    && (end == [] || (end[0].Elapsed? && s.timeout.Some?))
  }

  function ErrorAt(end: seq<Arrival>): LdapError
  {
    if end == [] then EndOfStream else Timeout
  }

  /** The wire afterwards: a timeout scrubs the id of the request. */
  function WireAt(w: Wire, id: int, end: seq<Arrival>): Wire
  {
    if end == [] then w else w.(scrubs := w.scrubs + [id])
  }

  ghost predicate Broken(o: (seq<ResultEntry>, Ret<()>, Stream), s: Stream, items: seq<Arrival>, end: seq<Arrival>)
    requires AllProper(items)
  {
    o.0 == Entries(items) && o.1 == Err(ErrorAt(end)) && o.2.wire == WireAt(s.wire, s.handle.lastId, end)
  }

  lemma {:induction false} BreaksNow(me: Adapter, s: Stream, end: seq<Arrival>)
    requires Breaks(s, [], end) && me.EntriesOnly?
    ensures Broken(CollectFrom(me, s), s, [], end)
  {
    assert [] + end == end;
    if end == [] {
      SearchStreamArrivals.ChannelClosed(s);
    } else {
      assert end == [Elapsed] + end[1..];
      SearchStreamArrivals.ElapsedTimed(s, end[1..]);
    }
    SearchStreamArrivals.ErrorPasses(me, s, ErrorAt(end));
  }

  lemma {:induction false} NextProper(s: Stream, items: seq<Arrival>, end: seq<Arrival>)
    requires Breaks(s, items, end) && items != []
    ensures Proper(items[0])
    ensures Next(s) == (Ok(Some(EntryOf(items[0]))), s.(rx := Some(items[1..] + end)))
    ensures Breaks(s.(rx := Some(items[1..] + end)), items[1..], end)
  {
    assert (items + end)[0] == items[0] && (items + end)[1..] == items[1..] + end;
    assert Proper(items[0]);
  }

  lemma {:induction false} BreaksLater(refs: seq<seq<byte>>, s: Stream, items: seq<Arrival>, end: seq<Arrival>)
    requires Breaks(s, items, end)
    ensures Broken(CollectFrom(EntriesOnly(refs), s), s, items, end)
    decreases |items|
  {
    var me := EntriesOnly(refs);
    if items == [] {
      BreaksNow(me, s, end);
    } else {
      NextProper(s, items, end);
      var s1, re := s.(rx := Some(items[1..] + end)), EntryOf(items[0]);
      EntriesUnfold(me, s, s1, re);
      Unfolded(items);
      if IsIntermediate(re) {
        BreaksLater(refs, s1, items[1..], end);
      } else if IsRef(re) {
        BreaksLater(refs + SearchEntry.ParseRefs(re.tag).value, s1, items[1..], end);
      } else {
        CollectEntry(me, s, s1, re);
        BreaksLater(refs, s1.(adapters := s1.adapters[0 := me]), items[1..], end);
      }
    }
  }

  lemma {:induction false} Unfolded(items: seq<Arrival>)
    requires AllProper(items) && items != []
    ensures Proper(items[0]) && AllProper(items[1..])
    ensures var re := EntryOf(items[0]);
            Entries(items) == (if IsIntermediate(re) || IsRef(re) then [] else [re]) + Entries(items[1..])
  {
    assert Proper(items[0]);
  }

  lemma {:induction false} StartOne(h: Handle, w: Wire, p: Params, id: int, arrivals: seq<Arrival>, rest: seq<Reply>)
    requires Compiles(p.filter) && w.script == [Accepted(id, arrivals)] + rest
    ensures var (r, s) := StreamingSearch(h, w, [EntriesOnly([])], p);
            && r == Ok(()) && s.ax == 0 && s.state == Active && s.adapters == [EntriesOnly([])]
            && s.rx == Some(arrivals) && s.timeout == h.timeout && s.handle.lastId == id
            && s.wire == Wire(rest, w.issued + [Request(p, SearchStreamLaws.Asked(h.options), h.controls)], w.scrubs)
  {
    var s0 := New(h.(lastId := 0), [EntriesOnly([])], w);
    var s1 := s0.(ax := 1);
    assert w.script[0] == Accepted(id, arrivals) && w.script[1..] == rest;
    assert Start(s1, p) == StartInner(s1, p);
    var e1 := Start(s1, p).1;
    assert AdapterStart(EntriesOnly([]), s1, p) == (Ok(()), EntriesOnly([]), e1);
  }

  /**
   * A search whose channel closes, or whose timeout passes, before the final result: the entries read are lost, the
   * error is returned, and nothing is sent but the scrub of the timeout.
   */
  lemma {:induction false} SearchBreaks(h: Handle, w: Wire, p: Params, id: int, items: seq<Arrival>,
                                        end: seq<Arrival>, rest: seq<Reply>)
    requires Compiles(p.filter) && w.script == [Accepted(id, items + end)] + rest && AllProper(items)
    requires end == [] || (end[0].Elapsed? && h.timeout.Some?)
    ensures SearchWith(h, w, [EntriesOnly([])], p)
            == (Err(if end == [] then EndOfStream else Timeout),
                Wire(rest, w.issued + [Request(p, SearchStreamLaws.Asked(h.options), h.controls)],
                     w.scrubs + if end == [] then [] else [id]))
  {
    StartOne(h, w, p, id, items + end, rest);
    var s := StreamingSearch(h, w, [EntriesOnly([])], p).1;
    CollectIsFromFirst(s);
    BreaksLater([], s.(ax := 1), items, end);
    assert w.scrubs + [] == w.scrubs;
  }

  /** A search that cannot be started returns the error of the start. */
  lemma {:induction false} SearchNotStarted(h: Handle, w: Wire, adapters: seq<Adapter>, p: Params)
    requires StreamingSearch(h, w, adapters, p).0.Err?
    ensures SearchWith(h, w, adapters, p)
            == (Err(StreamingSearch(h, w, adapters, p).0.error), StreamingSearch(h, w, adapters, p).1.wire)
  {
  }
}
