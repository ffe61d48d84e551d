/** Paging is transparent: a search in pages gives what the search without pages gives. */
module PagedSearch {
  import opened Bytes
  import opened Controls
  import opened BerInteger
  import opened SearchStream
  import SearchStreamLaws
  import SearchEntry

  // ----- What a server sends -----

  /** The answer to one request: items, the final result with its controls, and whatever follows it. */
  datatype Page = Page(id: int, items: seq<Arrival>, result: LdapResult, ctrls: seq<Control>, tail: seq<Arrival>)

  function Arrivals(pg: Page): seq<Arrival>
  {
    pg.items + [Item(SearchItem.Done(pg.result), pg.ctrls)] + pg.tail
  }

  function Replies(ps: seq<Page>): seq<Reply>
  {
    if ps == [] then [] else [Accepted(ps[0].id, Arrivals(ps[0]))] + Replies(ps[1..])
  }

  function EntryOf(a: Arrival): ResultEntry
    requires a.Item? && !a.item.Done?
  {
    ResultEntry(a.item.tag, a.ctrls)
  }

  /** An entry, an intermediate message, or a reference that has the form of one. */
  predicate Proper(a: Arrival)
  {
    && a.Item? && !a.item.Done?
    && (a.item.tag.id == 19 ==> SearchEntry.ParseRefs(a.item.tag).Some?)
  }

  predicate AllProper(items: seq<Arrival>)
  {
    forall i :: 0 <= i < |items| ==> Proper(items[i])
  }

  /** What EntriesOnly should let through. */
  function Entries(items: seq<Arrival>): seq<ResultEntry>
    requires AllProper(items)
  {
    if items == [] then []
    else
      var re := EntryOf(items[0]);
      (if re.tag.id == 25 || re.tag.id == 19 then [] else [re]) + Entries(items[1..])
  }

  /** What EntriesOnly should set aside. */
  function Refs(items: seq<Arrival>): seq<seq<byte>>
    requires AllProper(items)
  {
    if items == [] then []
    else
      (if items[0].item.tag.id == 19 then SearchEntry.ParseRefs(items[0].item.tag).value else []) + Refs(items[1..])
  }

  function AllItems(ps: seq<Page>): seq<Arrival>
  {
    if ps == [] then [] else ps[0].items + AllItems(ps[1..])
  }

  function ResultOf(pg: Page): LdapResult
  {
    pg.result.(ctrls := pg.ctrls)
  }

  /** The cookie in the first paging control of a page, or no octets where there is none or it cannot be read. */
  function CookieOf(pg: Page): seq<byte>
  {
    var k := PagingAt(pg.ctrls);
    if k < |pg.ctrls| && pg.ctrls[k].raw.val.Some? && ParsePaging(pg.ctrls[k].raw.val.value).Some?
    then ParsePaging(pg.ctrls[k].raw.val.value).value.cookie
    else []
  }

  /** A page without a paging control, or with one whose cookie is empty. */
  predicate LastPage(pg: Page)
  {
    var k := PagingAt(pg.ctrls);
    k < |pg.ctrls| ==>
      && pg.ctrls[k].raw.val.Some? && ParsePaging(pg.ctrls[k].raw.val.value).Some?
      && ParsePaging(pg.ctrls[k].raw.val.value).value.cookie == []
  }

  /** What the adapter makes of them. */
  lemma {:induction false} PageEnds(pg: Page)
    ensures CookieOf(pg) != [] ==> PageEnd(Some(ResultOf(pg))) == More(CookieOf(pg))
    ensures LastPage(pg) ==> PageEnd(Some(ResultOf(pg))) == Last(Some(Stripped(pg)))
  {
  }

  /** The result of a page without its paging control. */
  function Stripped(pg: Page): LdapResult
  {
    var k := PagingAt(pg.ctrls);
    if k == |pg.ctrls| then ResultOf(pg) else pg.result.(ctrls := pg.ctrls[..k] + pg.ctrls[k + 1..])
  }

  /** Every page but the last carries a cookie that is not empty; the last one carries none, or an empty one. */
  ghost predicate Linked(ps: seq<Page>)
  {
    && ps != []
    && (forall i :: 0 <= i < |ps| - 1 ==> CookieOf(ps[i]) != [])
    && LastPage(ps[|ps| - 1])
  }

  ghost predicate PagesProper(ps: seq<Page>)
  {
    forall i :: 0 <= i < |ps| ==> AllProper(ps[i].items)
  }

  // ----- What is asked of it -----

  /** What the user asks for. */
  datatype Query = Query(size: i32, timeout: Option<nat>, user: seq<RawControl>, options: Option<SearchOptions>,
                         params: Params)

  function PageRequest(q: Query, cookie: seq<byte>): Request
  {
    Request(q.params, SearchStreamLaws.Asked(q.options),
            Some(q.user + [PagingControl(Paging(q.size, cookie))]))
  }

  /** The requests after the first: each one carries the cookie of the page before it. */
  function Followups(q: Query, ps: seq<Page>): (rs: seq<Request>)
    ensures |rs| == if ps == [] then 0 else |ps| - 1
  {
    if |ps| <= 1 then []
    else [PageRequest(q, CookieOf(ps[0]))] + Followups(q, ps[1..])
  }

  function Pager(q: Query): Adapter
  {
    Adapter.PagedResults(q.size, Some((Handle(0, q.timeout, Some(q.user), q.options), q.params)))
  }

  // ----- One step below EntriesOnly -----

  /**
   * Seen from EntriesOnly, the stream is about to read the first of these pages: directly, when there is just
   * one and no paging adapter, or through the paging adapter.
   */
  ghost predicate Feeds(s: Stream, q: Query, ps: seq<Page>, rest: seq<Reply>)
  {
    && ps != [] && s.state == Active && s.ax == 1 && s.rx == Some(Arrivals(ps[0]))
    && s.wire.script == Replies(ps[1..]) + rest
    && PagesProper(ps)
    && ((|s.adapters| == 1 && |ps| == 1)
        || (|s.adapters| == 2 && s.adapters[1] == Pager(q) && Linked(ps) && Compiles(q.params.filter)))
  }

  function Advanced(ps: seq<Page>): seq<Page>
    requires ps != [] && ps[0].items != []
  {
    [ps[0].(items := ps[0].items[1..])] + ps[1..]
  }

  lemma {:induction false} AdvancedArrivals(ps: seq<Page>)
    requires ps != [] && ps[0].items != []
    ensures Arrivals(ps[0])[0] == ps[0].items[0] && Arrivals(Advanced(ps)[0]) == Arrivals(ps[0])[1..]
  {
  }

  lemma {:induction false} AdvancedFeeds(s: Stream, q: Query, ps: seq<Page>, rest: seq<Reply>)
    requires Feeds(s, q, ps, rest) && ps[0].items != []
    ensures Feeds(s.(rx := Some(Arrivals(Advanced(ps)[0]))), q, Advanced(ps), rest)
  {
    var ps' := Advanced(ps);
    assert ps'[1..] == ps[1..];
    assert forall i :: 0 < i < |ps| ==> ps'[i] == ps[i];
    assert ResultOf(ps'[0]) == ResultOf(ps[0]);
  }

  lemma {:induction false} InnerItem(s: Stream, ps: seq<Page>)
    requires ps != [] && ps[0].items != [] && AllProper(ps[0].items) && s.rx == Some(Arrivals(ps[0]))
    ensures NextInner(s) == (Ok(Some(EntryOf(ps[0].items[0]))), s.(rx := Some(Arrivals(Advanced(ps)[0]))))
  {
    AdvancedArrivals(ps);
    assert Proper(ps[0].items[0]);
  }

  lemma {:induction false} InnerDone(s: Stream, pg: Page)
    requires pg.items == [] && s.rx == Some(Arrivals(pg))
    ensures NextInner(s) == (Ok(None), s.(rx := None, res := Some(ResultOf(pg))))
  {
    assert Arrivals(pg)[0] == Item(SearchItem.Done(pg.result), pg.ctrls);
  }

  lemma {:induction false} WriteBack(s: Stream)
    requires s.ax == 1 && |s.adapters| == 2
    ensures Unlock(s.(ax := 2), s.adapters[1]) == s
  {
    assert s.adapters[1 := s.adapters[1]] == s.adapters;
  }

  /** What next gives through the paging adapter, from what the adapter gives. */
  lemma {:induction false} ThroughPager(s: Stream, q: Query, r: Ret<Option<ResultEntry>>, s': Stream)
    requires s.state == Active && s.ax == 1 && |s.adapters| == 2 && s.adapters[1] == Pager(q)
    requires s'.ax == 1 && s'.adapters == s.adapters && r.Ok?
    requires AdapterNext(Pager(q), s.(ax := 2)) == (r, Pager(q), s'.(ax := 2))
    ensures Next(s) == (r, s')
  {
    WriteBack(s');
    assert AdapterNext(s.adapters[s.ax], s.(ax := s.ax + 1)) == (r, Pager(q), s'.(ax := 2));
  }

  lemma {:induction false} StepItem(s: Stream, q: Query, ps: seq<Page>, rest: seq<Reply>)
    requires Feeds(s, q, ps, rest) && ps[0].items != []
    ensures Proper(ps[0].items[0])
    ensures Next(s) == (Ok(Some(EntryOf(ps[0].items[0]))), s.(rx := Some(Arrivals(Advanced(ps)[0]))))
  {
    assert AllProper(ps[0].items);
    if |s.adapters| == 1 {
      InnerItem(s, ps);
    } else {
      var s' := s.(rx := Some(Arrivals(Advanced(ps)[0])));
      InnerItem(s.(ax := 2), ps);
      assert Next(s.(ax := 2)) == (Ok(Some(EntryOf(ps[0].items[0]))), s'.(ax := 2));
      ThroughPager(s, q, Ok(Some(EntryOf(ps[0].items[0]))), s');
    }
  }

  /** The result a stream ends with. */
  function Final(s: Stream, pg: Page): Option<LdapResult>
  {
    if |s.adapters| == 1 then Some(ResultOf(pg))
    else Some(Stripped(pg))
  }

  lemma {:induction false} StepLast(s: Stream, q: Query, pg: Page, rest: seq<Reply>)
    requires Feeds(s, q, [pg], rest) && pg.items == []
    ensures Next(s) == (Ok(None), s.(rx := None, res := Final(s, pg)))
  {
    if |s.adapters| == 1 {
      InnerDone(s, pg);
    } else {
      var s' := s.(rx := None, res := Final(s, pg));
      InnerDone(s.(ax := 2), pg);
      assert Next(s.(ax := 2)) == (Ok(None), s.(ax := 2, rx := None, res := Some(ResultOf(pg))));
      assert LastPage([pg][0]);
      PageEnds(pg);
      assert AdapterNext(Pager(q), s.(ax := 2)) == (Ok(None), Pager(q), s'.(ax := 2));
      ThroughPager(s, q, Ok(None), s');
    }
  }

  /** The stream after a page is turned. The result of the page before stays where it was. */
  function Turned(s: Stream, q: Query, ps: seq<Page>): Stream
    requires |ps| > 1 && s.wire.script != []
  {
    s.(res := Some(ResultOf(ps[0])), rx := Some(Arrivals(ps[1])), handle := Handle(ps[1].id, None, None, None),
       wire := Wire(s.wire.script[1..], s.wire.issued + [PageRequest(q, CookieOf(ps[0]))], s.wire.scrubs))
  }

  lemma {:induction false} ScriptHead(ps: seq<Page>, rest: seq<Reply>)
    requires |ps| > 1
    ensures var script := Replies(ps[1..]) + rest;
            && script != [] && script[0] == Accepted(ps[1].id, Arrivals(ps[1]))
            && script[1..] == Replies(ps[1..][1..]) + rest
  {
  }

  lemma {:induction false} TurnedFeeds(s: Stream, q: Query, ps: seq<Page>, rest: seq<Reply>)
    requires Feeds(s, q, ps, rest) && |ps| > 1
    ensures s.wire.script != [] && Feeds(Turned(s, q, ps), q, ps[1..], rest)
  {
    ScriptHead(ps, rest);
    assert forall i :: 0 <= i < |ps| - 1 ==> ps[1..][i] == ps[i + 1];
  }

  lemma {:induction false} TurnPageMeans(s: Stream, q: Query, ps: seq<Page>, rest: seq<Reply>)
    requires Feeds(s, q, ps, rest) && |ps| > 1
    ensures PageEnd(Some(ResultOf(ps[0]))) == More(CookieOf(ps[0])) && s.wire.script != []
    ensures TurnPage(Pager(q), s.(ax := 2, rx := None, res := Some(ResultOf(ps[0]))), CookieOf(ps[0]))
            == (Ok(()), Turned(s, q, ps).(ax := 2))
  {
    ScriptHead(ps, rest);
    assert CookieOf(ps[0]) != [];
    PageEnds(ps[0]);
  }

  lemma {:induction false} StepTurn(s: Stream, q: Query, ps: seq<Page>, rest: seq<Reply>)
    requires Feeds(s, q, ps, rest) && ps[0].items == [] && |ps| > 1
    ensures s.wire.script != [] && Next(s) == Next(Turned(s, q, ps))
  {
    TurnPageMeans(s, q, ps, rest);
    InnerDone(s.(ax := 2), ps[0]);
    assert AdapterNext(Pager(q), s.(ax := 2)) == AdapterNext(Pager(q), Turned(s, q, ps).(ax := 2));
  }

  // ----- EntriesOnly and the collecting loop -----

  /** Collecting, taken up inside a call of next on the first adapter. */
  function CollectFrom(me: Adapter, s: Stream): (o: (seq<ResultEntry>, Ret<()>, Stream))
    requires s.ax == 1 && s.adapters != []
  {
    var (r, me', s') := AdapterNext(me, s);
    if r.Panic? then ([], Panic(r.cause), s')
    else if r.Err? then ([], Err(r.error), Unlock(s', me').(state := StreamState.Error))
    else if r.value.None? then ([], Ok(()), Unlock(s', me').(state := StreamState.Done))
    else
      var (entries, end, s'') := Collect(Unlock(s', me'));
      ([r.value.value] + entries, end, s'')
  }

  lemma {:induction false} CollectIsFromFirst(s: Stream)
    requires s.state == Active && s.ax == 0 && s.adapters != []
    ensures Collect(s) == CollectFrom(s.adapters[0], s.(ax := 1))
  {
    assert AdapterNext(s.adapters[s.ax], s.(ax := s.ax + 1)) == AdapterNext(s.adapters[0], s.(ax := 1));
  }

  function Plus(front: seq<ResultEntry>, o: (seq<ResultEntry>, Ret<()>, Stream)): (seq<ResultEntry>, Ret<()>, Stream)
  {
    (front + o.0, o.1, o.2)
  }

  lemma {:induction false} PlusNone(o: (seq<ResultEntry>, Ret<()>, Stream))
    ensures Plus([], o) == o
  {
    assert [] + o.0 == o.0;
  }

  /** An entry comes out. The lock is given back and taken again. */
  lemma {:induction false} CollectEntry(me: Adapter, s: Stream, s': Stream, re: ResultEntry)
    requires s.ax == 1 && s'.ax == 1 && |s'.adapters| == |s.adapters| > 0 && s'.state == Active
    requires AdapterNext(me, s) == (Ok(Some(re)), me, s')
    ensures CollectFrom(me, s) == Plus([re], CollectFrom(me, s'.(adapters := s'.adapters[0 := me])))
  {
    var back := Unlock(s', me);
    CollectIsFromFirst(back);
    assert back.adapters[0] == me && back.(ax := 1) == s'.(adapters := s'.adapters[0 := me]);
  }

  /** One item: what it adds to the entries and to the references. */
  lemma {:induction false} GatherItem(refs: seq<seq<byte>>, s: Stream, q: Query, ps: seq<Page>, rest: seq<Reply>)
    returns (s': Stream)
    requires Feeds(s, q, ps, rest) && ps[0].items != []
    ensures Proper(ps[0].items[0]) && Feeds(s', q, Advanced(ps), rest) && OtherwiseSame(s, s')
    ensures CollectFrom(EntriesOnly(refs), s)
            == Plus(Entries([ps[0].items[0]]), CollectFrom(EntriesOnly(refs + Refs([ps[0].items[0]])), s'))
  {
    StepItem(s, q, ps, rest);
    AdvancedFeeds(s, q, ps, rest);
    var a := ps[0].items[0];
    var re := EntryOf(a);
    var me := EntriesOnly(refs);
    var s1 := s.(rx := Some(Arrivals(Advanced(ps)[0])));
    OneItem(a);
    EntriesUnfold(me, s, s1, re);
    assert refs + [] == refs;
    s' := s1;
    if IsIntermediate(re) {
      PlusNone(CollectFrom(me, s1));
    } else if IsRef(re) {
      PlusNone(CollectFrom(EntriesOnly(refs + Refs([a])), s1));
    } else {
      CollectEntry(me, s, s1, re);
      s' := s1.(adapters := s1.adapters[0 := me]);
    }
  }

  lemma {:induction false} OneItem(a: Arrival)
    requires Proper(a)
    ensures Entries([a]) == if IsIntermediate(EntryOf(a)) || IsRef(EntryOf(a)) then [] else [EntryOf(a)]
    ensures Refs([a]) == if IsRef(EntryOf(a)) then SearchEntry.ParseRefs(a.item.tag).value else []
  {
    assert [a][1..] == [];
  }

  /** Everything that reading an item leaves alone. */
  ghost predicate OtherwiseSame(s: Stream, s': Stream)
  {
    && |s'.adapters| == |s.adapters| && s'.wire == s.wire && s'.res == s.res
  }

  lemma {:induction false} ItemsCons(a: Arrival, items: seq<Arrival>)
    requires Proper(a) && AllProper(items)
    ensures AllProper([a] + items)
    ensures Entries([a] + items) == Entries([a]) + Entries(items) && Refs([a] + items) == Refs([a]) + Refs(items)
  {
    OneItem(a);
    assert ([a] + items)[1..] == items;
  }

  lemma {:induction false} AllItemsProper(ps: seq<Page>)
    requires PagesProper(ps)
    ensures AllProper(AllItems(ps))
  {
    if ps != [] {
      assert forall i :: 0 <= i < |ps| - 1 ==> ps[1..][i] == ps[i + 1];
      AllItemsProper(ps[1..]);
    }
  }

  lemma {:induction false} AdvancedItems(ps: seq<Page>)
    requires ps != [] && ps[0].items != []
    ensures AllItems(ps) == [ps[0].items[0]] + AllItems(Advanced(ps))
  {
    assert Advanced(ps)[1..] == ps[1..];
    HeadOf(ps[0].items, AllItems(ps[1..]));
  }

  lemma {:induction false} HeadOf(xs: seq<Arrival>, ys: seq<Arrival>)
    requires xs != []
    ensures xs + ys == [xs[0]] + (xs[1..] + ys)
  {
  }

  /** How a stream that has been read to the end stands. */
  ghost predicate Ended(s: Stream, e: Stream, q: Query, ps: seq<Page>, refs: seq<seq<byte>>, rest: seq<Reply>)
    requires ps != []
  {
    && e.state == StreamState.Done && e.ax == 0 && e.res == Final(s, ps[|ps| - 1])
    && |e.adapters| == |s.adapters| > 0 && e.adapters[0] == EntriesOnly(refs)
    && (|e.adapters| > 1 ==> e.adapters[1] == Pager(q))
    && e.wire == Wire(rest, s.wire.issued + Followups(q, ps), s.wire.scrubs)
  }

  lemma {:induction false} AdvancedFollowups(q: Query, ps: seq<Page>)
    requires ps != [] && ps[0].items != []
    ensures Followups(q, Advanced(ps)) == Followups(q, ps)
    ensures |Advanced(ps)| == |ps| && ResultOf(Advanced(ps)[|ps| - 1]) == ResultOf(ps[|ps| - 1])
  {
    assert Advanced(ps)[1..] == ps[1..];
  }

  /** What collecting from s should come to. */
  ghost predicate Gathered(o: (seq<ResultEntry>, Ret<()>, Stream), s: Stream, q: Query, ps: seq<Page>,
                           rest: seq<Reply>, refs: seq<seq<byte>>)
    requires ps != [] && PagesProper(ps)
  {
    AllItemsProper(ps);
    o.0 == Entries(AllItems(ps)) && o.1 == Ok(()) && Ended(s, o.2, q, ps, refs + Refs(AllItems(ps)), rest)
  }

  lemma {:induction false} AdvancedProper(ps: seq<Page>)
    requires ps != [] && ps[0].items != [] && PagesProper(ps)
    ensures Proper(ps[0].items[0]) && PagesProper(Advanced(ps))
    ensures AllProper(AllItems(ps)) && AllProper(AllItems(Advanced(ps)))
    ensures Entries(AllItems(ps)) == Entries([ps[0].items[0]]) + Entries(AllItems(Advanced(ps)))
    ensures Refs(AllItems(ps)) == Refs([ps[0].items[0]]) + Refs(AllItems(Advanced(ps)))
  {
    var ps' := Advanced(ps);
    assert AllProper(ps[0].items);
    assert forall i :: 0 < i < |ps| ==> ps'[i] == ps[i];
    AllItemsProper(ps);
    AllItemsProper(ps');
    AdvancedItems(ps);
    ItemsCons(ps[0].items[0], AllItems(ps'));
  }

  lemma {:induction false} EndedItem(s: Stream, s': Stream, e: Stream, q: Query, ps: seq<Page>,
                                     refs: seq<seq<byte>>, rest: seq<Reply>)
    requires ps != [] && ps[0].items != [] && OtherwiseSame(s, s') && Ended(s', e, q, Advanced(ps), refs, rest)
    ensures Ended(s, e, q, ps, refs, rest)
  {
    AdvancedFollowups(q, ps);
  }

  lemma {:induction false} GatheredItem(o: (seq<ResultEntry>, Ret<()>, Stream), s: Stream, s': Stream, q: Query,
                                        ps: seq<Page>, rest: seq<Reply>, refs: seq<seq<byte>>)
    requires ps != [] && ps[0].items != [] && PagesProper(ps) && OtherwiseSame(s, s')
    requires Proper(ps[0].items[0]) && PagesProper(Advanced(ps))
    requires Gathered(o, s', q, Advanced(ps), rest, refs + Refs([ps[0].items[0]]))
    ensures Gathered(Plus(Entries([ps[0].items[0]]), o), s, q, ps, rest, refs)
  {
    AdvancedProper(ps);
    Chained3(refs, Refs([ps[0].items[0]]), Refs(AllItems(Advanced(ps))));
    EndedItem(s, s', o.2, q, ps, refs + Refs(AllItems(ps)), rest);
  }

  lemma {:induction false} Chained3<T>(a: seq<T>, b: seq<T>, c: seq<T>)
    ensures a + b + c == a + (b + c)
  {
  }

  /** The last page and the follow-up requests, seen from before and from after a page is turned. */
  lemma {:induction false} EndedTurn(s: Stream, e: Stream, q: Query, ps: seq<Page>, refs: seq<seq<byte>>,
                                     rest: seq<Reply>)
    requires |ps| > 1 && s.wire.script != [] && Ended(Turned(s, q, ps), e, q, ps[1..], refs, rest)
    ensures Ended(s, e, q, ps, refs, rest)
  {
    assert ps[1..][|ps| - 2] == ps[|ps| - 1];
    Chained(s.wire.issued, PageRequest(q, CookieOf(ps[0])), Followups(q, ps[1..]));
  }

  lemma {:induction false} Chained<T>(a: seq<T>, x: T, b: seq<T>)
    ensures a + [x] + b == a + ([x] + b)
  {
  }

  lemma {:induction false} GatheredTurn(o: (seq<ResultEntry>, Ret<()>, Stream), s: Stream, q: Query,
                                        ps: seq<Page>, rest: seq<Reply>, refs: seq<seq<byte>>)
    requires |ps| > 1 && ps[0].items == [] && PagesProper(ps) && PagesProper(ps[1..]) && s.wire.script != []
    requires Gathered(o, Turned(s, q, ps), q, ps[1..], rest, refs)
    ensures Gathered(o, s, q, ps, rest, refs)
  {
    AllItemsProper(ps[1..]);
    assert AllItems(ps) == AllItems(ps[1..]);
    EndedTurn(s, o.2, q, ps, refs + Refs(AllItems(ps[1..])), rest);
  }

  lemma {:induction false} CollectTurn(s: Stream, q: Query, ps: seq<Page>, rest: seq<Reply>, refs: seq<seq<byte>>)
    requires Feeds(s, q, ps, rest) && ps[0].items == [] && |ps| > 1 && s.wire.script != []
    ensures CollectFrom(EntriesOnly(refs), s) == CollectFrom(EntriesOnly(refs), Turned(s, q, ps))
  {
    StepTurn(s, q, ps, rest);
    assert AdapterNext(EntriesOnly(refs), s) == AdapterNext(EntriesOnly(refs), Turned(s, q, ps));
  }

  lemma {:induction false} GatheredLast(s: Stream, q: Query, ps: seq<Page>, rest: seq<Reply>, refs: seq<seq<byte>>)
    requires Feeds(s, q, ps, rest) && ps[0].items == [] && |ps| == 1
    ensures Gathered(CollectFrom(EntriesOnly(refs), s), s, q, ps, rest, refs)
  {
    assert ps == [ps[0]] && AllItems(ps) == [];
    StepLast(s, q, ps[0], rest);
    var me := EntriesOnly(refs);
    assert AdapterNext(me, s) == (Ok(None), me, s.(rx := None, res := Final(s, ps[0])));
    assert s.wire.script == rest && refs + [] == refs && s.wire.issued + [] == s.wire.issued;
  }

  /** The whole loop: all entries and all references of all pages, in order. */
  lemma {:induction false} Gather(s: Stream, q: Query, ps: seq<Page>, rest: seq<Reply>, refs: seq<seq<byte>>)
    requires Feeds(s, q, ps, rest)
    ensures Gathered(CollectFrom(EntriesOnly(refs), s), s, q, ps, rest, refs)
    decreases |ps|, if ps == [] then 0 else |ps[0].items|
  {
    if ps[0].items != [] {
      var s' := GatherItem(refs, s, q, ps, rest);
      var a := ps[0].items[0];
      Gather(s', q, Advanced(ps), rest, refs + Refs([a]));
      GatheredItem(CollectFrom(EntriesOnly(refs + Refs([a])), s'), s, s', q, ps, rest, refs);
    } else if |ps| > 1 {
      TurnedFeeds(s, q, ps, rest);
      Gather(Turned(s, q, ps), q, ps[1..], rest, refs);
      CollectTurn(s, q, ps, rest, refs);
      GatheredTurn(CollectFrom(EntriesOnly(refs), s), s, q, ps, rest, refs);
    } else {
      GatheredLast(s, q, ps, rest, refs);
    }
  }

  // ----- Start -----

  function QueryOf(h: Handle, size: i32, p: Params): Query
  {
    Query(size, h.timeout, SearchStreamLaws.OwnControls(h), h.options, p)
  }

  lemma {:induction false} CallAccepted(h: Handle, w: Wire, req: Request, ps: seq<Page>, rest: seq<Reply>)
    requires ps != [] && w.script == Replies(ps) + rest
    ensures OpCall(h, w, req)
            == (Ok(Arrivals(ps[0])), Handle(ps[0].id, None, None, h.options),
                Wire(Replies(ps[1..]) + rest, w.issued + [req], w.scrubs))
  {
    FirstAndRest(Accepted(ps[0].id, Arrivals(ps[0])), Replies(ps[1..]), rest);
  }

  lemma {:induction false} FirstAndRest<T>(x: T, a: seq<T>, b: seq<T>)
    ensures [x] + a + b != [] && ([x] + a + b)[0] == x && ([x] + a + b)[1..] == a + b
  {
  }

  /** The innermost start, when the server accepts. */
  lemma {:induction false} StartAccepted(s: Stream, p: Params, ps: seq<Page>, rest: seq<Reply>)
    requires s.state == Fresh && s.ax == |s.adapters| && Compiles(p.filter)
    requires ps != [] && s.wire.script == Replies(ps) + rest
    ensures var opts := SearchStreamLaws.Asked(s.handle.options);
            Start(s, p)
            == (Ok(()), s.(handle := Handle(ps[0].id, None, None, None), rx := Some(Arrivals(ps[0])), state := Active,
                           timeout := s.handle.timeout,
                           wire := Wire(Replies(ps[1..]) + rest,
                                        s.wire.issued + [Request(p, opts, s.handle.controls)], s.wire.scrubs)))
  {
    var opts := SearchStreamLaws.Asked(s.handle.options);
    CallAccepted(s.handle.(options := None), s.wire, Request(p, opts, s.handle.controls), ps, rest);
  }

  lemma {:induction false} StartUnpaged(h: Handle, w: Wire, refs: seq<seq<byte>>, p: Params, pg: Page, rest: seq<Reply>)
    requires Compiles(p.filter) && w.script == Replies([pg]) + rest && AllProper(pg.items)
    ensures var (r, s) := StreamingSearch(h, w, [EntriesOnly(refs)], p);
            var opts := SearchStreamLaws.Asked(h.options);
            && r == Ok(()) && s.ax == 0 && s.state == Active && s.adapters == [EntriesOnly([])] && s.res == None
            && s.wire == Wire(rest, w.issued + [Request(p, opts, h.controls)], w.scrubs)
            && Feeds(s.(ax := 1), QueryOf(h, 0, p), [pg], rest)
  {
    var s0 := New(h.(lastId := 0), [EntriesOnly(refs)], w);
    StartAccepted(s0.(ax := 1), p, [pg], rest);
    assert Replies([pg][1..]) + rest == rest;
    var e1 := Start(s0.(ax := 1), p).1;
    assert AdapterStart(EntriesOnly(refs), s0.(ax := 1), p) == (Ok(()), EntriesOnly([]), e1);
    assert StreamingSearch(h, w, [EntriesOnly(refs)], p) == (Ok(()), Unlock(e1, EntriesOnly([])));
  }

  /** Start through both adapters, when the server accepts. */
  lemma {:induction false} StartThroughPager(h: Handle, w: Wire, refs: seq<seq<byte>>, size: i32,
                                             saved: Option<(Handle, Params)>, p: Params, ps: seq<Page>,
                                             rest: seq<Reply>)
    requires Compiles(p.filter) && ps != [] && w.script == Replies(ps) + rest
    requires !SearchStreamLaws.AsksForPaging(SearchStreamLaws.OwnControls(h))
    ensures var (r, s) := StreamingSearch(h, w, [EntriesOnly(refs), Adapter.PagedResults(size, saved)], p);
            var q := QueryOf(h, size, p);
            && r == Ok(()) && s.ax == 0 && s.state == Active && s.res == None && s.rx == Some(Arrivals(ps[0]))
            && s.adapters == [EntriesOnly([]), Pager(q)]
            && s.wire == Wire(Replies(ps[1..]) + rest, w.issued + [PageRequest(q, [])], w.scrubs)
  {
    var q := QueryOf(h, size, p);
    var pager := Adapter.PagedResults(size, saved);
    var s0 := New(h.(lastId := 0), [EntriesOnly(refs), pager], w);
    SearchStreamLaws.SamePaging(SearchStreamLaws.OwnControls(h));
    var h2 := s0.handle.(controls := Some(q.user + [PagingControl(Paging(size, []))]));
    var s2 := s0.(ax := 2, handle := h2);
    StartAccepted(s2, p, ps, rest);
    var e2 := Start(s2, p).1;
    assert AdapterStart(pager, s0.(ax := 2), p) == (Ok(()), Pager(q), e2);
    assert Start(s0.(ax := 1), p) == (Ok(()), Unlock(e2, Pager(q)));
    assert AdapterStart(EntriesOnly(refs), s0.(ax := 1), p) == (Ok(()), EntriesOnly([]), Unlock(e2, Pager(q)));
  }

  lemma {:induction false} StartPaged(h: Handle, w: Wire, refs: seq<seq<byte>>, size: i32,
                                      saved: Option<(Handle, Params)>, p: Params, ps: seq<Page>, rest: seq<Reply>)
    requires Compiles(p.filter) && w.script == Replies(ps) + rest && PagesProper(ps) && Linked(ps)
    requires !SearchStreamLaws.AsksForPaging(SearchStreamLaws.OwnControls(h))
    ensures var (r, s) := StreamingSearch(h, w, [EntriesOnly(refs), Adapter.PagedResults(size, saved)], p);
            var q := QueryOf(h, size, p);
            && r == Ok(()) && s.ax == 0 && s.state == Active && s.res == None
            && s.adapters == [EntriesOnly([]), Pager(q)]
            && s.wire == Wire(Replies(ps[1..]) + rest, w.issued + [PageRequest(q, [])], w.scrubs)
            && Feeds(s.(ax := 1), q, ps, rest)
  {
    StartThroughPager(h, w, refs, size, saved, p, ps, rest);
  }

  // ----- The theorems -----

  lemma {:induction false} ChainRefs(adapters: seq<Adapter>)
    requires 1 <= |adapters| <= 2 && adapters[0].EntriesOnly? && (|adapters| == 2 ==> adapters[1].PagedResults?)
    ensures SearchStreamLaws.RefsFrom(adapters, 0) == adapters[0].refs
  {
    assert SearchStreamLaws.RefsFrom(adapters, |adapters|) == [];
    if |adapters| == 2 {
      assert SearchStreamLaws.RefsFrom(adapters, 1) == [];
    }
  }

  /** From a started stream to the result of search. */
  lemma {:induction false} CollectAndFinish(s: Stream, q: Query, ps: seq<Page>, rest: seq<Reply>)
    requires s.ax == 0 && s.state == Active && s.adapters != [] && s.adapters[0] == EntriesOnly([])
    requires Feeds(s.(ax := 1), q, ps, rest) && Final(s, ps[|ps| - 1]).Some?
    ensures AllProper(AllItems(ps))
    ensures var (entries, end, e) := Collect(s);
            var (res, e') := Finish(e);
            var final := Final(s, ps[|ps| - 1]).value;
            && entries == Entries(AllItems(ps)) && end == Ok(())
            && res == final.(refs := final.refs + Refs(AllItems(ps)))
            && e'.wire == Wire(rest, s.wire.issued + Followups(q, ps), s.wire.scrubs)
  {
    AllItemsProper(ps);
    CollectIsFromFirst(s);
    Gather(s.(ax := 1), q, ps, rest, []);
    var e := Collect(s).2;
    assert Ended(s.(ax := 1), e, q, ps, [] + Refs(AllItems(ps)), rest);
    assert [] + Refs(AllItems(ps)) == Refs(AllItems(ps));
    SearchStreamLaws.FinishMeans(e);
    ChainRefs(e.adapters);
  }

  /** Without paging, search returns the entries, and the final result with the references added. */
  lemma {:induction false} UnpagedSearch(h: Handle, w: Wire, p: Params, pg: Page, rest: seq<Reply>)
    requires Compiles(p.filter) && w.script == Replies([pg]) + rest && AllProper(pg.items)
    ensures var opts := SearchStreamLaws.Asked(h.options);
            SearchWith(h, w, [EntriesOnly([])], p)
            == (Ok((Entries(pg.items), ResultOf(pg).(refs := pg.result.refs + Refs(pg.items)))),
                Wire(rest, w.issued + [Request(p, opts, h.controls)], w.scrubs))
  {
    StartUnpaged(h, w, [], p, pg, rest);
    var s := StreamingSearch(h, w, [EntriesOnly([])], p).1;
    CollectAndFinish(s, QueryOf(h, 0, p), [pg], rest);
    assert AllItems([pg]) == pg.items;
    assert s.wire.issued + Followups(QueryOf(h, 0, p), [pg]) == s.wire.issued;
  }

  /** The result of the last page without its paging control. */
  function LastResult(ps: seq<Page>): LdapResult
    requires ps != []
  {
    Stripped(ps[|ps| - 1])
  }

  /**
   * With paging, search returns the entries of all pages and the result of the last page, minus its paging
   * control, with all references added. It makes one request per page and leaves the rest of the script alone.
   */
  lemma {:induction false} SearchInPages(h: Handle, w: Wire, size: i32, p: Params, ps: seq<Page>, rest: seq<Reply>)
    requires Compiles(p.filter) && w.script == Replies(ps) + rest && PagesProper(ps) && Linked(ps)
    requires !SearchStreamLaws.AsksForPaging(SearchStreamLaws.OwnControls(h))
    ensures AllProper(AllItems(ps))
    ensures var q := QueryOf(h, size, p);
            var final := LastResult(ps);
            SearchWith(h, w, [EntriesOnly([]), Adapter.PagedResults(size, None)], p)
            == (Ok((Entries(AllItems(ps)), final.(refs := final.refs + Refs(AllItems(ps))))),
                Wire(rest, w.issued + [PageRequest(q, [])] + Followups(q, ps), w.scrubs))
  {
    StartPaged(h, w, [], size, None, p, ps, rest);
    var s := StreamingSearch(h, w, [EntriesOnly([]), Adapter.PagedResults(size, None)], p).1;
    CollectAndFinish(s, QueryOf(h, size, p), ps, rest);
  }

  /**
   * Paging is transparent. Whatever way a server cuts a result set into pages, the search in pages returns what
   * the search without pages returns from a server that sends all of it at once; only the controls of the
   * final result can differ, by the paging control.
   */
  lemma {:induction false} PagingIsTransparent(h: Handle, w: Wire, w1: Wire, size: i32, p: Params, ps: seq<Page>,
                                               rest: seq<Reply>, whole: Page)
    requires Compiles(p.filter) && PagesProper(ps) && Linked(ps)
    requires !SearchStreamLaws.AsksForPaging(SearchStreamLaws.OwnControls(h))
    requires w.script == Replies(ps) + rest && w1.script == Replies([whole]) + rest
    requires whole.items == AllItems(ps) && whole.result == ps[|ps| - 1].result && whole.ctrls == LastResult(ps).ctrls
    ensures SearchWith(h, w, [EntriesOnly([]), Adapter.PagedResults(size, None)], p).0
            == SearchWith(h, w1, [EntriesOnly([])], p).0
  {
    SearchInPages(h, w, size, p, ps, rest);
    UnpagedSearch(h, w1, p, whole, rest);
  }

  /** Each request carries the user's controls and exactly one paging control, whose cookie a server reads back. */
  lemma {:induction false} OnePagingControl(q: Query, cookie: seq<byte>)
    requires !SearchStreamLaws.AsksForPaging(q.user)
    ensures PageRequest(q, cookie).params == q.params
    ensures var cs := PageRequest(q, cookie).controls.value;
            && |cs| == |q.user| + 1 && cs[..|q.user|] == q.user
            && (forall i :: 0 <= i < |cs| ==> (cs[i].ctype == SearchStreamLaws.PAGING <==> i == |q.user|))
            && cs[|q.user|].val.Some?
            && (|cs[|q.user|].val.value| < TWO_TO_THE_64 ==>
                  var pr := ParsePaging(cs[|q.user|].val.value); pr.Some? && pr.value.cookie == cookie)
  {
    var pr := Paging(q.size, cookie);
    if |PagingControl(pr).val.value| < TWO_TO_THE_64 {
      PagingRoundTrip(pr);
    }
    SearchStreamLaws.PagingIs();
    assert forall i :: 0 <= i < |q.user| ==> q.user[i].ctype != SearchStreamLaws.PAGING;
  }

  lemma {:induction false} FollowupAt(q: Query, ps: seq<Page>, i: nat)
    requires i < |ps| - 1
    ensures |Followups(q, ps)| == |ps| - 1
    ensures Followups(q, ps)[i] == PageRequest(q, CookieOf(ps[i]))
  {
    if i > 0 {
      FollowupAt(q, ps[1..], i - 1);
      assert Followups(q, ps)[i] == Followups(q, ps[1..])[i - 1];
    }
  }

  lemma {:induction false} FirstOfNextPage(s: Stream, q: Query, ps: seq<Page>, rest: seq<Reply>, me: Adapter)
    requires Feeds(s, q, ps, rest) && |ps| > 1 && ps[0].items == [] && ps[1].items != [] && me.EntriesOnly?
    requires Proper(ps[1].items[0]) && ps[1].items[0].item.tag.id == 4
    ensures var (r, me', s') := AdapterNext(me, s);
            && r == Ok(Some(EntryOf(ps[1].items[0]))) && s'.ax == 1 && s'.state == Active
            && s'.res == Some(ResultOf(ps[0]))
  {
    TurnedFeeds(s, q, ps, rest);
    StepTurn(s, q, ps, rest);
    StepItem(Turned(s, q, ps), q, ps[1..], rest);
  }

  // ----- Stopping early -----

  /** The page that is being read when these are left: not all of its items may be left, but its result is. */
  ghost predicate LeftOf(ps: seq<Page>, left: seq<Page>)
  {
    && 1 <= |left| <= |ps|
    && ResultOf(left[0]) == ResultOf(ps[|ps| - |left|])
    && left[1..] == ps[|ps| - |left| + 1..]
  }

  /** What a paged stream has stored while it reads the k-th page. */
  function StoredIn(ps: seq<Page>, k: nat): Option<LdapResult>
    requires k < |ps|
  {
    if k == 0 then None else Some(ResultOf(ps[k - 1]))
  }

  /** Seen from EntriesOnly, the stream is about to read what is left, and the result of the page before is stored. */
  ghost predicate Inside(s: Stream, q: Query, ps: seq<Page>, rest: seq<Reply>, base: nat, left: seq<Page>)
  {
    Feeds(s, q, left, rest) && Stands(s, ps, base, left)
  }

  ghost predicate Stands(s: Stream, ps: seq<Page>, base: nat, left: seq<Page>)
  {
    && LeftOf(ps, left) && |s.adapters| == 2
    && s.res == StoredIn(ps, |ps| - |left|) && |s.wire.issued| == base + |ps| - |left|
  }

  lemma {:induction false} LeftOfAdvanced(ps: seq<Page>, left: seq<Page>)
    requires LeftOf(ps, left) && left[0].items != []
    ensures LeftOf(ps, Advanced(left)) && |Advanced(left)| == |left|
  {
    assert Advanced(left)[1..] == left[1..];
  }

  lemma {:induction false} StandsAdvanced(s: Stream, s': Stream, ps: seq<Page>, base: nat, left: seq<Page>)
    requires Stands(s, ps, base, left) && left[0].items != []
    requires s'.adapters == s.adapters && s'.res == s.res && s'.wire == s.wire
    ensures Stands(s', ps, base, Advanced(left))
  {
    LeftOfAdvanced(ps, left);
  }

  /** One item is read. */
  lemma {:induction false} InsideItem(s: Stream, q: Query, ps: seq<Page>, rest: seq<Reply>, base: nat, left: seq<Page>)
    returns (s': Stream)
    requires Inside(s, q, ps, rest, base, left) && left[0].items != []
    ensures Proper(left[0].items[0]) && Next(s) == (Ok(Some(EntryOf(left[0].items[0]))), s')
    ensures Inside(s', q, ps, rest, base, Advanced(left))
  {
    StepItem(s, q, left, rest);
    AdvancedFeeds(s, q, left, rest);
    s' := s.(rx := Some(Arrivals(Advanced(left)[0])));
    StandsAdvanced(s, s', ps, base, left);
  }

  /** A page is turned. */
  lemma {:induction false} InsideTurn(s: Stream, q: Query, ps: seq<Page>, rest: seq<Reply>, base: nat, left: seq<Page>)
    returns (s': Stream)
    requires Inside(s, q, ps, rest, base, left) && left[0].items == [] && |left| > 1
    ensures Next(s) == Next(s') && Inside(s', q, ps, rest, base, left[1..])
  {
    StepTurn(s, q, left, rest);
    TurnedFeeds(s, q, left, rest);
    s' := Turned(s, q, left);
    var k := |ps| - |left|;
    assert left[1..][0] == ps[k + 1..][0] && left[1..][1..] == ps[k + 1..][1..];
  }

  /** The last page ends. */
  lemma {:induction false} InsideLast(s: Stream, q: Query, ps: seq<Page>, rest: seq<Reply>, base: nat, left: seq<Page>)
    requires Inside(s, q, ps, rest, base, left) && left[0].items == [] && |left| == 1
    ensures Next(s).0 == Ok(None)
  {
    assert left == [left[0]];
    StepLast(s, q, left[0], rest);
  }

  /** What EntriesOnly makes of what it is given. */
  lemma {:induction false} EntriesUnfold(me: Adapter, s: Stream, s': Stream, re: ResultEntry)
    requires me.EntriesOnly? && Next(s) == (Ok(Some(re)), s') && (IsRef(re) ==> SearchEntry.ParseRefs(re.tag).Some?)
    ensures AdapterNext(me, s)
            == if IsIntermediate(re) then AdapterNext(me, s')
               else if IsRef(re) then AdapterNext(EntriesOnly(me.refs + SearchEntry.ParseRefs(re.tag).value), s')
               else (Ok(Some(re)), me, s')
  {
  }

  lemma {:induction false} SameNext(me: Adapter, s: Stream, s': Stream)
    requires Next(s) == Next(s')
    ensures AdapterNext(me, s) == AdapterNext(me, s')
  {
  }

  lemma {:induction false} NoneUnfold(me: Adapter, s: Stream) returns (s': Stream)
    requires me.EntriesOnly? && Next(s).0 == Ok(None)
    ensures AdapterNext(me, s) == (Ok(None), me, s')
  {
    s' := Next(s).1;
  }

  /** EntriesOnly gives an entry from somewhere in the pages, or comes to their end. */
  lemma {:induction false} AdapterNextInside(me: Adapter, s: Stream, q: Query, ps: seq<Page>, rest: seq<Reply>,
                                             base: nat, left: seq<Page>)
    returns (r: Ret<Option<ResultEntry>>, me': Adapter, s': Stream, left': seq<Page>)
    requires Inside(s, q, ps, rest, base, left) && me.EntriesOnly?
    ensures AdapterNext(me, s) == (r, me', s') && r.Ok? && me'.EntriesOnly?
    ensures r.value.Some? ==> Inside(s', q, ps, rest, base, left')
    decreases |left|, if left == [] then 0 else |left[0].items|, 1
  {
    if left[0].items != [] {
      r, me', s', left' := ItemInside(me, s, q, ps, rest, base, left);
    } else if |left| > 1 {
      var s1 := InsideTurn(s, q, ps, rest, base, left);
      SameNext(me, s, s1);
      r, me', s', left' := AdapterNextInside(me, s1, q, ps, rest, base, left[1..]);
    } else {
      InsideLast(s, q, ps, rest, base, left);
      s' := NoneUnfold(me, s);
      r, me', left' := Ok(None), me, left;
    }
  }

  lemma {:induction false} ItemInside(me: Adapter, s: Stream, q: Query, ps: seq<Page>, rest: seq<Reply>,
                                      base: nat, left: seq<Page>)
    returns (r: Ret<Option<ResultEntry>>, me': Adapter, s': Stream, left': seq<Page>)
    requires Inside(s, q, ps, rest, base, left) && me.EntriesOnly? && left[0].items != []
    ensures AdapterNext(me, s) == (r, me', s') && r.Ok? && me'.EntriesOnly?
    ensures r.value.Some? ==> Inside(s', q, ps, rest, base, left')
    decreases |left|, if left == [] then 0 else |left[0].items|, 0
  {
    var s1 := InsideItem(s, q, ps, rest, base, left);
    var re := EntryOf(left[0].items[0]);
    EntriesUnfold(me, s, s1, re);
    if IsIntermediate(re) {
      r, me', s', left' := AdapterNextInside(me, s1, q, ps, rest, base, Advanced(left));
    } else if IsRef(re) {
      var more := EntriesOnly(me.refs + SearchEntry.ParseRefs(re.tag).value);
      r, me', s', left' := AdapterNextInside(more, s1, q, ps, rest, base, Advanced(left));
    } else {
      r, me', s', left' := Ok(Some(re)), me, s1, Advanced(left);
    }
  }

  /** Between the calls of user code. */
  ghost predicate Reading(s: Stream, q: Query, ps: seq<Page>, rest: seq<Reply>, base: nat, left: seq<Page>)
  {
    s.ax == 0 && s.adapters != [] && s.adapters[0].EntriesOnly? && Inside(s.(ax := 1), q, ps, rest, base, left)
  }

  lemma {:induction false} ReadingNext(s: Stream, q: Query, ps: seq<Page>, rest: seq<Reply>, base: nat, left: seq<Page>)
    returns (e: Stream, left': seq<Page>)
    requires Reading(s, q, ps, rest, base, left) && GivesEntry(s)
    ensures e == Next(s).1 && Reading(e, q, ps, rest, base, left')
  {
    var r, me', s';
    r, me', s', left' := AdapterNextInside(s.adapters[0], s.(ax := 1), q, ps, rest, base, left);
    NextAtFirst(s, r, me', s');
    e := Unlock(s', me');
    assert Inside(e.(ax := 1), q, ps, rest, base, left');
  }

  lemma {:induction false} NextAtFirst(s: Stream, r: Ret<Option<ResultEntry>>, me': Adapter, s': Stream)
    requires s.ax == 0 && s.adapters != [] && s.state == Active && GivesEntry(s) && r.Ok?
    requires AdapterNext(s.adapters[0], s.(ax := 1)) == (r, me', s')
    ensures s'.ax == 1 && |s'.adapters| == |s.adapters| && r.value.Some? && Next(s) == (r, Unlock(s', me'))
  {
    assert AdapterNext(s.adapters[s.ax], s.(ax := s.ax + 1)) == (r, me', s');
  }

  function NextTimes(s: Stream, n: nat): Stream
    decreases n
  {
    if n == 0 then s else NextTimes(Next(s).1, n - 1)
  }

  predicate GivesEntry(s: Stream)
  {
    Next(s).0.Ok? && Next(s).0.value.Some?
  }

  /** The first n calls of next all give an entry. */
  predicate GivesEntries(s: Stream, n: nat)
    decreases n
  {
    n == 0 || (GivesEntry(s) && GivesEntries(Next(s).1, n - 1))
  }

  /** What every entry keeps holds after any number of entries. */
  lemma {:induction false} KeptByEntries(p: Stream -> bool, s: Stream, n: nat)
    requires p(s) && GivesEntries(s, n) && forall t :: p(t) && GivesEntry(t) ==> p(Next(t).1)
    ensures p(NextTimes(s, n))
    decreases n
  {
    if n > 0 {
      KeptByEntries(p, Next(s).1, n - 1);
    }
  }

  ghost predicate Anywhere(s: Stream, q: Query, ps: seq<Page>, rest: seq<Reply>, base: nat)
  {
    exists left :: Reading(s, q, ps, rest, base, left)
  }

  lemma {:induction false} AnywhereNext(s: Stream, q: Query, ps: seq<Page>, rest: seq<Reply>, base: nat)
    requires Anywhere(s, q, ps, rest, base) && GivesEntry(s)
    ensures Anywhere(Next(s).1, q, ps, rest, base)
  {
    var left :| Reading(s, q, ps, rest, base, left);
    var e, left' := ReadingNext(s, q, ps, rest, base, left);
  }

  lemma {:induction false} AnywhereTimes(s: Stream, q: Query, ps: seq<Page>, rest: seq<Reply>, base: nat, i: nat)
    requires Anywhere(s, q, ps, rest, base) && GivesEntries(s, i)
    ensures Anywhere(NextTimes(s, i), q, ps, rest, base)
  {
    ghost var p := (t: Stream) => Anywhere(t, q, ps, rest, base);
    forall t | p(t) && GivesEntry(t) ensures p(Next(t).1) {
      AnywhereNext(t, q, ps, rest, base);
    }
    KeptByEntries(p, s, i);
  }

  /** References aside. */
  function Bare(res: LdapResult): LdapResult
  {
    res.(refs := [])
  }

  lemma {:induction false} FinishStored(s: Stream)
    requires s.state != Closed
    ensures Bare(Finish(s).0) == Bare(SearchStreamLaws.Reported(s.res))
  {
    SearchStreamLaws.FinishMeans(s);
  }

  /** The result of every page but the last has a paging control. */
  lemma {:induction false} CookieHasControl(ps: seq<Page>, k: nat)
    requires Linked(ps) && k < |ps| - 1
    ensures PagingAt(ResultOf(ps[k]).ctrls) < |ResultOf(ps[k]).ctrls|
  {
    assert CookieOf(ps[k]) != [];
  }

  lemma {:induction false} ReadingTells(s: Stream, q: Query, ps: seq<Page>, rest: seq<Reply>, base: nat,
                                        left: seq<Page>) returns (k: nat)
    requires Reading(s, q, ps, rest, base, left)
    ensures s.state != Closed && k < |ps| && |s.wire.issued| == base + k && s.res == StoredIn(ps, k)
  {
    k := |ps| - |left|;
  }

  lemma {:induction false} FinishAnywhere(s: Stream, q: Query, ps: seq<Page>, rest: seq<Reply>, base: nat)
    returns (k: nat)
    requires Anywhere(s, q, ps, rest, base)
    ensures k < |ps| && |s.wire.issued| == base + k
    ensures Bare(Finish(s).0) == Bare(SearchStreamLaws.Reported(StoredIn(ps, k)))
  {
    var left :| Reading(s, q, ps, rest, base, left);
    k := ReadingTells(s, q, ps, rest, base, left);
    FinishStored(s);
  }

  /**
   * A paged search that is finished after any number of entries, before its end: as long as it reads the first page
   * the result is the cancellation that the documentation of finish speaks of, and in every later page it is the
   * result of the page before, paging control included. The page is told by the number of requests made.
   */
  lemma {:induction false} EarlyFinishInLaterPage(h: Handle, w: Wire, size: i32, p: Params, ps: seq<Page>,
                                                  rest: seq<Reply>, i: nat)
    returns (k: nat)
    requires Compiles(p.filter) && w.script == Replies(ps) + rest && PagesProper(ps) && Linked(ps)
    requires !SearchStreamLaws.AsksForPaging(SearchStreamLaws.OwnControls(h))
    requires GivesEntries(StreamingSearch(h, w, [EntriesOnly([]), Adapter.PagedResults(size, None)], p).1, i)
    ensures var s := NextTimes(StreamingSearch(h, w, [EntriesOnly([]), Adapter.PagedResults(size, None)], p).1, i);
            && k < |ps| && |s.wire.issued| == |w.issued| + 1 + k
            && Bare(Finish(s).0) == Bare(SearchStreamLaws.Reported(StoredIn(ps, k)))
    ensures k > 0 ==> PagingAt(ps[k - 1].ctrls) < |ps[k - 1].ctrls|
  {
    var s0 := StreamingSearch(h, w, [EntriesOnly([]), Adapter.PagedResults(size, None)], p).1;
    StartPaged(h, w, [], size, None, p, ps, rest);
    k := EarlyFinishFrom(s0, QueryOf(h, size, p), ps, rest, |w.issued| + 1, i);
    if k > 0 {
      CookieHasControl(ps, k - 1);
    }
  }

  lemma {:induction false} EarlyFinishFrom(s: Stream, q: Query, ps: seq<Page>, rest: seq<Reply>, base: nat, i: nat)
    returns (k: nat)
    requires s.ax == 0 && |s.adapters| == 2 && s.adapters[0].EntriesOnly? && s.res == None && |s.wire.issued| == base
    requires Feeds(s.(ax := 1), q, ps, rest) && GivesEntries(s, i)
    ensures k < |ps| && |NextTimes(s, i).wire.issued| == base + k
    ensures Bare(Finish(NextTimes(s, i)).0) == Bare(SearchStreamLaws.Reported(StoredIn(ps, k)))
  {
    StartsInside(s, q, ps, rest, base);
    AnywhereTimes(s, q, ps, rest, base, i);
    k := FinishAnywhere(NextTimes(s, i), q, ps, rest, base);
  }

  lemma {:induction false} StartsInside(s: Stream, q: Query, ps: seq<Page>, rest: seq<Reply>, base: nat)
    requires s.ax == 0 && |s.adapters| == 2 && s.adapters[0].EntriesOnly? && s.res == None && |s.wire.issued| == base
    requires Feeds(s.(ax := 1), q, ps, rest)
    ensures Anywhere(s, q, ps, rest, base)
  {
    assert Reading(s, q, ps, rest, base, ps);
  }

  /** It does happen: after a first page without items, the first entry of the second page is the first entry. */
  lemma {:induction false} LaterPageExample(h: Handle, w: Wire, size: i32, p: Params, ps: seq<Page>, rest: seq<Reply>)
    requires Compiles(p.filter) && w.script == Replies(ps) + rest && PagesProper(ps) && Linked(ps)
    requires !SearchStreamLaws.AsksForPaging(SearchStreamLaws.OwnControls(h))
    requires |ps| > 1 && ps[0].items == [] && ps[1].items != []
    requires Proper(ps[1].items[0]) && ps[1].items[0].item.tag.id == 4
    ensures var s := StreamingSearch(h, w, [EntriesOnly([]), Adapter.PagedResults(size, None)], p).1;
            && Next(s).0 == Ok(Some(EntryOf(ps[1].items[0]))) && Next(s).1.state == Active
            && Bare(Finish(Next(s).1).0) == Bare(ResultOf(ps[0]))
  {
    var s := StreamingSearch(h, w, [EntriesOnly([]), Adapter.PagedResults(size, None)], p).1;
    StartPaged(h, w, [], size, None, p, ps, rest);
    LaterPageFrom(s, QueryOf(h, size, p), ps, rest);
  }

  lemma {:induction false} LaterPageFrom(s: Stream, q: Query, ps: seq<Page>, rest: seq<Reply>)
    requires s.ax == 0 && s.adapters != [] && s.adapters[0].EntriesOnly? && Feeds(s.(ax := 1), q, ps, rest)
    requires |ps| > 1 && ps[0].items == [] && ps[1].items != []
    requires Proper(ps[1].items[0]) && ps[1].items[0].item.tag.id == 4
    ensures Next(s).0 == Ok(Some(EntryOf(ps[1].items[0]))) && Next(s).1.state == Active
    ensures Bare(Finish(Next(s).1).0) == Bare(ResultOf(ps[0]))
  {
    FirstOfNextPage(s.(ax := 1), q, ps, rest, s.adapters[0]);
    var r, me', s' := EntryAtFirst(s);
    FinishStored(Next(s).1);
  }

  lemma {:induction false} EntryAtFirst(s: Stream)
    returns (r: Ret<Option<ResultEntry>>, me': Adapter, s': Stream)
    requires s.ax == 0 && s.adapters != [] && s.state == Active
    requires AdapterNext(s.adapters[0], s.(ax := 1)).0.Ok? && AdapterNext(s.adapters[0], s.(ax := 1)).0.value.Some?
    ensures AdapterNext(s.adapters[0], s.(ax := 1)) == (r, me', s')
    ensures s'.ax == 1 && |s'.adapters| == |s.adapters| && Next(s) == (r, Unlock(s', me'))
  {
    r, me', s' := AdapterNext(s.adapters[0], s.(ax := 1)).0, AdapterNext(s.adapters[0], s.(ax := 1)).1,
      AdapterNext(s.adapters[0], s.(ax := 1)).2;
    assert AdapterNext(s.adapters[s.ax], s.(ax := s.ax + 1)) == (r, me', s');
  }

  // ----- A page that cannot be turned -----

  /** A page ends with a cookie, and the request for the next one is not accepted. */
  ghost predicate Failing(s: Stream, q: Query, pg: Page, reply: Reply, rest: seq<Reply>)
  {
    && s.state == Active && s.ax == 1 && |s.adapters| == 2 && s.adapters[1] == Pager(q)
    && pg.items == [] && s.rx == Some(Arrivals(pg)) && PageEnd(Some(ResultOf(pg))).More?
    && s.wire.script == [reply] + rest && !reply.Accepted? && Compiles(q.params.filter)
  }

  lemma {:induction false} FailedTurn(s: Stream, q: Query, pg: Page, reply: Reply, rest: seq<Reply>) returns (e: Stream)
    requires Failing(s, q, pg, reply, rest)
    ensures TurnPage(Pager(q), s.(ax := 2, rx := None, res := Some(ResultOf(pg))), PageEnd(Some(ResultOf(pg))).cookie)
            == (Err(SearchStreamLaws.Refusal(reply, q.timeout)), e)
    ensures e.wire.scrubs == s.wire.scrubs + SearchStreamLaws.RefusalScrubs(reply, q.timeout)
    ensures e.res == Some(ResultOf(pg)) && e.ax == 2 && e.adapters == s.adapters
  {
    var s2, cookie := s.(ax := 2, rx := None, res := Some(ResultOf(pg))), PageEnd(Some(ResultOf(pg))).cookie;
    assert s.wire.script[0] == reply && s.wire.scrubs + [] == s.wire.scrubs;
    e := TurnPage(Pager(q), s2, cookie).1;
  }

  lemma {:induction false} FailedThroughPager(s: Stream, q: Query, pg: Page, reply: Reply, rest: seq<Reply>)
    returns (e: Stream)
    requires Failing(s, q, pg, reply, rest)
    ensures Next(s) == (Err(SearchStreamLaws.Refusal(reply, q.timeout)), e)
    ensures e.wire.scrubs == s.wire.scrubs + SearchStreamLaws.RefusalScrubs(reply, q.timeout)
    ensures e.state == StreamState.Error && e.res == Some(ResultOf(pg)) && e.ax == 1 && |e.adapters| == 2
  {
    var e2 := FailedTurn(s, q, pg, reply, rest);
    var e0 := SearchStreamLaws.Refusal(reply, q.timeout);
    InnerDone(s.(ax := 2), pg);
    assert Next(s.(ax := 2)) == (Ok(None), s.(ax := 2, rx := None, res := Some(ResultOf(pg))));
    assert AdapterNext(Pager(q), s.(ax := 2)) == (Err(e0), Pager(q), e2);
    e := Unlock(e2, Pager(q)).(state := StreamState.Error);
    assert AdapterNext(s.adapters[s.ax], s.(ax := s.ax + 1)) == (Err(e0), Pager(q), e2);
  }

  lemma {:induction false} ErrorAtFirst(s: Stream, me: Adapter, e0: LdapError, e: Stream)
    requires s.state == Active && s.ax == 0 && s.adapters != [] && s.adapters[0] == me && me.EntriesOnly?
    requires Next(s.(ax := 1)) == (Err(e0), e) && e.ax == 1 && |e.adapters| == |s.adapters|
    ensures Next(s) == (Err(e0), Unlock(e, me).(state := StreamState.Error))
  {
    assert AdapterNext(me, s.(ax := 1)) == (Err(e0), me, e);
    assert AdapterNext(s.adapters[s.ax], s.(ax := s.ax + 1)) == (Err(e0), me, e);
  }

  /**
   * A paged search whose request for the second page is not accepted: next gives the error, with the scrub of a
   * timeout if the handle had one, and finish returns the result
   * of the first page, paging control included, for the search that failed.
   */
  lemma {:induction false} FailedTurnReportsPage(h: Handle, w: Wire, size: i32, p: Params, pg: Page, reply: Reply,
                                                 rest: seq<Reply>)
    requires Compiles(p.filter) && !SearchStreamLaws.AsksForPaging(SearchStreamLaws.OwnControls(h))
    requires pg.items == [] && CookieOf(pg) != [] && !reply.Accepted?
    requires w.script == Replies([pg]) + ([reply] + rest)
    ensures var s := StreamingSearch(h, w, [EntriesOnly([]), Adapter.PagedResults(size, None)], p).1;
            && Next(s).0 == Err(SearchStreamLaws.Refusal(reply, h.timeout)) && Next(s).1.state == StreamState.Error
            && Next(s).1.wire.scrubs == w.scrubs + SearchStreamLaws.RefusalScrubs(reply, h.timeout)
            && Bare(Finish(Next(s).1).0) == Bare(ResultOf(pg))
  {
    var s := StreamingSearch(h, w, [EntriesOnly([]), Adapter.PagedResults(size, None)], p).1;
    StartThroughPager(h, w, [], size, None, p, [pg], [reply] + rest);
    PageEnds(pg);
    FailedFrom(s, QueryOf(h, size, p), pg, reply, rest);
  }

  lemma {:induction false} FailedFrom(s: Stream, q: Query, pg: Page, reply: Reply, rest: seq<Reply>)
    requires s.ax == 0 && |s.adapters| == 2 && s.adapters[0] == EntriesOnly([])
    requires Failing(s.(ax := 1), q, pg, reply, rest)
    ensures Next(s).0 == Err(SearchStreamLaws.Refusal(reply, q.timeout)) && Next(s).1.state == StreamState.Error
    ensures Next(s).1.wire.scrubs == s.wire.scrubs + SearchStreamLaws.RefusalScrubs(reply, q.timeout)
    ensures Bare(Finish(Next(s).1).0) == Bare(ResultOf(pg))
  {
    var e := FailedThroughPager(s.(ax := 1), q, pg, reply, rest);
    ErrorAtFirst(s, EntriesOnly([]), SearchStreamLaws.Refusal(reply, q.timeout), e);
    FinishStored(Next(s).1);
  }
}
