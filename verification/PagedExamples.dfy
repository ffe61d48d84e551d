/** Concrete searches at which the promise of finish fails. */
module PagedExamples {
  import opened Bytes
  import opened Ber
  import opened Controls
  import opened SearchStream
  import opened PagedSearch
  import FilterParser
  import FilterGrammar
  import FilterComplete

  /** The filter (a=*). */
  const FILTER: seq<byte> := [0x28, 0x61, 0x3D, 0x2A, 0x29]

  const HANDLE: Handle := Handle(0, None, None, None)

  const PARAMS: Params := Params([], 2, FILTER, [])

  const SUCCESS: LdapResult := LdapResult(0, [], "", [], [])

  /** A paging control with a cookie of one octet. */
  const COOKIE: Control := Received(PagingControl(Paging(0, [1])))

  /** A page with no items and a cookie. */
  const FIRST: Page := Page(1, [], SUCCESS, [COOKIE], [])

  /** A page with one entry and no paging control. */
  const SECOND: Page := Page(2, [Item(Entry(StructureTag(Application, 4, C([]))), [])], SUCCESS, [], [])

  lemma {:induction false} FilterCompiles()
    ensures Compiles(FILTER)
  {
    var a := FilterGrammar.AttrDesc(FilterGrammar.Descr([0x61]), []);
    var f := FilterGrammar.Simple(FilterGrammar.Present(a));
    assert FilterGrammar.PrintAttr(a) == [0x61];
    assert FilterGrammar.Print(f) == FILTER;
    FilterComplete.ParsePrintedExactlyWhen(f);
  }

  lemma {:induction false} ShortControl()
    ensures |EncodeTag(PagingTag(Paging(0, [1])))| < 128
  {
    var tags := PagingTag(Paging(0, [1])).payload.tags;
    assert |EncodeTag(tags[0])| == 3 && |EncodeTag(tags[1])| == 3;
    assert tags[1..] == [tags[1]] && tags[1..][1..] == [];
    assert EncodeAll(tags[1..]) == EncodeTag(tags[1]) + EncodeAll([]);
    assert |EncodeAll(tags)| == 6;
  }

  lemma {:induction false} FirstHasCookie()
    ensures CookieOf(FIRST) == [1]
  {
    ShortControl();
    PagingRoundTrip(Paging(0, [1]));
    assert COOKIE.known == Some(ControlType.PagedResults);
  }

  lemma {:induction false} PagesLinked()
    ensures Linked([FIRST, SECOND]) && PagesProper([FIRST, SECOND])
  {
    FirstHasCookie();
  }

  /** One entry is read, from the second page; finish then returns the result of the first. */
  lemma {:induction false} EarlyFinishInstance()
    ensures var w := Wire(Replies([FIRST, SECOND]), [], []);
            var s := StreamingSearch(HANDLE, w, [EntriesOnly([]), Adapter.PagedResults(10, None)], PARAMS).1;
            && Next(s).0 == Ok(Some(EntryOf(SECOND.items[0]))) && Next(s).1.state == Active
            && Finish(Next(s).1).0.rc == 0 && Finish(Next(s).1).0.ctrls == [COOKIE]
  {
    var w := Wire(Replies([FIRST, SECOND]), [], []);
    FilterCompiles();
    PagesLinked();
    assert w.script == Replies([FIRST, SECOND]) + [];
    LaterPageExample(HANDLE, w, 10, PARAMS, [FIRST, SECOND], []);
    var s := StreamingSearch(HANDLE, w, [EntriesOnly([]), Adapter.PagedResults(10, None)], PARAMS).1;
    BareFields(Finish(Next(s).1).0, ResultOf(FIRST));
  }

  /** The second page cannot be had; finish returns the result of the first. */
  lemma {:induction false} FailedTurnInstance()
    ensures var w := Wire([Accepted(1, Arrivals(FIRST)), Failed(2, false)], [], []);
            var s := StreamingSearch(HANDLE, w, [EntriesOnly([]), Adapter.PagedResults(10, None)], PARAMS).1;
            && Next(s).0 == Err(ResultRecv) && Next(s).1.state == StreamState.Error
            && Finish(Next(s).1).0.rc == 0 && Finish(Next(s).1).0.ctrls == [COOKIE]
  {
    var w := Wire([Accepted(1, Arrivals(FIRST)), Failed(2, false)], [], []);
    FilterCompiles();
    FirstHasCookie();
    assert w.script == Replies([FIRST]) + ([Failed(2, false)] + []);
    FailedTurnReportsPage(HANDLE, w, 10, PARAMS, FIRST, Failed(2, false), []);
    var s := StreamingSearch(HANDLE, w, [EntriesOnly([]), Adapter.PagedResults(10, None)], PARAMS).1;
    BareFields(Finish(Next(s).1).0, ResultOf(FIRST));
  }

  lemma {:induction false} BareFields(a: LdapResult, b: LdapResult)
    requires Bare(a) == Bare(b)
    ensures a.rc == b.rc && a.ctrls == b.ctrls
  {
  }
}
