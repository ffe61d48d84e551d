# A verified model of the ldap3 client

ldap3 is an LDAP version 3 client library. This project models the parts of it in which something can go
wrong over time or over unbounded inputs, and proves what the library relies on:

* **The multiplexer** (`MsgId`, `Connection`, `Multiplexer*`). Many cloned handles share one counter and one set
  of message ids, and one event loop routes server messages back by id. `MsgId.MsgMap` and
  `Connection.LdapConnection` are the shared state as objects. `Multiplexer` is the system of all steps that
  handles, streams, the loop and the server can take, with the largest id as a parameter, so that wraparound is
  reachable. The theorems are about every run of that system.
* **Search streams and adapters** (`SearchStream*`, `SearchFailures`, `Paged*`). `SearchStream` gives what one call of start,
  next or finish does to the values a stream is made of, through a chain of adapters of any length;
  `SearchStreamObject` is the same as an object with fields and locks, proved against it. `SearchStreamLaws` has
  what holds of every chain and every sequence of calls, and `PagedSearch` the transparency of paging.
* **The BER codec and the message envelope** (`Bytes`, `Ber*`, `Controls`, `Protocol`, `EnvelopeOctets`). Writer and parser as they
  run, round trips with their exact conditions, and framing that does not depend on how the bytes are cut.
* **The filter compiler and escaping** (`FilterParser`, `FilterGrammar`, `FilterComplete`, `FilterSound`,
  `Escape`). What the parser, with its ordered choice and backtracking, makes of every filter text is proved
  against a printer for section 3 of RFC 4515, and the strings it accepts are exactly the texts of the filters it
  reads as written. `FilterGrammar` departs from the grammar of the RFC as the code does: see "Left out".
* **Search entries** (`SearchEntry`, `Utf8`): how attributes are split into text and binary ones.

Specifications do not share definitions with what they specify. Octets, tag numbers, message numbers, character
classes and result codes are written out in `FilterGrammar`, `BerOctets`, `EnvelopeOctets`, `SearchEntry`, `Escape`,
`Multiplexer`, `SearchStreamLaws` and `PagedSearch`.

A panic of the source is an outcome of the model (`None`, `Panicked`, `Panic(cause)`), not a precondition.
Where a promise fails, the code is modelled as it is, and the exact condition is proved:

* A tag number above 30 is written in a form that the parser does not read: `BerExact.RoundTripExactlyWhen`.
* Negative integers can lose their sign: `BerInteger.WrittenKeptExactlyWhen`, `BerInteger.I32KeptExactlyWhen`.
* An empty middle part of a substring filter is refused, a matching rule whose name starts with `dn` is taken for the
  dn flag, and a flag with a capital letter, as in the example `(:DN:2.4.6.8.10:=Dino)` of section 4 of RFC 4515, is
  not seen as the flag: it is refused or compiled to a rule of that name. `FilterComplete.ParsePrintedExactlyWhen`, `FilterComplete.CapitalFlagExample`.
* A timeout can scrub an id before the loop has seen the operation that bears it, and then the allocator comes round
  to that id: `MultiplexerPool.TimeoutsCanAlias`. Ids stay unshared, whatever is allocated at whatever point of a
  run, exactly when no scrub is handled before the operation it names: `MultiplexerPool.NeverAliasesExactlyWhen`.
  Routing and delivery are proved for all those runs, among them all runs without timeouts, and for all runs in
  which the counter has not wrapped.
* A scrub names an id, and a second scrub for a request that timed out can stop the request that has got its id since:
  `MultiplexerScrubs.SecondScrubStopsAnother`. Scrubs stop only the requests they were sent for exactly when no id is
  handed out while a scrub naming it is on the channel, and none is sent for a request whose id another live request
  bears, unless that one has been handled and a scrub naming the id is on the channel already:
  `MultiplexerScrubs.NeverStopsAnotherExactlyWhen`.
* An attribute name that occurs twice can lose values: `SearchEntry.ValuesKeptExactlyWhen`.
* The documentation of `StreamState` says that direct streams become Done (src/search.rs:531-532); the code does not
  do that (src/search.rs:763-768), and next must not be called again: `SearchStreamLaws.DirectPanicsExactlyWhen`.
* The documentation of `finish` promises a cancellation when the stream has not been read to the end
  (src/search.rs:785-788). A paged stream finished in a later page returns the result of the page before instead, and
  so does one whose request for the next page has failed, for the search that failed:
  `PagedSearch.EarlyFinishInLaterPage`, `PagedSearch.FailedTurnReportsPage`, with instances in `PagedExamples`. For any
  adapted chain after any calls, in every state but Done and Closed, the cancellation is returned exactly when no
  request has been made after the first; in Done there is always a result. A direct stream returns a result exactly
  when it is active and its receiver is gone, that is, when it has read the final result.
  `SearchStreamLaws.CancelledExactlyWhen`, `SearchStreamLaws.DirectCancelledExactlyWhen`.

A consequence of the accounting of ids: a search read to its end and dropped keeps its id in use for ever, and as
many of them as there are ids leave nothing to allocate (`MultiplexerLeaks.LeaksExhaust`,
`MultiplexerLeaks.IdsRunOut`).

## Model

| member | source | states |
|---|---|---|
| MsgId.MsgMap.NextMsgId | src/ldap.rs:155-176 | terminates from every state in which a counter of zero means an empty set; gives the first free id going round from the last, or nothing, and updates counter and set |
| MsgId.FirstFreeMeans | src/ldap.rs:155-176 | the id handed out is free, within 1..max, and every id passed over is in use; nothing is handed out exactly when every id is in use |
| MsgId.TakePasses | src/ldap.rs:155-176 | an allocation passes over ids in use only, until the one it hands out |
| MsgId.ReuseDistance | src/ldap.rs:155-176 | over any interleaving of allocations and frees, the counter comes back to an id only after passing over every id from 1 to max |
| Connection.LdapConnection.constructor | src/conn.rs:665-703 | a new connection has the counter at zero and everything empty |
| Connection.LdapConnection.AllocateId | src/ldap.rs:178-184 | an allocation changes the counter and the in-use set, and nothing of the loop |
| Connection.LdapConnection.OnScrub | src/conn.rs:761-768 | a scrub removes its id from both maps and from the in-use set |
| Connection.LdapConnection.OnOperation | src/conn.rs:769-806 | what each kind of operation does to the maps; an Abandon removes its target from both maps but frees only its own id |
| Connection.LdapConnection.OnResponse | src/conn.rs:826-863 | which channel a message goes to, and what it removes; a search's Done does not free its id |
| MultiplexerRouting.ConsistentRun | src/conn.rs:758-864 | in every run the maps lead each id to an operation of the right kind, with that id, that the loop has handled |
| MultiplexerRouting.FaithfulStep | src/conn.rs:758-864 | where no two live operations share an id, every step of the loop delivers what the specification of the step says |
| MultiplexerRouting.RoutedToListener | src/conn.rs:835-863 | where no two live operations share an id, a message is routed to the operation registered under its id |
| MultiplexerPool.PoolStep | src/conn.rs:758-864 | the accounting of the id pool is kept by every step other than a timeout |
| MultiplexerPool.ExactAccounting | src/conn.rs:761-862 | in every state of a timeout-free run the in-use set is the disjoint union of ids not handled yet, waiting singles, singles removed by an Abandon, searches not scrubbed, and unbinds |
| MultiplexerPool.UnsharedStep | src/conn.rs:758-864 | every step, timeouts included, other than a scrub handled before its operation keeps live ids in use and unshared |
| MultiplexerPool.UnsharedRun | src/conn.rs:758-864 | in every run whose scrubs are all timely, timeouts and wraparound included, live operations have ids of their own and the ids are in use |
| MultiplexerPool.AllocatorComesRound | src/ldap.rs:155-176 | once the id of a pending operation is free, allocations alone hand it out again |
| MultiplexerPool.UntimelyAliases | src/conn.rs:761-768 | after a scrub handled before its operation, allocations alone bring two live operations with one id |
| MultiplexerPool.NeverAliasesExactlyWhen | src/conn.rs:758-864 | over all runs, no allocations at any point can bring a shared id exactly when no scrub is handled before the operation it names |
| MultiplexerPool.TimeoutFreeIsTimely | src/search.rs:705-714 | without timeouts every scrub is handled after its operation |
| MultiplexerPool.RoutedIdsDisjoint | src/conn.rs:758-864 | in such runs ids not handled yet and the keys of both maps are pairwise disjoint and all in use |
| MultiplexerPool.NeverReissued | src/ldap.rs:155-186 | in such runs an id handed out is not that of any pending or routed operation |
| MultiplexerPool.SaneRun | src/ldap.rs:155-176 | in every run, timeouts included, the allocator finds the state it needs to terminate |
| MultiplexerPool.NoAliasRun | src/conn.rs:758-864 | no two live operations share an id, in runs whose scrubs are all timely and in runs that have not used up the ids |
| MultiplexerPool.FaithfulRun | src/conn.rs:758-864 | over such runs the loop and the specification agree on who listens and what was delivered |
| MultiplexerPool.TimeoutsCanAlias | src/ldap.rs:187-192 | a witness: with one id and a timeout two pending operations have the same id |
| MultiplexerDelivery.AliveExactlyWhen | src/conn.rs:835-846 | over every run, the loop dies exactly of a message for a registered search whose operation is none of 4, 5, 19 and 25 |
| MultiplexerDelivery.OrderlyLives | src/conn.rs:835-846 | as long as the server answers searches with those operations the loop lives |
| MultiplexerDelivery.Delivered | src/conn.rs:835-863 | a request has received a beginning of what it is owed - the first message with its id, or all up to the first Done, in order of arrival since it was registered - and all of it unless stopped, as long as the loop lives or the server answers searches as it may |
| MultiplexerDelivery.ReceivesItsOwn | src/conn.rs:835-863 | everything received bears the request's own id; a single gets at most one message, a search nothing after Done |
| MultiplexerDelivery.OutstandingIsMatched | src/conn.rs:860-862 | a message for an outstanding request that was not stopped never falls into the unmatched branch |
| MultiplexerDelivery.ScrubIsOwn | src/search.rs:705-714 | without timeouts, a scrub that names a registered request is that of its own finished stream |
| MultiplexerScrubs.SafeStep | src/conn.rs:758-864 | a polite step, of any kind, puts no request within reach of a scrub that was not sent for it |
| MultiplexerScrubs.ThreatComesTrue | src/conn.rs:761-768 | a request within reach of such a scrub is stopped by the loop reading on from its channel |
| MultiplexerScrubs.NeverStopsAnotherExactlyWhen | src/conn.rs:761-768 | over all runs, at no point can scrubs already sent stop a request they were not sent for exactly when every step is polite: no id handed out under a scrub that names it, and no scrub sent for an id that another live request bears |
| MultiplexerScrubs.ScrubStopsItsOwn | src/conn.rs:761-768 | in a polite run every scrub handled names no live request but its own |
| MultiplexerScrubs.TimeoutFreeIsPolite | src/search.rs:705-714 | runs without timeouts are polite |
| MultiplexerScrubs.SecondScrubStopsAnother | src/search.rs:677-680 | a witness: a timely run in which the second scrub of a request that timed out stops a later request with its id |
| MultiplexerLeaks.RetireLeaks | src/search.rs:705-714 | a stream that ends Done leaves its search without a scrub |
| MultiplexerLeaks.LeakedIdStaysInUse | src/conn.rs:851-853 | the id of such a search is in use in every later state of every timeout-free run |
| MultiplexerLeaks.LeaksExhaust | src/ldap.rs:155-176 | as many such searches as there are ids, and nothing can be allocated in any continuation |
| MultiplexerLeaks.IdsRunOut | src/conn.rs:851-853 | for every number of ids there is a timeout-free run that gets there with no operation live |
| SearchStreamObject.Link.OpCall | src/ldap.rs:178-200 | the request is made with the handle's controls, which are taken; timeouts scrub the id |
| SearchStreamObject.SearchStream.Lock | src/search.rs:743-748 | a lock is taken only when it is not held, and the locks held are those below the index |
| SearchStreamObject.SearchStream.StartInner | src/search.rs:619-672 | options, timeout, request, receiver and state of a direct start |
| SearchStreamObject.SearchStream.Start | src/search.rs:732-750 | start through the chain, with index and locks restored |
| SearchStreamObject.SearchStream.AdapterStart | src/adapters.rs:338-388 | the start of both adapters |
| SearchStreamObject.SearchStream.NextInner | src/search.rs:674-703 | one item from the receiver, or the final result, the end of the channel, a timeout, or the panic without a receiver |
| SearchStreamObject.SearchStream.Next | src/search.rs:756-781 | next through the chain, with index and locks restored unless it panics, and the state changes at the outermost call |
| SearchStreamObject.SearchStream.EntriesNext | src/adapters.rs:262-279 | the loop that skips intermediate messages and collects references |
| SearchStreamObject.SearchStream.PagedNext | src/adapters.rs:390-447 | the loop that turns pages, and removes the paging control of the last one |
| SearchStreamObject.SearchStream.TurnPage | src/adapters.rs:407-434 | a new search with the saved request and the cookie; its handle and receiver replace those of the stream |
| SearchStreamObject.SearchStream.FinishInner | src/search.rs:705-723 | scrub unless Done, closed, and the result |
| SearchStreamObject.SearchStream.Finish | src/search.rs:792-811 | finish through the chain, with index and locks restored |
| SearchStreamObject.Collect | src/ldap.rs:536-538 | the collecting loop of search |
| SearchStreamObject.Search | src/ldap.rs:526-541 | start, collect, finish; the first error ends it |
| SearchStreamArrivals.StartReacts | src/ldap.rs:178-200 | through every chain start gives the error of the connection's reaction, with a scrub exactly when a timeout was set and passed; on acceptance the stream has the receiver, the id and the handle's timeout |
| SearchStreamArrivals.TurnReacts | src/adapters.rs:407-434 | the same for the request for another page, with the saved timeout |
| SearchStreamArrivals.StartSaves | src/adapters.rs:346-387 | a paging adapter saves the timeout, the controls and the options of the user |
| SearchStreamArrivals.ElapsedTimed | src/search.rs:675-681 | at every index of every chain a wait longer than the timeout gives the timeout error, the Error state and one scrub of the last id |
| SearchStreamArrivals.ElapsedUntimed | src/search.rs:682-684 | without a timeout the wait changes nothing |
| SearchStreamArrivals.ChannelClosed | src/search.rs:685-691 | at every index of every chain the end of the channel gives its error and the Error state, and nothing is sent |
| SearchStreamArrivals.TimeoutScrubs | src/search.rs:675-681 | after any calls on any stream: the handle's timeout decides, and the scrub is of the id that the connection gave to the last request |
| SearchStreamArrivals.FinishScrubsLast | src/search.rs:705-714 | after any calls finishing an active stream scrubs the id of its last request |
| SearchStreamArrivals.MalformedPanics | src/adapters.rs:262-279 | a reference or a paging control without the form of one is a panic |
| SearchStreamArrivals.CompilesExactlyWhen | src/search.rs:645-648 | start lets through exactly the filters that the grammar gives a meaning |
| SearchStreamArrivals.IdleCalls | src/search.rs:732-735 | start on a stream that is not fresh and next on one that is not active do nothing |
| SearchFailures.SearchBreaks | src/ldap.rs:526-541 | a search whose channel closes or whose timeout passes before the final result returns the error and leaves the scrub of the timeout and nothing else |
| SearchFailures.SearchNotStarted | src/ldap.rs:526-541 | a search that cannot be started returns the error of the start |
| SearchStreamLaws.StartMakesReadable | src/search.rs:732-750 | for every chain a successful start leaves a receiver and started adapters, a failed one the Error state |
| SearchStreamLaws.NextOnReadable | src/search.rs:756-781 | for every chain and at every index, next on a readable stream does not miss a receiver or a saved request, leaves locked adapters alone, and ends in the state the outcome calls for |
| SearchStreamLaws.AdaptedStreamIsSafe | src/search.rs:732-811 | after any calls on any adapted stream the index is zero, an active stream has a receiver, and next cannot panic for want of one |
| SearchStreamLaws.AdaptedStreamStaysEnded | src/search.rs:756-781 | after the end or an error an adapted stream gives nothing more and does not change |
| SearchStreamLaws.DirectPanicsExactlyWhen | src/search.rs:674-703 | after any calls, a direct stream panics exactly when it is active and has read the final result |
| SearchStreamLaws.DirectStreamEndsOnce | src/search.rs:760-768 | so the next call after the end of a direct stream panics |
| SearchStreamLaws.ClosedIsFinal | src/search.rs:792-801 | no sequence of calls changes a closed stream; finish reports it |
| SearchStreamLaws.FinishMeans | src/search.rs:705-723 | for every chain: the stored result or the cancellation, with the references of all adapters, innermost first; closed; one scrub exactly when not Done |
| SearchStreamLaws.CancelledExactlyWhen | src/search.rs:705-723 | after any calls on any adapted stream that is not closed: in Done finish returns a stored result, and in every other state, Error included, the cancellation exactly when no request has followed the first, and the stored result otherwise |
| SearchStreamLaws.DirectCancelledExactlyWhen | src/search.rs:705-723 | after any calls on a direct stream that is not closed, finish returns a result exactly when the stream is active and its receiver is gone |
| SearchStreamLaws.TurnCounts | src/adapters.rs:407-434 | turning a page makes one request, accepted or not, and leaves the stored result alone |
| SearchStreamLaws.StartClashesExactlyWhen | src/adapters.rs:346-372 | start fails for an adapter exactly when paging is asked for twice, by two adapters or by an adapter and the user, and then nothing has been sent |
| SearchStreamLaws.StartIssuesOne | src/adapters.rs:373-388 | otherwise one request is made, with unchanged parameters, and with the user's controls and at most one paging control |
| PagedSearch.StepTurn | src/adapters.rs:407-437 | at the end of a page with a cookie, next is the same as next on the following page |
| PagedSearch.Gather | src/adapters.rs:262-279 | collecting gives all entries and all references of all pages in order, and the follow-up requests |
| PagedSearch.UnpagedSearch | src/ldap.rs:526-541 | search returns the entries in order, and the final result with all references added |
| PagedSearch.SearchInPages | src/adapters.rs:338-451 | search in pages returns the entries of all pages, the last page's result without its paging control and with all references, after one request per page and no more |
| PagedSearch.PagingIsTransparent | src/adapters.rs:338-451 | however a server cuts a result into pages, the result is the same as without paging |
| PagedSearch.OnePagingControl | src/adapters.rs:373-382 | each request has the original parameters, the user's controls and exactly one paging control, whose cookie reads back |
| PagedSearch.FollowupAt | src/adapters.rs:411-419 | each follow-up request carries the cookie of the page before it |
| PagedSearch.EarlyFinishInLaterPage | src/search.rs:705-723 | a started paged search finished after any number of entries returns the cancellation in its first page and the result of the page before, paging control included, in every later page |
| PagedSearch.LaterPageExample | src/search.rs:705-723 | with a first page without items, one entry read and then finish returns the result of the first page |
| PagedSearch.FailedTurnReportsPage | src/adapters.rs:420-431 | when the request for the next page is not accepted, next gives the error, with the scrub of a timeout, and finish returns the result of the page just read |
| PagedExamples.EarlyFinishInstance | src/search.rs:705-723 | the first of these on concrete pages: rc 0 and the paging control after one entry |
| PagedExamples.FailedTurnInstance | src/adapters.rs:420-431 | the second on concrete pages: rc 0 and the paging control for a search that failed |
| BerParser.ComputeUint | lber/src/parse.rs:49-51 | the fold over the octets, with the bits above 64 dropped |
| BerParser.ReadTag | lber/src/parse.rs:54-87 | the recursive parser and its loop over the contents |
| BerWriter.WriteType | lber/src/write.rs:41-93 | appends the identifier octets, low or high form |
| BerWriter.WriteLength | lber/src/write.rs:95-116 | appends the shortest definite length |
| BerWriter.EncodeInner | lber/src/write.rs:16-39 | appends the encoding of the tree |
| BerWriter.EncodeInto | lber/src/write.rs:9-14 | appends the encoding to the caller's buffer and keeps what was there |
| BerCodec.TypeRoundTrip | lber/src/write.rs:41-68 | identifier octets read back exactly for numbers up to 30 |
| BerCodec.LengthRoundTrip | lber/src/parse.rs:32-47 | every length reads back, whatever follows |
| BerCodec.RoundTrip | lber/src/parse.rs:54-87 | parsing the encoding of a tree with low tag numbers, followed by anything, gives the tree and leaves what follows |
| BerExact.RoundTripExactlyWhen | lber/src/parse.rs:24-30 | over all trees, the round trip succeeds exactly when no tag number in the tree is above 30 |
| BerExact.ReadBackIsLow | lber/src/parse.rs:54-87 | a list of elements that reads back as written has no number above 30 at any depth |
| BerExact.RunFails | lber/src/parse.rs:54-87 | octets displaced by the second identifier octet of an element are never made up for by the elements after it |
| BerExact.ConstructedContentFails | lber/src/parse.rs:54-87 | the contents of an element with the number 31, read from their own length octets on, are never read as written |
| BerCodec.PrefixIncomplete | lber/src/parse.rs:54-87 | every proper prefix of an encoding is reported incomplete |
| BerCodec.AppendKeepsParse | lber/src/parse.rs:54-87 | more input changes only the remainder |
| BerCodec.ReencodeShrinks | lber/src/write.rs:16-39 | writing an accepted tree again takes no more octets than were read |
| BerCodec.Normalize | lber/src/write.rs:95-116 | and it parses back to the same tree |
| BerOctets.ShortElement | lber/src/write.rs:16-39 | an element with a low number and short contents: class bits, constructed bit and number in one octet, the length in one, and the contents |
| BerOctets.HighIdentifier | lber/src/write.rs:50-93 | a number above 30 is written in base 128, the high bit on all digits but the last, and no leading zero (section 8.1.2.4 of X.690) |
| BerOctets.LongLength | lber/src/write.rs:95-116 | a length above 127 is written as the number of its octets and the length, in no more octets than it takes |
| BerOctets.ParseUintIs | lber/src/parse.rs:49-51 | any octets read as the low 64 bits of their unsigned value |
| BerOctets.LengthRead | lber/src/parse.rs:32-47 | what any length octets read as, superfluous and missing ones included |
| BerOctets.ElementRead | lber/src/parse.rs:54-87 | what any identifier octet with any length after it reads as, or that more is needed |
| BerInteger.IntoStructure | lber/src/structures/integer.rs:24-54 | the shift loop, the extra octet and the copied suffix give the specified octets; on the smallest i64 the negation panics where overflow is checked, and one zero octet is written where it wraps |
| BerInteger.FitsEightOctets | lber/src/structures/integer.rs:24-54 | never more than eight octets, so the padding branch is dead |
| BerInteger.NonNegativeReadsBack | lber/src/structures/integer.rs:24-54 | non-negative numbers read back, signed or unsigned |
| BerInteger.NonNegativeShortest | lber/src/structures/integer.rs:24-54 | no shorter octet string stands for the number (section 8.3.2 of X.690) |
| BerInteger.NonNegativeParses | lber/src/parse.rs:49-51 | parse_uint recovers every non-negative i64 |
| BerInteger.SignKeptExactlyWhen | lber/src/structures/integer.rs:24-54 | exactly which numbers keep their value in two's complement in the octets of their magnitude |
| BerInteger.WrittenKeptExactlyWhen | lber/src/structures/integer.rs:24-54 | exactly which i64 keep their value in what is written |
| BerInteger.SignLost | lber/src/structures/integer.rs:25-31 | -129 is written as 0x7F and reads as 127 |
| BerInteger.I32KeptExactlyWhen | src/protocol.rs:103-114 | exactly which message ids survive being written and read |
| Controls.Build | src/controls_impl.rs:180-202 | a control as a tag, with default criticality left out |
| Controls.Parse | src/controls_impl.rs:204-238 | the loop over controls |
| Controls.ControlRoundTrip | src/controls_impl.rs:180-238 | type, criticality and value survive in every combination of present and absent |
| Controls.ControlsRoundTrip | src/controls_impl.rs:204-238 | so do lists of any length |
| Controls.PagingRoundTrip | src/controls_impl/paged_results.rs:28-85 | the cookie always survives; the size exactly when it is not a short negative number |
| Protocol.Encode | src/protocol.rs:215-244 | appends the encoded envelope |
| Protocol.DecodeInner | src/protocol.rs:53-116 | one decoding step on the buffer, with every error and panic |
| Protocol.EnvelopeRoundTrip | src/protocol.rs:53-116 | the message comes back, whatever follows it, exactly when no tag number in its operation is above 30, its id is kept and its operation cannot be taken for controls |
| EnvelopeOctets.StartsAsSequence | src/protocol.rs:215-244 | every message starts with 0x30 |
| EnvelopeOctets.UnbindOctets | src/protocol.rs:215-244 | an unbind with the id 1 is 30 05 02 01 01 42 00 |
| EnvelopeOctets.UnbindDecoded | src/protocol.rs:53-116 | and those octets decode to it |
| EnvelopeOctets.DoneOctets | src/protocol.rs:215-244 | a final search result in octets |
| EnvelopeOctets.DoneDecoded | src/protocol.rs:53-116 | and those octets decoded |
| EnvelopeOctets.ControlledOctets | src/controls_impl.rs:180-202 | a request with a paging control and a critical control in octets |
| EnvelopeOctets.ControlledDecoded | src/controls_impl.rs:204-238 | and those octets decoded, with type, criticality and value of both |
| EnvelopeOctets.NoEnvelope | src/protocol.rs:59-75 | what is no sequence is an error, and too few elements a panic |
| EnvelopeOctets.PlainEnvelope | src/protocol.rs:76-116 | without controls the last two elements are the id and the operation, whatever precedes them |
| EnvelopeOctets.EnvelopeWithTen | src/protocol.rs:76-98 | an element 10 after the operation is ignored |
| EnvelopeOctets.EnvelopeWithControls | src/protocol.rs:76-116 | controls after the operation, with the error and the panics |
| EnvelopeOctets.ControlShapes | src/controls_impl.rs:204-238 | every shape a control can have; any octet but zero is critical |
| EnvelopeOctets.ControlPanics | src/controls_impl.rs:204-238 | which shapes are panics |
| EnvelopeOctets.PagingShape | src/controls_impl/paged_results.rs:56-85 | size and cookie of a paging control, whatever follows |
| EnvelopeOctets.KnownTypes | src/controls_impl.rs:54-64 | the control types that are known by their object identifiers |
| Protocol.Framed.Read | src/protocol.rs:119-126 | decoding until more octets are needed |
| Protocol.DrainAppend | src/protocol.rs:53-116 | decoding does not depend on where the octets so far were cut |
| Protocol.ChunkingImmaterial | src/protocol.rs:53-116 | for every byte stream, well formed or not, messages, stop and buffer depend on the concatenation of the chunks only |
| Protocol.StreamDelivered | src/protocol.rs:212-245 | any cutting of an encoded stream delivers exactly the messages within the octets read so far, and the buffer is the rest of them |
| FilterParser.ReadUnescaped | src/filter.rs:179-200 | the fold through the unescaping automaton |
| FilterParser.BuildParts | src/filter.rs:275-296 | the loop over the parts of a substring filter |
| FilterParser.BuildExtensible | src/filter.rs:335-368 | the parts of an extensible match, in order |
| FilterComplete.FilterPrinted | src/filter.rs:60-125 | parsing the text of any filter of the grammar, followed by anything, gives what the filter reads as, or fails where it reads as nothing |
| FilterComplete.ParsePrinted | src/filter.rs:18-29 | what compiling the text of any filter gives, empty middle parts and every spelling of the dn flag included |
| FilterComplete.ParsePrintedExactlyWhen | src/filter.rs:18-29 | compiling the text of a filter gives its RFC 4511 tag exactly when no middle part is empty, every dn flag is in lower case and no rule is mistaken for it, at any depth |
| FilterComplete.CapitalFlagRefused | src/filter.rs:327-333 | a flag with a capital letter and a rule, without an attribute, are refused |
| FilterComplete.CapitalFlagMisread | src/filter.rs:318-325 | a flag with a capital letter alone after an attribute is compiled to a rule of that name |
| FilterComplete.CapitalFlagExample | src/filter.rs:327-333 | the example `(:DN:2.4.6.8.10:=Dino)` of RFC 4515 is refused |
| FilterComplete.EmptyPartRefused | src/filter.rs:240-251 | two asterisks in a row are refused, in parentheses or bare |
| FilterComplete.ParseBareItem | src/filter.rs:60-62 | the same for an item without parentheses: what it reads as, and when it is read as written |
| FilterSound.Accepted | src/filter.rs:60-405 | whatever the parser accepts is the text of some filter of the grammar, and the tag is that filter's |
| FilterSound.AcceptsExactly | src/filter.rs:18-29 | the parser accepts a string with a tag exactly when the string is the text of a filter that is read as written and has that tag |
| FilterSound.AcceptedWellFormed | src/filter.rs:93-368 | accepted tags are well formed: one child of Not, substring parts never empty and initial and final in their places, a rule or a type in an extensible match |
| Escape.EscapeLazily | src/util.rs:21-119 | both lazily copying loops equal the plain per-octet map and never panic: no slice cuts a character, and the result is a string |
| Escape.UnescapeLazily | src/util.rs:326-358 | the unescaping loop equals the automaton, with its errors, and no slice cuts a character |
| Escape.EscapersAre | src/util.rs:21-119 | both escapers octet by octet, with lower-case digits, and everything else left as it is |
| Escape.UnescapeIs | src/util.rs:326-358 | what every string unescapes to, and that an escape out of form or octets that are not UTF-8 are an error |
| Utf8.ValidExactlyWhen | src/util.rs:48-52 | what counts as a string: exactly the encodings of sequences of Unicode scalar values |
| Escape.UnescapeInverts | src/util.rs:326-358 | unescaping undoes both escapers |
| Escape.EscapeKeepsUtf8 | src/util.rs:21-119 | an escaped string is a string |
| Escape.EscapedLiteralMatches | src/util.rs:21-60 | an escaped literal in an equality filter matches exactly the original octets |
| Escape.DnEscapeLeavesNothingBare | src/util.rs:66-119 | no special, leading or trailing character stands bare |
| SearchEntry.AbsorbAttribute | src/search.rs:172-215 | the pass over one attribute's values |
| SearchEntry.Construct | src/search.rs:152-222 | the entry, or the panic |
| SearchEntry.EntryBack | src/search.rs:152-222 | an entry as a server sends it is taken apart into its name and all attributes with all values |
| SearchEntry.EntryConserved | src/search.rs:152-222 | for such an entry with distinct names: names are partitioned, binary exactly when some value is not text, and values are kept, in order when text, and otherwise binary ones first |
| SearchEntry.EntryKeptExactlyWhen | src/search.rs:152-222 | for any such entry: nothing is invented, and nothing lost exactly when, of the occurrences of a name that are all text, only the last has values |
| SearchEntry.OnlyEntries | src/search.rs:152-172 | anything but an entry is a panic |
| SearchEntry.ReferencesBack | src/search.rs:843-850 | the references of a search result reference as sent are its URIs, and one that is no string is a panic |
| SearchEntry.ValuesConserved | src/search.rs:152-222 | the same of a list of attributes: names are partitioned, binary exactly when some value is not text, and values are kept |
| SearchEntry.KeptAndLost | src/search.rs:152-222 | for every list of attributes and every name, the values given are the values kept and the values of text occurrences whose place a later one takes |
| SearchEntry.ValuesKeptExactlyWhen | src/search.rs:152-222 | nothing is invented, and nothing lost exactly when, of the occurrences of a name that are all text, only the last has values |
| SearchEntry.RepeatedNameLosesValues | src/search.rs:212-215 | a witness: a repeated text attribute loses the values of the first |

## Left out

- TLS, sockets, URL handling and peer certificates: foreign code and I/O. A failing send ends the loop; the model has no such step.
- GSSAPI and NTLM binds and their codec paths: they depend on security contexts.
- The blocking facade, the request builders, whoami, passmod, starttls and controls without a parser of their own: straight-line construction.
- Transactions, content synchronization, URL parameters, matched-values filters: one-pass extraction that adds only easy members.
- User-defined adapters: chains are built from the two shipped ones.
- Real time: a timeout is a step that can happen at any time (`Multiplexer.Event.Timeout`), or an arrival (`SearchStream.Arrival.Elapsed`).
- The Null acknowledgement that ends the call of a search, an abandon or an unbind: it is not counted among what a request receives.
- A receiver's items are given by a script that is finite; a search whose server never stops sending is not modelled.
- After a panic the model makes no claim about locks; the runtime releases them.
- The panic of the allocator when every id is in use belongs to `MsgId`; in `SearchStream` the id of a request comes with the script.
- The conversion of a final message into a result happens in the loop; in `SearchStream` it has happened already.
- The build assumes 64-bit `usize`, so that no length fails to convert.
- The message text of errors, and logging.
- Protocol.EnvelopeRoundTrip: not stated for an operation whose own number is 31, since the decoder looks at the last elements only and ignores what comes before them.
- MsgId.MsgMap.NextMsgId: after the panic for want of a free id the model goes on; in the source the mutex is then poisoned, and the loop panics at its next lock (src/ldap.rs:156-170).
- PagedSearch.PagingIsTransparent: for the chain of EntriesOnly and PagedResults in this order, with well-formed references and without timeouts firing.
- FilterGrammar: departs from section 3 of RFC 4515 as the code does. An and-list or or-list may be empty (src/filter.rs:72-74); the octets of a value need not be UTF-8 (src/filter.rs:202-204); an object identifier may be one number (src/filter.rs:386-393), where RFC 4512 asks for two. Tags are given by the structures they turn into.
