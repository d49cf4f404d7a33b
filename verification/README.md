# pricetime: order book, feed and queues, modelled and proved

pricetime is a limit order book with a matching engine around it and a NASDAQ market-data path behind
it. This project models the book and the structures it stands on, the pipeline that republishes the
book and rebuilds it elsewhere, and the lock-free queues between the engine's threads, and proves what
they promise.

How the parts build on each other:

- **The book as values.** `Priority` is the book as two priority queues: every call on it is a function
  from a book to a book, a result code and the executions reported. `BookLaws` proves the laws of
  matching over it: shares are conserved, fill-or-kill is all or nothing, order entry never crosses the
  book.
- **The calls in so many words.** `Waterfall` tells matching place by place of the opposite queue instead of
  step by step, and `Calls` what each public call takes, leaves, counts and refuses, with every test written
  out on prices, participants and ids. Both are proved of `Priority`, so that its checks and its matching loop
  answer to something other than themselves.
- **The book as linked structures.** `Nodes` (an intrusive FIFO), `Pool` (a chunked arena whose free list
  reuses the queue's own link field), `Ladder` (levels by price), `IdMap` (open addressing with
  backward-shift deletion) and `OrderBook`, which changes all four in place. Each public method is
  proved to do to the values held what `Priority` says.
- **The naive book.** `Reference` is the flat vector searched from scratch; `Refinement` and `Agreement`
  prove that it and the linked book give the same replies and hold the same orders, call by call.
- **Either ladder.** A side of `Ladder` keeps its levels in an ordered map or in a contiguous band of slots;
  the linked book stands on either. `LadderAgreement` proves when the two give the same replies, and that they
  then hold the same levels and orders and have the same fingerprint (`Fingerprint`).
- **The bytes.** `Itch`, `ItchWriter`, `ItchReader` (NASDAQ TotalView-ITCH 5.0: messages, encoder, framed
  reader, chunked reader) and `Mold` (MoldUDP64, the "Downstream Packet" section: packer, unpacker, gap
  tracker). `ItchLayout` tells the message layouts a second time.
- **The feed.** `Replay` rebuilds books from events and keeps the global order index; `FeedLaws` says what the
  bytes of each message do to them. `Integrity` proves
  that what the engine says about a request rebuilds what the request did. `Engine` is the matching
  stage on the linked book; `Pipeline` and `Mirror` run it end to end, through frames and packets, to a
  replayer and to a second linked book.
- **The queues.** `Spsc` is the ring as a machine of interleaved atomic steps with stale loads;
  `Shutdown` is the exit protocol of the loops that drain such rings.
- **The simulated quote.** `QueuePosition` and `Sandbox` track an order's place in a replayed queue.

`dafny verify dfyconfig.toml` checks everything.

## Findings

Where the code, its documentation and the property wanted of it do not coincide:

- **A request can be lost at shutdown.** include/pricetime/engine.hpp:49-51 promises that no accepted
  order is dropped, but the second `try_pop` at line 215 discards what it pops (379 and 411 have the
  same shape). `Shutdown.LateRequestIsLost` is a run that loses one; `Shutdown.NothingLostIff` says
  exactly when: the drainer finds the flag up while an item is still in the ring.
  `Shutdown.ExitIsClean` shows at most one is lost, and none once that item is handled.
- **Prices above 32 bits change on the feed.** Order entry takes 64-bit prices and the writer keeps the
  low 32 bits (include/pricetime/itch_writer.hpp:62). `Integrity.HandleShown` proves the rebuilt book
  right exactly when a price that goes on display fits, `Integrity.RunShownIff` says so of whole runs, and
  `Integrity.WidePriceDiverges` is a request after which it is wrong.
- **A live reference reused under another symbol is open twice and tracked once.**
  `Replay.ReuseIsTrackedOnce` is such a feed; `Replay.FeedIndexedIff` and `Replay.CountIff` say exactly
  which events break the index. A duplicate within one symbol and the reuse of a dead reference are
  harmless.
- **A feed can cross a book.** `BookLaws.FeedCrosses` is one that does; `BookLaws.PassiveCrossesIff` says
  exactly when a passive insert does; `BookLaws.NeverCrossed` covers every other call.
- **The ladder shows in a reply only through the band.** `LadderAgreement.RunsAlikeIff` says exactly which runs
  tell the contiguous ladder from the ordered map: those in which a call gets as far as the price check with
  a price outside the band.
- **The chunked reader can write past its buffer.** include/pricetime/itch_stream.hpp:28-29 promises the
  one-shot reader's results, and line 42 leaves 64 spare bytes. `ItchReader.ForEachFramedStream` proves, for
  every file and every chunk size, that it gives them exactly when no refill overruns, and which refills do:
  those where what is carried over and what is read next are together more than a chunk and 64 bytes.
  `ItchReader.LongFrameOverruns` is a file that does, `ItchReader.ShortFramesFit` says frames declaring at
  most 63 bytes never do (no message type of ITCH 5.0 is longer than 50), and `ItchReader.OneChunkFits` that
  a file no longer than one chunk never does.
- **A market-data message can be lost without a gap.** The publishing loop discards in the same way
  (include/pricetime/engine.hpp:411), and numbers are given out when a message is sent.
  `Pipeline.LoseQuietly` is a session in which the engine holds an order, the rebuilt book is empty and the
  receiver counts nothing missed. `Pipeline.RunSession` and `Mirror.RunSession` hold through any interleaving
  of that stage, and give the engine's book when the loop never finds the flag up while a message is queued.

## Model

| member | source | states |
|---|---|---|
| BookLaws.FillOrKill | include/pricetime/book.hpp:183-192 | Fill-or-kill succeeds exactly when an immediate-or-cancel on the same book, under the same policy, would trade the whole quantity; it then does just what that order would do, and otherwise changes nothing and reports nothing. |
| BookLaws.NeverCrossed | include/pricetime/book.hpp:121-281 | Every run of calls other than passive inserts, with any changes of self-trade policy, keeps a valid uncrossed book valid and uncrossed. |
| BookLaws.SharesConserved | include/pricetime/book.hpp:84-101 | Through every run of public calls, entry and feed calls mixed, added stays 2 * traded + canceled + executed + resting. |
| BookLaws.FromEmpty | include/pricetime/book.hpp:84-101 | From the empty book both hold with nothing assumed of the book. |
| BookLaws.PassiveCrossesIff | include/pricetime/book.hpp:240-245 | A passive insert crosses an uncrossed book exactly when it passes validation at a price that reaches the best order opposite. |
| BookLaws.FeedCrosses | include/pricetime/book.hpp:240-245 | A passive bid at 10 and then a passive ask at 5 leave a crossed book. |
| BookLaws.MatchFills | include/pricetime/book.hpp:346-392 | A matching run trades exactly the quantity the pre-scan calls reachable, capped by what was asked for, under every policy. |
| Waterfall.MatchFrom | include/pricetime/book.hpp:347-392 | From any place it has come to, the matching loop ends as the waterfall says: each resting order gives the lesser of what it holds and what those ahead of it leave, if its price is within the limit and it is not the actor's own; own orders met are dropped, or stop everything behind them, by policy; executions, orders left, quantity left and counters follow. |
| Calls.EntryIs | include/pricetime/book.hpp:134-218 | An accepted order of any kind takes exactly its waterfall from the other side and rests, or cancels, what is left of it: behind every order at its price or better and before every other, under its own id and participant. |
| Calls.EntryRefused | include/pricetime/book.hpp:331-337 | The result of every order-entry call on any valid book: the first of bad id, bad quantity, price outside the band and id in use; for fill-or-kill too little in the waterfall; and a refused call changes nothing and reports nothing. |
| Calls.ExecutionsAreFair | include/pricetime/book.hpp:378-384 | Every execution reported is with an order that stood opposite, at its price, for more than nothing and no more than it held, within the limit, and with another participant whenever an actor is named and a policy is in force. |
| Calls.PreventionIdle | include/pricetime/book.hpp:350-361 | When none of the orders opposite is the actor's, no prevention is counted, and nothing is canceled but what an immediate order could not trade. |
| Calls.IncomingGoes | include/pricetime/book.hpp:360-375 | When the first own order is reached under a policy that cancels the incoming order: all before it is traded, the rest of the incoming order is canceled and does not rest, the own order stays at the front or goes too and is counted, and the policy fires once. |
| Calls.RestingGoes | include/pricetime/book.hpp:360-376 | Under the policy that cancels the resting order: the own order leaves and is counted as canceled, all before it is traded, and what the incoming limit order does not trade rests. |
| Calls.MarketTakesAll | include/pricetime/book.hpp:211-218 | An accepted market order of an actor with nothing opposite trades all it asks for or all there is at any price, and empties the side exactly when it asks for that much. |
| Calls.CancelIs | include/pricetime/book.hpp:475-483 | Canceling takes out that order and no other and counts its shares as canceled and nothing else. |
| Calls.ConsumeIs | include/pricetime/book.hpp:448-473 | A feed execution or reduction shrinks the order in its place, or takes it out when it asks for all of it or more, and counts what went as executed or as canceled. |
| Calls.FeedCounts | include/pricetime/book.hpp:457-461 | An accepted execution raises `executed` by exactly what the resting total falls, a reduction or cancel `canceled`, and no other counter moves; what falls is the lesser of the quantity asked and what is open. |
| Calls.NamedRefused | include/pricetime/book.hpp:450-452 | A cancel is refused only for an unknown id, an execution or reduction also for a zero quantity, in that order, and then nothing changes. |
| Calls.ReplaceIs | include/pricetime/book.hpp:264-281 | An accepted replace is a cancel and then a limit order of the same participant on the same side. |
| Calls.ReplaceRefused | include/pricetime/book.hpp:268-272 | When a replace is refused, and that a refused one leaves the old order in place. |
| Calls.PassiveIs | include/pricetime/book.hpp:240-245 | An accepted passive order rests in its place for no participant and counts as added; nothing else changes. |
| Calls.PassiveRefused | include/pricetime/book.hpp:240-245 | A passive order is refused for the same faults in the same order, and then nothing changes. |
| Calls.PolicyIs | include/pricetime/book.hpp:118-118 | Setting the policy changes the policy and nothing else. |
| Reference.BestIsPriceTime | tests/reference_book.hpp:263-281 | The index scan picks an eligible order that no eligible order precedes by price and then arrival, and picks none exactly when there is none. |
| Refinement.MatchInStep | tests/reference_book.hpp:310-339 | The flat vector's matching loop and the priority queue's take the same steps: same executions, same quantity left, same counters, same orders left in the same order. |
| Refinement.PreScanInStep | tests/reference_book.hpp:286-307 | Sorting the eligible indices and walking them finds enough quantity exactly when the front of the priority queue holds it. |
| Refinement.RunsAgree | tests/reference_book.hpp:50-175 | Every run of order entry from the empty books, under any policies, gets the same replies from both and leaves the same orders in price-then-arrival order. |
| Agreement.Lockstep | include/pricetime/book.hpp:346-392 | The linked book over any hash and the flat reference book, driven in place by the same calls, answer the same result codes and executions call by call and hold the same orders. |
| Nodes.Level.PushBack | include/pricetime/level.hpp:21-32 | Appending to the doubly linked queue keeps links, aggregates and contents in step; the queue gains exactly that order at its back. |
| Nodes.Level.Remove | include/pricetime/level.hpp:43-58 | Unlinking an order at any place leaves a well-linked queue without it, with the right total and count, and the order's own links cleared. |
| Pool.OrderPool.Alloc | include/pricetime/order_pool.hpp:28-41 | The pool hands out a blank node that was not out, recycling before it takes a fresh one; taken nodes number the peak of simultaneous use. |
| Pool.OrderPool.Release | include/pricetime/order_pool.hpp:43-46 | A released node goes to the head of the free list threaded through the queue's own link field, and free and live nodes stay disjoint. |
| Ladder.LevelMap.GetOrCreate | include/pricetime/ladder_map.hpp:20-24 | The level at a price, opened empty in its place in the price order when there was none; every other level keeps its orders. |
| Ladder.LevelMap.OnLevelEmpty | include/pricetime/ladder_map.hpp:25-32 | Dropping the empty level leaves every other level, its price order and its orders as they were. |
| Ladder.LevelMap.Put | include/pricetime/ladder_dense.hpp:33-43 | A level opened at an unused price takes its place in the price order, and the map's entries, or the band's slots, cached best index and count of open levels, stay those of the levels listed. |
| Ladder.LevelMap.Vacate | include/pricetime/ladder_dense.hpp:45-67 | When a slot of the band goes idle the count, the slots and the cached best index are those of the levels left; the best is looked for again only when it was the best that went. |
| Ladder.Scan | include/pricetime/ladder_dense.hpp:53-66 | The scan toward worse prices stays inside the band and ends, at the next level still open. |
| Ladder.LevelMap.ForEachLevel | include/pricetime/ladder_dense.hpp:82-99 | On either ladder the walk visits every level once, best to worst, up to the first refusal, and ends when the open levels are used up. |
| Fifos.BackOfLevel | include/pricetime/book.hpp:435-445 | Joining the back of one level's queue is joining the side's priority queue behind every order of the same or a better price. |
| IdMap.SameSlot | include/pricetime/id_map.hpp:89-101 | Two first-come-first-served tables of one capacity over the same keys inserted in the same order hold every key in the same slot. |
| IdMap.LaidIsFill | ARCHITECTURE.md:94-95 | A table laid out by the rules is, slot for slot, what inserting its keys in their order into an empty table of its capacity builds. |
| IdMap.MaskIsRemainder | include/pricetime/id_map.hpp:145-164 | Masking bit by bit with a power of two less one, of the successor and of the difference wrapped round at the word size, is the step and the distance going round the table. |
| IdMap.OpenAddressMap.Find | include/pricetime/id_map.hpp:79-87 | The probe ends and returns the value of the key, or nothing exactly when the key is absent. |
| IdMap.OpenAddressMap.Insert | include/pricetime/id_map.hpp:89-101 | Adds a new key last in the insertion order and leaves an existing one alone; grows exactly at the 70% test, which resets the order to slot order. |
| IdMap.OpenAddressMap.Erase | include/pricetime/id_map.hpp:103-164 | Deletes the key and leaves a table laid out as if it had never been inserted: the others in their original order. |
| IdMap.OpenAddressMap.MakeCalls | include/pricetime/id_map.hpp:89-112 | On a table with room for n keys, any run of insertions and erasures in which each insertion finds fewer than n keys never changes the number of slots, and acts as a finite map. |
| IdMap.OpenAddressMap.UnderReservation | include/pricetime/id_map.hpp:116-120 | After `reserve(n)` and any such run the table has the capacity the reservation gives: the least doubling that holds n keys under the load limit, or what it had if that was more. |
| IdMap.LoadNeverExact | include/pricetime/id_map.hpp:116-120 | 5 never divides 7 * 2^k, so the load limit is never met exactly and the reservation's `<` and the insertion's `>=` cannot disagree. |
| OrderBook.Book.AddLimitAs | include/pricetime/book.hpp:134-141 | On the linked structures: the result code, the executions in order, and every order left on both sides are those of the price-time limit order; the book stays valid. |
| OrderBook.Book.AddFokAs | include/pricetime/book.hpp:183-192 | The same for fill-or-kill, pre-scan included. |
| OrderBook.Book.AddIocAs | include/pricetime/book.hpp:158-164 | The same for immediate-or-cancel. |
| OrderBook.Book.AddMarketAs | include/pricetime/book.hpp:211-218 | The same for a market order, which takes any price. |
| OrderBook.Book.Cancel | include/pricetime/book.hpp:224-229 | Takes the order out of queue, level, ladder, index and pool at once, or rejects an unknown id and changes nothing. |
| OrderBook.Book.Replace | include/pricetime/book.hpp:264-281 | A replace validated in full before anything is destroyed: the old order canceled, the new one entered for the same participant with a new place in time. |
| OrderBook.Book.InsertPassive | include/pricetime/book.hpp:240-245 | Rests an order without matching it, at the back of its price. |
| OrderBook.Book.ExecuteResting | include/pricetime/book.hpp:250-252 | Removes the clamped quantity as an execution, reports how much, and removes the order exactly when nothing is left. |
| OrderBook.Book.ReduceResting | include/pricetime/book.hpp:255-257 | The same, counted as canceled. |
| OrderBook.Book.Available | include/pricetime/book.hpp:404-433 | The level walk, by aggregates or order by order, finds enough exactly when the reachable quantity of the opposite queue is enough. |
| OrderBook.Book.StructuresAgree | include/pricetime/book.hpp:435-483 | In every valid book the index, the ladder and the queues name the same orders; links agree both ways; totals and counts are true; no level is empty; live nodes are not free; nodes ever taken equal the peak in use. |
| LadderAgreement.InBandSame | include/pricetime/book.hpp:346-392 | A call that puts no price outside the band to the price check has the same result, executions, orders and counters over either ladder. |
| LadderAgreement.RunsAlikeIff | include/pricetime/ladder_dense.hpp:31-31 | Over any run of all public calls the two ladders give the same replies if and only if no call gets as far as the price check with a price outside the band; the orders and counters left are then the same. |
| LadderAgreement.LevelsSettled | include/pricetime/book.hpp:322-335 | The orders of a side settle its levels: two lists of non-empty levels, best first, that hold the same queue are the same. |
| LadderAgreement.LaddersAgree | include/pricetime/book.hpp:309-328 | Two linked books, one over the ordered map and one over the band, under any hashes, driven in place by the same calls: the replies are the same exactly under that condition; and then the orders, the counters, the levels, every walk of them and the fingerprint are. |
| Fingerprint.StateHash | include/pricetime/book.hpp:313-328 | Walking either ladder and the order links mixes exactly the words of the levels listed, best first: price, total, count, and each order oldest first. |
| Fingerprint.WordsOfThree | include/pricetime/book.hpp:313-328 | The very words mixed for a book of two bids and one ask. |
| Itch.AddReadsBack | include/pricetime/itch.hpp:174-185 | Decoding an encoded add gives back each field modulo its width, and the price itself exactly when it fits 32 bits unsigned. |
| Itch.ExecutedReadsBack | include/pricetime/itch.hpp:187-200 | The same for both execution messages. |
| Itch.RemovalReadsBack | include/pricetime/itch.hpp:202-218 | The same for cancels and deletes. |
| Itch.ReplaceReadsBack | include/pricetime/itch.hpp:220-229 | The same for replaces. |
| Itch.AdminReadsBack | include/pricetime/itch.hpp:231-245 | The same for system events and directory entries. |
| ItchLayout.LengthsAreLayouts | include/pricetime/itch.hpp:86-113 | The length of every message type of ITCH 5.0 is that of the header and its fields, and every other byte is unknown. |
| ItchLayout.TypeBytes | include/pricetime/itch.hpp:57-81 | The first five bytes of every message, in ASCII and zeros. |
| ItchLayout.LettersAndAttribution | include/pricetime/itch_writer.hpp:54-84 | The side and printable letters, and the attribution cut or padded to four bytes. |
| ItchLayout.TradeReadsBack | include/pricetime/itch_writer.hpp:131-143 | A trade message carries each field at its place, modulo its width. |
| ItchLayout.ActionReadsBack | include/pricetime/itch_writer.hpp:146-154 | So does a trading action, and it and a directory entry are filled with zeros. |
| ItchWriter.Writer.Write | include/pricetime/itch_writer.hpp:38-212 | Any writer call appends, byte by byte, exactly the length-prefixed frame of the message, and counts it. |
| ItchReader.ForEachFramedMessage | include/pricetime/itch_reader.hpp:43-81 | The reader's loop delivers the messages and the full result (status, count, offset, bad type, lengths) of the recursive reading of the bytes. |
| ItchReader.WalkIs | include/pricetime/itch_reader.hpp:43-81 | The bytes read are the messages delivered, each framed by its length and of the length of its type if that is known; what follows them is exactly why reading stopped, with the lengths and the type reported. |
| ItchReader.WalkOn | include/pricetime/itch_stream.hpp:46-87 | Going on from where reading ran out of bytes, with more of them, is reading all of them; reading that stopped for any other reason stops there however many follow. |
| ItchReader.ForEachFramedStream | include/pricetime/itch_stream.hpp:31-88 | For every file and every chunk size the chunked reader terminates; it writes past its buffer if and only if some refill does not fit, which the file and the chunk size decide; and otherwise it delivers the same messages and the same full result as the one-shot reader. |
| ItchReader.ShortFramesFit | include/pricetime/itch_stream.hpp:40-42 | Files whose frames declare at most 63 bytes never overrun, whatever the chunk size. |
| ItchReader.OneChunkFits | include/pricetime/itch_stream.hpp:32-32 | A file no longer than one chunk never overruns, whatever its frames declare. |
| ItchReader.LongFrameOverruns | include/pricetime/itch_stream.hpp:42-49 | One frame declaring 64 bytes, read byte by byte, overruns; the one-shot reader takes it as one message. |
| ItchReader.WriteAndRead | include/pricetime/itch_reader.hpp:43-81 | Any sequence of writer calls reads back Ok, to the last byte, with the same count and the bytes of every message. |
| Mold.Unpack | include/pricetime/moldudp64.hpp:104-127 | The unpacker's loops accept exactly the packets whose blocks fill them, and number the messages from the header's sequence. |
| Mold.ReadBlocksIs | include/pricetime/moldudp64.hpp:115-126 | A packet's body is the blocks delivered, numbered on from the header's number, and a rest; it is accepted exactly when all the blocks counted are there and nothing follows, and otherwise the rest does not begin with a whole block. |
| Mold.MarkersOnWire | include/pricetime/moldudp64.hpp:21-23 | A heartbeat counts 0 messages on the wire and the end of a session 65535. |
| Mold.PacketReadsBack | include/pricetime/moldudp64.hpp:48-78 | A sealed packet unpacks to its header and its messages, each under its own number. |
| Mold.HearHeartbeat | include/pricetime/moldudp64.hpp:68-72 | A heartbeat sealed, unpacked and tracked delivers nothing, counts exactly what was announced beyond the last packet heard, and brings the tracker up to it. |
| Mold.Publish | include/pricetime/engine.hpp:419-438 | Each message the publishing loop handles goes out in a packet of its own under consecutive numbers, and then the end of the session. |
| Mold.Receive | include/pricetime/moldudp64.hpp:129-155 | From any in-order subset of a session's packets the receiver gets each surviving message under its number, and the tracker's total is exactly how many were lost between the first and the last received. |
| Replay.Replayer.Apply | include/pricetime/itch_replay.hpp:95-215 | Applying one message's bytes in place does to the books and the index what the decoded event says. |
| FeedLaws.EventOfBody | include/pricetime/itch_replay.hpp:95-121 | The bytes of every message the writer can write decode to the event of its fields, modulo their widths: both kinds of add alike, both kinds of execution alike, and none for the administrative and trade messages. |
| FeedLaws.OrderTypes | include/pricetime/itch_replay.hpp:99-121 | Exactly the seven order message types carry book state. |
| FeedLaws.StepDid | include/pricetime/itch_replay.hpp:127-215 | What the bytes of each message do to the one book concerned, as that book's public call, and to the index. |
| FeedLaws.ApplyBody | include/pricetime/itch_replay.hpp:95-121 | The same of the replayer, in place. |
| FeedLaws.AddRests | include/pricetime/itch_replay.hpp:127-140 | An add of either kind, of a followed symbol, under a reference not live and at a price its book takes, leaves the order resting in its place in that book and indexed under that symbol. |
| Replay.StepIndexedIff | include/pricetime/itch_replay.hpp:127-215 | From an exact index, one event leaves it exact if and only if it does not bring in a reference that is live under another symbol and acceptable where it arrives. |
| Replay.FeedIndexedIff | include/pricetime/multi_book.hpp:64-72 | Over any feed, the index holds exactly the live orders, each under the one book that holds it, after every message, if and only if no event so clashes. |
| Replay.FeedIndexed | include/pricetime/multi_book.hpp:64-72 | In particular through every feed whose references are never reused. |
| Replay.FromNothing | include/pricetime/multi_book.hpp:64-72 | From no books at all, every such feed leaves the index exact. |
| Replay.MultiBook.TrackedOrders | include/pricetime/multi_book.hpp:72-72 | The count reported is the number of references indexed. |
| Replay.TrackedIsOpen | include/pricetime/multi_book.hpp:72-72 | With an exact index, the orders tracked are as many as are open over all books. |
| Replay.CountIff | include/pricetime/multi_book.hpp:72-72 | After one event from an exact index that equality holds if and only if the event does not clash. |
| Replay.ReuseIsTrackedOnce | include/pricetime/multi_book.hpp:64-72 | A feed that adds one reference under two symbols has two open orders and tracks one. |
| Integrity.HandleShown | include/pricetime/engine.hpp:224-306 | For any request on any engine book: the messages emitted turn the book shown into the engine's new book if and only if what goes on display, which the book before the request decides, has a 32-bit price; and then no book shown on the way is crossed. |
| Integrity.RunShown | include/pricetime/engine.hpp:224-306 | The same over every run of requests: the book rebuilt from the messages alone is the engine's, and was uncrossed after every single message. |
| Integrity.RunShownIff | include/pricetime/engine.hpp:224-306 | Over any run of requests of the wire's widths, the book shown is the engine's after every request if and only if every price the run puts on display fits 32 bits. |
| Integrity.WidthsFit | include/pricetime/engine.hpp:224-306 | In particular for every run of requests whose own prices are in 0..2^32-1. |
| Integrity.FitsIff | include/pricetime/engine.hpp:280-303 | What a request will display can be told before it: it is accepted and the orders in reach hold less than it asks for. |
| Integrity.WidePriceDiverges | include/pricetime/itch_writer.hpp:54-66 | One request with a displayed price of 2^32 after which the rebuilt book differs. |
| Integrity.BytesShow | include/pricetime/itch_replay.hpp:95-121 | The bytes of an emitted message decode to the event it stands for. |
| Integrity.EmittedSent | include/pricetime/engine.hpp:334-361 | Everything emitted for a request of the wire's widths fits its fields, and no request is filled beyond what it asked for. |
| Engine.Engine.Handle | include/pricetime/engine.hpp:224-306 | Handling a request on the linked book: the new book, the acknowledgement and then two replies per execution, the framed messages queued, and the match numbers used; and in so many words what the replies and the messages hold. |
| Engine.RepliesAnswer | include/pricetime/engine.hpp:228-279 | The replies to a request: one with the book's result, a rejection exactly when that is not Ok, for the order asked for and, for a reduction, the shares that left the book; then two for each execution, to its aggressor and to its resting order, each naming the other. |
| Engine.EmittedReports | include/pricetime/engine.hpp:238-303 | The messages of a request: its executions against their resting orders under match numbers that go up by one, then what is displayed, replaced or taken off, all stamped with the request's time. |
| Pipeline.RunSession | include/pricetime/engine.hpp:42-47 | From requests through the linked book, frames, the publishing stage in any interleaving, and packets to the replayer: the messages that get through are all of them but for at most one, and all exactly when the passage is clean; the rebuilt book is what they show, and then holds the engine's orders, price by price and oldest first. |
| Pipeline.LoseQuietly | include/pricetime/engine.hpp:410-414 | A session in which one message is discarded: the engine holds an order, the rebuilt book is empty and no message counts as missed. |
| Mirror.ApplyEvent | include/pricetime/itch_replay.hpp:127-215 | One feed event applied to a linked book through its own entry points has the effect the feed model gives it. |
| Mirror.RunSession | include/pricetime/engine.hpp:42-47 | The same with a second linked book at the far end: when the publishing stage loses no message, both hold the same orders after any run of requests. |
| Spsc.FullIff | include/pricetime/spsc_queue.hpp:68-74 | The producer's comparison with the tail it last saw tells, exactly, whether a slot was free when that tail was current. |
| Spsc.WriteIsSafe | include/pricetime/spsc_queue.hpp:68-81 | The slot about to be overwritten holds no item still to be read, and is not the one being read. |
| Spsc.ReadIsSafe | include/pricetime/spsc_queue.hpp:84-93 | The slot about to be read was published and holds the oldest item not yet popped. |
| Spsc.NeverStuck | include/pricetime/spsc_queue.hpp:68-93 | In every state the two sides can reach each has a step to take, and a load may return anything from what that side last saw up to what has been published. |
| Spsc.AnyRunIsSafe | include/pricetime/spsc_queue.hpp:68-93 | In every interleaving of the two sides' atomic steps, with acquire loads as stale as they like: popped is a prefix of pushed, at most the capacity is in flight, no unread slot is overwritten, no unpublished slot is read. |
| Spsc.RefusedPushIff | include/pricetime/spsc_queue.hpp:71-75 | A push gives up exactly when the tail it loaded leaves no room. |
| Spsc.RefusedPopIff | include/pricetime/spsc_queue.hpp:86-89 | A pop gives up exactly when everything published up to its load has been popped. |
| Spsc.SpscQueue.constructor | include/pricetime/spsc_queue.hpp:60-62 | The slots are the least power of two that leaves the capacity asked for and one spare. |
| Spsc.SpscQueue.TryPush | include/pricetime/spsc_queue.hpp:68-81 | Alone, a push fails exactly on a full queue and otherwise appends; it is the machine's steps of one call. |
| Spsc.SpscQueue.TryPop | include/pricetime/spsc_queue.hpp:84-93 | Alone, a pop fails exactly on an empty queue and otherwise takes the oldest item. |
| Shutdown.StageNeverStuck | include/pricetime/engine.hpp:205-222 | The drainer can move until it exits and the filler until it finishes; the flag may be found up only once it is, and may be missed. |
| Shutdown.ExitIsClean | include/pricetime/engine.hpp:154-222 | When the draining loop exits, in any interleaving: the filler has finished, the ring is empty, everything accepted was popped once in order, at most one item was not handled, and none if the second pop's item is handled. |
| Shutdown.NothingLostIff | include/pricetime/engine.hpp:213-219 | The loop as written handles everything accepted if and only if the drainer never finds the flag up while an item is in the ring. |
| Shutdown.PassageKeeps | include/pricetime/engine.hpp:408-414 | What goes into such a pair of stages comes out in order but for at most one item, and all of it exactly when the flag is never found up while an item is in the ring. |
| Shutdown.LateRequestIsLost | include/pricetime/engine.hpp:215-215 | A run in which an accepted request is never handled. |
| QueuePosition.QueueShown | include/pricetime/itch_replay.hpp:127-215 | What any feed event does to the FIFO of any price: one order may shrink or leave, and one may join at the back. |
| QueuePosition.LineShown | include/pricetime/queue_position.hpp:66-73 | Through any event, telling the tracker the shares that leave keeps it listing exactly the orders that were resting before the quote, with what is open of each, ahead of all who joined since; the share count is their sum. |
| QueuePosition.FrontIff | include/pricetime/queue_position.hpp:61-61 | A quote is at the front exactly when everyone who was there before it has left. |
| QueuePosition.QuotesStand | tools/mm_sandbox.cpp:181-199 | Both quotes stay in line through any message, whether it fills one of them or moves them forward. |
| QueuePosition.Tracker.Place | include/pricetime/queue_position.hpp:39-48 | Joining a level records its orders and, summing over the map in any order, their total. |
| Sandbox.OrdersAtLevel | tools/mm_sandbox.cpp:93-106 | The walk from best to worst up to the price notes exactly the orders resting there. |
| Sandbox.SnapsToGrid | tools/mm_sandbox.cpp:123-127 | Snapping with a remainder that rounds toward zero lands on the grid, on the passive side, less than a tick away, for negative prices too. |
| Sandbox.FillsAreFair | tools/mm_sandbox.cpp:181-198 | There is a fill exactly when an execution prints at the price of a quote on that side that is in the market with nobody ahead: of that quote, at its price, for the lesser of the print and what is left of it; otherwise no quote gets smaller. |
| Sandbox.QuoteFollows | tools/mm_sandbox.cpp:231-246 | Once a price is wanted the quote is in the market there: as it was if it was there already, and otherwise of full size behind exactly the orders resting at that price, for what is open of each. |
| Sandbox.MidBetween | tools/mm_sandbox.cpp:219-219 | The mid is half the sum of the best prices, rounded toward zero, and lies between them, for negative prices too. |
| Sandbox.WantedIs | tools/mm_sandbox.cpp:213-246 | With both sides in the market the strategy is asked at such a mid, and its bid is snapped down and its ask up onto the grid by less than a tick; otherwise nothing is wanted. |
| Sandbox.Sandbox.OnMessage | tools/mm_sandbox.cpp:175-246 | After every message, under any strategy: the book rebuilt, the fills, and for each quote in the market that it is behind exactly the orders of its queue that were there before it; and every fill is one `FillsAreFair` allows. |

## Left out

- Widths: quantities, ids, counters and sequence numbers are unbounded naturals; where a width matters (32-bit prices and shares, 64-bit ids, 16-bit lengths, 48-bit times) it is written out in `Itch`, `Mold` and `Integrity`. Wrap-around of 64-bit counters is not modelled.
- Hash values: the mixing of ids is an arbitrary function; nothing depends on it.
- `std::map`, `std::unordered_map` and `std::sort`: maps and sorted sequences; the sort of the reference book is an insertion sort.
- LevelMap: an idle slot of the band is null, where the source keeps the emptied level there, told by its order count of zero; and the slots are a field reassigned slot by slot, not a buffer. A band whose lowest price is above its highest accepts no price, where the source asserts that there is none.
- The pooled ladder (include/pricetime/ladder_pooled.hpp): the same observable behaviour as the ordered map, with recycled nodes.
- `Level.price` is fixed when a level is opened; the source assigns it just after creating the level.
- Books of the replayer: `Replay.MultiBook` holds its books as values; the same events on a linked book are `Mirror.ApplyEvent`.
- Replay statistics and observers: counters of messages and shares.
- `for_each_raw_message` (include/pricetime/itch_reader.hpp:87-112): the unframed reader.
- The order-entry codec (include/pricetime/wire.hpp): requests and replies are values.
- Request kinds outside the four, which the engine ignores.
- Sockets, threads, clocks, core pinning and files: their data are parameters and sequences.
- What the chunked reader does after writing past its buffer: the model stops there.
- The C++ memory model beyond stale, monotone acquire loads and release stores.
- Fair scheduling of the spinning threads: no stage is ever stuck, and the exit properties say what holds when a loop exits; that it is given time to exit is not modelled.
- The response queue's coalescing inside the send loop; its exit protocol is that of `Shutdown`.
- The mixing of one word into the fingerprint (include/pricetime/hash.hpp): any function. The reference book's own fingerprint is not modelled.
- Re-entrant execution callbacks: executions are returned as a list.
- The market maker: a strategy is an arbitrary function from the mid price to the prices wanted, and its accounting and the optimistic fill model are not modelled.
- `depth` snapshots, benchmarks, statistics and generators.
