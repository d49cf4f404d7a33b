/** From requests to a rebuilt book: the engine of include/pricetime/engine.hpp handles them on its
    linked book, its queue goes out as MoldUDP64 packets, and a replayer that sees nothing but those
    packets holds the engine's orders. */
module Pipeline {
  import opened Types
  import opened Itch
  import opened Integrity
  import E = Engine
  import P = Priority
  import B = OrderBook
  import M = Mold
  import R = Replay
  import X = Shutdown

  // ----- the engine over a run of requests

  method Serve(symbol: Symbol, hash: OrderId -> nat, requests: seq<Request>, stamps: seq<nat>)
    returns (engine: E.Engine)
    requires |stamps| == |requests| && AllFit(P.Empty(Unbounded), requests)
    ensures engine.Valid() && engine.book.View() == Handled(P.Empty(Unbounded), requests)
    ensures engine.queue == E.Frames(EmittedAll(P.Empty(Unbounded), requests, stamps, 0, symbol))
  {
    hide B.Book.Valid, B.Book.View, P.Apply, EngineBook, Emitted, Fits, E.Frames, WireFits, P.Empty;
    engine := new E.Engine(symbol, hash);
    for i := 0 to |requests|
      invariant fresh({engine, engine.md, engine.book, engine.book.ladder.bids, engine.book.ladder.asks})
      invariant fresh({engine.book.pool, engine.book.orders}) && fresh(engine.book.pool.nodes)
      invariant forall j :: 0 <= j < |engine.book.ladder.bids.levels| ==> fresh(engine.book.ladder.bids.levels[j])
      invariant forall j :: 0 <= j < |engine.book.ladder.asks.levels| ==> fresh(engine.book.ladder.asks.levels[j])
      invariant engine.Valid() && engine.symbol == symbol && AllFit(engine.book.View(), requests[i..])
      invariant Handled(engine.book.View(), requests[i..]) == Handled(P.Empty(Unbounded), requests)
      invariant engine.queue
               + E.Frames(EmittedAll(engine.book.View(), requests[i..], stamps[i..], engine.matchNumber, symbol))
             == E.Frames(EmittedAll(P.Empty(Unbounded), requests, stamps, 0, symbol))
    {
      ServeStep(engine, requests[i..], stamps[i..]);
      assert requests[i..][1..] == requests[i + 1..] && stamps[i..][1..] == stamps[i + 1..];
    }
    NothingLeft(engine.book.View(), engine.matchNumber, symbol);
  }

  lemma NothingLeft(b: P.Book, matchNumber: nat, symbol: Symbol)
    ensures E.Frames(EmittedAll(b, [], [], matchNumber, symbol)) == [] && Handled(b, []) == b
  {
  }

  /** One request off the front of what is left to handle. */
  method ServeStep(engine: E.Engine, left: seq<Request>, stamps: seq<nat>)
    requires engine.Valid() && left != [] && |stamps| == |left| && AllFit(engine.book.View(), left)
    modifies engine`matchNumber, engine`replies, engine`queue, engine.md, engine.book`c
    modifies engine.book.ladder.bids, engine.book.ladder.asks, engine.book.ladder.bids.levels
    modifies engine.book.ladder.asks.levels, engine.book.pool, engine.book.pool.nodes, engine.book.orders
    ensures engine.Valid() && engine.book.Grows() && AllFit(engine.book.View(), left[1..])
    ensures Handled(engine.book.View(), left[1..]) == Handled(old(engine.book.View()), left)
    ensures engine.queue
              + E.Frames(EmittedAll(engine.book.View(), left[1..], stamps[1..], engine.matchNumber, engine.symbol))
         == old(engine.queue)
              + E.Frames(EmittedAll(old(engine.book.View()), left, stamps, old(engine.matchNumber), engine.symbol))
  {
    hide E.Engine.Valid, B.Book.View, B.Book.Grows, P.Apply, Emitted, EmittedAll;
    hide Handled, AllFit, Fits, E.Frames, WireFits;
    hide E.Replies;
    HandledFirst(engine.book.View(), left);
    EmittedFirst(engine.queue, engine.book.View(), left, stamps, engine.matchNumber, engine.symbol);
    engine.Handle(left[0], 0, stamps[0]);
  }

  lemma HandledFirst(b: P.Book, left: seq<Request>)
    requires left != [] && AllFit(b, left)
    ensures var next := P.Apply(b, OpOf(left[0])).book;
      WireFits(left[0]) && AllFit(next, left[1..]) && Handled(next, left[1..]) == Handled(b, left)
  {
    hide P.Apply, WireFits;
  }

  lemma EmittedFirst(queue: seq<Bytes>, b: P.Book, left: seq<Request>, stamps: seq<nat>, matchNumber: nat,
                     symbol: Symbol)
    requires left != [] && |stamps| == |left|
    ensures var out := P.Apply(b, OpOf(left[0]));
      queue + E.Frames(Emitted(b, left[0], stamps[0], matchNumber, symbol))
            + E.Frames(EmittedAll(out.book, left[1..], stamps[1..], matchNumber + |out.execs|, symbol))
      == queue + E.Frames(EmittedAll(b, left, stamps, matchNumber, symbol))
  {
    hide P.Apply, Emitted, E.Frames;
    var out := P.Apply(b, OpOf(left[0]));
    E.FramesConcat(Emitted(b, left[0], stamps[0], matchNumber, symbol),
                   EmittedAll(out.book, left[1..], stamps[1..], matchNumber + |out.execs|, symbol));
  }

  // ----- the feed at the far end

  lemma {:induction false} EmittedAllSent(b: P.Book, requests: seq<Request>, stamps: seq<nat>, matchNumber: nat,
                                          symbol: Symbol)
    requires EngineBook(b) && |stamps| == |requests| && AllFit(b, requests)
    ensures AllSent(EmittedAll(b, requests, stamps, matchNumber, symbol), symbol)
    decreases |requests|
  {
    hide EngineBook, P.Apply, Emitted, Fits, WireFits, Sent;
    if requests != [] {
      EmittedSent(b, requests[0], stamps[0], matchNumber, symbol);
      EngineBookKept(b, requests[0]);
      var out := P.Apply(b, OpOf(requests[0]));
      EmittedAllSent(out.book, requests[1..], stamps[1..], matchNumber + |out.execs|, symbol);
    }
  }

  lemma {:induction false} ShownSnoc(d: P.Book, ms: seq<Msg>, m: Msg)
    ensures ShownAll(d, ms + [m]) == Shown(ShownAll(d, ms), EventFor(m))
  {
    ShownConcat(d, ms, [m]);
    hide Shown, EventFor;
    var at := ShownAll(d, ms);
    assert [m][1..] == [];
    assert ShownAll(Shown(at, EventFor(m)), []) == Shown(at, EventFor(m));
  }

  /** The receiver's view of one message of the feed. */
  method Take(replayer: R.Replayer, body: Bytes, symbol: Symbol, ghost ms: seq<Msg>, ghost k: nat)
    requires replayer.Valid() && k < |ms| && Sent(ms[k], symbol) && body == Body(ms[k])
    requires Shows(replayer.State(), symbol, ShownAll(P.Empty(Unbounded), ms[..k]))
    modifies replayer.books, replayer.books.owner
    ensures replayer.Valid() && Shows(replayer.State(), symbol, ShownAll(P.Empty(Unbounded), ms[..k + 1]))
  {
    hide Body, Shows, Shown, ShownAll, R.Step, R.EventOf, EventFor, R.Replayer.State, R.Replayer.Valid;
    ghost var d := ShownAll(P.Empty(Unbounded), ms[..k]);
    BytesShow(ms[k]);
    AddsNamed(ms[k]);
    StepShows(replayer.State(), symbol, d, EventFor(ms[k]));
    assert ms[..k + 1] == ms[..k] + [ms[k]];
    ShownSnoc(P.Empty(Unbounded), ms[..k], ms[k]);
    replayer.Apply(body);
  }

  lemma AddsNamed(m: Msg)
    ensures EventFor(m).Add? ==> m.AddOrder? && EventFor(m).m.symbol == m.symbol
  {
  }

  lemma EmptyShows(symbol: Symbol)
    ensures Shows(R.EmptyFeed(Unbounded, {}), symbol, P.Empty(Unbounded))
    ensures ShownAll(P.Empty(Unbounded), []) == P.Empty(Unbounded)
    ensures Mirrors(P.Empty(Unbounded), P.Empty(Unbounded)) && EngineBook(P.Empty(Unbounded))
  {
  }

  lemma FreshState(replayer: R.Replayer)
    requires replayer.books.range == Unbounded && replayer.books.books == map[] && replayer.books.owner.m == map[]
    requires replayer.filter == {}
    ensures replayer.State() == R.EmptyFeed(Unbounded, {})
  {
  }

  lemma FramedBodies(ms: seq<Msg>)
    ensures forall i :: 0 <= i < |ms| ==> 14 <= |E.Frames(ms)[i]| <= 46
    ensures var bodies := M.Unframed(E.Frames(ms));
      |bodies| == |ms| && forall i :: 0 <= i < |ms| ==> bodies[i] == Body(ms[i]) && 12 <= |bodies[i]| <= 44
  {
    hide Body, PutBE;
    forall i | 0 <= i < |ms|
      ensures 14 <= |E.Frames(ms)[i]| <= 46 && E.Frames(ms)[i][2..] == Body(ms[i]) && 12 <= |Body(ms[i])| <= 44
    {
      E.FrameSize(ms[i]);
      BodyShape(ms[i]);
      assert E.Frames(ms)[i] == PutBE(2, |Body(ms[i])|) + Body(ms[i]);
    }
  }

  /** The messages of the first `k` packets; the packet behind the last message carries none. */
  function Upto(ms: seq<Msg>, k: nat): seq<Msg> {
    ms[..if k <= |ms| then k else |ms|]
  }

  /** One packet of the session. */
  method TakePacket(replayer: R.Replayer, packet: Bytes, session: M.Session, symbol: Symbol, ghost ms: seq<Msg>,
                    ghost bodies: seq<Bytes>, ghost k: nat)
    requires replayer.Valid() && k <= |ms| && AllSent(ms, symbol) && |ms| + 1 < ID_WIDTH
    requires Shows(replayer.State(), symbol, ShownAll(P.Empty(Unbounded), Upto(ms, k)))
    requires |bodies| == |ms| && forall i :: 0 <= i < |ms| ==> bodies[i] == Body(ms[i]) && 12 <= |bodies[i]| <= 44
    requires packet == M.Datagram(session, bodies, k + 1)
    modifies replayer.books, replayer.books.owner
    ensures replayer.Valid() && Shows(replayer.State(), symbol, ShownAll(P.Empty(Unbounded), Upto(ms, k + 1)))
  {
    hide Body, Shows, ShownAll, Sent, R.Replayer.State, R.Replayer.Valid, M.Datagram, M.ReadPacket, M.ReadHeader;
    hide P.Empty;
    M.DatagramReadsBack(session, bodies, k + 1);
    var ok, hdr, delivered := M.Unpack(packet, M.PacketHeader(session, 0, 0));
    if ok && delivered != [] {
      Take(replayer, delivered[0].1, symbol, ms, k);
    }
  }

  /** Publishes the queued messages and rebuilds the book from the packets alone. */
  method Follow(session: M.Session, symbol: Symbol, hash: OrderId -> nat, queue: seq<Bytes>, ghost ms: seq<Msg>)
    returns (replayer: R.Replayer)
    requires queue == E.Frames(ms) && AllSent(ms, symbol) && |ms| + 1 < ID_WIDTH
    ensures replayer.Valid() && Shows(replayer.State(), symbol, ShownAll(P.Empty(Unbounded), ms))
  {
    hide Body, Shows, ShownAll, AllSent, R.Replayer.State, R.Replayer.Valid, M.Datagram, P.Empty, Upto;
    FramedBodies(ms);
    var packets := M.Publish(session, queue);
    var books := new R.MultiBook(Unbounded, hash);
    replayer := new R.Replayer(books);
    FreshState(replayer);
    EmptyShows(symbol);
    UptoEnds(ms);
    ghost var bodies := M.Unframed(queue);
    for k := 0 to |packets|
      invariant replayer.books == books && fresh({replayer, books, books.owner}) && replayer.Valid()
      invariant Shows(replayer.State(), symbol, ShownAll(P.Empty(Unbounded), Upto(ms, k)))
    {
      TakePacket(replayer, packets[k], session, symbol, ms, bodies, k);
    }
  }

  lemma UptoEnds(ms: seq<Msg>)
    ensures Upto(ms, 0) == [] && Upto(ms, |ms| + 1) == ms
  {
  }

  // ----- through the publishing stage

  predicate Slices(ms: seq<Msg>, kept: seq<Msg>, k: nat, lost: nat) {
    lost <= 1 && k + lost <= |ms| && kept == ms[..k] + ms[k + lost..]
  }

  /** All of the messages in order, but for at most one. */
  ghost predicate Through(ms: seq<Msg>, kept: seq<Msg>) {
    exists k, lost :: Slices(ms, kept, k, lost)
  }

  /** What the publishing stage handles of the queued frames: the frames of `kept`, which is all of the
      messages exactly when the passage is clean. */
  lemma KeptFrames(md: X.Passage<Bytes>, ms: seq<Msg>, symbol: Symbol) returns (kept: seq<Msg>)
    requires X.Takes(md, E.Frames(ms)) && AllSent(ms, symbol)
    ensures X.Passed(md) == E.Frames(kept) && AllSent(kept, symbol)
    ensures Through(ms, kept) && |kept| <= |ms| <= |kept| + 1 && (X.Clean(md) <==> kept == ms)
  {
    hide X.Takes, X.Passed, X.Clean, Frame, AllSent, E.Frames;
    var k, lost := X.PassageKeeps(md, E.Frames(ms));
    kept := ms[..k] + ms[k + lost..];
    SlicesSent(ms, k, lost, symbol);
    SlicesFramed(ms, k, lost);
    assert lost == 0 ==> kept == ms;
    assert Slices(ms, kept, k, lost);
  }

  lemma SlicesSent(ms: seq<Msg>, k: nat, lost: nat, symbol: Symbol)
    requires k + lost <= |ms| && AllSent(ms, symbol)
    ensures AllSent(ms[..k] + ms[k + lost..], symbol)
  {
    hide Sent;
    var kept := ms[..k] + ms[k + lost..];
    assert forall i :: 0 <= i < |kept| ==> kept[i] == ms[if i < k then i else i + lost];
  }

  lemma SlicesFramed(ms: seq<Msg>, k: nat, lost: nat)
    requires k + lost <= |ms|
    ensures E.Frames(ms)[..k] + E.Frames(ms)[k + lost..] == E.Frames(ms[..k] + ms[k + lost..])
  {
    hide E.Frames;
    FramesSplit(ms, k);
    FramesSplit(ms, k + lost);
    E.FramesConcat(ms[..k], ms[k + lost..]);
  }

  lemma FramesSplit(ms: seq<Msg>, k: nat)
    requires k <= |ms|
    ensures E.Frames(ms)[..k] == E.Frames(ms[..k]) && E.Frames(ms)[k..] == E.Frames(ms[k..])
  {
    hide E.Frames;
    E.FramesConcat(ms[..k], ms[k..]);
    assert ms == ms[..k] + ms[k..];
  }

  /** Feed integrity, end to end: the engine handles the requests, the publishing stage drains its queue in
      any interleaving `md`, and a replayer sees nothing but the packets. It holds what the messages that
      got through show; when the passage is clean and the displayed prices fit 32 bits that is the engine's
      orders, price by price and oldest first, and no book on the way was crossed. */
  method RunSession(session: M.Session, symbol: Symbol, hash: OrderId -> nat, requests: seq<Request>, stamps: seq<nat>,
                    md: X.Passage<Bytes>)
    returns (engine: E.Engine, replayer: R.Replayer, ghost kept: seq<Msg>)
    requires |stamps| == |requests| && AllFit(P.Empty(Unbounded), requests)
    requires var ms := EmittedAll(P.Empty(Unbounded), requests, stamps, 0, symbol);
      |ms| + 1 < ID_WIDTH && X.Takes(md, E.Frames(ms))
    ensures engine.Valid() && engine.book.View() == Handled(P.Empty(Unbounded), requests)
    ensures X.Passed(md) == E.Frames(kept)
    ensures var ms := EmittedAll(P.Empty(Unbounded), requests, stamps, 0, symbol);
      Through(ms, kept) && |kept| <= |ms| <= |kept| + 1 && (X.Clean(md) <==> kept == ms)
    ensures replayer.Valid() && replayer.State().BookFor(symbol) == ShownAll(P.Empty(Unbounded), kept)
    ensures X.Clean(md) ==> Mirrors(engine.book.View(), replayer.State().BookFor(symbol))
    ensures engine.book.View().Uncrossed()
    ensures NeverShownCrossed(P.Empty(Unbounded), EmittedAll(P.Empty(Unbounded), requests, stamps, 0, symbol))
  {
    hide E.Engine.Valid, B.Book.View, Mirrors, NeverShownCrossed, EngineBook, ShownAll;
    hide EmittedAll, Handled, AllFit, P.Empty;
    hide R.Replayer.Valid, R.Replayer.State, AllSent, R.Indexed, X.Takes, X.Passed, X.Clean, Through;
    EmptyShows(symbol);
    RunShown(P.Empty(Unbounded), P.Empty(Unbounded), requests, stamps, 0, symbol);
    EmittedAllSent(P.Empty(Unbounded), requests, stamps, 0, symbol);
    engine := Serve(symbol, hash, requests, stamps);
    kept := KeptFrames(md, EmittedAll(P.Empty(Unbounded), requests, stamps, 0, symbol), symbol);
    CanPass(md, engine.queue);
    replayer := Follow(session, symbol, hash, X.Passed(md), kept);
    UncrossedBook(engine.book.View());
  }

  lemma CanPass(md: X.Passage<Bytes>, queue: seq<Bytes>)
    requires X.Takes(md, queue)
    ensures X.CanRun(X.Begin(md), md.moves)
  {
  }

  lemma UncrossedBook(b: P.Book)
    requires EngineBook(b)
    ensures b.Uncrossed()
  {
  }

  // ----- a message lost without a gap

  lemma OneEnter(ts: nat, symbol: Symbol)
    ensures var b := P.Empty(Unbounded); var q := Enter(1, Bid, 1, 1); var out := P.Apply(b, OpOf(q));
      && out.book.bids == [OpenOrder(1, 1, 1, 0)] && out.book.asks == []
      && Emitted(b, q, ts, 0, symbol) == [Msg.AddOrder(ts, 1, Bid, 1, symbol, 1)]
  {
    var b, q := P.Empty(Unbounded), Enter(1, Bid, 1, 1);
    var out := P.Apply(b, OpOf(q));
    assert out.execs == [] && out.result == Ok;
    assert Displayed(q, out) == 1;
  }

  /** The engine enters one order; its message arrives, and the engine's stage ends, between the publishing
      loop's first pop and its look at the flag. The message is discarded, the numbering closes over it, and
      the receiver rebuilds an empty book and counts nothing missed. */
  method LoseQuietly(session: M.Session, symbol: Symbol, hash: OrderId -> nat, ts: nat)
    returns (engine: E.Engine, ghost md: X.Passage<Bytes>, packets: seq<Bytes>, replayer: R.Replayer, missed: nat)
    ensures engine.queue == [Frame(Msg.AddOrder(ts, 1, Bid, 1, symbol, 1))]
    ensures engine.book.View().bids == [OpenOrder(1, 1, 1, 0)]
    ensures X.Takes(md, engine.queue) && X.Passed(md) == [] && packets == [M.Datagram(session, [], 1)]
    ensures replayer.Valid() && replayer.State().BookFor(symbol) == P.Empty(Unbounded) && missed == 0
  {
    hide B.Book.View, E.Engine.Valid, P.Empty, Frame, X.Run, X.CanRun, R.Replayer.Valid, R.Replayer.State, M.Datagram;
    engine := EnterOne(symbol, hash, ts);
    ghost var f := Frame(Msg.AddOrder(ts, 1, Bid, 1, symbol, 1));
    ghost var moves := X.LateRequestIsLost(f);
    md := X.Passage(1, [f, f], moves);
    packets, missed, replayer := PublishNothing(session, symbol, hash);
  }

  method EnterOne(symbol: Symbol, hash: OrderId -> nat, ts: nat) returns (engine: E.Engine)
    ensures engine.queue == [Frame(Msg.AddOrder(ts, 1, Bid, 1, symbol, 1))]
    ensures engine.book.View().bids == [OpenOrder(1, 1, 1, 0)]
  {
    hide B.Book.View, E.Engine.Valid, P.Apply, P.Empty, EngineBook, Emitted, Frame, E.Frames;
    engine := new E.Engine(symbol, hash);
    OneEnter(ts, symbol);
    OneFrame(Msg.AddOrder(ts, 1, Bid, 1, symbol, 1));
    engine.Handle(Enter(1, Bid, 1, 1), 0, ts);
  }

  /** A session that publishes no message, and its receiver. */
  method PublishNothing(session: M.Session, symbol: Symbol, hash: OrderId -> nat)
    returns (packets: seq<Bytes>, missed: nat, replayer: R.Replayer)
    ensures packets == [M.Datagram(session, [], 1)] && missed == 0
    ensures replayer.Valid() && replayer.State().BookFor(symbol) == P.Empty(Unbounded)
  {
    hide P.Empty, Frame, R.Replayer.Valid, R.Replayer.State, M.Datagram, R.Indexed;
    packets := M.Publish(session, []);
    assert packets[0] == M.Datagram(session, [], 1);
    var delivered, tracker := M.Receive(session, [], [1]);
    missed := tracker.totalMissed;
    replayer := Follow(session, symbol, hash, [], []);
    EmptyShows(symbol);
  }

  lemma OneFrame(m: Msg)
    ensures E.Frames([m]) == [Frame(m)] && E.Frames([]) == []
  {
    assert [m][1..] == [];
  }
}
