/** The far end on linked structures: a linked book that applies a decoded feed, as the replayer of
    include/pricetime/itch_replay.hpp does to the book of one symbol, and the engine's session followed
    by it. */
module Mirror {
  import opened Types
  import opened Itch
  import opened Integrity
  import E = Engine
  import P = Priority
  import B = OrderBook
  import L = Pipeline
  import M = Mold
  import R = Replay
  import X = Shutdown

  /** One event of the feed. */
  method ApplyEvent(book: B.Book, e: R.Event)
    requires book.Valid()
    modifies book`c, book.ladder.bids, book.ladder.asks, book.ladder.bids.levels, book.ladder.asks.levels
    modifies book.pool, book.pool.nodes, book.orders
    ensures book.Valid() && book.Grows() && book.View() == Shown(old(book.View()), e)
  {
    hide B.Book.Valid, B.Book.View, P.InsertPassive, P.Consume, P.CancelOpen, P.Book.Has, P.Book.SideOf, B.Book.Grows;
    match e
    case Add(m) => var r := book.InsertPassive(m.ref, m.side, m.price, m.shares);
    case Exec(x) => var r, executed := book.ExecuteResting(x.ref, x.shares);
    case Reduce(c) => var r, removed := book.ReduceResting(c.ref, c.shares);
    case Remove(d) => var r := book.Cancel(d.ref);
    case Swap(s) => ApplyReplace(book, s);
    case Ignored => book.NothingNew();
  }

  /** The side is read off the old order before that is canceled. */
  method ApplyReplace(book: B.Book, s: ReplaceFields)
    requires book.Valid()
    modifies book`c, book.ladder.bids, book.ladder.asks, book.ladder.bids.levels, book.ladder.asks.levels
    modifies book.pool, book.pool.nodes, book.orders
    ensures book.Valid() && book.Grows() && book.View() == Shown(old(book.View()), R.Swap(s))
  {
    hide B.Book.Valid, B.Book.View, P.InsertPassive, P.CancelOpen, P.Book.Has, P.Book.SideOf, P.Book.Find;
    var o := book.FindOrder(s.ref);
    if o == null {
      book.NothingNew();
      return;
    }
    var side := o.side;
    var gone := book.Cancel(s.ref);
    var r := book.InsertPassive(s.newRef, side, s.price, s.shares);
  }

  method Take(book: B.Book, body: Bytes, symbol: Symbol, ghost ms: seq<Msg>, ghost k: nat)
    requires book.Valid() && k < |ms| && Sent(ms[k], symbol) && body == Body(ms[k])
    requires book.View() == ShownAll(P.Empty(Unbounded), ms[..k])
    modifies book`c, book.ladder.bids, book.ladder.asks, book.ladder.bids.levels, book.ladder.asks.levels
    modifies book.pool, book.pool.nodes, book.orders
    ensures book.Valid() && book.Grows() && book.View() == ShownAll(P.Empty(Unbounded), ms[..k + 1])
  {
    hide Body, ShownAll, P.Empty, B.Book.Valid, B.Book.View, Shown, EventFor, R.EventOf, B.Book.Grows;
    BytesShow(ms[k]);
    assert ms[..k + 1] == ms[..k] + [ms[k]];
    L.ShownSnoc(P.Empty(Unbounded), ms[..k], ms[k]);
    ApplyEvent(book, R.EventOf(body));
  }

  /** The book after the first `k` packets. */
  function ShownBy(ms: seq<Msg>, k: nat): P.Book {
    ShownAll(P.Empty(Unbounded), L.Upto(ms, k))
  }

  /** One packet of the session. */
  method TakePacket(book: B.Book, packet: Bytes, session: M.Session, symbol: Symbol, ghost ms: seq<Msg>,
                    ghost bodies: seq<Bytes>, ghost k: nat)
    requires book.Valid() && book.View() == ShownBy(ms, k) && k <= |ms| && AllSent(ms, symbol) && |ms| + 1 < ID_WIDTH
    requires |bodies| == |ms| && forall i :: 0 <= i < |ms| ==> bodies[i] == Body(ms[i]) && 12 <= |bodies[i]| <= 44
    requires packet == M.Datagram(session, bodies, k + 1)
    modifies book`c, book.ladder.bids, book.ladder.asks, book.ladder.bids.levels, book.ladder.asks.levels
    modifies book.pool, book.pool.nodes, book.orders
    ensures book.Valid() && book.Grows() && book.View() == ShownBy(ms, k + 1)
  {
    hide Body, ShownAll, Sent, M.Datagram, M.ReadPacket, M.ReadHeader, P.Empty, B.Book.Valid, B.Book.View;
    M.DatagramReadsBack(session, bodies, k + 1);
    var ok, hdr, delivered := M.Unpack(packet, M.PacketHeader(session, 0, 0));
    if ok && delivered != [] {
      Take(book, delivered[0].1, symbol, ms, k);
    } else {
      book.NothingNew();
    }
  }

  /** Publishes the queued messages and rebuilds a linked book from the packets alone. */
  method Follow(session: M.Session, symbol: Symbol, hash: OrderId -> nat, queue: seq<Bytes>, ghost ms: seq<Msg>)
    returns (book: B.Book)
    requires queue == E.Frames(ms) && AllSent(ms, symbol) && |ms| + 1 < ID_WIDTH
    ensures book.Valid() && book.View() == ShownAll(P.Empty(Unbounded), ms)
  {
    hide Body, ShownBy, AllSent, M.Datagram, P.Empty, B.Book.Valid, B.Book.View;
    L.FramedBodies(ms);
    var packets := M.Publish(session, queue);
    book := new B.Book(Unbounded, hash);
    Ends(ms, symbol);
    ghost var bodies := M.Unframed(queue);
    for k := 0 to |packets|
      invariant fresh({book, book.ladder.bids, book.ladder.asks, book.pool, book.orders}) && fresh(book.pool.nodes)
      invariant forall j :: 0 <= j < |book.ladder.bids.levels| ==> fresh(book.ladder.bids.levels[j])
      invariant forall j :: 0 <= j < |book.ladder.asks.levels| ==> fresh(book.ladder.asks.levels[j])
      invariant book.Valid() && book.View() == ShownBy(ms, k)
    {
      TakePacket(book, packets[k], session, symbol, ms, bodies, k);
    }
  }

  lemma Ends(ms: seq<Msg>, symbol: Symbol)
    ensures ShownBy(ms, 0) == P.Empty(Unbounded) && ShownBy(ms, |ms| + 1) == ShownAll(P.Empty(Unbounded), ms)
  {
    L.EmptyShows(symbol);
    L.UptoEnds(ms);
  }

  /** Two linked books, one at each end of the feed, with the publishing stage between them in any
      interleaving `md`: when that passage is clean they hold the same orders after any run of requests whose
      displayed prices fit 32 bits, price by price and oldest first. */
  method RunSession(session: M.Session, symbol: Symbol, hash: OrderId -> nat, requests: seq<Request>, stamps: seq<nat>,
                    md: X.Passage<Bytes>)
    returns (engine: E.Engine, mirror: B.Book, ghost kept: seq<Msg>)
    requires |stamps| == |requests| && AllFit(P.Empty(Unbounded), requests)
    requires var ms := EmittedAll(P.Empty(Unbounded), requests, stamps, 0, symbol);
      |ms| + 1 < ID_WIDTH && X.Takes(md, E.Frames(ms))
    ensures engine.Valid() && engine.book.View() == Handled(P.Empty(Unbounded), requests)
    ensures X.Passed(md) == E.Frames(kept)
    ensures var ms := EmittedAll(P.Empty(Unbounded), requests, stamps, 0, symbol);
      L.Through(ms, kept) && |kept| <= |ms| <= |kept| + 1 && (X.Clean(md) <==> kept == ms)
    ensures mirror.Valid() && mirror.View() == ShownAll(P.Empty(Unbounded), kept)
    ensures X.Clean(md) ==> Mirrors(engine.book.View(), mirror.View())
  {
    hide E.Engine.Valid, B.Book.View, Mirrors, NeverShownCrossed, EngineBook, ShownAll, EmittedAll, Handled, AllFit;
    hide AllSent, B.Book.Valid, P.Empty, X.Takes, X.Passed, X.Clean, L.Through;
    L.EmptyShows(symbol);
    RunShown(P.Empty(Unbounded), P.Empty(Unbounded), requests, stamps, 0, symbol);
    L.EmittedAllSent(P.Empty(Unbounded), requests, stamps, 0, symbol);
    engine := L.Serve(symbol, hash, requests, stamps);
    kept := L.KeptFrames(md, EmittedAll(P.Empty(Unbounded), requests, stamps, 0, symbol), symbol);
    L.CanPass(md, engine.queue);
    mirror := Follow(session, symbol, hash, X.Passed(md), kept);
  }
}
