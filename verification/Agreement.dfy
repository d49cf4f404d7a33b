/** The linked book and the flat reference book, driven by the same calls. */
module Agreement {
  import opened Types
  import P = Priority
  import R = Reference
  import F = Refinement
  import B = OrderBook

  method Drive(range: PriceRange, hash: OrderId -> nat, ops: seq<P.Op>)
    returns (book: B.Book, replies: seq<(Result, seq<Execution>)>)
    ensures book.Valid() && book.View() == P.ApplyAll(P.Empty(range), ops)
    ensures replies == P.Replies(P.Empty(range), ops) && |replies| == |ops|
  {
    hide P.Apply, B.Book.Valid, B.Book.View;
    book := new B.Book(range, hash);
    replies := [];
    for i := 0 to |ops|
      invariant fresh({book, book.ladder.bids, book.ladder.asks, book.pool, book.orders}) && fresh(book.pool.nodes)
      invariant forall j :: 0 <= j < |book.ladder.bids.levels| ==> fresh(book.ladder.bids.levels[j])
      invariant forall j :: 0 <= j < |book.ladder.asks.levels| ==> fresh(book.ladder.asks.levels[j])
      invariant book.Valid() && |replies| == i
      invariant P.ApplyAll(book.View(), ops[i..]) == P.ApplyAll(P.Empty(range), ops)
      invariant replies + P.Replies(book.View(), ops[i..]) == P.Replies(P.Empty(range), ops)
    {
      assert ops[i..][1..] == ops[i + 1..];
      replies := DriveStep(book, ops[i..], replies);
    }
  }

  /** One call off the front of what is left to do. */
  method DriveStep(book: B.Book, left: seq<P.Op>, was: seq<(Result, seq<Execution>)>)
    returns (replies: seq<(Result, seq<Execution>)>)
    requires book.Valid() && left != []
    modifies book`stp, book`c, book.ladder.bids, book.ladder.asks, book.ladder.bids.levels, book.ladder.asks.levels
    modifies book.pool, book.pool.nodes, book.orders
    ensures book.Valid() && book.Grows() && |replies| == |was| + 1
    ensures P.ApplyAll(book.View(), left[1..]) == P.ApplyAll(old(book.View()), left)
    ensures replies + P.Replies(book.View(), left[1..]) == was + P.Replies(old(book.View()), left)
  {
    hide P.Apply, B.Book.Valid, B.Book.View, B.Book.Grows;
    var r, execs := book.Do(left[0]);
    replies := was + [(r, execs)];
  }

  method DriveReference(range: PriceRange, ops: seq<P.Op>)
    returns (book: R.ReferenceBook, replies: seq<(Result, seq<Execution>)>)
    requires forall i :: 0 <= i < |ops| ==> R.Offers(ops[i])
    ensures book.State() == R.ApplyAll(R.Empty(range), ops)
    ensures replies == R.Replies(R.Empty(range), ops)
  {
    book := new R.ReferenceBook(range);
    replies := [];
    hide R.Apply;
    for i := 0 to |ops|
      invariant fresh(book)
      invariant R.ApplyAll(book.State(), ops[i..]) == R.ApplyAll(R.Empty(range), ops)
      invariant replies + R.Replies(book.State(), ops[i..]) == R.Replies(R.Empty(range), ops)
    {
      assert ops[i..][0] == ops[i] && ops[i..][1..] == ops[i + 1..];
      var r, execs := book.Do(ops[i]);
      replies := replies + [(r, execs)];
    }
  }

  /** Runs every order-entry call on both books, built empty over the same price range: the linked
      book over any hash. The replies are the same, call by call, and so are the orders left, price
      by price and oldest first. */
  method Lockstep(range: PriceRange, hash: OrderId -> nat, ops: seq<P.Op>)
    returns (book: B.Book, replies: seq<(Result, seq<Execution>)>, twin: R.ReferenceBook,
             answers: seq<(Result, seq<Execution>)>)
    requires forall i :: 0 <= i < |ops| ==> R.Offers(ops[i])
    ensures replies == answers && |replies| == |ops|
    ensures book.Valid() && book.View() == F.Abstract(twin.State())
  {
    hide B.Book.Valid, B.Book.View, F.Abstract, P.ApplyAll, P.Replies, R.ApplyAll, R.Replies;
    book, replies := Drive(range, hash, ops);
    twin, answers := DriveReference(range, ops);
    F.RunsAgree(range, ops);
  }
}
