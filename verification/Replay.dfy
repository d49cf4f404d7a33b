/** Rebuilding books from a feed: the replayer of include/pricetime/itch_replay.hpp over the books and
    the global order index of include/pricetime/multi_book.hpp. */
module Replay {
  import opened Types
  import opened Itch
  import opened IdMap
  import P = Priority
  import L = BookLaws

  // ----- events

  datatype Event =
    | Add(m: AddFields)
    | Exec(e: ExecFields)
    | Reduce(c: CancelFields)
    | Remove(d: DeleteFields)
    | Swap(r: ReplaceFields)
    | Ignored

  /** A message long enough for its type, as the readers deliver it. */
  predicate WellSized(msg: Bytes) {
    msg != [] && |msg| >= MessageLength(msg[0])
  }

  function EventOf(msg: Bytes): Event
    requires WellSized(msg)
  {
    var t := msg[0];
    if t == Code('A') || t == Code('F') then Add(DecodeAddOrder(msg))
    else if t == Code('E') || t == Code('C') then Exec(DecodeOrderExecuted(msg))
    else if t == Code('X') then Reduce(DecodeOrderCancel(msg))
    else if t == Code('D') then Remove(DecodeOrderDelete(msg))
    else if t == Code('U') then Swap(DecodeOrderReplace(msg))
    else Ignored
  }

  // ----- what an event does to the books and the index

  type Books = map<Symbol, P.Book>

  datatype Feed = Feed(range: PriceRange, filter: set<Symbol>, books: Books, owner: map<OrderId, Symbol>)
  {
    predicate Tracked(s: Symbol) {
      filter == {} || s in filter
    }

    function BookFor(s: Symbol): P.Book {
      if s in books then books[s] else P.Empty(range)
    }

    function With(s: Symbol, b: P.Book): Feed {
      this.(books := books[s := b])
    }

    function Noted(id: OrderId, s: Symbol): Feed {
      if id in owner then this else this.(owner := owner[id := s])
    }

    function Forgotten(id: OrderId): Feed {
      this.(owner := owner - {id})
    }

    /** The index forgets `id` once its book no longer holds it. */
    function Settled(id: OrderId, s: Symbol): Feed {
      if BookFor(s).Has(id) then this else Forgotten(id)
    }
  }

  function EmptyFeed(range: PriceRange, filter: set<Symbol>): Feed {
    Feed(range, filter, map[], map[])
  }

  function OnAdd(f: Feed, m: AddFields): Feed {
    if !f.Tracked(m.symbol) then f
    else
      var out := P.InsertPassive(f.BookFor(m.symbol), m.ref, m.side, m.price, m.shares);
      var g := f.With(m.symbol, out.book);
      if out.result == Ok then g.Noted(m.ref, m.symbol) else g
  }

  function OnConsumed(f: Feed, id: OrderId, shares: Qty, isExecution: bool): Feed {
    if id !in f.owner then f
    else
      var s := f.owner[id];
      f.With(s, P.Consume(f.BookFor(s), id, shares, isExecution).book).Settled(id, s)
  }

  function OnDelete(f: Feed, id: OrderId): Feed {
    if id !in f.owner then f
    else
      var s := f.owner[id];
      f.With(s, P.Cancel(f.BookFor(s), id).book).Forgotten(id)
  }

  function OnReplace(f: Feed, r: ReplaceFields): Feed {
    if r.ref !in f.owner then f
    else
      var s := f.owner[r.ref];
      var b := f.BookFor(s);
      if !b.Has(r.ref) then f
      else
        var side := b.SideOf(r.ref);
        var out := P.InsertPassive(P.CancelOpen(b, r.ref), r.newRef, side, r.price, r.shares);
        var g := f.With(s, out.book).Forgotten(r.ref);
        if out.result == Ok then g.Noted(r.newRef, s) else g
  }

  function Step(f: Feed, e: Event): Feed {
    match e
    case Add(m) => OnAdd(f, m)
    case Exec(x) => OnConsumed(f, x.ref, x.shares, true)
    case Reduce(c) => OnConsumed(f, c.ref, c.shares, false)
    case Remove(d) => OnDelete(f, d.ref)
    case Swap(r) => OnReplace(f, r)
    case Ignored => f
  }

  function Steps(f: Feed, es: seq<Event>): Feed
    decreases |es|
  {
    if es == [] then f else Steps(Step(f, es[0]), es[1..])
  }

  // ----- the books

  class MultiBook {
    const range: PriceRange
    var books: Books
    const owner: OpenAddressMap<Symbol>

    constructor (range: PriceRange, hash: OrderId -> nat)
      ensures owner.Valid() && owner.m == map[] && books == map[] && this.range == range && fresh(owner)
    {
      this.range := range;
      books := map[];
      owner := new OpenAddressMap(hash);
    }

    /** The book of a symbol, created on first sight. */
    method BookOf(s: Symbol) returns (b: P.Book)
      modifies `books
      ensures b == (if s in old(books) then old(books)[s] else P.Empty(range)) && books == old(books)[s := b]
    {
      if s !in books {
        books := books[s := P.Empty(range)];
      }
      b := books[s];
    }

    method BookForOrder(id: OrderId) returns (s: Option<Symbol>)
      requires owner.Valid()
      ensures s == if id in owner.m then Some(owner.m[id]) else None
    {
      s := owner.Find(id);
    }

    method NoteOrder(id: OrderId, s: Symbol)
      requires owner.Valid() && id != EMPTY
      modifies owner
      ensures owner.Valid() && owner.m == if id in old(owner.m) then old(owner.m) else old(owner.m)[id := s]
    {
      var noted := owner.Insert(id, s);
    }

    method ForgetOrder(id: OrderId)
      requires owner.Valid() && id != EMPTY
      modifies owner
      ensures owner.Valid() && owner.m == old(owner.m) - {id}
    {
      var found := owner.Erase(id);
    }

    method TrackedOrders() returns (n: nat)
      requires owner.Valid()
      ensures n == |owner.m|
    {
      owner.Facts();
      n := owner.size;
    }
  }

  // ----- the replayer

  lemma NeverZero(b: P.Book, id: OrderId, s: Side, price: Price, qty: Qty)
    ensures P.InsertPassive(b, id, s, price, qty).result == Ok ==> id != 0
  {
  }

  class Replayer {
    const books: MultiBook
    var filter: set<Symbol>

    ghost predicate Valid()
      reads this, books, books.owner
    {
      books.owner.Valid() && forall id :: id in books.owner.m ==> books.owner.m[id] in books.books
    }

    ghost function State(): Feed
      reads this, books, books.owner
    {
      Feed(books.range, filter, books.books, books.owner.m)
    }

    constructor (books: MultiBook)
      requires books.owner.Valid() && books.owner.m == map[]
      ensures Valid() && this.books == books && filter == {}
    {
      this.books := books;
      filter := {};
    }

    /** Restricts reconstruction to these symbols; none means every symbol. */
    method TrackOnly(symbols: seq<Symbol>)
      modifies this
      ensures filter == set s | s in symbols
    {
      filter := {};
      for i := 0 to |symbols|
        invariant filter == set s | s in symbols[..i]
      {
        filter := filter + {symbols[i]};
      }
      assert symbols[..|symbols|] == symbols;
    }

    /** Applies one complete message. */
    method Apply(msg: Bytes)
      requires Valid() && WellSized(msg)
      modifies books, books.owner
      ensures Valid() && State() == Step(old(State()), EventOf(msg))
    {
      hide OpenAddressMap.Valid, OnAdd, OnConsumed, OnDelete, OnReplace;
      match EventOf(msg)
      case Add(m) => OnAddOrder(m);
      case Exec(e) => OnConsume(e.ref, e.shares, true);
      case Reduce(c) => OnConsume(c.ref, c.shares, false);
      case Remove(d) => OnDeleteOrder(d);
      case Swap(r) => OnReplaceOrder(r);
      case Ignored =>
    }

    method OnAddOrder(m: AddFields)
      requires Valid()
      modifies books, books.owner
      ensures Valid() && State() == OnAdd(old(State()), m)
    {
      hide OpenAddressMap.Valid, P.InsertPassive;
      if filter != {} && m.symbol !in filter {
        return;
      }
      var book := books.BookOf(m.symbol);
      var out := P.InsertPassive(book, m.ref, m.side, m.price, m.shares);
      books.books := books.books[m.symbol := out.book];
      if out.result == Ok {
        NeverZero(book, m.ref, m.side, m.price, m.shares);
        books.NoteOrder(m.ref, m.symbol);
      }
    }

    /** Executions and partial cancels: the book clamps, and the index forgets an order that has gone. */
    method OnConsume(id: OrderId, shares: Qty, isExecution: bool)
      requires Valid()
      modifies books, books.owner
      ensures Valid() && State() == OnConsumed(old(State()), id, shares, isExecution)
    {
      hide OpenAddressMap.Valid, P.Consume;
      books.owner.Facts();
      var s := books.BookForOrder(id);
      if s == None {
        return;
      }
      var book := books.BookOf(s.value);
      var out := P.Consume(book, id, shares, isExecution);
      books.books := books.books[s.value := out.book];
      if !out.book.Has(id) {
        books.ForgetOrder(id);
      }
    }

    method OnDeleteOrder(d: DeleteFields)
      requires Valid()
      modifies books, books.owner
      ensures Valid() && State() == OnDelete(old(State()), d.ref)
    {
      hide OpenAddressMap.Valid, P.Cancel;
      books.owner.Facts();
      var s := books.BookForOrder(d.ref);
      if s == None {
        return;
      }
      var book := books.BookOf(s.value);
      var out := P.Cancel(book, d.ref);
      books.books := books.books[s.value := out.book];
      books.ForgetOrder(d.ref);
    }

    /** The feed does not repeat the side, so it is read off the original order before that is canceled. */
    method OnReplaceOrder(r: ReplaceFields)
      requires Valid()
      modifies books, books.owner
      ensures Valid() && State() == OnReplace(old(State()), r)
    {
      hide OpenAddressMap.Valid, P.InsertPassive, P.CancelOpen, P.Book.Has, P.Book.SideOf;
      books.owner.Facts();
      var s := books.BookForOrder(r.ref);
      if s == None {
        return;
      }
      var book := books.BookOf(s.value);
      if !book.Has(r.ref) {
        return;
      }
      var side := book.SideOf(r.ref);
      book := P.CancelOpen(book, r.ref);
      books.ForgetOrder(r.ref);
      var out := P.InsertPassive(book, r.newRef, side, r.price, r.shares);
      books.books := books.books[s.value := out.book];
      if out.result == Ok {
        NeverZero(book, r.newRef, side, r.price, r.shares);
        books.NoteOrder(r.newRef, s.value);
      }
    }
  }

  // ----- the index names the live orders

  /** Every live order is in the index, under the one book that holds it, and nothing else is. */
  ghost predicate Indexed(f: Feed) {
    && (forall s :: s in f.books ==> f.books[s].Valid())
    && (forall id :: id in f.owner ==> f.owner[id] in f.books && f.books[f.owner[id]].Has(id))
    && (forall s, id :: s in f.books && f.books[s].Has(id) ==> id in f.owner && f.owner[id] == s)
  }

  /** The references an event brings into the feed. */
  function NewRefs(e: Event): set<OrderId> {
    match e
    case Add(m) => {m.ref}
    case Swap(r) => {r.newRef}
    case _ => {}
  }

  /** No reference is brought in twice, nor was any of `used`. */
  ghost predicate GloballyFresh(used: set<OrderId>, es: seq<Event>)
    decreases |es|
  {
    es == [] || (NewRefs(es[0]) !! used && GloballyFresh(used + NewRefs(es[0]), es[1..]))
  }

  /** One book changes: which ids it holds afterwards is all the index needs to know. */
  lemma IndexedWith(f: Feed, s: Symbol, b: P.Book, g: Feed)
    requires Indexed(f) && b.Valid() && g.books == f.books[s := b]
    requires forall id :: id in g.owner ==> (if id in f.owner && f.owner[id] != s then g.owner[id] == f.owner[id]
                                             else g.owner[id] == s && b.Has(id))
    requires forall id :: id in f.owner && f.owner[id] != s ==> id in g.owner && g.owner[id] == f.owner[id]
    requires forall id :: b.Has(id) ==> id in g.owner && g.owner[id] == s
    ensures Indexed(g)
  {
    hide P.Book.Has, P.Book.Valid;
  }

  // ----- which ids a book holds after a feed event

  lemma InsertHas(s: Side, q: seq<OpenOrder>, o: OpenOrder, x: OrderId)
    ensures P.HasId(P.Insert(s, q, o), x) <==> P.HasId(q, x) || x == o.id
  {
    L.InsertMembers(s, q, o);
    var w := P.Insert(s, q, o);
    if P.HasId(w, x) {
      var i :| 0 <= i < |w| && w[i].id == x;
      assert w[i] in w;
    }
    if P.HasId(q, x) {
      var i :| 0 <= i < |q| && q[i].id == x;
      assert q[i] in w;
    }
    assert o in w;
  }

  lemma WithoutHas(q: seq<OpenOrder>, k: nat, x: OrderId)
    requires P.DistinctIds(q) && k < |q|
    ensures P.HasId(P.Without(q, k), x) <==> P.HasId(q, x) && x != q[k].id
  {
    var w := P.Without(q, k);
    assert forall i :: 0 <= i < |w| ==> w[i] == q[if i < k then i else i + 1];
    if P.HasId(q, x) && x != q[k].id {
      var i :| 0 <= i < |q| && q[i].id == x;
      assert w[if i < k then i else i - 1].id == x;
    }
  }

  lemma UpdateHas(q: seq<OpenOrder>, k: nat, o: OpenOrder, x: OrderId)
    requires k < |q| && o.id == q[k].id
    ensures P.HasId(q[k := o], x) <==> P.HasId(q, x)
  {
    if P.HasId(q, x) {
      var i :| 0 <= i < |q| && q[i].id == x;
      assert q[k := o][i].id == x;
    }
  }

  lemma PassiveHas(b: P.Book, id: OrderId, s: Side, price: Price, qty: Qty, x: OrderId)
    ensures var out := P.InsertPassive(b, id, s, price, qty);
      && (out.result == Ok ==> (out.book.Has(x) <==> b.Has(x) || x == id) && !b.Has(id))
      && (out.result != Ok ==> out.book == b)
  {
    InsertHas(s, b.Queue(s), OpenOrder(id, price, qty, 0), x);
    hide P.HasId, P.Insert;
  }

  lemma DropHas(b: P.Book, id: OrderId, x: OrderId)
    requires b.Valid() && b.Has(id)
    ensures P.Drop(b, id).Has(x) <==> b.Has(x) && x != id
  {
    var s := b.SideOf(id);
    var k := P.IndexOf(b.Queue(s), id);
    WithoutHas(b.Queue(s), k, x);
    OtherSide(b, id);
    hide P.Without;
  }

  /** An id of a valid book is on one side only. */
  lemma OtherSide(b: P.Book, id: OrderId)
    requires b.Valid() && b.Has(id)
    ensures !P.HasId(b.Queue(Opposite(b.SideOf(id))), id) && P.HasId(b.Queue(b.SideOf(id)), id)
  {
  }

  lemma ConsumeHas(b: P.Book, id: OrderId, qty: Qty, isExecution: bool, x: OrderId)
    requires b.Valid()
    ensures x != id ==> (P.Consume(b, id, qty, isExecution).book.Has(x) <==> b.Has(x))
    ensures P.Consume(b, id, qty, isExecution).book.Has(x) ==> b.Has(x)
  {
    if b.Has(id) && qty > 0 {
      var take := P.Taken(b, id, qty);
      var s := b.SideOf(id);
      var k := P.IndexOf(b.Queue(s), id);
      DropHas(b, id, x);
      UpdateHas(b.Queue(s), k, b.Find(id).(qty := b.Find(id).qty - take), x);
      hide P.HasId, P.Drop, P.Book.Valid;
    }
  }

  // ----- the index through one event and through a feed

  /** The book of `s` becomes `b`, which holds what it held and perhaps `id`, and the index notes `id` then. */
  lemma GainIndexed(f: Feed, s: Symbol, b: P.Book, id: OrderId, gained: bool, g: Feed)
    requires Indexed(f) && b.Valid() && id !in f.owner
    requires forall x :: b.Has(x) <==> f.BookFor(s).Has(x) || (gained && x == id)
    requires g == if gained then f.With(s, b).Noted(id, s) else f.With(s, b)
    ensures Indexed(g)
  {
    hide P.Book.Has, P.Book.Valid;
    BookForHas(f, s);
    hide Feed.BookFor;
    IndexedWith(f, s, b, g);
  }

  /** The book of `s` becomes `b`, which holds what it held except perhaps `id`, and the index forgets `id` then. */
  lemma LoseIndexed(f: Feed, s: Symbol, b: P.Book, id: OrderId, g: Feed)
    requires Indexed(f) && b.Valid() && id in f.owner && f.owner[id] == s
    requires forall x :: b.Has(x) <==> f.BookFor(s).Has(x) && (x == id ==> b.Has(id))
    requires g == if b.Has(id) then f.With(s, b) else f.With(s, b).Forgotten(id)
    ensures Indexed(g)
  {
    hide P.Book.Has, P.Book.Valid;
    BookForHas(f, s);
    hide Feed.BookFor;
    IndexedWith(f, s, b, g);
  }

  lemma AddIndexed(f: Feed, m: AddFields)
    requires Indexed(f) && m.ref !in f.owner
    ensures Indexed(OnAdd(f, m))
  {
    hide P.InsertPassive, P.Book.Has, P.Book.Valid;
    if f.Tracked(m.symbol) {
      var b := f.BookFor(m.symbol);
      var out := P.InsertPassive(b, m.ref, m.side, m.price, m.shares);
      BookForHas(f, m.symbol);
      L.ApplyKeeps(b, P.Passive(m.ref, m.side, m.price, m.shares));
      forall x
        ensures out.book.Has(x) <==> b.Has(x) || (out.result == Ok && x == m.ref)
      {
        PassiveHas(b, m.ref, m.side, m.price, m.shares, x);
      }
      hide Feed.BookFor;
      GainIndexed(f, m.symbol, out.book, m.ref, out.result == Ok, OnAdd(f, m));
    }
  }

  lemma ConsumeIndexed(f: Feed, id: OrderId, shares: Qty, isExecution: bool)
    requires Indexed(f)
    ensures Indexed(OnConsumed(f, id, shares, isExecution))
  {
    hide P.Consume, P.Book.Has, P.Book.Valid;
    if id in f.owner {
      var s := f.owner[id];
      var b := f.BookFor(s);
      var after := P.Consume(b, id, shares, isExecution).book;
      BookForHas(f, s);
      L.ConsumeKeeps(b, id, shares, isExecution);
      forall x
        ensures after.Has(x) <==> b.Has(x) && (x == id ==> after.Has(id))
      {
        ConsumeHas(b, id, shares, isExecution, x);
      }
      LoseIndexed(f, s, after, id, OnConsumed(f, id, shares, isExecution));
    }
  }

  lemma DeleteIndexed(f: Feed, id: OrderId)
    requires Indexed(f)
    ensures Indexed(OnDelete(f, id))
    ensures id !in OnDelete(f, id).owner && OnDelete(f, id).owner.Keys <= f.owner.Keys
  {
    hide P.CancelOpen, P.Book.Has, P.Book.Valid;
    if id in f.owner {
      var s := f.owner[id];
      var b := f.BookFor(s);
      var after := P.Cancel(b, id).book;
      BookForHas(f, s);
      L.ApplyKeeps(b, P.CancelId(id));
      forall x
        ensures after.Has(x) <==> b.Has(x) && x != id
      {
        CancelHas(b, id, x);
      }
      LoseIndexed(f, s, after, id, OnDelete(f, id));
    }
  }

  lemma CancelHas(b: P.Book, id: OrderId, x: OrderId)
    requires b.Valid() && b.Has(id)
    ensures P.CancelOpen(b, id).Has(x) <==> b.Has(x) && x != id
  {
    DropHas(b, id, x);
    hide P.HasId, P.Book.Valid;
  }

  /** A replace is a delete and then the passive insert of the new reference on the same side. */
  lemma ReplaceIndexed(f: Feed, r: ReplaceFields)
    requires Indexed(f) && (r.newRef !in f.owner || r.newRef == r.ref)
    ensures Indexed(OnReplace(f, r))
  {
    hide P.CancelOpen, P.InsertPassive, P.Book.Has, P.Book.Valid, P.Book.SideOf;
    if r.ref in f.owner {
      var s := f.owner[r.ref];
      var b := f.BookFor(s);
      BookForHas(f, s);
      DeleteIndexed(f, r.ref);
      var mid := OnDelete(f, r.ref);
      var c := mid.BookFor(s);
      assert c == P.CancelOpen(b, r.ref);
      var side := b.SideOf(r.ref);
      var out := P.InsertPassive(c, r.newRef, side, r.price, r.shares);
      BookForHas(mid, s);
      L.ApplyKeeps(c, P.Passive(r.newRef, side, r.price, r.shares));
      forall x
        ensures out.book.Has(x) <==> c.Has(x) || (out.result == Ok && x == r.newRef)
      {
        PassiveHas(c, r.newRef, side, r.price, r.shares, x);
      }
      assert f.With(s, out.book).Forgotten(r.ref) == mid.With(s, out.book);
      GainIndexed(mid, s, out.book, r.newRef, out.result == Ok, OnReplace(f, r));
    }
  }

  lemma BookForHas(f: Feed, s: Symbol)
    requires Indexed(f)
    ensures f.BookFor(s).Valid() && forall id :: f.BookFor(s).Has(id) <==> id in f.owner && f.owner[id] == s
  {
    assert P.Empty(f.range).Valid() && forall id :: !P.Empty(f.range).Has(id);
  }

  // ----- exactly when one event leaves the index right

  /** The event brings in a reference that is live in another symbol's book, and its book accepts it. */
  predicate Clashes(f: Feed, e: Event) {
    match e
    case Add(m) =>
      && f.Tracked(m.symbol) && m.ref in f.owner && f.owner[m.ref] != m.symbol
      && m.shares > 0 && f.BookFor(m.symbol).range.Valid(m.price)
    case Swap(r) =>
      && r.ref in f.owner && r.newRef in f.owner && f.owner[r.newRef] != f.owner[r.ref]
      && r.shares > 0 && f.BookFor(f.owner[r.ref]).range.Valid(r.price)
    case _ => false
  }

  /** A book changes and still holds what it held: so does the index. */
  lemma SameHeldIndexed(f: Feed, s: Symbol, b: P.Book)
    requires Indexed(f) && b.Valid() && forall id :: b.Has(id) <==> f.BookFor(s).Has(id)
    ensures Indexed(f.With(s, b))
  {
    BookForHas(f, s);
    hide P.Book.Has, P.Book.Valid;
  }

  /** A live reference entered once more: rejected in its own book, accepted in any other that takes the order. */
  lemma EnteredAgain(f: Feed, s: Symbol, id: OrderId, side: Side, price: Price, shares: Qty)
    requires Indexed(f) && id in f.owner
    ensures var b := f.BookFor(s); var out := P.InsertPassive(b, id, side, price, shares);
      && (out.result == Ok <==> f.owner[id] != s && shares > 0 && b.range.Valid(price))
      && (out.result != Ok ==> out.book == b) && (out.result == Ok ==> out.book.Has(id)) && b.Valid()
  {
    BookForHas(f, s);
    BookForHas(f, f.owner[id]);
    hide P.Book.Has;
    PassiveHas(f.BookFor(s), id, side, price, shares, id);
    hide P.Insert;
  }

  lemma HeldTwice(f: Feed, s: Symbol, id: OrderId)
    requires s in f.books && f.books[s].Has(id) && id in f.owner && f.owner[id] != s
    ensures !Indexed(f)
  {
  }

  lemma AddIndexedIff(f: Feed, m: AddFields)
    requires Indexed(f)
    ensures Indexed(OnAdd(f, m)) <==> !Clashes(f, Add(m))
  {
    hide P.InsertPassive, P.Book.Has, P.Book.Valid;
    if m.ref !in f.owner {
      AddIndexed(f, m);
    } else if f.Tracked(m.symbol) {
      EnteredAgain(f, m.symbol, m.ref, m.side, m.price, m.shares);
      if Clashes(f, Add(m)) {
        HeldTwice(OnAdd(f, m), m.symbol, m.ref);
      } else {
        SameHeldIndexed(f, m.symbol, f.BookFor(m.symbol));
      }
    }
  }

  lemma ReplaceKeepsIndex(f: Feed, r: ReplaceFields)
    requires Indexed(f) && (r.newRef !in f.owner || r.newRef == r.ref || r.ref !in f.owner)
    ensures Indexed(OnReplace(f, r))
  {
    if r.ref in f.owner {
      ReplaceIndexed(f, r);
    }
  }

  lemma ReplaceIndexedIff(f: Feed, r: ReplaceFields)
    requires Indexed(f)
    ensures Indexed(OnReplace(f, r)) <==> !Clashes(f, Swap(r))
  {
    hide P.InsertPassive, P.CancelOpen, P.Book.Has, P.Book.Valid, P.Book.SideOf;
    if r.newRef !in f.owner || r.newRef == r.ref || r.ref !in f.owner {
      ReplaceKeepsIndex(f, r);
    } else {
      var s := f.owner[r.ref];
      BookForHas(f, s);
      DeleteIndexed(f, r.ref);
      var mid := OnDelete(f, r.ref);
      RangeKept(f.BookFor(s), r.ref);
      EnteredAgain(mid, s, r.newRef, f.BookFor(s).SideOf(r.ref), r.price, r.shares);
      if Clashes(f, Swap(r)) {
        HeldTwice(OnReplace(f, r), s, r.newRef);
      } else {
        assert OnReplace(f, r) == mid;
      }
    }
  }

  lemma RangeKept(b: P.Book, id: OrderId)
    requires b.Has(id)
    ensures P.CancelOpen(b, id).range == b.range
  {
  }

  /** One event keeps the index exact, whatever the feed, exactly when it does not clash. */
  lemma StepIndexedIff(f: Feed, e: Event)
    requires Indexed(f)
    ensures Indexed(Step(f, e)) <==> !Clashes(f, e)
  {
    match e
    case Add(m) => AddIndexedIff(f, m);
    case Exec(x) => ConsumeIndexed(f, x.ref, x.shares, true);
    case Reduce(c) => ConsumeIndexed(f, c.ref, c.shares, false);
    case Remove(d) => DeleteIndexed(f, d.ref);
    case Swap(r) => ReplaceIndexedIff(f, r);
    case Ignored =>
  }

  /** No event of the feed clashes with what is live when it comes. */
  predicate ClashFree(f: Feed, es: seq<Event>)
    decreases |es|
  {
    es == [] || (!Clashes(f, es[0]) && ClashFree(Step(f, es[0]), es[1..]))
  }

  /** The index is exact before the feed and after every event of it. */
  ghost predicate AlwaysIndexed(f: Feed, es: seq<Event>)
    decreases |es|
  {
    Indexed(f) && (es == [] || AlwaysIndexed(Step(f, es[0]), es[1..]))
  }

  /** Over any feed, symbols and filter: the index holds exactly the live orders, each under the book that
      holds it, after every message, exactly when no reference comes in that is live under another symbol. */
  lemma {:induction false} FeedIndexedIff(f: Feed, es: seq<Event>)
    requires Indexed(f)
    ensures AlwaysIndexed(f, es) <==> ClashFree(f, es)
    decreases |es|
  {
    hide Indexed, Step, Clashes;
    if es != [] {
      StepIndexedIff(f, es[0]);
      if !Clashes(f, es[0]) {
        FeedIndexedIff(Step(f, es[0]), es[1..]);
      }
    }
  }

  /** References never used twice never clash. */
  lemma {:induction false} FreshNeverClashes(f: Feed, used: set<OrderId>, es: seq<Event>)
    requires Indexed(f) && f.owner.Keys <= used && GloballyFresh(used, es)
    ensures ClashFree(f, es)
    decreases |es|
  {
    if es != [] {
      assert !Clashes(f, es[0]);
      StepIndexedIff(f, es[0]);
      OwnersGained(f, es[0]);
      hide Indexed, Step, Clashes;
      FreshNeverClashes(Step(f, es[0]), used + NewRefs(es[0]), es[1..]);
    }
  }

  lemma OwnersGained(f: Feed, e: Event)
    ensures Step(f, e).owner.Keys <= f.owner.Keys + NewRefs(e)
  {
    hide P.InsertPassive, P.Consume, P.Cancel, P.CancelOpen, P.Book.Has, P.Book.SideOf;
  }

  /** Through any feed whose references are never reused the index is exact after every event. */
  lemma FeedIndexed(f: Feed, used: set<OrderId>, es: seq<Event>)
    requires Indexed(f) && f.owner.Keys <= used && GloballyFresh(used, es)
    ensures AlwaysIndexed(f, es) && Indexed(Steps(f, es))
  {
    FreshNeverClashes(f, used, es);
    FeedIndexedIff(f, es);
    AlwaysToTheEnd(f, es);
  }

  lemma {:induction false} AlwaysToTheEnd(f: Feed, es: seq<Event>)
    requires AlwaysIndexed(f, es)
    ensures Indexed(Steps(f, es))
    decreases |es|
  {
    hide Indexed, Step;
    if es != [] {
      AlwaysToTheEnd(Step(f, es[0]), es[1..]);
    }
  }

  lemma FromNothing(range: PriceRange, filter: set<Symbol>, es: seq<Event>)
    requires GloballyFresh({}, es)
    ensures Indexed(Steps(EmptyFeed(range, filter), es))
  {
    FeedIndexed(EmptyFeed(range, filter), {}, es);
  }

  /** Orders open in a book. */
  function OpenOrders(b: P.Book): nat {
    |b.bids| + |b.asks|
  }

  /** The sum of open orders over the books, visited in some order. */
  function OpenOver(books: Books, visit: seq<Symbol>): nat
    requires forall i :: 0 <= i < |visit| ==> visit[i] in books
  {
    if visit == [] then 0 else OpenOrders(books[visit[0]]) + OpenOver(books, visit[1..])
  }

  function IdsOf(q: seq<OpenOrder>): set<OrderId> {
    set i | 0 <= i < |q| :: q[i].id
  }

  lemma IdsFirst(q: seq<OpenOrder>)
    requires q != []
    ensures IdsOf(q) == {q[0].id} + IdsOf(q[1..])
  {
    var rest := q[1..];
    forall x
      ensures x in IdsOf(q) <==> x == q[0].id || x in IdsOf(rest)
    {
      if x in IdsOf(rest) {
        var i :| 0 <= i < |rest| && rest[i].id == x;
        assert q[i + 1].id == x;
      }
      if x in IdsOf(q) && x != q[0].id {
        var i :| 0 <= i < |q| && q[i].id == x;
        assert rest[i - 1].id == x;
      }
    }
  }

  lemma {:induction false} IdsCount(q: seq<OpenOrder>)
    requires P.DistinctIds(q)
    ensures |IdsOf(q)| == |q|
  {
    if q != [] {
      IdsCount(q[1..]);
      IdsFirst(q);
      assert q[0].id !in IdsOf(q[1..]);
      hide IdsOf;
    }
  }

  lemma HeldCount(b: P.Book)
    requires b.Valid()
    ensures |IdsOf(b.bids) + IdsOf(b.asks)| == OpenOrders(b)
    ensures forall x :: b.Has(x) <==> x in IdsOf(b.bids) + IdsOf(b.asks)
  {
    IdsCount(b.bids);
    IdsCount(b.asks);
    assert IdsOf(b.bids) !! IdsOf(b.asks);
  }

  /** The ids indexed under the symbols visited. */
  ghost function OwnedOver(f: Feed, visit: seq<Symbol>): set<OrderId> {
    set id | id in f.owner && f.owner[id] in visit
  }

  lemma OwnerHolds(f: Feed, id: OrderId)
    requires Indexed(f) && id in f.owner
    ensures f.owner[id] in f.books && f.books[f.owner[id]].Has(id)
  {
  }

  /** The first symbol visited and the rest divide the ids indexed under all of them. */
  lemma OwnedSplit(f: Feed, visit: seq<Symbol>, held: set<OrderId>)
    requires visit != [] && forall j :: 0 < j < |visit| ==> visit[0] != visit[j]
    requires forall id :: id in held <==> id in f.owner && f.owner[id] == visit[0]
    ensures |OwnedOver(f, visit)| == |held| + |OwnedOver(f, visit[1..])|
  {
    var rest := visit[1..];
    assert visit[0] !in rest;
    forall id
      ensures id in OwnedOver(f, visit) <==> id in held || id in OwnedOver(f, rest)
    {
      if id in f.owner {
        assert f.owner[id] in visit <==> f.owner[id] == visit[0] || f.owner[id] in rest by {
          assert visit == [visit[0]] + rest;
        }
      }
    }
    assert held !! OwnedOver(f, rest);
    assert OwnedOver(f, visit) == held + OwnedOver(f, rest);
  }

  lemma {:induction false} OwnedIsOpen(f: Feed, visit: seq<Symbol>)
    requires Indexed(f) && (forall i :: 0 <= i < |visit| ==> visit[i] in f.books)
    requires forall i, j :: 0 <= i < j < |visit| ==> visit[i] != visit[j]
    ensures |OwnedOver(f, visit)| == OpenOver(f.books, visit)
  {
    if visit != [] {
      hide Indexed, OpenOrders, OwnedOver;
      OwnedIsOpen(f, visit[1..]);
      var held := HeldIs(f, visit[0]);
      OwnedSplit(f, visit, held);
    }
  }

  lemma HeldIs(f: Feed, s: Symbol) returns (held: set<OrderId>)
    requires Indexed(f) && s in f.books
    ensures forall id :: id in held <==> id in f.owner && f.owner[id] == s
    ensures |held| == OpenOrders(f.books[s])
  {
    hide P.Book.Has, P.Book.Valid, IdsOf;
    BookForHas(f, s);
    hide Indexed;
    HeldCount(f.books[s]);
    held := IdsOf(f.books[s].bids) + IdsOf(f.books[s].asks);
  }

  /** The orders tracked are as many as are open over all the books. */
  lemma TrackedIsOpen(f: Feed, visit: seq<Symbol>)
    requires Indexed(f)
    requires (forall s :: s in f.books <==> s in visit) && forall i, j :: 0 <= i < j < |visit| ==> visit[i] != visit[j]
    ensures |f.owner| == OpenOver(f.books, visit)
  {
    hide Indexed, OpenOver;
    forall id | id in f.owner
      ensures f.owner[id] in visit
    {
      OwnerHolds(f, id);
    }
    assert OwnedOver(f, visit) == f.owner.Keys;
    hide OwnedOver;
    OwnedIsOpen(f, visit);
  }

  /** A list of the symbols that have books, each once. */
  ghost predicate Visits(visit: seq<Symbol>, books: Books) {
    && (forall s :: s in books <==> s in visit)
    && forall i, j :: 0 <= i < j < |visit| ==> visit[i] != visit[j]
  }

  lemma VisitsSame(visit: seq<Symbol>, books: Books, s: Symbol, b: P.Book)
    requires s in books
    ensures Visits(visit, books[s := b]) <==> Visits(visit, books)
  {
    assert books[s := b].Keys == books.Keys;
    assert forall t :: t in books <==> t in books[s := b];
  }

  /** One book changes: the sum changes by as much. */
  lemma {:induction false} OpenOverWith(books: Books, visit: seq<Symbol>, s: Symbol, b: P.Book)
    requires s in books && forall i :: 0 <= i < |visit| ==> visit[i] in books
    requires forall i, j :: 0 <= i < j < |visit| ==> visit[i] != visit[j]
    ensures OpenOver(books[s := b], visit)
         == OpenOver(books, visit) + if s in visit then OpenOrders(b) - OpenOrders(books[s]) else 0
  {
    if visit != [] {
      OpenOverWith(books, visit[1..], s, b);
      hide OpenOrders;
      assert visit == [visit[0]] + visit[1..];
    }
  }

  lemma PassiveCount(b: P.Book, id: OrderId, side: Side, price: Price, shares: Qty)
    ensures var out := P.InsertPassive(b, id, side, price, shares);
      OpenOrders(out.book) == OpenOrders(b) + if out.result == Ok then 1 else 0
  {
    hide P.Validate;
  }

  /** An order accepted into a book and not noted by an exact index is open and not tracked. */
  lemma OneUntracked(f: Feed, visit: seq<Symbol>, s: Symbol, id: OrderId, side: Side, price: Price, shares: Qty)
    requires Indexed(f) && s in f.books && Visits(visit, f.books)
    requires P.InsertPassive(f.books[s], id, side, price, shares).result == Ok
    ensures forall i :: 0 <= i < |visit| ==> visit[i] in f.books
    ensures OpenOver(f.books[s := P.InsertPassive(f.books[s], id, side, price, shares).book], visit) == |f.owner| + 1
  {
    hide Indexed, P.InsertPassive, OpenOrders, OpenOver;
    var b := f.books[s];
    var out := P.InsertPassive(b, id, side, price, shares);
    PassiveCount(b, id, side, price, shares);
    TrackedIsOpen(f, visit);
    OpenOverWith(f.books, visit, s, out.book);
  }

  lemma AddMiscounts(f: Feed, m: AddFields, visit: seq<Symbol>)
    requires Indexed(f) && Clashes(f, Add(m)) && Visits(visit, OnAdd(f, m).books)
    ensures OpenOver(OnAdd(f, m).books, visit) == |OnAdd(f, m).owner| + 1
  {
    hide Indexed, P.InsertPassive, OpenOver, Visits, P.Book.Has, P.Book.Valid;
    var s := m.symbol;
    var b := f.BookFor(s);
    EnteredAgain(f, s, m.ref, m.side, m.price, m.shares);
    var g := f.With(s, b);
    SameHeldIndexed(f, s, b);
    var out := P.InsertPassive(b, m.ref, m.side, m.price, m.shares);
    assert OnAdd(f, m).books == g.books[s := out.book];
    VisitsSame(visit, g.books, s, out.book);
    OneUntracked(g, visit, s, m.ref, m.side, m.price, m.shares);
  }

  lemma ReplaceMiscounts(f: Feed, r: ReplaceFields, visit: seq<Symbol>)
    requires Indexed(f) && Clashes(f, Swap(r)) && Visits(visit, OnReplace(f, r).books)
    ensures OpenOver(OnReplace(f, r).books, visit) == |OnReplace(f, r).owner| + 1
  {
    hide Indexed, P.InsertPassive, P.CancelOpen, P.Book.Has, P.Book.SideOf, OpenOver, Visits, P.Book.Valid;
    var s := f.owner[r.ref];
    OwnerHolds(f, r.ref);
    DeleteIndexed(f, r.ref);
    var mid := OnDelete(f, r.ref);
    RangeKept(f.BookFor(s), r.ref);
    var side := f.BookFor(s).SideOf(r.ref);
    EnteredAgain(mid, s, r.newRef, side, r.price, r.shares);
    var out := P.InsertPassive(mid.books[s], r.newRef, side, r.price, r.shares);
    assert OnReplace(f, r).books == mid.books[s := out.book];
    VisitsSame(visit, mid.books, s, out.book);
    OneUntracked(mid, visit, s, r.newRef, side, r.price, r.shares);
  }

  /** After a clash one order more is open than is tracked. */
  lemma ClashMiscounts(f: Feed, e: Event, visit: seq<Symbol>)
    requires Indexed(f) && Clashes(f, e) && Visits(visit, Step(f, e).books)
    ensures OpenOver(Step(f, e).books, visit) == |Step(f, e).owner| + 1
  {
    hide Indexed, OpenOver, OnAdd, OnReplace, Visits;
    match e
    case Add(m) => AddMiscounts(f, m, visit);
    case Swap(r) => ReplaceMiscounts(f, r, visit);
  }

  /** After one event the orders tracked are as many as are open exactly when the event does not clash. */
  lemma CountIff(f: Feed, e: Event, visit: seq<Symbol>)
    requires Indexed(f) && Visits(visit, Step(f, e).books)
    ensures |Step(f, e).owner| == OpenOver(Step(f, e).books, visit) <==> !Clashes(f, e)
  {
    hide Indexed, Step, Clashes;
    StepIndexedIff(f, e);
    if Clashes(f, e) {
      ClashMiscounts(f, e, visit);
    } else {
      TrackedIsOpen(Step(f, e), visit);
    }
  }

  /** Reusing a live reference breaks this: added under two symbols, it is open twice and tracked once. */
  lemma ReuseIsTrackedOnce(range: PriceRange, s: Symbol, t: Symbol, ts: nat)
    requires s != t && range.Unbounded?
    ensures var once := Add(AddFields(ts, 1, Bid, 1, s, 1));
      var twice := Add(AddFields(ts, 1, Bid, 1, t, 1));
      var f := Steps(EmptyFeed(range, {}), [once, twice]);
      && f.books.Keys == {s, t} && |f.owner| == 1 && OpenOver(f.books, [s, t]) == 2
  {
    var o := OpenOrder(1, 1, 1, 0);
    var b := P.Empty(range);
    assert P.Insert(Bid, [], o) == [o];
    var once := Add(AddFields(ts, 1, Bid, 1, s, 1));
    var twice := Add(AddFields(ts, 1, Bid, 1, t, 1));
    var f0 := EmptyFeed(range, {});
    var f1 := Step(f0, once);
    var f2 := Step(f1, twice);
    assert [once, twice][1..] == [twice] && [twice][1..] == [];
    assert Steps(f2, []) == f2 && Steps(f1, [twice]) == Steps(f2, []);
    assert f2.owner == map[1 := s];
    assert f2.books.Keys == {s, t};
    assert OpenOver(f2.books, [s, t]) == OpenOrders(f2.books[s]) + OpenOver(f2.books, [t]) by {
      assert [s, t][1..] == [t];
    }
    assert [t][1..] == [];
  }
}
