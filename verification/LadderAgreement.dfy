/** The book over the contiguous ladder of include/pricetime/ladder_dense.hpp and over the ordered-map ladder
    of include/pricetime/ladder_map.hpp, driven by the same calls. */
module LadderAgreement {
  import opened Types
  import opened Fifos
  import opened Ladder
  import P = Priority
  import L = BookLaws
  import B = OrderBook
  import A = Agreement
  import H = Fingerprint

  // ----- one call over either ladder

  /** The call gets as far as the price check, with a price outside the band. */
  predicate OffBand(b: P.Book, band: PriceRange, op: P.Op) {
    match op
    case Limit(_, id, _, price, qty) => id != 0 && qty != 0 && !band.Valid(price)
    case Ioc(_, id, _, price, qty) => id != 0 && qty != 0 && !band.Valid(price)
    case Fok(_, id, _, price, qty) => id != 0 && qty != 0 && !band.Valid(price)
    case Passive(id, _, price, qty) => id != 0 && qty != 0 && !band.Valid(price)
    case ReplaceId(oldId, newId, price, qty) => b.Has(oldId) && newId != 0 && qty != 0 && !band.Valid(price)
    case _ => false
  }

  function Over(b: P.Book, range: PriceRange): P.Book {
    b.(range := range)
  }

  /** The same outcome, its book being over `range`. */
  function OutcomeOver(out: P.Outcome, range: PriceRange): P.Outcome {
    out.(book := Over(out.book, range))
  }

  lemma LimitOver(b: P.Book, band: PriceRange, actor: ParticipantId, id: OrderId, s: Side, price: Price, qty: Qty)
    requires b.range.Unbounded? && (id != 0 && qty != 0 ==> band.Valid(price))
    ensures P.AddLimit(Over(b, band), actor, id, s, price, qty)
            == OutcomeOver(P.AddLimit(b, actor, id, s, price, qty), band)
  {
    hide P.Match, P.Insert;
    assert P.Validate(Over(b, band), id, price, qty) == P.Validate(b, id, price, qty);
  }

  lemma ImmediateOver(b: P.Book, band: PriceRange, a: Aggressor, qty: Qty)
    ensures P.Immediate(Over(b, band), a, qty) == OutcomeOver(P.Immediate(b, a, qty), band)
  {
    hide P.Match;
  }

  lemma KilledOver(b: P.Book, band: PriceRange, actor: ParticipantId, id: OrderId, s: Side, price: Price, qty: Qty)
    requires b.range.Unbounded? && (id != 0 && qty != 0 ==> band.Valid(price))
    ensures P.AddIoc(Over(b, band), actor, id, s, price, qty)
            == OutcomeOver(P.AddIoc(b, actor, id, s, price, qty), band)
    ensures P.AddFok(Over(b, band), actor, id, s, price, qty)
            == OutcomeOver(P.AddFok(b, actor, id, s, price, qty), band)
  {
    ImmediateOver(b, band, Aggressor(id, actor, s, Some(price), b.stp), qty);
    hide P.Immediate, P.Reachable;
    assert P.Validate(Over(b, band), id, price, qty) == P.Validate(b, id, price, qty);
  }

  lemma MarketOver(b: P.Book, band: PriceRange, actor: ParticipantId, id: OrderId, s: Side, qty: Qty)
    ensures P.AddMarket(Over(b, band), actor, id, s, qty) == OutcomeOver(P.AddMarket(b, actor, id, s, qty), band)
  {
    ImmediateOver(b, band, Aggressor(id, actor, s, None, b.stp), qty);
    hide P.Immediate;
  }

  lemma ReplaceOver(b: P.Book, band: PriceRange, oldId: OrderId, newId: OrderId, price: Price, qty: Qty)
    requires b.range.Unbounded? && (b.Has(oldId) && newId != 0 && qty != 0 ==> band.Valid(price))
    ensures P.Replace(Over(b, band), oldId, newId, price, qty)
            == OutcomeOver(P.Replace(b, oldId, newId, price, qty), band)
  {
    hide P.AddLimit;
    if b.Has(oldId) && newId != 0 && qty != 0 {
      var left := P.CancelOpen(b, oldId);
      assert P.CancelOpen(Over(b, band), oldId) == Over(left, band);
      LimitOver(left, band, b.Find(oldId).participant, newId, b.SideOf(oldId), price, qty);
    }
  }

  lemma PassiveOver(b: P.Book, band: PriceRange, id: OrderId, s: Side, price: Price, qty: Qty)
    requires b.range.Unbounded? && (id != 0 && qty != 0 ==> band.Valid(price))
    ensures P.InsertPassive(Over(b, band), id, s, price, qty)
            == OutcomeOver(P.InsertPassive(b, id, s, price, qty), band)
  {
    hide P.Insert;
    assert P.Validate(Over(b, band), id, price, qty) == P.Validate(b, id, price, qty);
  }

  lemma CancelOver(b: P.Book, band: PriceRange, id: OrderId)
    ensures P.Cancel(Over(b, band), id) == OutcomeOver(P.Cancel(b, id), band)
  {
  }

  lemma ConsumeOver(b: P.Book, band: PriceRange, id: OrderId, qty: Qty, isExecution: bool)
    ensures P.Consume(Over(b, band), id, qty, isExecution) == OutcomeOver(P.Consume(b, id, qty, isExecution), band)
  {
  }

  /** Unless a call puts a price outside the band to the price check, it does over the band what it does over
      the tree. */
  lemma InBandSame(b: P.Book, band: PriceRange, op: P.Op)
    requires b.range.Unbounded? && !OffBand(b, band, op)
    ensures P.Apply(Over(b, band), op) == OutcomeOver(P.Apply(b, op), band)
  {
    hide P.AddLimit, P.AddIoc, P.AddFok, P.AddMarket, P.Replace, P.Cancel, P.Consume, P.InsertPassive;
    match op
    case Limit(actor, id, s, price, qty) => LimitOver(b, band, actor, id, s, price, qty);
    case Ioc(actor, id, s, price, qty) => KilledOver(b, band, actor, id, s, price, qty);
    case Fok(actor, id, s, price, qty) => KilledOver(b, band, actor, id, s, price, qty);
    case Market(actor, id, s, qty) => MarketOver(b, band, actor, id, s, qty);
    case Passive(id, s, price, qty) => PassiveOver(b, band, id, s, price, qty);
    case ReplaceId(oldId, newId, price, qty) => ReplaceOver(b, band, oldId, newId, price, qty);
    case CancelId(id) => CancelOver(b, band, id);
    case ExecuteResting(id, qty) => ConsumeOver(b, band, id, qty, true);
    case ReduceResting(id, qty) => ConsumeOver(b, band, id, qty, false);
    case SetPolicy(_) =>
  }

  /** If it does, the band refuses it for its price and the tree does not. */
  lemma OffBandDiffers(b: P.Book, band: PriceRange, op: P.Op)
    requires b.range.Unbounded? && OffBand(b, band, op)
    ensures P.Apply(Over(b, band), op) == P.Outcome(Over(b, band), RejectedBadPrice, [])
    ensures P.Apply(b, op).result != RejectedBadPrice
  {
    hide P.Match, P.Reachable, P.Insert;
  }

  // ----- runs over either ladder

  /** Some call of the run gets as far as the price check with a price outside the band. */
  predicate EverOff(b: P.Book, band: PriceRange, ops: seq<P.Op>)
    decreases |ops|
  {
    ops != [] && (OffBand(b, band, ops[0]) || EverOff(P.Apply(b, ops[0]).book, band, ops[1..]))
  }

  lemma KeepsRange(b: P.Book, op: P.Op)
    ensures P.Apply(b, op).book.range == b.range
  {
    hide P.Match, P.Reachable, P.Insert;
  }

  lemma {:induction false} RunKeepsRange(b: P.Book, ops: seq<P.Op>)
    ensures P.ApplyAll(b, ops).range == b.range
    decreases |ops|
  {
    hide P.Apply;
    if ops != [] {
      KeepsRange(b, ops[0]);
      RunKeepsRange(P.Apply(b, ops[0]).book, ops[1..]);
    }
  }

  /** A run gets the same replies over the band and over the tree exactly when no call puts a price outside the
      band to the price check; it then leaves the same orders and counters. */
  lemma {:induction false} RunsAlikeIff(b: P.Book, band: PriceRange, ops: seq<P.Op>)
    requires b.range.Unbounded?
    ensures P.Replies(Over(b, band), ops) == P.Replies(b, ops) <==> !EverOff(b, band, ops)
    ensures !EverOff(b, band, ops) ==> P.ApplyAll(Over(b, band), ops) == Over(P.ApplyAll(b, ops), band)
    decreases |ops|
  {
    hide P.Apply, OffBand;
    if ops != [] {
      var op, tree := ops[0], P.Apply(b, ops[0]);
      var dense := P.Apply(Over(b, band), op);
      assert P.Replies(b, ops)[0] == (tree.result, tree.execs);
      assert P.Replies(Over(b, band), ops)[0] == (dense.result, dense.execs);
      if OffBand(b, band, op) {
        OffBandDiffers(b, band, op);
      } else {
        InBandSame(b, band, op);
        KeepsRange(b, op);
        RunsAlikeIff(tree.book, band, ops[1..]);
        assert P.Replies(b, ops)[1..] == P.Replies(tree.book, ops[1..]);
        assert P.Replies(Over(b, band), ops)[1..] == P.Replies(dense.book, ops[1..]);
      }
    }
  }

  // ----- the levels of a side are settled by its queue

  /** The first level is the stretch of the queue at the price of its front. */
  lemma FirstLevel(s: Side, keys: seq<Price>, f: seq<Fifo>)
    requires SortedKeys(s, keys) && Priced(keys, f) && f != [] && forall i :: 0 <= i < |f| ==> f[i] != []
    ensures var q := Flatten(f);
            && 0 < |f[0]| <= |q| && q[..|f[0]|] == f[0] && q[|f[0]|..] == Flatten(f[1..])
            && (forall n :: 0 <= n < |f[0]| ==> q[n].price == keys[0])
            && (|f[0]| < |q| ==> q[|f[0]|].price != keys[0])
    ensures SortedKeys(s, keys[1..]) && Priced(keys[1..], f[1..])
  {
    var q := Flatten(f);
    if |f[0]| < |q| {
      assert q[|f[0]|] == Flatten(f[1..])[0];
      assert f[1..][0] == f[1];
    }
  }

  /** Two lists of levels without an empty one, each level at one price and the best first, hold the same
      queue only if they are the same. */
  lemma {:induction false} LevelsSettled(s: Side, keys: seq<Price>, f: seq<Fifo>, keys': seq<Price>, f': seq<Fifo>)
    requires SortedKeys(s, keys) && Priced(keys, f) && forall i :: 0 <= i < |f| ==> f[i] != []
    requires SortedKeys(s, keys') && Priced(keys', f') && forall i :: 0 <= i < |f'| ==> f'[i] != []
    requires Flatten(f) == Flatten(f')
    ensures keys == keys' && f == f'
    decreases |f|
  {
    if f != [] {
      FirstLevel(s, keys, f);
    }
    if f' != [] {
      FirstLevel(s, keys', f');
    }
    var q := Flatten(f);
    if f != [] {
      assert q == Flatten(f') && f' != [];
      hide SortedKeys, Flatten;
      assert q[0].price == keys[0] == keys'[0];
      assert |f[0]| == |f'[0]|;
      LevelsSettled(s, keys[1..], f[1..], keys'[1..], f'[1..]);
      assert keys == [keys[0]] + keys[1..] && keys' == [keys'[0]] + keys'[1..];
      assert f == [f[0]] + f[1..] && f' == [f'[0]] + f'[1..];
    }
  }

  lemma SideSettled(m: LevelMap, t: LevelMap)
    requires m.Valid() && t.Valid() && m.side == t.side && Flatten(m.fifos) == Flatten(t.fifos)
    requires forall i :: 0 <= i < |m.fifos| ==> m.fifos[i] != []
    requires forall i :: 0 <= i < |t.fifos| ==> t.fifos[i] != []
    ensures m.keys == t.keys && m.fifos == t.fifos
  {
    m.SortedAndPriced();
    t.SortedAndPriced();
    LevelsSettled(m.side, m.keys, m.fifos, t.keys, t.fifos);
  }

  lemma SideOf(b: B.Book, s: Side)
    requires b.Valid()
    ensures var m := b.ladder.On(s);
            && m.Valid() && m.side == s && m.range == b.ladder.range && b.View().Queue(s) == Flatten(m.fifos)
            && (forall i :: 0 <= i < |m.fifos| ==> m.fifos[i] != []) && (m.store.Tree? <==> m.range.Unbounded?)
  {
    hide Flatten, LevelMap.Holding, LevelMap.Placed, LevelMap.Ordered, B.Book.Indexed, P.Book.Valid;
    var m := b.ladder.On(s);
    assert b.Shape(null);
    assert b.Filled(m, null) && m.Valid() && m.Stored();
  }

  lemma KindOf(b: B.Book, s: Side)
    requires b.Valid()
    ensures b.ladder.On(s).Valid() && (b.ladder.On(s).store.Tree? <==> b.View().range.Unbounded?)
  {
    SideOf(b, s);
  }

  /** Books holding the same orders have the same levels, whatever their ladders. */
  lemma SameLevels(b: B.Book, twin: B.Book, s: Side)
    requires b.Valid() && twin.Valid() && b.View().Queue(s) == twin.View().Queue(s)
    ensures b.ladder.On(s).Valid() && twin.ladder.On(s).Valid()
    ensures b.ladder.On(s).keys == twin.ladder.On(s).keys && b.ladder.On(s).fifos == twin.ladder.On(s).fifos
  {
    SideOf(b, s);
    SideOf(twin, s);
    hide B.Book.Valid, B.Book.View, LevelMap.Valid;
    SideSettled(b.ladder.On(s), twin.ladder.On(s));
  }

  /** Both sides of two books list the same levels with the same orders. */
  ghost predicate Alike(b: B.Book, twin: B.Book)
    reads b.ladder.bids, b.ladder.asks, twin.ladder.bids, twin.ladder.asks
  {
    && b.ladder.bids.keys == twin.ladder.bids.keys && b.ladder.bids.fifos == twin.ladder.bids.fifos
    && b.ladder.asks.keys == twin.ladder.asks.keys && b.ladder.asks.fifos == twin.ladder.asks.fifos
  }

  lemma SameOrdersAlike(b: B.Book, twin: B.Book)
    requires b.Valid() && twin.Valid()
    requires b.View().bids == twin.View().bids && b.View().asks == twin.View().asks
    ensures Alike(b, twin)
  {
    hide B.Book.Valid, B.Book.View;
    SameLevels(b, twin, Bid);
    SameLevels(b, twin, Ask);
  }

  /** Books alike have the same fingerprint. */
  method HashBoth(tree: B.Book, dense: B.Book, mix: H.Mix) returns (hash: nat, twin: nat)
    requires tree.Valid() && dense.Valid()
    ensures Alike(tree, dense) ==> hash == twin
  {
    hide B.Book.Valid, LevelMap.Valid, H.HashOf;
    hash := H.StateHash(tree, mix);
    twin := H.StateHash(dense, mix);
  }

  /** Sides listing the same levels show the same walk. */
  method WalkBoth(m: LevelMap, t: LevelMap, keep: Price -> bool) returns (seen: seq<Price>, shown: seq<Price>)
    requires m.Valid() && t.Valid()
    ensures m.keys == t.keys ==> seen == shown
  {
    hide LevelMap.Valid, Visited;
    seen := m.ForEachLevel(keep);
    shown := t.ForEachLevel(keep);
  }

  /** What one call after another answers, and then what a walk of a side sees and the fingerprint. */
  datatype Session = Session(replies: seq<(Result, seq<Execution>)>, walk: seq<Price>, hash: nat)

  /** What is seen of two books that hold the same orders, whatever their ladders. */
  method Observe(tree: B.Book, dense: B.Book, s: Side, keep: Price -> bool, mix: H.Mix,
                 replies: seq<(Result, seq<Execution>)>, answers: seq<(Result, seq<Execution>)>)
    returns (a: Session, b: Session)
    requires tree.Valid() && dense.Valid() && tree.View().range.Unbounded? && dense.View().range.Within?
    ensures tree.ladder.On(s).store.Tree? && dense.ladder.On(s).store.Band?
    ensures a.replies == replies && b.replies == answers
    ensures tree.View().bids == dense.View().bids && tree.View().asks == dense.View().asks ==>
              Alike(tree, dense) && a.walk == b.walk && a.hash == b.hash
  {
    hide B.Book.Valid, B.Book.View, LevelMap.Valid;
    KindOf(tree, s);
    KindOf(dense, s);
    if tree.View().bids == dense.View().bids && tree.View().asks == dense.View().asks {
      SameOrdersAlike(tree, dense);
    }
    var seen, shown := WalkBoth(tree.ladder.On(s), dense.ladder.On(s), keep);
    var hash, twin := HashBoth(tree, dense, mix);
    a, b := Session(replies, seen, hash), Session(answers, shown, twin);
  }

  /** Runs the same calls on two empty linked books, one over the ordered map and one over the band from `lo` to
      `hi`, with any hashes. The replies are the same, call by call, exactly when no call puts a price outside
      the band to the price check. Then both hold the same orders under the same counters, at the same levels;
      a walk of either side sees the same, under any stopping rule; and the fingerprints are the same. */
  method LaddersAgree(lo: Price, hi: Price, treeHash: OrderId -> nat, denseHash: OrderId -> nat, ops: seq<P.Op>,
                      s: Side, keep: Price -> bool, mix: H.Mix)
    returns (tree: B.Book, a: Session, dense: B.Book, b: Session)
    ensures tree.Valid() && tree.ladder.On(s).store.Tree? && dense.Valid() && dense.ladder.On(s).store.Band?
    ensures a.replies == b.replies <==> !EverOff(P.Empty(Unbounded), Within(lo, hi), ops)
    ensures a.replies == b.replies ==>
              a == b && dense.View() == Over(tree.View(), Within(lo, hi)) && Alike(tree, dense)
  {
    hide B.Book.Valid, B.Book.View, LevelMap.Valid, P.ApplyAll, P.Replies, EverOff, Alike;
    var replies, answers;
    tree, replies := A.Drive(Unbounded, treeHash, ops);
    dense, answers := A.Drive(Within(lo, hi), denseHash, ops);
    RunsAlikeIff(P.Empty(Unbounded), Within(lo, hi), ops);
    RunKeepsRange(P.Empty(Unbounded), ops);
    RunKeepsRange(P.Empty(Within(lo, hi)), ops);
    a, b := Observe(tree, dense, s, keep, mix, replies, answers);
  }
}
