/** The fingerprint of a book, include/pricetime/book.hpp and include/pricetime/hash.hpp: every level from best
    to worst and every order of it, oldest first, mixed into one number. The mixing of one word is any
    function. */
module Fingerprint {
  import opened Types
  import opened Fifos
  import opened Ladder
  import N = Nodes
  import P = Priority
  import B = OrderBook

  type Mix = (nat, int) -> nat

  const OFFSET: nat := 14695981039346656037

  function MixAll(mix: Mix, h: nat, words: seq<int>): nat
    decreases |words|
  {
    if words == [] then h else MixAll(mix, mix(h, words[0]), words[1..])
  }

  function OrderWords(f: Fifo): seq<int> {
    if f == [] then [] else [f[0].id, f[0].qty] + OrderWords(f[1..])
  }

  function LevelWords(p: Price, f: Fifo): seq<int> {
    [p, P.TotalQty(f), |f|] + OrderWords(f)
  }

  function SideWords(keys: seq<Price>, fifos: seq<Fifo>): seq<int>
    requires |keys| == |fifos|
  {
    if keys == [] then [] else LevelWords(keys[0], fifos[0]) + SideWords(keys[1..], fifos[1..])
  }

  /** The fingerprint of the levels listed. */
  function HashOf(mix: Mix, bidKeys: seq<Price>, bids: seq<Fifo>, askKeys: seq<Price>, asks: seq<Fifo>): nat
    requires |bidKeys| == |bids| && |askKeys| == |asks|
  {
    var h := MixAll(mix, mix(OFFSET, 1), SideWords(bidKeys, bids));
    MixAll(mix, mix(h, 2), SideWords(askKeys, asks))
  }

  lemma {:induction false} MixConcat(mix: Mix, h: nat, a: seq<int>, b: seq<int>)
    ensures MixAll(mix, h, a + b) == MixAll(mix, MixAll(mix, h, a), b)
    decreases |a|
  {
    if a == [] {
      assert a + b == b;
    } else {
      assert (a + b)[1..] == a[1..] + b;
      MixConcat(mix, mix(h, a[0]), a[1..], b);
    }
  }

  lemma MixOrder(mix: Mix, h: nat, f: Fifo, k: nat)
    requires k < |f|
    ensures MixAll(mix, h, OrderWords(f[k..])) == MixAll(mix, mix(mix(h, f[k].id), f[k].qty), OrderWords(f[k + 1..]))
  {
    var rest := OrderWords(f[k + 1..]);
    var words := [f[k].id, f[k].qty] + rest;
    assert f[k..][1..] == f[k + 1..] && OrderWords(f[k..]) == words;
    assert words[1..] == [f[k].qty] + rest && words[1..][1..] == rest;
  }

  lemma MixHead(mix: Mix, h: nat, p: Price, f: Fifo)
    ensures MixAll(mix, h, LevelWords(p, f)) == MixAll(mix, mix(mix(mix(h, p), P.TotalQty(f)), |f|), OrderWords(f))
  {
    var orders := OrderWords(f);
    var words := LevelWords(p, f);
    assert words[1..] == [P.TotalQty(f), |f|] + orders;
    assert words[1..][1..] == [|f|] + orders;
    assert words[1..][1..][1..] == orders;
    assert MixAll(mix, h, words) == MixAll(mix, mix(h, p), words[1..]);
    assert MixAll(mix, mix(h, p), words[1..]) == MixAll(mix, mix(mix(h, p), P.TotalQty(f)), words[1..][1..]);
  }

  /** One level: its price and aggregates, and then its orders by their links. */
  method MixLevel(m: LevelMap, lvl: N.Level, mix: Mix, was: nat, ghost i: nat) returns (h: nat)
    requires m.Valid() && i < |m.levels| && m.levels[i] == lvl
    ensures i < |m.keys| && i < |m.fifos| && h == MixAll(mix, was, LevelWords(m.keys[i], m.fifos[i]))
  {
    m.LevelAt(i);
    hide LevelMap.Valid, N.Level.Valid, MixAll, OrderWords, LevelWords;
    ghost var f: Fifo, k: nat := m.fifos[i], 0;
    MixHead(mix, was, m.keys[i], f);
    h := mix(mix(mix(was, lvl.price), lvl.totalQty), lvl.orderCount);
    assert f[0..] == f;
    var o := lvl.head;
    while o != null
      invariant k <= |lvl.queue| == |f| && o == if k == |lvl.queue| then null else lvl.queue[k]
      invariant MixAll(mix, h, OrderWords(f[k..])) == MixAll(mix, was, LevelWords(m.keys[i], f))
      decreases |lvl.queue| - k
    {
      m.NodeAt(i, k);
      MixOrder(mix, h, f, k);
      h := mix(mix(h, o.id), o.qty);
      o, k := o.next, k + 1;
    }
    NothingToMix(mix, h, f);
  }

  lemma NothingToMix(mix: Mix, h: nat, f: Fifo)
    ensures MixAll(mix, h, OrderWords(f[|f|..])) == h
  {
  }

  lemma MixNextLevel(mix: Mix, h: nat, keys: seq<Price>, fifos: seq<Fifo>, i: nat)
    requires |keys| == |fifos| && i < |keys|
    ensures MixAll(mix, h, SideWords(keys[i..], fifos[i..]))
            == MixAll(mix, MixAll(mix, h, LevelWords(keys[i], fifos[i])), SideWords(keys[i + 1..], fifos[i + 1..]))
  {
    assert keys[i..][1..] == keys[i + 1..] && fifos[i..][1..] == fifos[i + 1..];
    MixConcat(mix, h, LevelWords(keys[i], fifos[i]), SideWords(keys[i + 1..], fifos[i + 1..]));
  }

  /** One turn of the walk: mixes a level and goes on to the next. */
  method MixNext(m: LevelMap, mix: Mix, was: nat, i: int, seen: nat) returns (h: nat, j: int)
    requires m.Valid() && m.Ordered() && m.Stored() && m.At(i, seen) && seen < |m.levels|
    ensures m.At(j, seen + 1) && seen < |m.keys| == |m.fifos|
    ensures MixAll(mix, h, SideWords(m.keys[seen + 1..], m.fifos[seen + 1..]))
            == MixAll(mix, was, SideWords(m.keys[seen..], m.fifos[seen..]))
  {
    m.LevelAt(seen);
    hide LevelMap.Valid, MixAll, SideWords, LevelWords, LevelMap.Ordered, LevelMap.Stored, LevelMap.At;
    MixNextLevel(mix, was, m.keys, m.fifos, seen);
    h := MixLevel(m, m.Here(i, seen), mix, was, seen);
    j := m.Next(i, seen);
  }

  /** One side, best level first. */
  method MixSide(m: LevelMap, mix: Mix, was: nat) returns (h: nat)
    requires m.Valid()
    ensures |m.keys| == |m.fifos| && h == MixAll(mix, was, SideWords(m.keys, m.fifos))
  {
    m.CanWalk();
    hide LevelMap.Valid, MixAll, SideWords, LevelMap.Ordered, LevelMap.Stored, LevelMap.At;
    assert m.keys[0..] == m.keys && m.fifos[0..] == m.fifos;
    h := was;
    var i := m.First();
    var seen := 0;
    while seen < m.Count()
      invariant seen <= |m.levels| == |m.keys| == |m.fifos| && m.At(i, seen)
      invariant MixAll(mix, h, SideWords(m.keys[seen..], m.fifos[seen..]))
                == MixAll(mix, was, SideWords(m.keys, m.fifos))
    {
      h, i := MixNext(m, mix, h, i, seen);
      seen := seen + 1;
    }
    NoLevelToMix(mix, h, m.keys, m.fifos);
  }

  lemma NoLevelToMix(mix: Mix, h: nat, keys: seq<Price>, fifos: seq<Fifo>)
    requires |keys| == |fifos|
    ensures MixAll(mix, h, SideWords(keys[|keys|..], fifos[|keys|..])) == h
  {
  }

  /** The fingerprint of the linked book, which its levels alone decide. */
  method StateHash(b: B.Book, mix: Mix) returns (h: nat)
    requires b.Valid()
    ensures var m, t := b.ladder.bids, b.ladder.asks;
            && |m.keys| == |m.fifos| && |t.keys| == |t.fifos| && h == HashOf(mix, m.keys, m.fifos, t.keys, t.fifos)
  {
    assert b.ladder.bids.Valid() && b.ladder.asks.Valid();
    hide B.Book.Valid, LevelMap.Valid, MixAll, SideWords;
    h := MixSide(b.ladder.bids, mix, mix(OFFSET, 1));
    h := MixSide(b.ladder.asks, mix, mix(h, 2));
  }

  /** The words of a book with two bids at one price and one ask, in the order they are mixed. */
  lemma WordsOfThree(mix: Mix)
    ensures var bids, asks := [OpenOrder(1, 10, 5, 0), OpenOrder(2, 10, 7, 3)], [OpenOrder(3, 11, 4, 0)];
            HashOf(mix, [10], [bids], [11], [asks])
            == MixAll(mix, OFFSET, [1] + [10, 12, 2, 1, 5, 2, 7] + [2] + [11, 4, 1, 3, 4])
  {
    TwoOrders(OpenOrder(1, 10, 5, 0), OpenOrder(2, 10, 7, 3));
    OneOrder(OpenOrder(3, 11, 4, 0));
    OneLevel(10, [OpenOrder(1, 10, 5, 0), OpenOrder(2, 10, 7, 3)]);
    OneLevel(11, [OpenOrder(3, 11, 4, 0)]);
    hide MixAll, SideWords, OrderWords, P.TotalQty;
    var b, a := [10, 12, 2, 1, 5, 2, 7], [11, 4, 1, 3, 4];
    assert SideWords([10], [[OpenOrder(1, 10, 5, 0), OpenOrder(2, 10, 7, 3)]]) == b;
    assert SideWords([11], [[OpenOrder(3, 11, 4, 0)]]) == a;
    Chained(mix, b, a);
  }

  lemma Chained(mix: Mix, b: seq<int>, a: seq<int>)
    ensures MixAll(mix, mix(MixAll(mix, mix(OFFSET, 1), b), 2), a) == MixAll(mix, OFFSET, [1] + b + [2] + a)
  {
    MixFirst(mix, mix(OFFSET, 1), b, 2, a);
    MixFirst(mix, OFFSET, [], 1, b + [2] + a);
    hide MixAll;
    assert [] + [1] + (b + [2] + a) == [1] + b + [2] + a;
  }

  lemma OneOrder(o: OpenOrder)
    ensures OrderWords([o]) == [o.id, o.qty] && P.TotalQty([o]) == o.qty
  {
    assert [o][1..] == [];
  }

  lemma TwoOrders(o: OpenOrder, p: OpenOrder)
    ensures OrderWords([o, p]) == [o.id, o.qty, p.id, p.qty] && P.TotalQty([o, p]) == o.qty + p.qty
  {
    OneOrder(p);
    assert [o, p][1..] == [p];
  }

  lemma OneLevel(p: Price, f: Fifo)
    ensures SideWords([p], [f]) == [p, P.TotalQty(f), |f|] + OrderWords(f)
  {
    assert [p][1..] == [] && [f][1..] == [];
  }

  lemma MixFirst(mix: Mix, h: nat, a: seq<int>, w: int, b: seq<int>)
    ensures MixAll(mix, h, a + [w] + b) == MixAll(mix, mix(MixAll(mix, h, a), w), b) && MixAll(mix, h, []) == h
  {
    assert a + [w] + b == a + ([w] + b);
    MixConcat(mix, h, a, [w] + b);
    assert ([w] + b)[1..] == b;
  }
}
