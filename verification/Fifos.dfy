/** One side of the ladder as values: the FIFO contents of its levels, best level first, and the
    priority queue they flatten to. */
module Fifos {
  import opened Types
  import P = Priority

  type Fifo = seq<OpenOrder>

  function Flatten(f: seq<Fifo>): seq<OpenOrder> {
    if f == [] then [] else f[0] + Flatten(f[1..])
  }

  /** How many orders stand before level `i`. */
  function Offset(f: seq<Fifo>, i: nat): (n: nat)
    requires i <= |f|
    ensures n <= |Flatten(f)|
  {
    if i == 0 then 0 else |f[0]| + Offset(f[1..], i - 1)
  }

  lemma {:induction false} OffsetStep(f: seq<Fifo>, i: nat)
    requires i < |f|
    ensures Offset(f, i + 1) == Offset(f, i) + |f[i]|
    ensures Flatten(f)[Offset(f, i)..Offset(f, i + 1)] == f[i]
  {
    if i > 0 {
      OffsetStep(f[1..], i - 1);
      var q := Flatten(f);
      var a, b := Offset(f[1..], i - 1), Offset(f[1..], i);
      assert q[|f[0]|..] == Flatten(f[1..]);
      assert q[|f[0]| + a..|f[0]| + b] == Flatten(f[1..])[a..b];
    }
  }

  lemma FlattenAt(f: seq<Fifo>, i: nat, k: nat)
    requires i < |f| && k < |f[i]|
    ensures Offset(f, i) + k < |Flatten(f)| && Flatten(f)[Offset(f, i) + k] == f[i][k]
  {
    OffsetStep(f, i);
    assert f[i][k] == Flatten(f)[Offset(f, i)..Offset(f, i + 1)][k];
  }

  lemma {:induction false} FlattenFind(f: seq<Fifo>, n: nat) returns (i: nat, k: nat)
    requires n < |Flatten(f)|
    ensures i < |f| && k < |f[i]| && f[i][k] == Flatten(f)[n] && n == Offset(f, i) + k
  {
    if n < |f[0]| {
      i, k := 0, n;
    } else {
      i, k := FlattenFind(f[1..], n - |f[0]|);
      i := i + 1;
    }
  }

  lemma {:induction false} FlattenConcat(f: seq<Fifo>, g: seq<Fifo>)
    ensures Flatten(f + g) == Flatten(f) + Flatten(g)
    ensures Offset(f + g, |f|) == |Flatten(f)|
  {
    if f == [] {
      assert f + g == g;
    } else {
      assert (f + g)[1..] == f[1..] + g;
      FlattenConcat(f[1..], g);
    }
  }

  lemma FlattenSplit(f: seq<Fifo>, x: Fifo, g: seq<Fifo>)
    ensures Flatten(f + [x] + g) == Flatten(f) + x + Flatten(g)
    ensures Offset(f + [x] + g, |f|) == |Flatten(f)|
  {
    FlattenConcat(f + [x], g);
    FlattenConcat(f, [x]);
    assert f + [x] + g == f + ([x] + g);
    FlattenConcat(f, [x] + g);
  }

  lemma FlattenFrom(f: seq<Fifo>, i: nat)
    requires i < |f|
    ensures Flatten(f[i..]) == f[i] + Flatten(f[i + 1..])
    ensures i + 1 == |f| ==> Flatten(f[i + 1..]) == []
  {
    assert f[i..][1..] == f[i + 1..];
  }

  lemma Inside<T>(a: seq<T>, x: seq<T>, b: seq<T>, k: nat, v: T)
    requires k < |x|
    ensures var q := a + x + b; var n := |a| + k;
            && q[..n] + q[n + 1..] == a + (x[..k] + x[k + 1..]) + b
            && q[n := v] == a + x[k := v] + b
  {
    var q := a + x + b;
    var n := |a| + k;
    assert q[..n] == a + x[..k];
    assert q[n + 1..] == x[k + 1..] + b;
  }

  /** The stretches of the queue before, in and after level `i`. */
  lemma Stretches(f: seq<Fifo>, i: nat) returns (a: seq<OpenOrder>, b: seq<OpenOrder>)
    requires i < |f|
    ensures Flatten(f) == a + f[i] + b && |a| == Offset(f, i)
    ensures forall x: Fifo :: Flatten(f[i := x]) == a + x + b
  {
    a, b := Flatten(f)[..Offset(f, i)], Flatten(f[i + 1..]);
    assert f == f[..i] + [f[i]] + f[i + 1..];
    FlattenSplit(f[..i], f[i], f[i + 1..]);
    forall x: Fifo
      ensures Flatten(f[i := x]) == a + x + b
    {
      assert f[i := x] == f[..i] + [x] + f[i + 1..];
      FlattenSplit(f[..i], x, f[i + 1..]);
    }
  }

  lemma FlattenWithout(f: seq<Fifo>, i: nat, k: nat)
    requires i < |f| && k < |f[i]|
    ensures Offset(f, i) + k < |Flatten(f)|
    ensures Flatten(f[i := P.Without(f[i], k)]) == P.Without(Flatten(f), Offset(f, i) + k)
  {
    hide Flatten, Offset;
    var a, b := Stretches(f, i);
    Inside(a, f[i], b, k, f[i][k]);
  }

  lemma FlattenUpdate(f: seq<Fifo>, i: nat, k: nat, o: OpenOrder)
    requires i < |f| && k < |f[i]|
    ensures Offset(f, i) + k < |Flatten(f)|
    ensures Flatten(f[i := f[i][k := o]]) == Flatten(f)[Offset(f, i) + k := o]
  {
    hide Flatten, Offset;
    var a, b := Stretches(f, i);
    Inside(a, f[i], b, k, o);
  }

  /** An empty level contributes nothing, wherever it stands. */
  lemma FlattenEmpty(f: seq<Fifo>, g: seq<Fifo>)
    ensures Flatten(f + [[]] + g) == Flatten(f + g)
  {
    FlattenSplit(f, [], g);
    FlattenConcat(f, g);
  }

  lemma FlattenDropEmpty(f: seq<Fifo>, i: nat)
    requires i < |f| && f[i] == []
    ensures Flatten(f[..i] + f[i + 1..]) == Flatten(f)
  {
    FlattenEmpty(f[..i], f[i + 1..]);
    assert f[..i] + [[]] + f[i + 1..] == f;
  }

  // ----- prices

  ghost predicate SortedKeys(s: Side, keys: seq<Price>) {
    forall i, j :: 0 <= i < j < |keys| ==> Better(s, keys[i], keys[j])
  }

  /** Every order of a level is at the level's price. */
  ghost predicate Priced(keys: seq<Price>, f: seq<Fifo>) {
    |keys| == |f| && forall i, k :: 0 <= i < |f| && 0 <= k < |f[i]| ==> f[i][k].price == keys[i]
  }

  /** Joining the back of level `i` is joining the queue behind every order of its price. */
  lemma BackOfLevel(s: Side, keys: seq<Price>, f: seq<Fifo>, i: nat, o: OpenOrder)
    requires SortedKeys(s, keys) && Priced(keys, f) && i < |f| && o.price == keys[i]
    ensures Flatten(f[i := f[i] + [o]]) == P.Insert(s, Flatten(f), o)
  {
    hide Flatten, Offset;
    var q := Flatten(f);
    var n := Offset(f, i + 1);
    OffsetStep(f, i);
    BackSlot(s, keys, f, i, o.price);
    var a, b := Stretches(f, i);
    assert q == (a + f[i]) + b;
    assert a + (f[i] + [o]) + b == (a + f[i]) + [o] + b;
  }

  lemma BackSlot(s: Side, keys: seq<Price>, f: seq<Fifo>, i: nat, price: Price)
    requires SortedKeys(s, keys) && Priced(keys, f) && i < |f| && price == keys[i]
    ensures P.Slot(s, Flatten(f), price) == Offset(f, i + 1)
  {
    var q := Flatten(f);
    var n := Offset(f, i + 1);
    forall t | 0 <= t < |q|
      ensures Better(s, price, q[t].price) <==> t >= n
    {
      var j, k := FlattenFind(f, t);
      OffsetBelow(f, i + 1, j, k);
    }
    P.SlotIs(s, q, price, n);
  }

  /** Position `k` of level `j` stands before level `i` exactly when `j < i`. */
  lemma {:induction false} OffsetBelow(f: seq<Fifo>, i: nat, j: nat, k: nat)
    requires i <= |f| && j < |f| && k < |f[j]|
    ensures Offset(f, j) + k < Offset(f, i) <==> j < i
  {
    if i > 0 && j > 0 {
      OffsetBelow(f[1..], i - 1, j - 1, k);
    }
  }

  // ----- changing one order

  /** The order at place `k` of level `i` is gone. */
  function Removed(f: seq<Fifo>, i: nat, k: nat): seq<Fifo>
    requires i < |f| && k < |f[i]|
  {
    f[i := P.Without(f[i], k)]
  }

  /** The order at place `k` of level `i` has quantity `q`. */
  function WithQty(f: seq<Fifo>, i: nat, k: nat, q: Qty): (r: seq<Fifo>)
    requires i < |f| && k < |f[i]|
    ensures |r| == |f| && |r[i]| == |f[i]|
  {
    f[i := f[i][k := f[i][k].(qty := q)]]
  }

  // ----- the front of the best level

  predicate Headed(f: seq<Fifo>) {
    f != [] && f[0] != []
  }

  function FrontFilled(f: seq<Fifo>, fill: Qty): seq<Fifo>
    requires Headed(f) && fill <= f[0][0].qty
  {
    var left := f[0][0].qty - fill;
    if left == 0 then Removed(f, 0, 0) else WithQty(f, 0, 0, left)
  }

  lemma HeadOf(f: seq<Fifo>)
    requires Headed(f)
    ensures Flatten(f) != [] && Flatten(f)[0] == f[0][0] && Flatten(Removed(f, 0, 0)) == Flatten(f)[1..]
  {
    FlattenWithout(f, 0, 0);
  }

  lemma HeadFilled(f: seq<Fifo>, fill: Qty)
    requires Headed(f) && fill <= f[0][0].qty
    ensures Flatten(f) != [] && Flatten(f)[0] == f[0][0]
    ensures Flatten(FrontFilled(f, fill)) ==
            (if fill == f[0][0].qty then [] else [f[0][0].(qty := f[0][0].qty - fill)]) + Flatten(f)[1..]
  {
    var o := f[0][0];
    FlattenUpdate(f, 0, 0, o.(qty := o.qty - fill));
    HeadOf(f);
  }

  lemma StillHeaded(f: seq<Fifo>, q: Qty)
    requires Headed(f)
    ensures Headed(WithQty(f, 0, 0, q))
  {
  }

  lemma SpentGone(f: seq<Fifo>)
    requires Headed(f)
    ensures Removed(WithQty(f, 0, 0, 0), 0, 0) == Removed(f, 0, 0)
  {
    assert P.Without(WithQty(f, 0, 0, 0)[0], 0) == P.Without(f[0], 0);
  }
}
