/** The encoder of include/pricetime/itch_writer.hpp: it appends framed messages byte by byte to one
    buffer. Each call is proved to append exactly the frame of the message it was asked for. */
module ItchWriter {
  import opened Types
  import opened Arith
  import opened Itch

  lemma DivDiv(v: nat, a: nat, b: nat)
    requires a > 0 && b > 0
    ensures v / a / b == v / (a * b)
  {
    var q, r := v / a, v % a;
    var q', r' := q / b, q % b;
    Regrouped(v, a, b, q, r, q', r');
    QuotientIs(v, a * b, q', r' * a + r);
  }

  lemma Regrouped(v: nat, a: nat, b: nat, q: nat, r: nat, q': nat, r': nat)
    requires a > 0 && b > 0 && v == q * a + r && r < a && q == q' * b + r' && r' < b
    ensures a * b > 0 && r' * a + r < a * b && v == q' * (a * b) + (r' * a + r)
  {
    Regroup(q', b, r', a);
    MulMono(r' + 1, b, a);
    MulMono(1, b, a);
  }

  lemma Regroup(q: nat, b: nat, r: nat, a: nat)
    ensures (q * b + r) * a == q * (a * b) + r * a
    ensures (r + 1) * a == r * a + a && b * a == a * b
  {
  }

  lemma {:induction false} MulMono(x: nat, y: nat, a: nat)
    requires x <= y
    ensures x * a <= y * a
    decreases y - x
  {
    if x < y {
      MulMono(x, y - 1, a);
    }
  }

  lemma QuotientIs(x: nat, m: nat, q: nat, r: nat)
    requires m > 0 && r < m && x == q * m + r
    ensures x / m == q
  {
    ModIs(x, m, q, r);
    assert x / m * m == q * m;
    MulApart(x / m - q, m);
  }

  /** Byte `i` of a field is what shifting the value down to it leaves. */
  lemma {:induction false} PutAt(n: nat, v: nat, i: nat)
    requires i < n
    ensures PutBE(n, v)[i] == v / Pow256(n - 1 - i) % 256
  {
    if i < n - 1 {
      PutAt(n - 1, v / 256, i);
      DivDiv(v, 256, Pow256(n - 2 - i));
    }
  }

  class Writer {
    var buf: Bytes
    var count: nat
    var bodyStart: nat
    var msgLen: nat

    /** The bytes before the message being written, and its bytes so far. */
    ghost var start: Bytes
    ghost var body: Bytes

    constructor ()
      ensures buf == [] && count == 0
    {
      buf, count, bodyStart, msgLen := [], 0, 0, 0;
      start, body := [], [];
    }

    method Clear()
      modifies this
      ensures buf == [] && count == 0
    {
      buf, count := [], 0;
    }

    // ----- fields

    ghost predicate Inside()
      reads this
    {
      buf == start + PutBE(2, msgLen) + body && bodyStart == |start| + 2
    }

    method Put8(v: byte)
      requires Inside()
      modifies `buf, `body
      ensures Inside() && body == old(body) + [v]
    {
      buf := buf + [v];
      body := body + [v];
    }

    /** Appends the `n` low bytes of `v`, the highest first. */
    method PutInt(n: nat, v: nat)
      requires Inside()
      modifies `buf, `body
      ensures Inside() && body == old(body) + PutBE(n, v)
    {
      var k: nat := n;
      while k > 0
        invariant k <= n && Inside() && body == old(body) + PutBE(n, v)[..n - k]
      {
        k := k - 1;
        PutAt(n, v, n - 1 - k);
        hide PutBE;
        Put8(v / Pow256(k) % 256);
      }
    }

    method PutBytes(s: Bytes)
      requires Inside()
      modifies `buf, `body
      ensures Inside() && body == old(body) + s
    {
      hide PutBE;
      for i := 0 to |s|
        invariant Inside() && body == old(body) + s[..i]
      {
        Put8(s[i]);
      }
    }

    /** Zero-fills the message up to `toLen` bytes. */
    method Pad(toLen: nat)
      requires Inside()
      modifies `buf, `body
      ensures Inside() && body == old(body) + Zeros(if |old(body)| < toLen then toLen - |old(body)| else 0)
    {
      hide PutBE;
      while |buf| - bodyStart < toLen
        invariant Inside() && |old(body)| <= |body| && (|body| <= toLen || body == old(body))
        invariant body == old(body) + Zeros(|body| - |old(body)|)
      {
        Put8(0);
      }
    }

    method Begin(t: byte, len: nat)
      modifies `buf, `bodyStart, `msgLen, `start, `body
      ensures Inside() && start == old(buf) && msgLen == len && body == [t, 0, 0, 0, 0]
    {
      TwoBytes(len);
      start, body := buf, [];
      msgLen := len;
      buf := buf + [len / 256 % 256];
      buf := buf + [len % 256];
      bodyStart := |buf|;
      hide PutBE;
      Put8(t);
      PutInt(2, 0);
      PutInt(2, 0);
      TwoBytes(0);
    }

    static lemma TwoBytes(v: nat)
      ensures PutBE(2, v) == [v / 256 % 256, v % 256]
    {
      assert PutBE(1, v / 256) == [v / 256 % 256];
    }

    /** Closes a message whose bytes so far are all of it. */
    method End(ghost m: Msg)
      requires Inside() && msgLen == MessageLength(TypeOf(m)) && body == Body(m)
      modifies `buf, `count, `body
      ensures buf == start + Frame(m) && count == old(count) + 1
    {
      BodyShape(m);
      hide Body, PutBE;
      Pad(msgLen);
      count := count + 1;
      assert buf == start + (PutBE(2, msgLen) + Body(m));
    }

    // ----- messages

    method SystemEvent(ts: nat, code: byte)
      modifies this
      ensures buf == old(buf) + Frame(Msg.SystemEvent(ts, code)) && count == old(count) + 1
    {
      hide PutBE;
      Begin(Code('S'), 12);
      PutInt(6, ts);
      Put8(code);
      End(Msg.SystemEvent(ts, code));
    }

    method StockDirectory(ts: nat, symbol: Symbol, category: byte)
      modifies this
      ensures buf == old(buf) + Frame(Msg.StockDirectory(ts, symbol, category)) && count == old(count) + 1
    {
      hide PutBE, Zeros;
      Begin(Code('R'), 39);
      PutInt(6, ts);
      PutBytes(symbol);
      Put8(category);
      Pad(39);
      End(Msg.StockDirectory(ts, symbol, category));
    }

    method AddOrder(ts: nat, ref: OrderId, side: Side, shares: Qty, symbol: Symbol, price: Price)
      modifies this
      ensures buf == old(buf) + Frame(Msg.AddOrder(ts, ref, side, shares, symbol, price)) && count == old(count) + 1
    {
      hide PutBE;
      Begin(Code('A'), 36);
      PutInt(6, ts);
      PutInt(8, ref);
      Put8(SideByte(side));
      PutInt(4, shares);
      PutBytes(symbol);
      PutInt(4, Price32(price));
      End(Msg.AddOrder(ts, ref, side, shares, symbol, price));
    }

    method AddOrderMpid(ts: nat, ref: OrderId, side: Side, shares: Qty, symbol: Symbol, price: Price, mpid: Bytes)
      modifies this
      ensures buf == old(buf) + Frame(Msg.AddOrderMpid(ts, ref, side, shares, symbol, price, mpid))
      ensures count == old(count) + 1
    {
      hide PutBE;
      Begin(Code('F'), 40);
      PutInt(6, ts);
      PutInt(8, ref);
      Put8(SideByte(side));
      PutInt(4, shares);
      PutBytes(symbol);
      PutInt(4, Price32(price));
      ghost var front := body;
      for i := 0 to 4
        invariant Inside() && body == front + Mpid4(mpid)[..i]
        invariant start == old(buf) && msgLen == 40 && count == old(count)
      {
        Put8(MpidAt(mpid, i));
      }
      End(Msg.AddOrderMpid(ts, ref, side, shares, symbol, price, mpid));
    }

    method OrderExecuted(ts: nat, ref: OrderId, shares: Qty, matchNumber: nat)
      modifies this
      ensures buf == old(buf) + Frame(Msg.OrderExecuted(ts, ref, shares, matchNumber)) && count == old(count) + 1
    {
      hide PutBE;
      Begin(Code('E'), 31);
      PutInt(6, ts);
      PutInt(8, ref);
      PutInt(4, shares);
      PutInt(8, matchNumber);
      End(Msg.OrderExecuted(ts, ref, shares, matchNumber));
    }

    method OrderExecutedWithPrice(ts: nat, ref: OrderId, shares: Qty, matchNumber: nat, printable: bool, price: Price)
      modifies this
      ensures buf == old(buf) + Frame(Msg.ExecutedWithPrice(ts, ref, shares, matchNumber, printable, price))
      ensures count == old(count) + 1
    {
      hide PutBE;
      Begin(Code('C'), 36);
      PutInt(6, ts);
      PutInt(8, ref);
      PutInt(4, shares);
      PutInt(8, matchNumber);
      Put8(if printable then Code('Y') else Code('N'));
      PutInt(4, Price32(price));
      End(Msg.ExecutedWithPrice(ts, ref, shares, matchNumber, printable, price));
    }

    method OrderCancel(ts: nat, ref: OrderId, shares: Qty)
      modifies this
      ensures buf == old(buf) + Frame(Msg.OrderCancel(ts, ref, shares)) && count == old(count) + 1
    {
      hide PutBE;
      Begin(Code('X'), 23);
      PutInt(6, ts);
      PutInt(8, ref);
      PutInt(4, shares);
      End(Msg.OrderCancel(ts, ref, shares));
    }

    method OrderDelete(ts: nat, ref: OrderId)
      modifies this
      ensures buf == old(buf) + Frame(Msg.OrderDelete(ts, ref)) && count == old(count) + 1
    {
      hide PutBE;
      Begin(Code('D'), 19);
      PutInt(6, ts);
      PutInt(8, ref);
      End(Msg.OrderDelete(ts, ref));
    }

    method OrderReplace(ts: nat, ref: OrderId, newRef: OrderId, shares: Qty, price: Price)
      modifies this
      ensures buf == old(buf) + Frame(Msg.OrderReplace(ts, ref, newRef, shares, price)) && count == old(count) + 1
    {
      hide PutBE;
      Begin(Code('U'), 35);
      PutInt(6, ts);
      PutInt(8, ref);
      PutInt(8, newRef);
      PutInt(4, shares);
      PutInt(4, Price32(price));
      End(Msg.OrderReplace(ts, ref, newRef, shares, price));
    }

    method TradeNonCross(ts: nat, ref: OrderId, side: Side, shares: Qty, symbol: Symbol, price: Price, matchNumber: nat)
      modifies this
      ensures buf == old(buf) + Frame(Msg.TradeNonCross(ts, ref, side, shares, symbol, price, matchNumber))
      ensures count == old(count) + 1
    {
      hide PutBE;
      Begin(Code('P'), 44);
      PutInt(6, ts);
      PutInt(8, ref);
      Put8(SideByte(side));
      PutInt(4, shares);
      PutBytes(symbol);
      PutInt(4, Price32(price));
      PutInt(8, matchNumber);
      End(Msg.TradeNonCross(ts, ref, side, shares, symbol, price, matchNumber));
    }

    method StockTradingAction(ts: nat, symbol: Symbol, state: byte)
      modifies this
      ensures buf == old(buf) + Frame(Msg.TradingAction(ts, symbol, state)) && count == old(count) + 1
    {
      hide PutBE, Zeros;
      Begin(Code('H'), 25);
      PutInt(6, ts);
      PutBytes(symbol);
      Put8(state);
      Pad(25);
      End(Msg.TradingAction(ts, symbol, state));
    }

    /** Any one message. */
    method Write(m: Msg)
      modifies this
      ensures buf == old(buf) + Frame(m) && count == old(count) + 1
    {
      hide Frame;
      match m
      case SystemEvent(ts, code) => SystemEvent(ts, code);
      case StockDirectory(ts, symbol, category) => StockDirectory(ts, symbol, category);
      case AddOrder(ts, ref, side, shares, symbol, price) => AddOrder(ts, ref, side, shares, symbol, price);
      case AddOrderMpid(ts, ref, side, shares, symbol, price, mpid) =>
        AddOrderMpid(ts, ref, side, shares, symbol, price, mpid);
      case OrderExecuted(ts, ref, shares, matchNumber) => OrderExecuted(ts, ref, shares, matchNumber);
      case ExecutedWithPrice(ts, ref, shares, matchNumber, printable, price) =>
        OrderExecutedWithPrice(ts, ref, shares, matchNumber, printable, price);
      case OrderCancel(ts, ref, shares) => OrderCancel(ts, ref, shares);
      case OrderDelete(ts, ref) => OrderDelete(ts, ref);
      case OrderReplace(ts, ref, newRef, shares, price) => OrderReplace(ts, ref, newRef, shares, price);
      case TradeNonCross(ts, ref, side, shares, symbol, price, matchNumber) =>
        TradeNonCross(ts, ref, side, shares, symbol, price, matchNumber);
      case TradingAction(ts, symbol, state) => StockTradingAction(ts, symbol, state);
    }
  }
}
