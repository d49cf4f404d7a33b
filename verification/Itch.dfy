/** NASDAQ TotalView-ITCH 5.0 messages: big-endian fields, the length table, the decoders of
    include/pricetime/itch.hpp and the bytes that stand for each message. */
module Itch {
  import opened Types
  import opened Arith

  type byte = b: int | 0 <= b < 256
  type Bytes = seq<byte>

  const POW_32: nat := 0x1_0000_0000

  // ----- big-endian integers

  function Pow256(n: nat): (r: nat)
    ensures r > 0
  {
    if n == 0 then 1 else 256 * Pow256(n - 1)
  }

  /** The `n` low bytes of `v`, most significant first. */
  function PutBE(n: nat, v: nat): (s: Bytes)
    ensures |s| == n
  {
    if n == 0 then [] else PutBE(n - 1, v / 256) + [v % 256]
  }

  function GetBE(s: Bytes): nat {
    if s == [] then 0 else GetBE(s[..|s| - 1]) * 256 + s[|s| - 1]
  }

  lemma DivMod256(v: nat, m: nat)
    requires m > 0
    ensures v / 256 % m * 256 + v % 256 == v % (256 * m)
  {
    var q := v / 256;
    var k := q / m;
    assert q == k * m + q % m;
    assert v == k * (256 * m) + (q % m * 256 + v % 256);
    ModIs(v, 256 * m, k, q % m * 256 + v % 256);
  }

  /** Reading back what was written gives the value modulo the width of the field. */
  lemma {:induction false} GetPut(n: nat, v: nat)
    ensures GetBE(PutBE(n, v)) == v % Pow256(n)
  {
    if n > 0 {
      GetPut(n - 1, v / 256);
      assert PutBE(n, v)[..n - 1] == PutBE(n - 1, v / 256);
      DivMod256(v, Pow256(n - 1));
    }
  }

  lemma Widths()
    ensures Pow256(2) == 0x1_0000 && Pow256(4) == POW_32
    ensures Pow256(6) == 0x1_0000_0000_0000 && Pow256(8) == 0x1_0000_0000_0000_0000
  {
    assert Pow256(1) == 256;
    assert Pow256(3) == 256 * Pow256(2);
    assert Pow256(5) == 256 * Pow256(4);
    assert Pow256(7) == 256 * Pow256(6);
  }

  // ----- field readers, as the source assembles them

  function At(p: Bytes, i: nat): nat
    requires i < |p|
  {
    p[i]
  }

  function Be16(p: Bytes, at: nat): nat
    requires at + 2 <= |p|
  {
    At(p, at) * 0x100 + At(p, at + 1)
  }

  function Be32(p: Bytes, at: nat): nat
    requires at + 4 <= |p|
  {
    At(p, at) * 0x100_0000 + At(p, at + 1) * 0x1_0000 + At(p, at + 2) * 0x100 + At(p, at + 3)
  }

  function Be48(p: Bytes, at: nat): nat
    requires at + 6 <= |p|
  {
    At(p, at) * 0x100_0000_0000 + At(p, at + 1) * 0x1_0000_0000 + At(p, at + 2) * 0x100_0000 + At(p, at + 3) * 0x1_0000
    + At(p, at + 4) * 0x100 + At(p, at + 5)
  }

  function Be64(p: Bytes, at: nat): nat
    requires at + 8 <= |p|
  {
    Be32(p, at) * POW_32 + Be32(p, at + 4)
  }

  lemma GetSnoc(s: Bytes, b: byte)
    ensures GetBE(s + [b]) == GetBE(s) * 256 + b
  {
    assert (s + [b])[..|s|] == s;
  }

  lemma Get16(p: Bytes, at: nat)
    requires at + 2 <= |p|
    ensures Be16(p, at) == GetBE(p[at..at + 2])
  {
    assert p[at..at + 2] == [] + [p[at]] + [p[at + 1]];
    GetSnoc([], p[at]);
    GetSnoc([] + [p[at]], p[at + 1]);
  }

  lemma Get32(p: Bytes, at: nat)
    requires at + 4 <= |p|
    ensures Be32(p, at) == GetBE(p[at..at + 4])
  {
    Get16(p, at);
    GetSnoc(p[at..at + 2], p[at + 2]);
    assert p[at..at + 3] == p[at..at + 2] + [p[at + 2]];
    GetSnoc(p[at..at + 3], p[at + 3]);
    assert p[at..at + 4] == p[at..at + 3] + [p[at + 3]];
  }

  lemma Get48(p: Bytes, at: nat)
    requires at + 6 <= |p|
    ensures Be48(p, at) == GetBE(p[at..at + 6])
  {
    Get32(p, at);
    GetSnoc(p[at..at + 4], p[at + 4]);
    assert p[at..at + 5] == p[at..at + 4] + [p[at + 4]];
    GetSnoc(p[at..at + 5], p[at + 5]);
    assert p[at..at + 6] == p[at..at + 5] + [p[at + 5]];
  }

  lemma {:induction false} GetConcat(s: Bytes, t: Bytes)
    ensures GetBE(s + t) == GetBE(s) * Pow256(|t|) + GetBE(t)
  {
    if t == [] {
      assert s + t == s;
    } else {
      var u := t[..|t| - 1];
      assert s + t == (s + u) + [t[|t| - 1]];
      GetSnoc(s + u, t[|t| - 1]);
      GetConcat(s, u);
      Scaled(GetBE(s), Pow256(|u|), GetBE(u));
    }
  }

  lemma Scaled(a: nat, b: nat, c: nat)
    ensures (a * b + c) * 256 == a * (256 * b) + c * 256
  {
  }

  lemma Get64(p: Bytes, at: nat)
    requires at + 8 <= |p|
    ensures Be64(p, at) == GetBE(p[at..at + 8])
  {
    Get32(p, at);
    Get32(p, at + 4);
    Widths();
    GetConcat(p[at..at + 4], p[at + 4..at + 8]);
    assert p[at..at + 8] == p[at..at + 4] + p[at + 4..at + 8];
  }

  // ----- messages

  type Symbol = s: Bytes | |s| == 8 witness [32, 32, 32, 32, 32, 32, 32, 32]

  /** The messages a writer can be asked for, with the fields it is given. */
  datatype Msg =
    | SystemEvent(ts: nat, code: byte)
    | StockDirectory(ts: nat, symbol: Symbol, category: byte)
    | AddOrder(ts: nat, ref: OrderId, side: Side, shares: Qty, symbol: Symbol, price: Price)
    | AddOrderMpid(ts: nat, ref: OrderId, side: Side, shares: Qty, symbol: Symbol, price: Price, mpid: Bytes)
    | OrderExecuted(ts: nat, ref: OrderId, shares: Qty, matchNumber: nat)
    | ExecutedWithPrice(ts: nat, ref: OrderId, shares: Qty, matchNumber: nat, printable: bool, price: Price)
    | OrderCancel(ts: nat, ref: OrderId, shares: Qty)
    | OrderDelete(ts: nat, ref: OrderId)
    | OrderReplace(ts: nat, ref: OrderId, newRef: OrderId, shares: Qty, price: Price)
    | TradeNonCross(ts: nat, ref: OrderId, side: Side, shares: Qty, symbol: Symbol, price: Price, matchNumber: nat)
    | TradingAction(ts: nat, symbol: Symbol, state: byte)

  function Code(c: char): byte {
    if c < 256 as char then c as int else 0
  }

  function TypeOf(m: Msg): byte {
    match m
    case SystemEvent(_, _) => Code('S')
    case StockDirectory(_, _, _) => Code('R')
    case AddOrder(_, _, _, _, _, _) => Code('A')
    case AddOrderMpid(_, _, _, _, _, _, _) => Code('F')
    case OrderExecuted(_, _, _, _) => Code('E')
    case ExecutedWithPrice(_, _, _, _, _, _) => Code('C')
    case OrderCancel(_, _, _) => Code('X')
    case OrderDelete(_, _) => Code('D')
    case OrderReplace(_, _, _, _, _) => Code('U')
    case TradeNonCross(_, _, _, _, _, _, _) => Code('P')
    case TradingAction(_, _, _) => Code('H')
  }

  /** The fixed length of each message type, its type byte included; 0 for a type not in the table. */
  function MessageLength(t: byte): nat {
    if t == Code('S') then 12
    else if t == Code('R') then 39
    else if t == Code('H') then 25
    else if t == Code('Y') then 20
    else if t == Code('L') then 26
    else if t == Code('V') then 35
    else if t == Code('W') then 12
    else if t == Code('K') then 28
    else if t == Code('J') then 35
    else if t == Code('h') then 21
    else if t == Code('A') then 36
    else if t == Code('F') then 40
    else if t == Code('E') then 31
    else if t == Code('C') then 36
    else if t == Code('X') then 23
    else if t == Code('D') then 19
    else if t == Code('U') then 35
    else if t == Code('P') then 44
    else if t == Code('Q') then 40
    else if t == Code('B') then 19
    else if t == Code('I') then 50
    else if t == Code('N') then 20
    else if t == Code('O') then 48
    else 0
  }

  function SideByte(s: Side): byte {
    if s == Bid then Code('B') else Code('S')
  }

  function Zeros(n: nat): (z: Bytes)
    ensures |z| == n
  {
    if n == 0 then [] else Zeros(n - 1) + [0]
  }

  lemma {:induction false} AllZero(n: nat)
    ensures forall i :: 0 <= i < n ==> Zeros(n)[i] == 0
  {
    if n > 0 {
      AllZero(n - 1);
    }
  }

  /** Type byte, stock locate, tracking number and timestamp. */
  function Header(t: byte, ts: nat): (h: Bytes)
    ensures |h| == 11
  {
    [t, 0, 0, 0, 0] + PutBE(6, ts)
  }

  /** The low 32 bits of a signed price. */
  function Price32(p: Price): nat {
    p % POW_32
  }

  function MpidAt(s: Bytes, i: nat): byte {
    if i < |s| then s[i] else Code(' ')
  }

  /** The participant field: four bytes, cut or padded with spaces. */
  function Mpid4(s: Bytes): (r: Bytes)
    ensures |r| == 4
  {
    [MpidAt(s, 0), MpidAt(s, 1), MpidAt(s, 2), MpidAt(s, 3)]
  }

  /** The bytes of a message, from its type byte, as the specification lays them out. */
  function Body(m: Msg): Bytes {
    match m
    case SystemEvent(ts, code) => Header(TypeOf(m), ts) + [code]
    case StockDirectory(ts, symbol, category) => Header(TypeOf(m), ts) + symbol + [category] + Zeros(19)
    case AddOrder(ts, ref, side, shares, symbol, price) =>
      Header(TypeOf(m), ts) + PutBE(8, ref) + [SideByte(side)] + PutBE(4, shares) + symbol + PutBE(4, Price32(price))
    case AddOrderMpid(ts, ref, side, shares, symbol, price, mpid) =>
      Header(TypeOf(m), ts) + PutBE(8, ref) + [SideByte(side)] + PutBE(4, shares) + symbol + PutBE(4, Price32(price))
      + Mpid4(mpid)
    case OrderExecuted(ts, ref, shares, matchNumber) =>
      Header(TypeOf(m), ts) + PutBE(8, ref) + PutBE(4, shares) + PutBE(8, matchNumber)
    case ExecutedWithPrice(ts, ref, shares, matchNumber, printable, price) =>
      Header(TypeOf(m), ts) + PutBE(8, ref) + PutBE(4, shares) + PutBE(8, matchNumber)
      + [if printable then Code('Y') else Code('N')] + PutBE(4, Price32(price))
    case OrderCancel(ts, ref, shares) => Header(TypeOf(m), ts) + PutBE(8, ref) + PutBE(4, shares)
    case OrderDelete(ts, ref) => Header(TypeOf(m), ts) + PutBE(8, ref)
    case OrderReplace(ts, ref, newRef, shares, price) =>
      Header(TypeOf(m), ts) + PutBE(8, ref) + PutBE(8, newRef) + PutBE(4, shares) + PutBE(4, Price32(price))
    case TradeNonCross(ts, ref, side, shares, symbol, price, matchNumber) =>
      Header(TypeOf(m), ts) + PutBE(8, ref) + [SideByte(side)] + PutBE(4, shares) + symbol + PutBE(4, Price32(price))
      + PutBE(8, matchNumber)
    case TradingAction(ts, symbol, state) => Header(TypeOf(m), ts) + symbol + [state] + Zeros(5)
  }

  /** A message behind its two-byte length. */
  function Frame(m: Msg): Bytes {
    PutBE(2, |Body(m)|) + Body(m)
  }

  lemma BodyShape(m: Msg)
    ensures |Body(m)| == MessageLength(TypeOf(m)) && 12 <= |Body(m)| <= 44 && Body(m)[0] == TypeOf(m)
  {
  }

  // ----- decoders

  datatype AddFields = AddFields(ts: nat, ref: OrderId, side: Side, shares: Qty, symbol: Symbol, price: Price)
  datatype ExecFields = ExecFields(
    ts: nat, ref: OrderId, shares: Qty, matchNumber: nat, hasPrice: bool, printable: bool, price: Price)
  datatype CancelFields = CancelFields(ts: nat, ref: OrderId, shares: Qty)
  datatype DeleteFields = DeleteFields(ts: nat, ref: OrderId)
  datatype ReplaceFields = ReplaceFields(ts: nat, ref: OrderId, newRef: OrderId, shares: Qty, price: Price)
  datatype EventFields = EventFields(ts: nat, code: byte)
  datatype DirectoryFields = DirectoryFields(ts: nat, symbol: Symbol, category: byte)

  function DecodeAddOrder(p: Bytes): AddFields
    requires |p| >= 36
  {
    AddFields(Be48(p, 5), Be64(p, 11), if p[19] == Code('B') then Bid else Ask, Be32(p, 20), p[24..32], Be32(p, 32))
  }

  function DecodeOrderExecuted(p: Bytes): ExecFields
    requires |p| >= 31 && (p[0] == Code('C') ==> |p| >= 36)
  {
    var priced := p[0] == Code('C');
    ExecFields(Be48(p, 5), Be64(p, 11), Be32(p, 19), Be64(p, 23), priced,
               if priced then p[31] == Code('Y') else true, if priced then Be32(p, 32) else 0)
  }

  function DecodeOrderCancel(p: Bytes): CancelFields
    requires |p| >= 23
  {
    CancelFields(Be48(p, 5), Be64(p, 11), Be32(p, 19))
  }

  function DecodeOrderDelete(p: Bytes): DeleteFields
    requires |p| >= 19
  {
    DeleteFields(Be48(p, 5), Be64(p, 11))
  }

  function DecodeOrderReplace(p: Bytes): ReplaceFields
    requires |p| >= 35
  {
    ReplaceFields(Be48(p, 5), Be64(p, 11), Be64(p, 19), Be32(p, 27), Be32(p, 31))
  }

  function DecodeSystemEvent(p: Bytes): EventFields
    requires |p| >= 12
  {
    EventFields(Be48(p, 5), p[11])
  }

  function DecodeStockDirectory(p: Bytes): DirectoryFields
    requires |p| >= 39
  {
    DirectoryFields(Be48(p, 5), p[11..19], p[19])
  }

  // ----- what is read back

  const ID_WIDTH: nat := 0x1_0000_0000_0000_0000
  const TIME_WIDTH: nat := 0x1_0000_0000_0000

  /** The field of width `n` at `at` holds the low bytes of `v`. */
  lemma FieldIs(p: Bytes, at: nat, n: nat, v: nat)
    requires at + n <= |p| && p[at..at + n] == PutBE(n, v)
    ensures n == 4 ==> Be32(p, at) == v % POW_32
    ensures n == 6 ==> Be48(p, at) == v % TIME_WIDTH
    ensures n == 8 ==> Be64(p, at) == v % ID_WIDTH
    ensures n == 2 ==> Be16(p, at) == v % 0x1_0000
  {
    hide Be16, Be32, Be48, Be64, Pow256, PutBE, GetBE;
    GetPut(n, v);
    Widths();
    if n == 2 {
      Get16(p, at);
    } else if n == 4 {
      Get32(p, at);
    } else if n == 6 {
      Get48(p, at);
    } else if n == 8 {
      Get64(p, at);
    }
  }

  lemma Tail(a: Bytes, b: Bytes)
    ensures (a + b)[|a|..|a| + |b|] == b
  {
  }

  lemma AddReadsBack(m: Msg)
    requires m.AddOrder? || m.AddOrderMpid?
    ensures |Body(m)| >= 36
    ensures DecodeAddOrder(Body(m)) == AddFields(m.ts % TIME_WIDTH, m.ref % ID_WIDTH, m.side,
                                                 m.shares % POW_32, m.symbol,
                                                 Price32(m.price))
    ensures Price32(m.price) == m.price <==> 0 <= m.price < POW_32
  {
    var p := Body(m);
    hide PutBE, Be32, Be48, Be64;
    assert p[5..11] == PutBE(6, m.ts) && p[11..19] == PutBE(8, m.ref) && p[20..24] == PutBE(4, m.shares);
    assert p[24..32] == m.symbol && p[32..36] == PutBE(4, Price32(m.price)) && p[19] == SideByte(m.side);
    FieldIs(p, 5, 6, m.ts);
    FieldIs(p, 11, 8, m.ref);
    FieldIs(p, 20, 4, m.shares);
    FieldIs(p, 32, 4, Price32(m.price));
  }

  lemma ExecutedReadsBack(m: Msg)
    requires m.OrderExecuted? || m.ExecutedWithPrice?
    ensures |Body(m)| >= 31 && (Body(m)[0] == Code('C') ==> |Body(m)| >= 36)
    ensures DecodeOrderExecuted(Body(m)) ==
            ExecFields(m.ts % TIME_WIDTH, m.ref % ID_WIDTH, m.shares % POW_32, m.matchNumber % ID_WIDTH,
                       m.ExecutedWithPrice?, m.ExecutedWithPrice? ==> m.printable,
                       if m.ExecutedWithPrice? then Price32(m.price) else 0)
  {
    var p := Body(m);
    hide PutBE, Be32, Be48, Be64;
    assert p[5..11] == PutBE(6, m.ts) && p[11..19] == PutBE(8, m.ref) && p[19..23] == PutBE(4, m.shares);
    assert p[23..31] == PutBE(8, m.matchNumber);
    FieldIs(p, 5, 6, m.ts);
    FieldIs(p, 11, 8, m.ref);
    FieldIs(p, 19, 4, m.shares);
    FieldIs(p, 23, 8, m.matchNumber);
    if m.ExecutedWithPrice? {
      assert p[32..36] == PutBE(4, Price32(m.price));
      FieldIs(p, 32, 4, Price32(m.price));
    }
  }

  lemma RemovalReadsBack(m: Msg)
    requires m.OrderCancel? || m.OrderDelete?
    ensures |Body(m)| >= 19 && DecodeOrderDelete(Body(m)) == DeleteFields(m.ts % TIME_WIDTH, m.ref % ID_WIDTH)
    ensures m.OrderCancel? ==>
              && |Body(m)| >= 23
              && DecodeOrderCancel(Body(m)) == CancelFields(m.ts % TIME_WIDTH, m.ref % ID_WIDTH, m.shares % POW_32)
  {
    var p := Body(m);
    hide PutBE, Be32, Be48, Be64;
    assert p[5..11] == PutBE(6, m.ts) && p[11..19] == PutBE(8, m.ref);
    FieldIs(p, 5, 6, m.ts);
    FieldIs(p, 11, 8, m.ref);
    if m.OrderCancel? {
      assert p[19..23] == PutBE(4, m.shares);
      FieldIs(p, 19, 4, m.shares);
    }
  }

  lemma ReplaceReadsBack(m: Msg)
    requires m.OrderReplace?
    ensures |Body(m)| == 35
    ensures DecodeOrderReplace(Body(m)) == ReplaceFields(m.ts % TIME_WIDTH, m.ref % ID_WIDTH, m.newRef % ID_WIDTH,
                                                         m.shares % POW_32, Price32(m.price))
  {
    var p := Body(m);
    hide PutBE, Be32, Be48, Be64;
    assert p[5..11] == PutBE(6, m.ts) && p[11..19] == PutBE(8, m.ref) && p[19..27] == PutBE(8, m.newRef);
    assert p[27..31] == PutBE(4, m.shares);
    var front := Header(TypeOf(m), m.ts) + PutBE(8, m.ref) + PutBE(8, m.newRef) + PutBE(4, m.shares);
    Tail(front, PutBE(4, Price32(m.price)));
    FieldIs(p, 5, 6, m.ts);
    FieldIs(p, 11, 8, m.ref);
    FieldIs(p, 19, 8, m.newRef);
    FieldIs(p, 27, 4, m.shares);
    FieldIs(p, 31, 4, Price32(m.price));
  }

  lemma AdminReadsBack(m: Msg)
    requires m.SystemEvent? || m.StockDirectory?
    ensures m.SystemEvent? ==> |Body(m)| == 12 && DecodeSystemEvent(Body(m)) == EventFields(m.ts % TIME_WIDTH, m.code)
    ensures m.StockDirectory? ==>
              && |Body(m)| == 39
              && DecodeStockDirectory(Body(m)) == DirectoryFields(m.ts % TIME_WIDTH, m.symbol, m.category)
  {
    hide PutBE, Be48, Zeros;
    var p := Body(m);
    AdminShape(m);
    FieldIs(p, 5, 6, m.ts);
  }

  lemma AdminShape(m: Msg)
    requires m.SystemEvent? || m.StockDirectory?
    ensures |Body(m)| >= 12 && Body(m)[5..11] == PutBE(6, m.ts)
    ensures m.SystemEvent? ==> |Body(m)| == 12 && Body(m)[11] == m.code
    ensures m.StockDirectory? ==> |Body(m)| == 39 && Body(m)[11..19] == m.symbol && Body(m)[19] == m.category
  {
    hide PutBE, Zeros;
    var p := Body(m);
    var h := Header(TypeOf(m), m.ts);
    assert h == h[..5] + PutBE(6, m.ts);
    assert p[5..11] == h[5..11] == PutBE(6, m.ts);
    if m.StockDirectory? {
      assert p == h + m.symbol + [m.category] + Zeros(19);
    }
  }
}
