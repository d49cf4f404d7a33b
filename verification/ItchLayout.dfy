/** The message layouts of NASDAQ TotalView-ITCH 5.0, "Message Formats", told a second time: the bytes
    of the fields of every message type, and where the writer puts each field. */
module ItchLayout {
  import opened Types
  import opened Itch

  /** The bytes of the fields, one by one, behind type, stock locate, tracking number and timestamp. */
  function FieldBytes(t: char): nat {
    match t
    case 'S' => 1                                               // event code
    case 'R' => 8 + 1 + 1 + 4 + 1 + 1 + 2 + (1 + 1 + 1 + 1 + 1) + 4 + 1  // stock, category, lots, classes, flags
    case 'H' => 8 + 1 + 1 + 4                                   // stock, state, reserved, reason
    case 'Y' => 8 + 1                                           // stock, short sale action
    case 'L' => 4 + 8 + 1 + 1 + 1                               // participant, stock, primary, mode, state
    case 'V' => 8 + 8 + 8                                       // three decline levels
    case 'W' => 1                                               // breached level
    case 'K' => 8 + 4 + 1 + 4                                   // stock, release time, qualifier, price
    case 'J' => 8 + 4 + 4 + 4 + 4                               // stock, three collar prices, extension
    case 'h' => 8 + 1 + 1                                       // stock, market, action
    case 'A' => 8 + 1 + 4 + 8 + 4                               // reference, side, shares, stock, price
    case 'F' => 8 + 1 + 4 + 8 + 4 + 4                           // and attribution
    case 'E' => 8 + 4 + 8                                       // reference, shares, match number
    case 'C' => 8 + 4 + 8 + 1 + 4                               // and printable, price
    case 'X' => 8 + 4                                           // reference, canceled shares
    case 'D' => 8                                               // reference
    case 'U' => 8 + 8 + 4 + 4                                   // both references, shares, price
    case 'P' => 8 + 1 + 4 + 8 + 4 + 8                           // as an add, and match number
    case 'Q' => 8 + 8 + 4 + 8 + 1                               // shares, stock, price, match number, cross type
    case 'B' => 8                                               // match number
    case 'I' => 8 + 8 + 1 + 8 + 4 + 4 + 4 + 1 + 1               // shares, direction, stock, prices, types
    case 'N' => 8 + 1                                           // stock, interest flag
    case 'O' => 8 + 1 + 4 + 4 + 4 + 8 + 4 + 4                   // stock, eligibility, prices, time, collars
    case _ => 0
  }

  /** The length of every type is that of its fields and the header, and of any other byte unknown. */
  lemma LengthsAreLayouts(t: byte)
    ensures MessageLength(t) == if FieldBytes(t as char) == 0 then 0 else 1 + 2 + 2 + 6 + FieldBytes(t as char)
  {
  }

  /** The type byte of each message, in ASCII. */
  lemma TypeBytes(m: Msg)
    ensures |Body(m)| >= 12
    ensures Body(m)[0] ==
            match m
            case SystemEvent(_, _) => 83                            // S
            case StockDirectory(_, _, _) => 82                      // R
            case AddOrder(_, _, _, _, _, _) => 65                   // A
            case AddOrderMpid(_, _, _, _, _, _, _) => 70            // F
            case OrderExecuted(_, _, _, _) => 69                    // E
            case ExecutedWithPrice(_, _, _, _, _, _) => 67          // C
            case OrderCancel(_, _, _) => 88                         // X
            case OrderDelete(_, _) => 68                            // D
            case OrderReplace(_, _, _, _, _) => 85                  // U
            case TradeNonCross(_, _, _, _, _, _, _) => 80           // P
            case TradingAction(_, _, _) => 72                       // H
    ensures Body(m)[1..5] == [0, 0, 0, 0]
  {
    BodyShape(m);
    hide PutBE;
  }

  /** A buy is B and a sell S; a printable execution is Y and another N; the attribution is four bytes, cut or
      padded with spaces. */
  lemma LettersAndAttribution(m: Msg)
    requires m.AddOrder? || m.AddOrderMpid? || m.TradeNonCross? || m.ExecutedWithPrice?
    ensures |Body(m)| >= 36
    ensures !m.ExecutedWithPrice? ==> Body(m)[19] == if m.side == Bid then 66 else 83
    ensures m.ExecutedWithPrice? ==> Body(m)[31] == if m.printable then 89 else 78
    ensures m.AddOrderMpid? ==>
              && |Body(m)| == 40
              && forall i :: 0 <= i < 4 ==> Body(m)[36 + i] == if i < |m.mpid| then m.mpid[i] else 32
  {
    hide PutBE;
    var p := Body(m);
    if m.AddOrderMpid? {
      assert p[36..40] == Mpid4(m.mpid);
      assert forall i :: 0 <= i < 4 ==> p[36 + i] == p[36..40][i];
    }
  }

  /** Where a trade message carries its fields. */
  lemma TradeReadsBack(m: Msg)
    requires m.TradeNonCross?
    ensures var p := Body(m);
            && |p| == 44 && Be48(p, 5) == m.ts % TIME_WIDTH && Be64(p, 11) == m.ref % ID_WIDTH
            && Be32(p, 20) == m.shares % POW_32 && p[24..32] == m.symbol
            && Be32(p, 32) == m.price % POW_32 && Be64(p, 36) == m.matchNumber % ID_WIDTH
  {
    var p := Body(m);
    hide PutBE, Be32, Be48, Be64;
    assert p[5..11] == PutBE(6, m.ts) && p[11..19] == PutBE(8, m.ref) && p[20..24] == PutBE(4, m.shares);
    assert p[24..32] == m.symbol;
    var front := Header(TypeOf(m), m.ts) + PutBE(8, m.ref) + [SideByte(m.side)] + PutBE(4, m.shares) + m.symbol;
    Tail(front, PutBE(4, Price32(m.price)));
    Tail(front + PutBE(4, Price32(m.price)), PutBE(8, m.matchNumber));
    assert p[32..36] == PutBE(4, Price32(m.price)) && p[36..44] == PutBE(8, m.matchNumber);
    FieldIs(p, 5, 6, m.ts);
    FieldIs(p, 11, 8, m.ref);
    FieldIs(p, 20, 4, m.shares);
    FieldIs(p, 32, 4, Price32(m.price));
    FieldIs(p, 36, 8, m.matchNumber);
  }

  /** Where a trading action carries its fields, and that a directory entry and it are filled with zeros. */
  lemma ActionReadsBack(m: Msg)
    requires m.TradingAction? || m.StockDirectory?
    ensures var p := Body(m);
            && |p| == (if m.TradingAction? then 25 else 39) && Be48(p, 5) == m.ts % TIME_WIDTH
            && p[11..19] == m.symbol && p[19] == (if m.TradingAction? then m.state else m.category)
            && forall i :: 20 <= i < |p| ==> p[i] == 0
  {
    hide PutBE, Be48, Zeros;
    var p := Body(m);
    var n := if m.TradingAction? then 5 else 19;
    var letter := if m.TradingAction? then m.state else m.category;
    var h := Header(TypeOf(m), m.ts);
    assert h == h[..5] + PutBE(6, m.ts);
    assert p == h + m.symbol + [letter] + Zeros(n);
    assert p[5..11] == h[5..11] == PutBE(6, m.ts);
    FieldIs(p, 5, 6, m.ts);
    AllZero(n);
    assert p[20..] == Zeros(n);
    assert forall i :: 20 <= i < |p| ==> p[i] == p[20..][i - 20];
  }
}
