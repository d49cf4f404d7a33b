/** MoldUDP64 packets (the "Downstream Packet" section): the packer, the unpacker and the gap tracker
    of include/pricetime/moldudp64.hpp, and the publishing loop of include/pricetime/engine.hpp. */
module Mold {
  import opened Itch
  import W = ItchWriter

  const HEADER_SIZE: nat := 20
  const PACKET_LIMIT: nat := 1400
  const HEARTBEAT: nat := 0
  const END_OF_SESSION: nat := 0xFFFF

  type Session = s: Bytes | |s| == 10 witness [32, 32, 32, 32, 32, 32, 32, 32, 32, 32]

  datatype PacketHeader = PacketHeader(session: Session, sequence: nat, count: nat)

  function HeaderBytes(h: PacketHeader): (b: Bytes)
    ensures |b| == HEADER_SIZE
  {
    h.session + PutBE(8, h.sequence) + PutBE(2, h.count)
  }

  function Block(msg: Bytes): Bytes {
    PutBE(2, |msg|) + msg
  }

  function Blocks(msgs: seq<Bytes>): Bytes {
    if msgs == [] then [] else Block(msgs[0]) + Blocks(msgs[1..])
  }

  lemma BlockIs(msg: Bytes)
    ensures Block(msg) == PutBE(2, |msg|) + msg
  {
  }

  lemma BlockSize(msg: Bytes)
    ensures |Block(msg)| == 2 + |msg|
  {
  }

  lemma {:induction false} BlocksSnoc(msgs: seq<Bytes>, msg: Bytes)
    ensures Blocks(msgs + [msg]) == Blocks(msgs) + Block(msg)
    ensures |Blocks(msgs)| >= 2 * |msgs|
  {
    hide Block;
    if msgs == [] {
      assert [] + [msg] == [msg] && [msg][1..] == [];
    } else {
      assert (msgs + [msg])[1..] == msgs[1..] + [msg];
      BlockSize(msgs[0]);
      BlocksSnoc(msgs[1..], msg);
    }
  }

  // ----- packing

  class Packer {
    const session: Session
    const buf: array<byte>
    var len: nat
    var count: nat
    var firstSeq: nat

    /** The messages added since the packet was begun. */
    ghost var added: seq<Bytes>

    ghost predicate Valid()
      reads this
    {
      buf.Length == PACKET_LIMIT && HEADER_SIZE <= len <= PACKET_LIMIT
    }

    /** The packet as it will be sent, but for its header, which sealing fills in. */
    ghost predicate Open()
      reads this, buf
    {
      Valid() && buf[HEADER_SIZE..len] == Blocks(added) && count == |added|
    }

    constructor (session: Session)
      ensures Valid() && this.session == session && fresh(buf)
    {
      this.session := session;
      buf := new byte[PACKET_LIMIT];
      len, count, firstSeq, added := HEADER_SIZE, 0, 0, [];
    }

    method Begin(first: nat)
      requires Valid()
      modifies this
      ensures Open() && added == [] && firstSeq == first && len == HEADER_SIZE
    {
      len, count, firstSeq, added := HEADER_SIZE, 0, first, [];
    }

    /** Appends one message when it fits; otherwise leaves the packet as it is. */
    method Add(msg: Bytes) returns (ok: bool)
      requires Open()
      modifies this, buf
      ensures Open() && firstSeq == old(firstSeq)
      ensures ok <==> old(len) + 2 + |msg| <= PACKET_LIMIT
      ensures added == if ok then old(added) + [msg] else old(added)
    {
      hide PutBE, Blocks, Block;
      if len + 2 + |msg| > PACKET_LIMIT {
        return false;
      }
      ghost var blocks := Blocks(added);
      W.Writer.TwoBytes(|msg|);
      BlocksSnoc(added, msg);
      BlockIs(msg);
      CopyIn(len, [|msg| / 256 % 256, |msg| % 256]);
      CopyIn(len + 2, msg);
      assert buf[HEADER_SIZE..len + 2 + |msg|] == blocks + Block(msg);
      len := len + 2 + |msg|;
      count := count + 1;
      added := added + [msg];
      return true;
    }

    /** Copies bytes into the buffer from place `at` on. */
    method CopyIn(at: nat, s: Bytes)
      requires HEADER_SIZE <= at && at + |s| <= buf.Length
      modifies buf
      ensures buf[HEADER_SIZE..at + |s|] == old(buf[HEADER_SIZE..at]) + s
    {
      for i := 0 to |s|
        invariant buf[HEADER_SIZE..at + i] == old(buf[HEADER_SIZE..at]) + s[..i]
      {
        buf[at + i] := s[i];
        assert buf[HEADER_SIZE..at + i + 1] == buf[HEADER_SIZE..at + i] + [s[i]];
      }
    }

    /** Fills in the header: the packet is then the first `len` bytes of the buffer. */
    method Seal()
      requires Open()
      modifies buf
      ensures buf[..len] == HeaderBytes(PacketHeader(session, firstSeq, count)) + Blocks(added)
    {
      WriteHeader(count);
      assert buf[..len] == buf[..HEADER_SIZE] + buf[HEADER_SIZE..len];
    }

    method SealHeartbeat(next: nat)
      requires Valid()
      modifies `len, `firstSeq, buf
      ensures Valid() && buf[..len] == HeaderBytes(PacketHeader(session, next, HEARTBEAT))
    {
      len := HEADER_SIZE;
      firstSeq := next;
      WriteHeader(HEARTBEAT);
    }

    method SealEndOfSession(next: nat)
      requires Valid()
      modifies `len, `firstSeq, buf
      ensures Valid() && buf[..len] == HeaderBytes(PacketHeader(session, next, END_OF_SESSION))
    {
      len := HEADER_SIZE;
      firstSeq := next;
      WriteHeader(END_OF_SESSION);
    }

    method WriteHeader(n: nat)
      requires Valid()
      modifies buf
      ensures buf[..HEADER_SIZE] == HeaderBytes(PacketHeader(session, firstSeq, n))
      ensures buf[HEADER_SIZE..] == old(buf[HEADER_SIZE..])
    {
      for i := 0 to 10
        invariant buf[..i] == session[..i] && buf[HEADER_SIZE..] == old(buf[HEADER_SIZE..])
      {
        buf[i] := session[i];
        assert buf[..i + 1] == buf[..i] + [session[i]];
      }
      hide PutBE;
      for i := 0 to 8
        invariant buf[..10 + i] == session + PutBE(8, firstSeq)[..i]
        invariant buf[HEADER_SIZE..] == old(buf[HEADER_SIZE..])
      {
        W.PutAt(8, firstSeq, i);
        buf[10 + i] := firstSeq / Pow256(7 - i) % 256;
        assert buf[..11 + i] == buf[..10 + i] + [PutBE(8, firstSeq)[i]];
      }
      W.Writer.TwoBytes(n);
      buf[18] := n / 256 % 256;
      buf[19] := n % 256;
      assert buf[..20] == buf[..18] + PutBE(2, n);
    }
  }

  // ----- unpacking

  /** The `n` blocks that should make up `s`, numbered from `sequence`: whether they do, and the
      messages read before that was known. */
  function ReadBlocks(s: Bytes, n: nat, sequence: nat): (r: (bool, seq<(nat, Bytes)>)) {
    if n == 0 then (s == [], [])
    else if |s| < 2 then (false, [])
    else
      var len := Be16(s, 0);
      if len == 0 || |s| - 2 < len then (false, [])
      else
        var rest := ReadBlocks(s[2 + len..], n - 1, sequence + 1);
        (rest.0, [(sequence, s[2..2 + len])] + rest.1)
  }

  function ReadHeader(p: Bytes): PacketHeader
    requires |p| >= HEADER_SIZE
  {
    PacketHeader(p[..10], Be64(p, 10), Be16(p, 18))
  }

  function ReadPacket(p: Bytes): (bool, seq<(nat, Bytes)>) {
    if |p| < HEADER_SIZE then (false, [])
    else
      var h := ReadHeader(p);
      if h.count == HEARTBEAT || h.count == END_OF_SESSION then (|p| == HEADER_SIZE, [])
      else ReadBlocks(p[HEADER_SIZE..], h.count, h.sequence)
  }

  lemma {:induction false} GetSlices(p: Bytes, at: nat, n: nat)
    requires at + n < |p|
    ensures GetBE(p[at..at + n + 1]) == GetBE(p[at..at + n]) * 256 + p[at + n]
  {
    assert p[at..at + n + 1] == p[at..at + n] + [p[at + n]];
    GetSnoc(p[at..at + n], p[at + n]);
  }

  method Unpack(pkt: Bytes, was: PacketHeader) returns (ok: bool, hdr: PacketHeader, delivered: seq<(nat, Bytes)>)
    ensures (ok, delivered) == ReadPacket(pkt)
    ensures hdr == if |pkt| < HEADER_SIZE then was else ReadHeader(pkt)
  {
    hide ReadBlocks, Be16;
    hdr, delivered := was, [];
    if |pkt| < HEADER_SIZE {
      return false, hdr, [];
    }
    var sequence := ReadSequence(pkt);
    hdr := PacketHeader(pkt[..10], sequence, Be16(pkt, 18));
    if hdr.count == HEARTBEAT || hdr.count == END_OF_SESSION {
      return |pkt| == HEADER_SIZE, hdr, [];
    }
    ok, delivered := UnpackBlocks(pkt, hdr);
  }

  method ReadSequence(pkt: Bytes) returns (sequence: nat)
    requires |pkt| >= HEADER_SIZE
    ensures sequence == Be64(pkt, 10)
  {
    sequence := 0;
    for i := 0 to 8
      invariant sequence == GetBE(pkt[10..10 + i])
    {
      GetSlices(pkt, 10, i);
      sequence := sequence * 256 + At(pkt, 10 + i);
    }
    Get64(pkt, 10);
  }

  method UnpackBlocks(pkt: Bytes, hdr: PacketHeader) returns (ok: bool, delivered: seq<(nat, Bytes)>)
    requires |pkt| >= HEADER_SIZE
    ensures (ok, delivered) == ReadBlocks(pkt[HEADER_SIZE..], hdr.count, hdr.sequence)
  {
    hide Be16, ReadBlocks, Prepend;
    delivered := [];
    var off := HEADER_SIZE;
    ghost var all := ReadBlocks(pkt[HEADER_SIZE..], hdr.count, hdr.sequence);
    PrependNone(all);
    for i := 0 to hdr.count
      invariant HEADER_SIZE <= off <= |pkt|
      invariant all == Prepend(delivered, ReadBlocks(pkt[off..], hdr.count - i, hdr.sequence + i))
    {
      BlockStep(pkt, off, hdr.count - i, hdr.sequence + i, delivered);
      if |pkt| - off < 2 {
        return false, delivered;
      }
      var len := Be16(pkt, off);
      off := off + 2;
      if len == 0 || |pkt| - off < len {
        return false, delivered;
      }
      delivered := delivered + [(hdr.sequence + i, pkt[off..off + len])];
      off := off + len;
    }
    BlocksEnd(pkt, off, hdr.sequence + hdr.count, delivered);
    ok := off == |pkt|;
  }

  function Prepend(done: seq<(nat, Bytes)>, r: (bool, seq<(nat, Bytes)>)): (bool, seq<(nat, Bytes)>) {
    (r.0, done + r.1)
  }

  lemma PrependNone(r: (bool, seq<(nat, Bytes)>))
    ensures Prepend([], r) == r
  {
    assert [] + r.1 == r.1;
  }

  lemma BlockStep(p: Bytes, off: nat, n: nat, sequence: nat, done: seq<(nat, Bytes)>)
    requires off <= |p| && n > 0
    ensures var r := Prepend(done, ReadBlocks(p[off..], n, sequence));
      if |p| - off < 2 then r == (false, done)
      else
        var len := Be16(p, off);
        if len == 0 || |p| - off - 2 < len then r == (false, done)
        else r == Prepend(done + [(sequence, p[off + 2..off + 2 + len])],
                          ReadBlocks(p[off + 2 + len..], n - 1, sequence + 1))
  {
    var s := p[off..];
    assert done + [] == done;
    if |s| >= 2 {
      assert Be16(s, 0) == Be16(p, off);
      var len := Be16(s, 0);
      if 0 < len <= |s| - 2 {
        assert s[2 + len..] == p[off + 2 + len..] && s[2..2 + len] == p[off + 2..off + 2 + len];
        var rest := ReadBlocks(p[off + 2 + len..], n - 1, sequence + 1);
        assert done + ([(sequence, s[2..2 + len])] + rest.1) == done + [(sequence, s[2..2 + len])] + rest.1;
      }
    }
  }

  lemma BlocksEnd(p: Bytes, off: nat, sequence: nat, done: seq<(nat, Bytes)>)
    requires off <= |p|
    ensures Prepend(done, ReadBlocks(p[off..], 0, sequence)) == (off == |p|, done)
  {
    assert done + [] == done;
  }

  lemma BlockFront(msg: Bytes, rest: Bytes)
    requires |msg| < 0x1_0000
    ensures var s := Block(msg) + rest;
      |s| >= 2 + |msg| && Be16(s, 0) == |msg| && s[2..2 + |msg|] == msg && s[2 + |msg|..] == rest
  {
    var s := Block(msg) + rest;
    assert s[0..2] == PutBE(2, |msg|);
    FieldIs(s, 0, 2, |msg|);
  }

  function Numbered(msgs: seq<Bytes>, first: nat): (r: seq<(nat, Bytes)>)
    ensures |r| == |msgs| && forall i :: 0 <= i < |msgs| ==> r[i] == (first + i, msgs[i])
  {
    if msgs == [] then [] else [(first, msgs[0])] + Numbered(msgs[1..], first + 1)
  }

  lemma {:induction false} BlocksReadBack(msgs: seq<Bytes>, sequence: nat)
    requires forall i :: 0 <= i < |msgs| ==> 0 < |msgs[i]| < 0x1_0000
    ensures ReadBlocks(Blocks(msgs), |msgs|, sequence) == (true, Numbered(msgs, sequence))
  {
    if msgs != [] {
      BlockFront(msgs[0], Blocks(msgs[1..]));
      BlocksReadBack(msgs[1..], sequence + 1);
    }
  }

  lemma HeaderReadsBack(h: PacketHeader, rest: Bytes)
    requires h.sequence < 0x1_0000_0000_0000_0000 && h.count < 0x1_0000
    ensures ReadHeader(HeaderBytes(h) + rest) == h && (HeaderBytes(h) + rest)[HEADER_SIZE..] == rest
  {
    var p := HeaderBytes(h) + rest;
    hide PutBE;
    assert p[..10] == h.session && p[10..18] == PutBE(8, h.sequence) && p[18..20] == PutBE(2, h.count);
    FieldIs(p, 10, 8, h.sequence);
    FieldIs(p, 18, 2, h.count);
  }

  /** A sealed packet unpacks to its messages, each under its own number. */
  lemma PacketReadsBack(h: PacketHeader, msgs: seq<Bytes>)
    requires h.sequence < 0x1_0000_0000_0000_0000 && h.count == |msgs| && 0 < |msgs| < END_OF_SESSION
    requires forall i :: 0 <= i < |msgs| ==> 0 < |msgs[i]| < 0x1_0000
    ensures ReadHeader(HeaderBytes(h) + Blocks(msgs)) == h
    ensures ReadPacket(HeaderBytes(h) + Blocks(msgs)) == (true, Numbered(msgs, h.sequence))
  {
    HeaderReadsBack(h, Blocks(msgs));
    BlocksReadBack(msgs, h.sequence);
  }

  function Contents(r: seq<(nat, Bytes)>): (msgs: seq<Bytes>)
    ensures |msgs| == |r| && forall i :: 0 <= i < |r| ==> msgs[i] == r[i].1
  {
    if r == [] then [] else [r[0].1] + Contents(r[1..])
  }

  /** What a packet's body is taken for: blocks, numbered on from the header's number, and a rest; it is accepted
      exactly when all `n` blocks are there and nothing follows them, and otherwise reading stopped at a rest that
      does not begin with a whole block. */
  lemma {:induction false} ReadBlocksIs(s: Bytes, n: nat, sequence: nat) returns (rest: Bytes)
    ensures var (ok, out) := ReadBlocks(s, n, sequence);
            && s == Blocks(Contents(out)) + rest && |out| <= n
            && (forall i :: 0 <= i < |out| ==> out[i].0 == sequence + i && 0 < |out[i].1| < 0x1_0000)
            && (ok <==> |out| == n && rest == [])
            && (|out| < n ==> |rest| < 2 || (var len := 256 * At(rest, 0) + At(rest, 1); len == 0 || len > |rest| - 2))
    decreases n
  {
    hide Block, Blocks, PutBE, ReadBlocks, Be16;
    rest := s;
    if n > 0 && |s| >= 2 && 0 < Be16(s, 0) <= |s| - 2 {
      var len := Be16(s, 0);
      var msg, tail := s[2..2 + len], s[2 + len..];
      rest := ReadBlocksIs(tail, n - 1, sequence + 1);
      var more := ReadBlocks(tail, n - 1, sequence + 1).1;
      FirstBlock(s, n, sequence);
      WholeBlock(s, len);
      BlocksFront(msg, Contents(more));
      ContentsFront(sequence, msg, more);
      var out := [(sequence, msg)] + more;
      assert forall i :: 0 <= i < |out| ==> out[i] == if i == 0 then (sequence, msg) else more[i - 1];
      assert s == s[..2 + len] + tail;
    } else {
      NoBlock(s, n, sequence);
      BlocksFront([], []);
    }
  }

  lemma FirstBlock(s: Bytes, n: nat, sequence: nat)
    requires n > 0 && |s| >= 2 && 0 < Be16(s, 0) <= |s| - 2
    ensures var len := Be16(s, 0);
            var more := ReadBlocks(s[2 + len..], n - 1, sequence + 1);
            ReadBlocks(s, n, sequence) == (more.0, [(sequence, s[2..2 + len])] + more.1) && len < 0x1_0000
  {
  }

  lemma NoBlock(s: Bytes, n: nat, sequence: nat)
    requires !(n > 0 && |s| >= 2 && 0 < Be16(s, 0) <= |s| - 2)
    ensures ReadBlocks(s, n, sequence) == (n == 0 && s == [], [])
    ensures n > 0 && |s| >= 2 ==> (var len := 256 * At(s, 0) + At(s, 1); len == 0 || len > |s| - 2)
  {
  }

  lemma ContentsFront(sequence: nat, msg: Bytes, more: seq<(nat, Bytes)>)
    ensures Contents([(sequence, msg)] + more) == [msg] + Contents(more)
  {
    assert ([(sequence, msg)] + more)[1..] == more;
  }

  lemma BlocksFront(msg: Bytes, more: seq<Bytes>)
    ensures Blocks([msg] + more) == Block(msg) + Blocks(more) && Blocks([]) == []
  {
    assert ([msg] + more)[1..] == more;
  }

  lemma WholeBlock(s: Bytes, len: nat)
    requires |s| >= 2 && len == Be16(s, 0) && len <= |s| - 2
    ensures s[..2 + len] == Block(s[2..2 + len])
  {
    assert PutBE(2, len) == PutBE(1, len / 256) + [len % 256];
    assert PutBE(1, len / 256) == PutBE(0, len / 256 / 256) + [len / 256 % 256];
    assert len / 256 == s[0] && len % 256 == s[1];
  }

  /** On the wire a heartbeat counts no message and the end of a session 65535. */
  lemma MarkersOnWire(session: Session, next: nat)
    ensures HeaderBytes(PacketHeader(session, next, HEARTBEAT))[18..20] == [0, 0]
    ensures HeaderBytes(PacketHeader(session, next, END_OF_SESSION))[18..20] == [255, 255]
    ensures HeaderBytes(PacketHeader(session, next, HEARTBEAT))[..10] == session
  {
    assert PutBE(2, HEARTBEAT) == PutBE(1, 0) + [0] && PutBE(1, 0) == PutBE(0, 0) + [0];
    assert PutBE(2, END_OF_SESSION) == PutBE(1, 255) + [255] && PutBE(1, 255) == PutBE(0, 0) + [255];
  }

  /** A packet that is only a header reads back and carries no message. */
  lemma MarkerReadsBack(h: PacketHeader)
    requires h.sequence < 0x1_0000_0000_0000_0000 && (h.count == HEARTBEAT || h.count == END_OF_SESSION)
    ensures |HeaderBytes(h)| == HEADER_SIZE && ReadHeader(HeaderBytes(h)) == h
    ensures ReadPacket(HeaderBytes(h)) == (true, [])
  {
    HeaderReadsBack(h, []);
    assert HeaderBytes(h) + [] == HeaderBytes(h);
  }

  // ----- gaps

  class GapTracker {
    var started: bool
    var next: nat
    var totalMissed: nat

    constructor ()
      ensures !started && next == 1 && totalMissed == 0
    {
      started, next, totalMissed := false, 1, 0;
    }

    method OnPacket(hdr: PacketHeader) returns (missed: nat)
      modifies this
      ensures missed == if old(started) && hdr.sequence > old(next) then hdr.sequence - old(next) else 0
      ensures totalMissed == old(totalMissed) + missed
      ensures hdr.sequence < old(next) && old(started) ==> next == old(next) && started
      ensures !old(started) || hdr.sequence >= old(next) ==>
                && started
                && (hdr.count != HEARTBEAT && hdr.count != END_OF_SESSION ==> next == hdr.sequence + hdr.count)
                && (hdr.count == HEARTBEAT || hdr.count == END_OF_SESSION ==>
                      next == if hdr.sequence > old(next) then hdr.sequence else old(next))
    {
      missed := 0;
      if started && hdr.sequence > next {
        missed := hdr.sequence - next;
      }
      if !started || hdr.sequence >= next {
        started := true;
        if hdr.count != HEARTBEAT && hdr.count != END_OF_SESSION {
          next := hdr.sequence + hdr.count;
        } else {
          next := if hdr.sequence > next then hdr.sequence else next;
        }
      }
      totalMissed := totalMissed + missed;
    }
  }

  /** A heartbeat sealed, unpacked and tracked: it delivers nothing, counts what was sent since the last
      packet heard, and brings the tracker to the number announced, so that a second one counts nothing. */
  method HearHeartbeat(packer: Packer, tracker: GapTracker, next: nat)
    returns (missed: nat, delivered: seq<(nat, Bytes)>)
    requires packer.Valid() && next < 0x1_0000_0000_0000_0000
    modifies packer, packer.buf, tracker
    ensures delivered == [] && tracker.started
    ensures tracker.next == if next > old(tracker.next) then next else old(tracker.next)
    ensures missed == (if old(tracker.started) then tracker.next - old(tracker.next) else 0)
    ensures tracker.totalMissed == old(tracker.totalMissed) + missed
  {
    hide HeaderBytes, ReadHeader, ReadPacket;
    packer.SealHeartbeat(next);
    MarkerReadsBack(PacketHeader(packer.session, next, HEARTBEAT));
    var ok, hdr;
    ok, hdr, delivered := Unpack(packer.buf[..packer.len], PacketHeader(packer.session, 0, 0));
    missed := tracker.OnPacket(hdr);
  }

  // ----- one message per packet

  /** Packet `i` of a session that sends `msgs` one by one: message `i` under number `i`, and after the
      last one the end of the session. */
  function Datagram(session: Session, msgs: seq<Bytes>, i: nat): Bytes
    requires 1 <= i <= |msgs| + 1
  {
    if i <= |msgs| then HeaderBytes(PacketHeader(session, i, 1)) + Blocks([msgs[i - 1]])
    else HeaderBytes(PacketHeader(session, i, END_OF_SESSION))
  }

  /** A packet of its own for one message, unless the message is too long for any. */
  method PackOne(packer: Packer, sequence: nat, msg: Bytes) returns (ok: bool, packet: Bytes)
    requires packer.Valid()
    modifies packer, packer.buf
    ensures packer.Valid() && (ok <==> HEADER_SIZE + 2 + |msg| <= PACKET_LIMIT)
    ensures ok ==> packer.count == 1 && packet == HeaderBytes(PacketHeader(packer.session, sequence, 1)) + Blocks([msg])
  {
    hide HeaderBytes, Blocks;
    packet := [];
    packer.Begin(sequence);
    ok := packer.Add(msg);
    if ok {
      assert packer.added == [msg];
      packer.Seal();
      packet := packer.buf[..packer.len];
    }
  }

  /** The queued messages that the publishing loop handles, as it sends them: each behind its writer's two
      length bytes, which the packet repeats. */
  method Publish(session: Session, framed: seq<Bytes>) returns (packets: seq<Bytes>)
    requires forall i :: 0 <= i < |framed| ==> 2 < |framed[i]| <= PACKET_LIMIT - HEADER_SIZE
    ensures |packets| == |framed| + 1
    ensures var msgs := Unframed(framed);
      forall i :: 0 <= i < |packets| ==> packets[i] == Datagram(session, msgs, i + 1)
  {
    ghost var msgs := Unframed(framed);
    var packer := new Packer(session);
    var sequence := 1;
    packets := [];
    hide HeaderBytes, Blocks;
    for k := 0 to |framed|
      invariant packer.Valid() && packer.session == session && fresh(packer) && fresh(packer.buf)
      invariant sequence == k + 1 && |packets| == k
      invariant forall i :: 0 <= i < k ==> packets[i] == Datagram(session, msgs, i + 1)
    {
      if |framed[k]| >= 2 {
        var ok, packet := PackOne(packer, sequence, framed[k][2..]);
        if ok {
          sequence := sequence + packer.count;
          packets := packets + [packet];
        }
      }
    }
    packer.SealEndOfSession(sequence);
    packets := packets + [packer.buf[..packer.len]];
  }

  function Unframed(framed: seq<Bytes>): (msgs: seq<Bytes>)
    requires forall i :: 0 <= i < |framed| ==> |framed[i]| >= 2
    ensures |msgs| == |framed| && forall i :: 0 <= i < |framed| ==> msgs[i] == framed[i][2..]
  {
    if framed == [] then [] else [framed[0][2..]] + Unframed(framed[1..])
  }

  /** How many of the numbers from `lo` up to but not including `hi` are not in `got`. */
  function Missing(lo: nat, hi: nat, got: seq<nat>): nat
    decreases hi - lo
  {
    if lo >= hi then 0 else (if lo in got then 0 else 1) + Missing(lo + 1, hi, got)
  }

  lemma {:induction false} MissingSnoc(lo: nat, hi: nat, got: seq<nat>)
    requires lo <= hi
    ensures Missing(lo, hi + 1, got) == Missing(lo, hi, got) + if hi in got then 0 else 1
    decreases hi - lo
  {
    if lo < hi {
      MissingSnoc(lo + 1, hi, got);
    }
  }

  lemma {:induction false} MissingSame(lo: nat, hi: nat, got: seq<nat>, more: seq<nat>)
    requires forall x :: lo <= x < hi ==> (x in got <==> x in more)
    ensures Missing(lo, hi, got) == Missing(lo, hi, more)
    decreases hi - lo
  {
    if lo < hi {
      MissingSame(lo + 1, hi, got, more);
    }
  }

  lemma {:induction false} MissingAll(lo: nat, hi: nat, got: seq<nat>)
    requires lo <= hi && forall x :: lo <= x < hi ==> x !in got
    ensures Missing(lo, hi, got) == hi - lo
    decreases hi - lo
  {
    if lo < hi {
      MissingAll(lo + 1, hi, got);
    }
  }

  lemma {:induction false} MissingSplit(lo: nat, mid: nat, hi: nat, got: seq<nat>)
    requires lo <= mid <= hi
    ensures Missing(lo, hi, got) == Missing(lo, mid, got) + Missing(mid, hi, got)
    decreases mid - lo
  {
    if lo < mid {
      MissingSplit(lo + 1, mid, hi, got);
    }
  }

  // ----- any in-order subset of the packets

  ghost predicate InOrder(got: seq<nat>, last: nat) {
    && (forall i, j :: 0 <= i < j < |got| ==> got[i] < got[j])
    && forall i :: 0 <= i < |got| ==> 1 <= got[i] <= last
  }

  /** The messages that survive when exactly the packets `got` arrive. */
  function Survivors(msgs: seq<Bytes>, got: seq<nat>): seq<(nat, Bytes)>
    requires forall i :: 0 <= i < |got| ==> 1 <= got[i]
  {
    if got == [] then []
    else
      var i := got[|got| - 1];
      Survivors(msgs, got[..|got| - 1]) + if i <= |msgs| then [(i, msgs[i - 1])] else []
  }

  lemma DatagramReadsBack(session: Session, msgs: seq<Bytes>, i: nat)
    requires 1 <= i <= |msgs| + 1 < 0x1_0000_0000_0000_0000
    requires forall k :: 0 <= k < |msgs| ==> 0 < |msgs[k]| < 0x1_0000
    ensures var p := Datagram(session, msgs, i);
      && |p| >= HEADER_SIZE && ReadHeader(p) == PacketHeader(session, i, if i <= |msgs| then 1 else END_OF_SESSION)
      && ReadPacket(p) == (true, if i <= |msgs| then [(i, msgs[i - 1])] else [])
  {
    if i <= |msgs| {
      var one := [msgs[i - 1]];
      PacketReadsBack(PacketHeader(session, i, 1), one);
      assert Numbered(one, i) == [(i, msgs[i - 1])];
    } else {
      MarkerReadsBack(PacketHeader(session, i, END_OF_SESSION));
    }
  }

  /** Counting the numbers between two packets that follow each other among those received. */
  lemma MissingStep(got: seq<nat>, last: nat, k: nat)
    requires InOrder(got, last) && 0 < k < |got|
    ensures Missing(got[0] + 1, got[k], got) == Missing(got[0] + 1, got[k - 1], got) + (got[k] - got[k - 1] - 1)
  {
    var a, b, c := got[0] + 1, got[k - 1], got[k];
    forall x | b < x < c
      ensures x !in got
    {
      assert forall j :: 0 <= j < |got| ==> got[j] <= b || c <= got[j] by {
        assert forall j :: 0 <= j < k - 1 ==> got[j] < b;
        assert forall j :: k < j < |got| ==> c < got[j];
      }
    }
    MissingAll(b + 1, c, got);
    if k > 1 {
      assert got[0] < b;
      MissingSplit(a, b, c, got);
      assert b in got;
    }
  }

  /** A receiver that gets the packets `got` of the session, in order and unchanged, and no others. */
  method Receive(session: Session, msgs: seq<Bytes>, got: seq<nat>)
    returns (delivered: seq<(nat, Bytes)>, tracker: GapTracker)
    requires got != [] && InOrder(got, |msgs| + 1) && |msgs| + 1 < 0x1_0000_0000_0000_0000
    requires forall k :: 0 <= k < |msgs| ==> 0 < |msgs[k]| < 0x1_0000
    ensures delivered == Survivors(msgs, got)
    ensures tracker.totalMissed == Missing(got[0] + 1, got[|got| - 1], got)
  {
    hide Datagram, ReadHeader, ReadPacket, Missing;
    tracker := new GapTracker();
    delivered := [];
    var hdr := PacketHeader(session, 0, 0);
    assert got[..0] == [];
    for k := 0 to |got|
      invariant fresh(tracker) && (k > 0 <==> tracker.started)
      invariant k == 0 ==> tracker.next == 1 && tracker.totalMissed == 0
      invariant k > 0 ==> tracker.next == (if got[k - 1] <= |msgs| then got[k - 1] + 1 else |msgs| + 1)
      invariant k > 0 ==> tracker.totalMissed == Missing(got[0] + 1, got[k - 1], got)
      invariant delivered == Survivors(msgs, got[..k])
    {
      DatagramReadsBack(session, msgs, got[k]);
      var ok, out;
      ok, hdr, out := Unpack(Datagram(session, msgs, got[k]), hdr);
      if ok {
        var missed := tracker.OnPacket(hdr);
        delivered := delivered + out;
      }
      if k > 0 {
        MissingStep(got, |msgs| + 1, k);
      } else {
        MissingNone(got);
      }
      assert got[..k + 1][..k] == got[..k];
    }
    assert got[..|got|] == got;
  }

  lemma MissingNone(got: seq<nat>)
    requires got != []
    ensures Missing(got[0] + 1, got[0], got) == 0
  {
  }
}
