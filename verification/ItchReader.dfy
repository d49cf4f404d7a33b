/** Walking framed and unframed streams of messages: the one-shot readers of
    include/pricetime/itch_reader.hpp and the chunked one of include/pricetime/itch_stream.hpp. */
module ItchReader {
  import opened Itch
  import T = Types
  import W = ItchWriter

  datatype Status = Ok | TruncatedPrefix | TruncatedMessage | UnknownType | LengthMismatch | ZeroLength

  datatype ReadResult = ReadResult(
    status: Status, messages: nat, offset: nat, badType: byte, declared: nat, expected: nat)

  /** The bytes of the chunked reader's buffer beyond one chunk. */
  const SPARE: nat := 64

  /** The longest declared length whose cut-off fragment always fits the spare bytes. */
  const SPARE_DECLARED: nat := 63

  const CLEAN := ReadResult(Ok, 0, 0, Code(' '), 0, 0)

  // ----- the walk as a function of the bytes

  /** What stands at the front of `s`: a whole message of that length, or why there is none. */
  datatype Front = Message(len: nat) | Stop(why: ReadResult)

  function FrontOf(s: Bytes): (f: Front)
    requires s != []
    ensures f.Message? ==> f.len > 0 && 2 + f.len <= |s|
    ensures f.Stop? ==> f.why.status != Ok && f.why.messages == 0 && f.why.offset == 0
  {
    if |s| < 2 then Stop(CLEAN.(status := TruncatedPrefix))
    else
      var len := Be16(s, 0);
      if len == 0 then Stop(CLEAN.(status := ZeroLength))
      else if |s| - 2 < len then Stop(CLEAN.(status := TruncatedMessage, declared := len))
      else
        var expected := MessageLength(s[2]);
        if expected != 0 && expected != len then
          Stop(ReadResult(LengthMismatch, 0, 0, s[2], len, expected))
        else Message(len)
  }

  function Counted(r: ReadResult, messages: nat, offset: nat): ReadResult {
    r.(messages := messages + r.messages, offset := offset + r.offset)
  }

  /** Reads `s` from its first byte: the result, with offsets from there, and the messages delivered. */
  function Walk(s: Bytes): (w: (ReadResult, seq<Bytes>))
    ensures w.0.offset <= |s| && w.0.messages == |w.1|
    ensures w.0.status == Ok ==> w.0 == ReadResult(Ok, |w.1|, |s|, Code(' '), 0, 0)
    decreases |s|
  {
    if s == [] then (CLEAN, [])
    else
      match FrontOf(s)
      case Stop(why) => (why, [])
      case Message(len) =>
        var rest := Walk(s[2 + len..]);
        (Counted(rest.0, 1, 2 + len), [s[2..2 + len]] + rest.1)
  }

  /** Declared lengths, of the frames the walk meets, are at most `limit`. */
  predicate Limited(s: Bytes, limit: nat)
    decreases |s|
  {
    |s| < 2 ||
    (Be16(s, 0) <= limit && (FrontOf(s).Message? ==> Limited(s[2 + FrontOf(s).len..], limit)))
  }

  predicate Truncated(r: ReadResult) {
    r.status == TruncatedPrefix || r.status == TruncatedMessage
  }

  /** A walk that has delivered `ms` over `off` bytes and goes on as `w`. */
  function Joined(ms: seq<Bytes>, off: nat, w: (ReadResult, seq<Bytes>)): (ReadResult, seq<Bytes>) {
    (Counted(w.0, |ms|, off), ms + w.1)
  }

  lemma JoinedTwice(ms: seq<Bytes>, off: nat, ns: seq<Bytes>, more: nat, w: (ReadResult, seq<Bytes>))
    ensures Joined(ms, off, Joined(ns, more, w)) == Joined(ms + ns, off + more, w)
  {
    assert ms + (ns + w.1) == (ms + ns) + w.1;
  }

  lemma JoinedNone(w: (ReadResult, seq<Bytes>))
    ensures Joined([], 0, w) == w
  {
    assert [] + w.1 == w.1;
  }

  /** One frame of the walk, by offset. */
  lemma WalkAt(data: Bytes, off: nat)
    requires off < |data|
    ensures var s := data[off..];
      match FrontOf(s)
      case Stop(why) => Walk(s) == (why, [])
      case Message(len) =>
        && off + 2 + len <= |data|
        && Walk(s) == Joined([data[off + 2..off + 2 + len]], 2 + len, Walk(data[off + 2 + len..]))
  {
    var s := data[off..];
    if FrontOf(s).Message? {
      var len := FrontOf(s).len;
      assert s[2 + len..] == data[off + 2 + len..] && s[2..2 + len] == data[off + 2..off + 2 + len];
    }
  }

  /** More bytes behind a front that is already decided leave it as it is. */
  lemma FrontStays(s: Bytes, more: Bytes)
    requires s != [] && (FrontOf(s).Message? || !Truncated(FrontOf(s).why))
    ensures FrontOf(s + more) == FrontOf(s)
  {
    assert Be16(s + more, 0) == Be16(s, 0);
  }

  lemma WalkFront(s: Bytes, len: nat)
    requires s != [] && FrontOf(s) == Message(len)
    ensures Walk(s) == Joined([s[2..2 + len]], 2 + len, Walk(s[2 + len..]))
  {
  }

  lemma WalkOnStopped(s: Bytes, more: Bytes)
    requires s != [] && FrontOf(s).Stop?
    ensures var (r, ms) := Walk(s);
      && (Truncated(r) ==> r.offset == 0 && Walk(s + more) == Joined(ms, 0, Walk(s[0..] + more)))
      && (!Truncated(r) ==> r.status != Ok && Walk(s + more) == (r, ms))
  {
    assert s[0..] == s;
    JoinedNone(Walk(s + more));
    if !Truncated(FrontOf(s).why) {
      FrontStays(s, more);
    }
  }

  lemma WalkOnMessage(s: Bytes, more: Bytes, len: nat)
    requires s != [] && FrontOf(s) == Message(len)
    ensures Walk(s) == Joined([s[2..2 + len]], 2 + len, Walk(s[2 + len..]))
    ensures Walk(s + more) == Joined([s[2..2 + len]], 2 + len, Walk(s[2 + len..] + more))
  {
    FrontStays(s, more);
    hide FrontOf;
    assert (s + more)[2 + len..] == s[2 + len..] + more && (s + more)[2..2 + len] == s[2..2 + len];
    WalkFront(s, len);
    WalkFront(s + more, len);
  }

  /** Going on from where a walk ran out of bytes, with more of them, is walking all of them; a walk
      that stopped for any other reason stops there however many follow. */
  predicate GoesOn(s: Bytes, more: Bytes) {
    var w := Walk(s);
    if w.0.status == Ok || Truncated(w.0) then Walk(s + more) == Joined(w.1, w.0.offset, Walk(s[w.0.offset..] + more))
    else Walk(s + more) == w
  }

  lemma JoinedParts(m: Bytes, n: nat, w: (ReadResult, seq<Bytes>), rest: (ReadResult, seq<Bytes>))
    ensures var j := Joined([m], n, w);
      && j.0.status == w.0.status && j.0.offset == n + w.0.offset
      && Joined([m], n, Joined(w.1, w.0.offset, rest)) == Joined(j.1, j.0.offset, rest)
  {
    JoinedTwice([m], n, w.1, w.0.offset, rest);
  }

  lemma GoesOnMessage(s: Bytes, more: Bytes, len: nat)
    requires s != [] && FrontOf(s) == Message(len) && GoesOn(s[2 + len..], more)
    ensures GoesOn(s, more)
  {
    hide Walk, FrontOf, Joined;
    WalkOnMessage(s, more, len);
    var t := s[2 + len..];
    var w := Walk(t);
    var rest := Walk(t[w.0.offset..] + more);
    JoinedParts(s[2..2 + len], 2 + len, w, rest);
    assert s[2 + len + w.0.offset..] == t[w.0.offset..];
  }

  lemma {:induction false} WalkOn(s: Bytes, more: Bytes)
    ensures GoesOn(s, more)
    decreases |s|
  {
    if s == [] {
      assert s + more == more && s[0..] + more == more;
      JoinedNone(Walk(more));
    } else if FrontOf(s).Stop? {
      WalkOnStopped(s, more);
    } else {
      hide GoesOn, Walk;
      var len := FrontOf(s).len;
      WalkOn(s[2 + len..], more);
      GoesOnMessage(s, more, len);
    }
  }

  // ----- the one-shot reader

  /** What one turn of the loop does to the walk that is left. */
  lemma WalkStep(data: Bytes, off: nat, ms: seq<Bytes>)
    requires off < |data|
    ensures var w := Joined(ms, off, Walk(data[off..]));
      match FrontOf(data[off..])
      case Stop(why) => w == (why.(messages := |ms|, offset := off), ms)
      case Message(len) =>
        && off + 2 + len <= |data|
        && w == Joined(ms + [data[off + 2..off + 2 + len]], off + 2 + len, Walk(data[off + 2 + len..]))
  {
    hide Walk;
    WalkAt(data, off);
    FrontIs(data, off);
    match FrontOf(data[off..])
    case Stop(why) => assert ms + [] == ms;
    case Message(len) => JoinedTwice(ms, off, [data[off + 2..off + 2 + len]], 2 + len, Walk(data[off + 2 + len..]));
  }

  /** What the reader sees at an offset, test by test. */
  lemma FrontIs(data: Bytes, off: nat)
    requires off < |data|
    ensures FrontOf(data[off..]) ==
      if |data| - off < 2 then Stop(CLEAN.(status := TruncatedPrefix))
      else
        var len := Be16(data, off);
        if len == 0 then Stop(CLEAN.(status := ZeroLength))
        else if |data| - off - 2 < len then Stop(CLEAN.(status := TruncatedMessage, declared := len))
        else
          var expected := MessageLength(data[off + 2]);
          if expected != 0 && expected != len then
            Stop(ReadResult(LengthMismatch, 0, 0, data[off + 2], len, expected))
          else Message(len)
  {
    var s := data[off..];
    assert |s| == |data| - off && s[0] == data[off] && (|s| > 2 ==> s[2] == data[off + 2]);
    assert |s| >= 2 ==> Be16(s, 0) == Be16(data, off);
    hide MessageLength, Be16;
  }

  method ForEachFramedMessage(data: Bytes) returns (r: ReadResult, delivered: seq<Bytes>)
    ensures (r, delivered) == Walk(data)
  {
    hide Walk, FrontOf, Joined, MessageLength, Be16, Counted, Truncated;
    r, delivered := CLEAN, [];
    var off: nat := 0;
    assert data[0..] == data;
    JoinedNone(Walk(data));
    while off < |data|
      invariant off <= |data| && r == CLEAN.(messages := |delivered|)
      invariant Walk(data) == Joined(delivered, off, Walk(data[off..]))
    {
      WalkStep(data, off, delivered);
      FrontIs(data, off);
      if |data| - off < 2 {
        return r.(status := TruncatedPrefix, offset := off), delivered;
      }
      var len := Be16(data, off);
      if len == 0 {
        return r.(status := ZeroLength, offset := off), delivered;
      }
      if |data| - off - 2 < len {
        return r.(status := TruncatedMessage, offset := off, declared := len), delivered;
      }
      var msg := data[off + 2..off + 2 + len];
      var expected := MessageLength(msg[0]);
      if expected != 0 && expected != len {
        return ReadResult(LengthMismatch, r.messages, off, msg[0], len, expected), delivered;
      }
      delivered := delivered + [msg];
      r := r.(messages := r.messages + 1);
      off := off + 2 + len;
    }
    EndOf(data, delivered, off);
    r := r.(offset := off);
  }

  lemma EndOf(data: Bytes, ms: seq<Bytes>, off: nat)
    requires off == |data|
    ensures Joined(ms, off, Walk(data[off..])) == (CLEAN.(messages := |ms|, offset := off), ms)
  {
    assert data[off..] == [] && ms + [] == ms;
  }

  // ----- the chunked reader

  predicate GoesOnFrom(r: ReadResult) {
    r.status == Ok || Truncated(r)
  }

  /** The file read so far, up to `pos`: `ms` delivered from its first `consumed` bytes, and the rest, if
      any, the front of a message. */
  ghost predicate Reached(data: Bytes, ms: seq<Bytes>, consumed: nat, pos: nat) {
    pos <= |data| && var w := Walk(data[..pos]); w.1 == ms && w.0.offset == consumed && GoesOnFrom(w.0)
  }

  /** Reading on from a point reached is reading the bytes up to there again with those that follow. */
  lemma ChunkJoined(data: Bytes, ms: seq<Bytes>, consumed: nat, pos: nat, to: nat)
    requires Reached(data, ms, consumed, pos) && pos <= to <= |data|
    ensures consumed <= pos && Walk(data[..to]) == Joined(ms, consumed, Walk(data[consumed..to]))
  {
    hide Walk, FrontOf, Joined;
    var s, more := data[..pos], data[pos..to];
    WalkOn(s, more);
    assert s + more == data[..to] && s[consumed..] + more == data[consumed..to];
  }

  /** A walk cut short names no bad type and no expected length. */
  lemma {:induction false} CutPlain(s: Bytes)
    requires Truncated(Walk(s).0)
    ensures Walk(s).0.badType == Code(' ') && Walk(s).0.expected == 0
    decreases |s|
  {
    if FrontOf(s).Message? {
      CutPlain(s[2 + FrontOf(s).len..]);
    }
  }

  /** A frame that no further bytes can mend ends the reading of anything that begins so. */
  lemma FatalStays(data: Bytes, pos: nat, to: nat)
    requires pos <= to <= |data| && !GoesOnFrom(Walk(data[..pos]).0)
    ensures Walk(data[..to]) == Walk(data[..pos])
  {
    hide Walk, FrontOf;
    WalkOn(data[..pos], data[pos..to]);
    assert data[..pos] + data[pos..to] == data[..to];
  }

  /** Copies the next bytes of the file, at most `n`, behind the first `have` bytes of the buffer. */
  method ReadInto(file: Bytes, pos: nat, buf: array<byte>, have: nat, n: nat) returns (got: nat)
    requires pos <= |file| && have + T.Min(n, |file| - pos) <= buf.Length
    modifies buf
    ensures got == T.Min(n, |file| - pos)
    ensures buf[..have + got] == old(buf[..have]) + file[pos..pos + got]
  {
    got := 0;
    while got < n && pos + got < |file|
      invariant got <= n && pos + got <= |file|
      invariant buf[..have + got] == old(buf[..have]) + file[pos..pos + got]
    {
      buf[have + got] := file[pos + got];
      assert file[pos..pos + got + 1] == file[pos..pos + got] + [file[pos + got]];
      got := got + 1;
      assert buf[..have + got] == buf[..have + got - 1] + [file[pos + got - 1]];
    }
  }

  /** Moves `n` bytes down to the front of the buffer. */
  method MoveDown(buf: array<byte>, from: nat, n: nat)
    requires from + n <= buf.Length
    modifies buf
    ensures buf[..n] == old(buf[from..from + n])
  {
    for k := 0 to n
      invariant forall i :: 0 <= i < k ==> buf[i] == old(buf[from + i])
      invariant forall i :: from + k <= i < buf.Length ==> buf[i] == old(buf[i])
    {
      buf[k] := buf[from + k];
    }
  }

  /** Refills the buffer, which holds `data[consumed..pos]`. */
  method Fill(data: Bytes, ghost consumed: nat, pos: nat, buf: array<byte>, have: nat, chunkBytes: nat)
    returns (got: nat)
    requires consumed <= pos <= |data| && have + T.Min(chunkBytes, |data| - pos) <= buf.Length
    requires buf[..have] == data[consumed..pos]
    modifies buf
    ensures got == T.Min(chunkBytes, |data| - pos)
    ensures have + got <= buf.Length && buf[..have + got] == data[consumed..pos + got]
  {
    got := ReadInto(data, pos, buf, have, chunkBytes);
    assert data[consumed..pos + got] == data[consumed..pos] + data[pos..pos + got];
  }

  /** Carries the fragment from offset `at` of the buffer to its front. */
  method Carry(ghost data: Bytes, ghost consumed: nat, ghost pos: nat, buf: array<byte>, have: nat, at: nat)
    requires consumed <= pos <= |data| && at <= have == pos - consumed && have <= buf.Length
    requires buf[..have] == data[consumed..pos]
    modifies buf
    ensures buf[..have - at] == data[consumed + at..pos]
  {
    assert buf[at..have] == buf[..have][at..] == data[consumed + at..pos];
    MoveDown(buf, at, have - at);
  }

  /** Reads the messages of the chunk `data[consumed..to]`, whose first bytes, up to `pos`, were carried
      over. `stop` says that the result is final; otherwise reading goes on from offset `kept`. */
  method TakeChunk(ghost data: Bytes, ghost ms: seq<Bytes>, consumed: nat, ghost pos: nat, ghost to: nat, chunk: Bytes,
                   atEof: bool, was: ReadResult)
    returns (stop: bool, total: ReadResult, got: seq<Bytes>, kept: nat)
    requires Reached(data, ms, consumed, pos) && pos <= to <= |data| && consumed <= to && chunk == data[consumed..to]
    requires was == CLEAN.(messages := |ms|, offset := was.offset) && (atEof ==> to == |data|)
    ensures kept <= |chunk| && (stop ==> (total, ms + got) == Walk(data))
    ensures stop && !atEof ==> !GoesOnFrom(Walk(data[..to]).0)
    ensures !stop ==>
              && !atEof && Reached(data, ms + got, consumed + kept, to)
              && total == CLEAN.(messages := |ms + got|, offset := total.offset)
              && (kept == |chunk| ==> total.offset == consumed + kept)
  {
    hide Walk, FrontOf, Joined;
    var r;
    r, got := ForEachFramedMessage(chunk);
    ChunkJoined(data, ms, consumed, pos, to);
    JoinedIs(ms, consumed, r, got);
    assert atEof ==> data[..to] == data;
    total := was.(messages := was.messages + r.messages);
    kept := r.offset;
    stop := false;
    if r.status == Ok {
      WalkedAll(chunk);
      total := total.(offset := consumed + |chunk|);
      stop := atEof;
    } else if Truncated(r) {
      CutPlain(chunk);
      NotWhole(chunk);
      if atEof {
        total := total.(status := r.status, offset := consumed + r.offset, declared := r.declared);
        stop := true;
      }
    } else {
      total := ReadResult(r.status, total.messages, consumed + r.offset, r.badType, r.declared, r.expected);
      FatalStays(data, to, |data|);
      assert data[..|data|] == data;
      stop := true;
    }
  }

  lemma WalkedAll(s: Bytes)
    ensures Walk(s).0.status == Ok ==> Walk(s).0 == CLEAN.(messages := |Walk(s).1|, offset := |s|)
  {
  }

  lemma {:induction false} NotWhole(s: Bytes)
    ensures Truncated(Walk(s).0) ==> Walk(s).0.offset < |s|
    decreases |s|
  {
    if s != [] && FrontOf(s).Message? {
      NotWhole(s[2 + FrontOf(s).len..]);
    }
  }

  /** Reads the chunk in the buffer and carries what is left of it to the front. */
  method Digest(ghost data: Bytes, ms: seq<Bytes>, consumed: nat, ghost pos: nat, ghost to: nat, buf: array<byte>,
                have: nat, atEof: bool, was: ReadResult)
    returns (stop: bool, total: ReadResult, delivered: seq<Bytes>, consumed': nat, have': nat)
    requires Reached(data, ms, consumed, pos) && pos <= to <= |data| && consumed <= to
    requires have == to - consumed && have <= buf.Length && buf[..have] == data[consumed..to]
    requires was == CLEAN.(messages := |ms|, offset := was.offset) && (atEof ==> to == |data|)
    modifies buf
    ensures stop ==> (total, delivered) == Walk(data)
    ensures stop && !atEof ==> !GoesOnFrom(Walk(data[..to]).0)
    ensures !stop ==>
              && !atEof && to == consumed' + have' && have' <= buf.Length && buf[..have'] == data[consumed'..to]
              && Reached(data, delivered, consumed', to)
              && total == CLEAN.(messages := |delivered|, offset := total.offset)
              && (have' == 0 ==> total.offset == consumed')
  {
    hide Walk, FrontOf, Joined, Reached;
    var ms', kept;
    stop, total, ms', kept := TakeChunk(data, ms, consumed, pos, to, buf[..have], atEof, was);
    delivered := ms + ms';
    consumed', have' := consumed, have;
    if !stop {
      Carry(data, consumed, to, buf, have, kept);
      consumed' := consumed + kept;
      have' := have - kept;
    }
  }

  // ----- where a refill leaves the buffer

  /** The refill behind `k` whole chunks does not fit: what is carried over and what is read next are
      together more than one chunk and the spare bytes. */
  predicate Overruns(data: Bytes, chunkBytes: nat, k: nat) {
    var pos := k * chunkBytes;
    pos < |data| &&
    var r := Walk(data[..pos]).0;
    GoesOnFrom(r) && pos - r.offset + T.Min(chunkBytes, |data| - pos) > chunkBytes + SPARE
  }

  ghost predicate EverOverruns(data: Bytes, chunkBytes: nat) {
    exists k: nat :: Overruns(data, chunkBytes, k)
  }

  /** The first `k` refills fit. */
  ghost predicate FitsBefore(data: Bytes, chunkBytes: nat, k: nat) {
    forall j :: 0 <= j < k ==> !Overruns(data, chunkBytes, j)
  }

  lemma OneMoreFits(data: Bytes, chunkBytes: nat, k: nat)
    requires FitsBefore(data, chunkBytes, k) && !Overruns(data, chunkBytes, k)
    ensures FitsBefore(data, chunkBytes, k + 1)
  {
    hide Overruns;
  }

  lemma OverrunsNow(data: Bytes, chunkBytes: nat, k: nat)
    requires Overruns(data, chunkBytes, k)
    ensures EverOverruns(data, chunkBytes)
  {
    hide Overruns;
  }

  /** No refill comes behind one that meets the end of the file. */
  lemma FitsToTheEnd(data: Bytes, chunkBytes: nat, k: nat)
    requires FitsBefore(data, chunkBytes, k + 1) && k * chunkBytes <= |data|
    requires chunkBytes == 0 || |data| - k * chunkBytes < chunkBytes
    ensures !EverOverruns(data, chunkBytes)
  {
    hide Walk;
    assert (k + 1) * chunkBytes == k * chunkBytes + chunkBytes;
    forall j | j > k
      ensures !Overruns(data, chunkBytes, j)
    {
      W.MulMono(k + 1, j, chunkBytes);
      if chunkBytes == 0 {
        assert data[..0] == [];
        NothingWalked();
      }
    }
  }

  lemma NothingWalked()
    ensures Walk([]) == (CLEAN, [])
  {
  }

  /** No refill comes behind a frame that ends the reading. */
  lemma FitsToTheFatal(data: Bytes, chunkBytes: nat, k: nat)
    requires FitsBefore(data, chunkBytes, k) && k * chunkBytes <= |data|
    requires !GoesOnFrom(Walk(data[..k * chunkBytes]).0)
    ensures !EverOverruns(data, chunkBytes)
  {
    hide Walk, GoesOnFrom;
    forall j | j >= k
      ensures !Overruns(data, chunkBytes, j)
    {
      W.MulMono(k, j, chunkBytes);
      if j * chunkBytes < |data| {
        FatalStays(data, k * chunkBytes, j * chunkBytes);
      }
    }
  }

  /** Reads a file through a buffer of `chunkBytes` and 64 spare bytes, carrying the fragment at the end
      of each chunk over to the next. A file that cannot be opened is None. `overrun` marks a refill that
      writes past the buffer, after which the source's behaviour is undefined; that happens exactly when
      some refill does not fit, and otherwise the result is that of the one-shot reader. */
  method ForEachFramedStream(file: T.Option<Bytes>, chunkBytes: nat)
    returns (overrun: bool, total: ReadResult, delivered: seq<Bytes>)
    ensures file.None? ==> !overrun && total == CLEAN.(status := TruncatedPrefix) && delivered == []
    ensures file.Some? ==> (overrun <==> EverOverruns(file.value, chunkBytes))
    ensures file.Some? && !overrun && chunkBytes >= 1 ==> (total, delivered) == Walk(file.value)
    ensures file.Some? && chunkBytes == 0 ==> (total, delivered) == (CLEAN, [])
  {
    overrun, total, delivered := false, CLEAN, [];
    if file.None? {
      total := total.(status := TruncatedPrefix);
    } else if chunkBytes == 0 {
      NothingOverruns(file.value);
    } else {
      overrun, total, delivered := ReadChunks(file.value, chunkBytes);
    }
  }

  /** With no chunk to read, the source's first read is empty and its loop ends there. */
  lemma NothingOverruns(data: Bytes)
    ensures !EverOverruns(data, 0)
  {
    hide Overruns;
    OverrunsAtZero(data);
    FitsToTheEnd(data, 0, 0);
  }

  lemma OverrunsAtZero(data: Bytes)
    ensures FitsBefore(data, 0, 1)
  {
    hide Walk;
    assert data[..0] == [];
    NothingWalked();
  }

  method ReadChunks(data: Bytes, chunkBytes: nat) returns (overrun: bool, total: ReadResult, delivered: seq<Bytes>)
    requires chunkBytes >= 1
    ensures overrun <==> EverOverruns(data, chunkBytes)
    ensures !overrun ==> (total, delivered) == Walk(data)
  {
    hide Walk, FrontOf, Reached, Overruns, GoesOnFrom, FitsBefore, EverOverruns;
    overrun, total, delivered := false, CLEAN, [];
    var buf := new byte[chunkBytes + 64];
    var have: nat, consumed: nat, pos: nat := 0, 0, 0;
    ghost var k: nat := 0;
    NotBegun(data, chunkBytes);
    while true
      invariant pos == consumed + have <= |data| && have <= buf.Length && buf[..have] == data[consumed..pos]
      invariant total == CLEAN.(messages := |delivered|, offset := total.offset)
      invariant have == 0 ==> total.offset == consumed
      invariant Reached(data, delivered, consumed, pos) && pos == k * chunkBytes && FitsBefore(data, chunkBytes, k)
      decreases |data| - pos
    {
      RefillFits(data, delivered, consumed, pos, chunkBytes, k);
      if have + T.Min(chunkBytes, |data| - pos) > buf.Length {
        OverrunsNow(data, chunkBytes, k);
        return true, total, delivered;
      }
      OneMoreFits(data, chunkBytes, k);
      var got := Fill(data, consumed, pos, buf, have, chunkBytes);
      have := have + got;
      if got < chunkBytes {
        FitsToTheEnd(data, chunkBytes, k);
      }
      if have == 0 {
        AtEnd(data, delivered, consumed, pos);
        return;
      }
      var stop;
      stop, total, delivered, consumed, have :=
        Digest(data, delivered, consumed, pos, pos + got, buf, have, got < chunkBytes, total);
      NextChunk(k, chunkBytes);
      pos := pos + got;
      k := k + 1;
      if stop {
        if got == chunkBytes {
          FitsToTheFatal(data, chunkBytes, k);
        }
        return;
      }
    }
  }

  lemma NextChunk(k: nat, chunkBytes: nat)
    ensures (k + 1) * chunkBytes == k * chunkBytes + chunkBytes
  {
  }

  lemma NotBegun(data: Bytes, chunkBytes: nat)
    ensures Reached(data, [], 0, 0) && FitsBefore(data, chunkBytes, 0) && 0 * chunkBytes == 0
  {
    assert data[..0] == [];
  }

  /** The test before a refill is the test of `Overruns`. */
  lemma RefillFits(data: Bytes, ms: seq<Bytes>, consumed: nat, pos: nat, chunkBytes: nat, k: nat)
    requires Reached(data, ms, consumed, pos) && pos == k * chunkBytes
    ensures consumed <= pos
    ensures Overruns(data, chunkBytes, k)
       <==> pos < |data| && pos - consumed + T.Min(chunkBytes, |data| - pos) > chunkBytes + SPARE
  {
    hide Walk;
  }

  lemma AtEnd(data: Bytes, ms: seq<Bytes>, consumed: nat, pos: nat)
    requires Reached(data, ms, consumed, pos) && consumed == pos == |data|
    ensures Walk(data) == (CLEAN.(messages := |ms|, offset := consumed), ms)
  {
    assert data[..pos] == data;
    NotWhole(data);
    WalkedAll(data);
  }

  // ----- frames that never overrun, and one that does

  /** Leftover bytes of a walk that was cut short stay within two length bytes and one message. */
  lemma {:induction false} FragmentShort(s: Bytes, more: Bytes, limit: nat)
    requires Truncated(Walk(s).0) && Limited(s + more, limit)
    ensures 0 < |s| - Walk(s).0.offset < 2 + limit || |s| - Walk(s).0.offset == 1
    decreases |s|
  {
    if FrontOf(s).Stop? {
      assert |s| >= 2 ==> Be16(s + more, 0) == Be16(s, 0);
    } else {
      var len := FrontOf(s).len;
      LimitedMessage(s, more, len, limit);
      hide Limited;
      FragmentShort(s[2 + len..], more, limit);
    }
  }

  lemma LimitedMessage(s: Bytes, more: Bytes, len: nat, limit: nat)
    requires s != [] && FrontOf(s) == Message(len) && Limited(s + more, limit)
    ensures Limited(s[2 + len..] + more, limit)
  {
    FrontStays(s, more);
    assert (s + more)[2 + len..] == s[2 + len..] + more;
  }

  /** Files whose frames declare at most 63 bytes never overrun the buffer, whatever the chunk size; so the
      chunked reader agrees with the one-shot reader on them. */
  lemma ShortFramesFit(data: Bytes, chunkBytes: nat)
    requires Limited(data, SPARE_DECLARED)
    ensures !EverOverruns(data, chunkBytes)
  {
    hide Walk, Limited;
    forall k: nat
      ensures !Overruns(data, chunkBytes, k)
    {
      var pos := k * chunkBytes;
      if pos < |data| && Truncated(Walk(data[..pos]).0) {
        assert data[..pos] + data[pos..] == data;
        FragmentShort(data[..pos], data[pos..], SPARE_DECLARED);
      } else if pos < |data| {
        WalkedAll(data[..pos]);
      }
    }
  }

  /** A file that fits one chunk never overruns it, whatever its frames declare. */
  lemma OneChunkFits(data: Bytes, chunkBytes: nat)
    requires |data| <= chunkBytes
    ensures !EverOverruns(data, chunkBytes)
  {
    hide Walk;
    forall k: nat
      ensures !Overruns(data, chunkBytes, k)
    {
      if k > 0 {
        W.MulMono(1, k, chunkBytes);
      }
    }
  }

  /** One frame that declares 64 bytes, of a type the length table does not know. */
  function LongFrame(): Bytes {
    [0, 64] + Zeros(64)
  }

  /** Read byte by byte it overruns: its first 65 bytes are a fragment, and the next does not fit. The
      one-shot reader takes it as one message. */
  lemma LongFrameOverruns()
    ensures Overruns(LongFrame(), 1, 65) && Walk(LongFrame()) == (CLEAN.(messages := 1, offset := 66), [Zeros(64)])
  {
    hide Zeros, Walk, Joined;
    var data := LongFrame();
    LongFront();
    assert data[66..] == [] && data[2..66] == Zeros(64);
    WalkFront(data, 64);
    NothingWalked();
    JoinedIs([Zeros(64)], 66, CLEAN, []);
    assert [Zeros(64)] + [] == [Zeros(64)];
  }

  lemma LongFront()
    ensures var data := LongFrame();
      |data| == 66 && FrontOf(data) == Message(64)
      && Walk(data[..65]) == (CLEAN.(status := TruncatedMessage, declared := 64), [])
  {
    var data := LongFrame();
    AllZero(64);
    hide Zeros;
    assert Be16(data, 0) == 64 && Be16(data[..65], 0) == 64 && data[2] == 0;
    assert FrontOf(data[..65]) == Stop(CLEAN.(status := TruncatedMessage, declared := 64));
  }

  lemma JoinedIs(ms: seq<Bytes>, off: nat, r: ReadResult, ns: seq<Bytes>)
    ensures Joined(ms, off, (r, ns)) == (r.(messages := |ms| + r.messages, offset := off + r.offset), ms + ns)
  {
  }

  // ----- writer and reader

  function Frames(ms: seq<Msg>): Bytes {
    if ms == [] then [] else Frame(ms[0]) + Frames(ms[1..])
  }

  function Bodies(ms: seq<Msg>): (b: seq<Bytes>)
    ensures |b| == |ms|
    ensures forall i :: 0 <= i < |ms| ==> b[i] == Body(ms[i])
  {
    if ms == [] then [] else [Body(ms[0])] + Bodies(ms[1..])
  }

  lemma FrameFront(m: Msg, rest: Bytes)
    ensures var s := Frame(m) + rest;
      && FrontOf(s) == Message(|Body(m)|) && s[2..2 + |Body(m)|] == Body(m) && s[2 + |Body(m)|..] == rest
  {
    BodyShape(m);
    var n := |Body(m)|;
    hide Body, PutBE, MessageLength;
    var s := Frame(m) + rest;
    assert s[0..2] == PutBE(2, n);
    FieldIs(s, 0, 2, n);
    assert s[2..2 + n] == Body(m) && s[2 + n..] == rest && s[2] == Body(m)[0];
  }

  /** Whatever messages are framed one after another read back as themselves, every byte consumed. */
  lemma {:induction false} FramesReadBack(ms: seq<Msg>)
    ensures Walk(Frames(ms)) == (CLEAN.(messages := |ms|, offset := |Frames(ms)|), Bodies(ms))
  {
    if ms != [] {
      FrameFront(ms[0], Frames(ms[1..]));
      FramesReadBack(ms[1..]);
      hide FrontOf;
      WalkFront(Frames(ms), |Body(ms[0])|);
    }
  }

  lemma {:induction false} FramesConcat(ms: seq<Msg>, m: Msg)
    ensures Frames(ms + [m]) == Frames(ms) + Frame(m)
  {
    hide Frame;
    if ms == [] {
      assert ms + [m] == [m] && Frames([]) == [];
      assert Frames([m]) == Frame(m) + Frames([m][1..]);
    } else {
      assert (ms + [m])[1..] == ms[1..] + [m];
      FramesConcat(ms[1..], m);
    }
  }

  /** Writes the messages through the writer and reads the bytes back. */
  method WriteAndRead(ms: seq<Msg>) returns (w: W.Writer, r: ReadResult, delivered: seq<Bytes>)
    ensures w.count == |ms| && r == CLEAN.(messages := |ms|, offset := |w.buf|)
    ensures delivered == Bodies(ms)
  {
    w := new W.Writer();
    hide Frames, Frame, Bodies, Walk;
    NoFrames();
    for i := 0 to |ms|
      invariant fresh(w) && w.count == i && w.buf == Frames(ms[..i])
    {
      w.Write(ms[i]);
      FramesConcat(ms[..i], ms[i]);
      assert ms[..i + 1] == ms[..i] + [ms[i]];
    }
    assert ms[..|ms|] == ms;
    FramesReadBack(ms);
    r, delivered := ForEachFramedMessage(w.buf);
  }

  lemma NoFrames()
    ensures Frames([]) == []
  {
  }

  // ----- what the reader takes the bytes for

  /** Message bodies, each behind its length, most significant byte first. */
  function Framed(bodies: seq<Bytes>): Bytes {
    if bodies == [] then [] else [|bodies[0]| / 256 % 256, |bodies[0]| % 256] + bodies[0] + Framed(bodies[1..])
  }

  predicate Sized(body: Bytes) {
    0 < |body| < 0x1_0000 && (MessageLength(body[0]) == 0 || MessageLength(body[0]) == |body|)
  }

  /** Why reading stops in front of `rest`. */
  predicate StopsAt(rest: Bytes, r: ReadResult) {
    var declared: int := if |rest| < 2 then 0 else 256 * At(rest, 0) + At(rest, 1);
    var whole := |rest| >= 2 && 0 < declared <= |rest| - 2;
    && r.status != UnknownType
    && (r.status == Ok <==> rest == [])
    && (r.status == TruncatedPrefix <==> |rest| == 1)
    && (r.status == ZeroLength <==> |rest| >= 2 && declared == 0)
    && (r.status == TruncatedMessage <==> |rest| >= 2 && declared > |rest| - 2)
    && (r.status == LengthMismatch <==> whole)
    && (r.status == TruncatedMessage || r.status == LengthMismatch ==> r.declared == declared)
    && (whole ==> r.badType == rest[2] && r.expected == MessageLength(rest[2]) && r.expected != 0
                  && r.expected != declared)
  }

  /** The bytes read are the messages delivered, framed, and what comes after them is why reading stopped: nothing,
      half a length, a zero length, less than was declared, or a length wrong for its type. */
  lemma {:induction false} WalkIs(s: Bytes) returns (rest: Bytes)
    ensures var (r, ms) := Walk(s);
            && (forall i :: 0 <= i < |ms| ==> Sized(ms[i])) && s == Framed(ms) + rest
            && r.messages == |ms| && r.offset == |s| - |rest| && StopsAt(rest, r)
    decreases |s|
  {
    hide Framed, Sized, MessageLength, StopsAt, FrontOf;
    rest := s;
    if s != [] && FrontOf(s).Message? {
      var len := FrontOf(s).len;
      var b, tail := s[2..2 + len], s[2 + len..];
      rest := WalkIs(tail);
      WholeFrame(s, len);
      FramedFront(b, Walk(tail).1);
      assert s == s[..2 + len] + tail;
      var ms, more := Walk(s).1, Walk(tail).1;
      assert ms == [b] + more;
      assert forall i :: 0 <= i < |ms| ==> ms[i] == if i == 0 then b else more[i - 1];
      CountedStops(rest, Walk(tail).0, 1, 2 + len);
    } else {
      NoFrame(s);
    }
  }

  lemma CountedStops(rest: Bytes, r: ReadResult, messages: nat, offset: nat)
    ensures StopsAt(rest, Counted(r, messages, offset)) == StopsAt(rest, r)
  {
  }

  lemma FramedFront(b: Bytes, more: seq<Bytes>)
    ensures Framed([b] + more) == [|b| / 256 % 256, |b| % 256] + b + Framed(more)
    ensures Framed([]) == []
  {
    assert ([b] + more)[1..] == more;
  }

  lemma NoFrame(s: Bytes)
    requires s == [] || FrontOf(s).Stop?
    ensures Framed([]) == [] && StopsAt(s, Walk(s).0)
    ensures Walk(s) == ((if s == [] then CLEAN else FrontOf(s).why), [])
  {
    hide MessageLength;
  }

  lemma WholeFrame(s: Bytes, len: nat)
    requires s != [] && FrontOf(s) == Message(len)
    ensures Sized(s[2..2 + len]) && s[..2 + len] == [len / 256 % 256, len % 256] + s[2..2 + len]
  {
    hide MessageLength;
    var high: nat, low: nat := At(s, 0), At(s, 1);
    assert len == high * 0x100 + low && low < 256 && high < 256;
    assert len / 256 == high && len % 256 == low;
    assert s[..2 + len] == [s[0], s[1]] + s[2..2 + len];
  }
}
