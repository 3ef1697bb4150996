/** De-aggregation of one USB receive buffer: the position-advancing loop of `mt7603_rx_complete`
    (src/c/mac80211.c). */
module RxWalk {
  import opened Machine
  import opened RxDescriptor

  /** Bytes from the start of one subframe to the start of the next: the subframe, padding to a
      multiple of four and the four checksum-offload bytes. */
  function Span(cnt: nat): nat {
    cnt + Pad4(cnt) + 4
  }

  /** The subframes that the walk visits, each cut to its own announced length. */
  function Subframes(buf: seq<u8>): seq<seq<u8>>
    decreases |buf|
  {
    if |buf| < 16 then []
    else
      var cnt := Le16(buf[0], buf[1]);
      if cnt == 0 || cnt > |buf| then []
      else if Span(cnt) < 16 || Span(cnt) > |buf| then [buf[..cnt]]
      else [buf[..cnt]] + Subframes(buf[Span(cnt)..])
  }

  // ---- Aggregation and its inverse ----

  /** A subframe the device can send: it starts with its own length. */
  predicate Announces(s: seq<u8>) {
    2 <= |s| < 0x1_0000 && Le16(s[0], s[1]) == |s|
  }

  /** What follows a subframe: padding and checksum-offload bytes, of any content. */
  predicate Tails(subs: seq<seq<u8>>, tails: seq<seq<u8>>) {
    |tails| == |subs| && forall i :: 0 <= i < |subs| ==> |tails[i]| == Pad4(|subs[i]|) + 4
  }

  function Aggregate(subs: seq<seq<u8>>, tails: seq<seq<u8>>): seq<u8>
    requires Tails(subs, tails)
    decreases |subs|
  {
    if subs == [] then [] else subs[0] + tails[0] + Aggregate(subs[1..], tails[1..])
  }

  /** One step of the walk over an aggregate. */
  lemma WalkStep(s: seq<u8>, tail: seq<u8>, rest: seq<u8>)
    requires Announces(s) && |tail| == Pad4(|s|) + 4
    ensures |s| >= 9 ==> Subframes(s + tail + rest) == [s] + Subframes(rest)
    ensures |s| < 9 ==> |Subframes(s + tail + rest)| <= 1
    ensures |s| < 9 && rest == [] ==> Subframes(s + tail + rest) == []
  {
    var buf := s + tail + rest;
    assert buf[0] == s[0] && buf[1] == s[1];
    assert buf[..|s|] == s && buf[Span(|s|)..] == rest;
  }

  /** De-aggregation visits exactly the aggregated subframes, in order, if and only if none of
      them is shorter than nine bytes: a shorter one ends the walk. */
  lemma {:induction false} WalkInvertsAggregate(subs: seq<seq<u8>>, tails: seq<seq<u8>>)
    requires Tails(subs, tails) && forall i :: 0 <= i < |subs| ==> Announces(subs[i])
    ensures Subframes(Aggregate(subs, tails)) == subs <==> forall i :: 0 <= i < |subs| ==> |subs[i]| >= 9
    decreases |subs|
  {
    if subs != [] {
      var rest := Aggregate(subs[1..], tails[1..]);
      WalkStep(subs[0], tails[0], rest);
      WalkInvertsAggregate(subs[1..], tails[1..]);
      if |subs[0]| >= 9 {
        assert subs == [subs[0]] + subs[1..];
        assert Subframes(Aggregate(subs, tails)) == subs <==> Subframes(rest) == subs[1..] by {
          assert ([subs[0]] + Subframes(rest))[1..] == Subframes(rest);
        }
        assert forall i :: 0 < i < |subs| ==> subs[i] == subs[1..][i - 1];
      } else if |subs| == 1 {
        assert rest == [];
      }
    }
  }

  /** Bytes too few for another descriptor may follow the last subframe. */
  lemma {:induction false} WalkIgnoresRemainder(subs: seq<seq<u8>>, tails: seq<seq<u8>>, remainder: seq<u8>)
    requires Tails(subs, tails) && |remainder| < 16
    requires forall i :: 0 <= i < |subs| ==> Announces(subs[i]) && |subs[i]| >= 9
    ensures Subframes(Aggregate(subs, tails) + remainder) == subs
    decreases |subs|
  {
    if subs != [] {
      var rest := Aggregate(subs[1..], tails[1..]);
      assert Aggregate(subs, tails) + remainder == subs[0] + tails[0] + (rest + remainder);
      WalkStep(subs[0], tails[0], rest + remainder);
      WalkIgnoresRemainder(subs[1..], tails[1..], remainder);
    } else {
      assert Aggregate(subs, tails) + remainder == remainder;
    }
  }

  // ---- Arbitrary buffers ----

  /** Where the n-th visited subframe starts. */
  function Offset(subs: seq<seq<u8>>, n: nat): nat
    requires n <= |subs|
  {
    if n == 0 then 0 else Offset(subs, n - 1) + Span(|subs[n - 1]|)
  }

  lemma {:induction false} OffsetShift(subs: seq<seq<u8>>, n: nat)
    requires 0 < n <= |subs|
    ensures Offset(subs, n) == Span(|subs[0]|) + Offset(subs[1..], n - 1)
  {
    if n > 1 {
      OffsetShift(subs, n - 1);
    }
  }

  lemma {:induction false} OffsetAligned(subs: seq<seq<u8>>, n: nat)
    requires n <= |subs|
    ensures Offset(subs, n) % 4 == 0
  {
    if n > 0 {
      OffsetAligned(subs, n - 1);
    }
  }

  /** The subframe at `at` announces its own length and lies inside the buffer. */
  predicate VisitedAt(buf: seq<u8>, at: nat, s: seq<u8>) {
    at + 16 <= |buf| && at + |s| <= |buf| && 0 < |s| == Le16(buf[at], buf[at + 1]) && buf[at..at + |s|] == s
  }

  lemma VisitedShift(buf: seq<u8>, next: nat, at: nat, s: seq<u8>)
    requires next <= |buf| && VisitedAt(buf[next..], at, s)
    ensures VisitedAt(buf, next + at, s)
  {
    assert buf[next..][at..at + |s|] == buf[next + at..next + at + |s|];
  }

  /** On every buffer, what is visited lies inside it, one subframe behind the other without
      overlap, and each visited one announces its own length. */
  lemma {:induction false} WalkStaysInside(buf: seq<u8>, n: nat)
    requires n < |Subframes(buf)|
    ensures VisitedAt(buf, Offset(Subframes(buf), n), Subframes(buf)[n])
    decreases n
  {
    var subs := Subframes(buf);
    if n > 0 {
      var next := Span(|subs[0]|);
      assert subs[1..] == Subframes(buf[next..]);
      WalkStaysInside(buf[next..], n - 1);
      OffsetShift(subs, n);
      VisitedShift(buf, next, Offset(subs[1..], n - 1), subs[n]);
    }
  }

  // ---- What a subframe causes ----

  datatype RxEvent = Frame(d: Delivered) | TxStatus(pid: u8, failed: bool)

  /** The n-th of the 20-byte transmit-status entries behind the 4-byte head. */
  function Entry(b: seq<u8>, n: nat): seq<u8>
    requires 4 + n * 20 + 20 <= |b|
  {
    b[4 + n * 20..4 + n * 20 + 20]
  }

  function TxsEntry(e: seq<u8>): RxEvent
    requires |e| == 20
  {
    TxStatus(Le32(e[16..20]) / 0x4000 % 0x100, Bit(Le32(e[0..4]), 0x1_0000))
  }

  function TxsCount(b: seq<u8>): nat
    requires |b| >= 16
  {
    b[2] % 32
  }

  /** The entries count only when the announced length is exactly right for them. */
  function TxsEvents(b: seq<u8>, cnt: nat, n: nat): seq<RxEvent>
    requires n * 20 + 4 <= cnt <= |b|
  {
    if n == 0 then [] else TxsEvents(b, cnt, n - 1) + [TxsEntry(Entry(b, n - 1))]
  }

  function Events(b: seq<u8>, cnt: nat, rssiOffset: int): seq<RxEvent>
    requires cnt <= |b|
  {
    if |b| < 16 then []
    else if PktType(b) == 0 then
      if TxsCount(b) > 0 && cnt == TxsCount(b) * 20 + 4 then TxsEvents(b, cnt, TxsCount(b)) else []
    else match Deliver(b, rssiOffset)
      case None => []
      case Some(d) => [Frame(d)]
  }

  lemma {:induction false} TxsLocal(b: seq<u8>, cnt: nat, n: nat)
    requires n * 20 + 4 <= cnt <= |b|
    ensures TxsEvents(b, cnt, n) == TxsEvents(b[..cnt], cnt, n)
  {
    if n > 0 {
      TxsLocal(b, cnt, n - 1);
      assert Entry(b[..cnt], n - 1) == Entry(b, n - 1);
    }
  }

  /** The events of a subframe are those of its own bytes, whatever else the buffer holds. */
  lemma EventsLocal(b: seq<u8>, cnt: nat, rssiOffset: int)
    requires |b| >= 16 && cnt == Le16(b[0], b[1]) && 0 < cnt <= |b|
    ensures Events(b, cnt, rssiOffset) == Events(b[..cnt], cnt, rssiOffset)
  {
    if cnt < 16 {
      ShortYieldsNothing(b, cnt, rssiOffset);
    } else if PktType(b) == 0 {
      SameHeader(b, b[..cnt]);
      if cnt == TxsCount(b) * 20 + 4 {
        TxsLocal(b, cnt, TxsCount(b));
      }
    } else {
      SameHeader(b, b[..cnt]);
      DeliverLocal(b, cnt, rssiOffset);
    }
  }

  /** Event lists that are those of the subframes, one by one. */
  ghost predicate Explains(subs: seq<seq<u8>>, handed: seq<seq<RxEvent>>, rssiOffset: int)
    decreases |subs|
  {
    |handed| == |subs| &&
    (subs != [] ==> handed[0] == Events(subs[0], |subs[0]|, rssiOffset) && Explains(subs[1..], handed[1..], rssiOffset))
  }

  lemma {:induction false} ExplainsAppend(subs: seq<seq<u8>>, handed: seq<seq<RxEvent>>, s: seq<u8>, e: seq<RxEvent>, rssiOffset: int)
    requires Explains(subs, handed, rssiOffset) && e == Events(s, |s|, rssiOffset)
    ensures Explains(subs + [s], handed + [e], rssiOffset)
    decreases |subs|
  {
    if subs != [] {
      ExplainsAppend(subs[1..], handed[1..], s, e, rssiOffset);
      assert (subs + [s])[1..] == subs[1..] + [s] && (handed + [e])[1..] == handed[1..] + [e];
    }
  }

  // ---- The loop ----

  method ReadEntry(e: seq<u8>) returns (event: RxEvent)
    requires |e| == 20
    ensures event == TxsEntry(e)
  {
    var dw0, dw4 := Le32(e[0..4]), Le32(e[16..20]);
    event := TxStatus(dw4 / 0x4000 % 0x100, Bit(dw0, 0x1_0000));
  }

  /** The transmit-status branch. */
  method ReportTxs(frame: seq<u8>, rxByteCnt: nat) returns (events: seq<RxEvent>)
    requires |frame| >= 16 && rxByteCnt <= |frame|
    ensures events == if TxsCount(frame) > 0 && rxByteCnt == TxsCount(frame) * 20 + 4
                      then TxsEvents(frame, rxByteCnt, TxsCount(frame)) else []
  {
    events := [];
    var txsCnt := TxsCount(frame);
    if txsCnt > 0 && rxByteCnt == txsCnt * 20 + 4 {
      for i := 0 to txsCnt
        invariant events == TxsEvents(frame, rxByteCnt, i)
      {
        var event := ReadEntry(frame[4 + i * 20..4 + i * 20 + 20]);
        events := events + [event];
      }
    }
  }

  /** The parsing branch: frame and status, or nothing. The whole of the remaining buffer is
      parsed, as the driver does. */
  method DeliverFrame(frame: seq<u8>, rssiOffset: int) returns (events: seq<RxEvent>)
    requires |frame| >= 16
    ensures events == match Deliver(frame, rssiOffset) case None => [] case Some(d) => [Frame(d)]
  {
    events := [];
    var ret := ParseRxFrame(frame, rssiOffset);
    if ret.Ok? && ret.value.pktLen > 4 && !ret.value.isCrcError {
      var info := ret.value;
      var offset, payloadLen := info.hdrLen, info.pktLen;
      if offset + payloadLen <= |frame| {
        var signal := if info.rssi != 0 then Some(info.rssi) else None;
        var secMode, secErr := frame[9] / 16, frame[10] / 4 % 16;
        var decrypted := frame[offset + 1] / 64 % 2 == 1 && secMode != 0 && secErr == 0;
        events := [Frame(Delivered(frame[offset..offset + payloadLen], signal, StatusOf(info.rate), decrypted))];
      }
    }
  }

  /** Adds what one subframe hands up to what the earlier ones did. */
  method HandleSubframe(frame: seq<u8>, rxByteCnt: nat, rssiOffset: int, ghost done: seq<seq<u8>>, before: seq<seq<RxEvent>>)
    returns (handed: seq<seq<RxEvent>>)
    requires |frame| >= 16 && rxByteCnt == Le16(frame[0], frame[1]) && 0 < rxByteCnt <= |frame|
    requires Explains(done, before, rssiOffset)
    ensures Explains(done + [frame[..rxByteCnt]], handed, rssiOffset)
  {
    var events;
    var pktType := frame[3] / 32;
    if pktType == 0 {
      events := ReportTxs(frame, rxByteCnt);
    } else {
      events := DeliverFrame(frame, rssiOffset);
    }
    EventsLocal(frame, rxByteCnt, rssiOffset);
    ExplainsAppend(done, before, frame[..rxByteCnt], events, rssiOffset);
    handed := before + [events];
  }

  /** What remains of the buffer at a position that may have run past its end. */
  function Rest(buf: seq<u8>, pos: nat): seq<u8> {
    if pos <= |buf| then buf[pos..] else []
  }

  /** `done` was visited before the position, and what is ahead of it is still to be visited. */
  predicate Accounted(buf: seq<u8>, pos: nat, done: seq<seq<u8>>) {
    Subframes(buf) == done + Subframes(Rest(buf, pos))
  }

  lemma WalkEnds(buf: seq<u8>, pos: nat, done: seq<seq<u8>>)
    requires Accounted(buf, pos, done)
    requires pos + 16 > |buf| || (var cnt := Le16(buf[pos], buf[pos + 1]); cnt == 0 || cnt > |buf| - pos)
    ensures done == Subframes(buf)
  {
    assert Subframes(Rest(buf, pos)) == [];
  }

  /** Where the walk goes after a subframe: to the next one, or to its end when this one was too
      short. */
  function After(buf: seq<u8>, pos: nat, cnt: nat): nat {
    if Span(cnt) >= 16 then pos + Span(cnt) else |buf|
  }

  lemma WalkAdvances(buf: seq<u8>, pos: nat, cnt: nat, done: seq<seq<u8>>)
    requires Accounted(buf, pos, done)
    requires pos + 16 <= |buf| && cnt == Le16(buf[pos], buf[pos + 1]) && 0 < cnt <= |buf| - pos
    ensures Accounted(buf, After(buf, pos, cnt), done + [buf[pos..][..cnt]])
  {
    var frame := buf[pos..];
    if Span(cnt) >= 16 {
      if Span(cnt) <= |frame| {
        assert frame[Span(cnt)..] == buf[pos + Span(cnt)..];
      }
      assert Subframes(frame) == [frame[..cnt]] + Subframes(Rest(buf, pos + Span(cnt)));
    }
  }

  /** The driver's own expression for the distance to the next subframe. */
  lemma SpanIs(cnt: nat)
    ensures cnt + (4 - cnt % 4) % 4 + 4 == Span(cnt)
  {
  }

  /** All that was visited is accounted for, and what was handed up is what it causes. */
  ghost predicate Progress(buf: seq<u8>, pos: nat, done: seq<seq<u8>>, handed: seq<seq<RxEvent>>, rssiOffset: int) {
    Accounted(buf, pos, done) && Explains(done, handed, rssiOffset)
  }

  /** One subframe of the buffer. */
  method Visit(buf: seq<u8>, pos: nat, cnt: nat, rssiOffset: int, ghost done: seq<seq<u8>>, before: seq<seq<RxEvent>>)
    returns (handed: seq<seq<RxEvent>>)
    requires Progress(buf, pos, done, before, rssiOffset)
    requires pos + 16 <= |buf| && cnt == Le16(buf[pos], buf[pos + 1]) && 0 < cnt <= |buf| - pos
    ensures Progress(buf, After(buf, pos, cnt), done + [buf[pos..][..cnt]], handed, rssiOffset)
  {
    handed := HandleSubframe(buf[pos..], cnt, rssiOffset, done, before);
    WalkAdvances(buf, pos, cnt, done);
  }

  /** `mt7603_rx_complete`: what each subframe in turn hands up. */
  method RxComplete(buf: seq<u8>, statusOk: bool, rssiOffset: int) returns (handed: seq<seq<RxEvent>>)
    ensures Explains(if statusOk then Subframes(buf) else [], handed, rssiOffset)
  {
    handed := [];
    if !statusOk || |buf| < 16 {
      return;
    }
    ghost var done: seq<seq<u8>> := [];
    var curPos := 0;
    ghost var end := 0;
    while curPos + 16 <= |buf|
      invariant end == curPos && Progress(buf, end, done, handed, rssiOffset)
    {
      var rxByteCnt := Le16(buf[curPos], buf[curPos + 1]);
      if rxByteCnt == 0 || rxByteCnt > |buf| - curPos {
        break;
      }
      handed := Visit(buf, curPos, rxByteCnt, rssiOffset, done, handed);
      done := done + [buf[curPos..][..rxByteCnt]];
      end := After(buf, curPos, rxByteCnt);
      var padding := (4 - rxByteCnt % 4) % 4;
      var subframeLen := rxByteCnt + padding + 4;
      SpanIs(rxByteCnt);
      if subframeLen < 16 {
        break;
      }
      curPos := curPos + subframeLen;
    }
    WalkEnds(buf, end, done);
  }
}
