/** Receive descriptors built from their parts, and what becomes of the frames behind them: the
    device's side of src/rust/src/rx.rs and of the receive loop of src/c/mac80211.c. */
module RxInverse {
  import opened Machine
  import opened RxDescriptor
  import opened RxWalk
  import Txd

  /** What the device puts in front of a frame: sixteen bytes, then the groups that are there in
      the order 4, 1, 2, 3, and two bytes that align the frame. */
  datatype Parts = Parts(base: seq<u8>, group4: Option<seq<u8>>, group1: Option<seq<u8>>, group2: Option<seq<u8>>,
                         group3: Option<seq<u8>>, alignment: Option<seq<u8>>, frame: seq<u8>)

  function Optional(o: Option<seq<u8>>): seq<u8> {
    if o.Some? then o.value else []
  }

  predicate Sized(o: Option<seq<u8>>, n: nat) {
    o.Some? ==> |o.value| == n
  }

  function Descriptor(p: Parts): seq<u8> {
    p.base + Optional(p.group4) + Optional(p.group1) + Optional(p.group2) + Optional(p.group3) + Optional(p.alignment)
  }

  function Built(p: Parts): seq<u8> {
    Descriptor(p) + p.frame
  }

  /** The groups have their sizes, and the base announces the length of the whole, the groups that
      are there and the alignment bytes. */
  predicate WellBuilt(p: Parts) {
    && |p.base| == 16 && Sized(p.group4, 16) && Sized(p.group1, 16) && Sized(p.group2, 8) && Sized(p.group3, 24)
    && Sized(p.alignment, 2)
    && Le16(p.base[0], p.base[1]) == |Built(p)|
    && (p.base[3] / 2 % 2 == 1 <==> p.group1.Some?) && (p.base[3] / 4 % 2 == 1 <==> p.group2.Some?)
    && (p.base[3] / 8 % 2 == 1 <==> p.group3.Some?) && (p.base[3] / 16 % 2 == 1 <==> p.group4.Some?)
    && (p.base[6] / 0x40 % 2 == 1 <==> p.alignment.Some?)
  }

  /** Signal strength, from byte 12 of group 3 and the calibrated offset, within a signed byte; zero
      is no information. */
  function SignalOf(p: Parts, rssiOffset: int): Option<int>
    requires WellBuilt(p)
  {
    if p.group3.None? || p.group3.value[12] == 0 then None
    else
      var byte: int := p.group3.value[12];
      var raw := if byte < 128 then byte else byte - 256;
      var dbm := if raw + rssiOffset < -128 then -128 else if raw + rssiOffset > 127 then 127 else raw + rssiOffset;
      if dbm == 0 then None else Some(dbm)
  }

  /** The receive rate, from the first word of group 3. */
  function ReceiveRate(p: Parts): RxRate
    requires WellBuilt(p)
  {
    if p.group3.None? then Legacy(0) else RateOf(Le32(p.group3.value[..4]))
  }

  /** What the stack should get. */
  function Wanted(p: Parts, rssiOffset: int): Option<Delivered>
    requires WellBuilt(p)
  {
    if (p.base[3] / 32 == 2 || p.base[3] / 32 == 3) && p.base[10] / 2 % 2 == 0 && |p.frame| > 4 then
      Some(Delivered(p.frame, SignalOf(p, rssiOffset), ReceiveRate(p),
                     p.frame[1] / 0x40 % 2 == 1 && p.base[9] / 16 != 0 && p.base[10] / 4 % 16 == 0))
    else None
  }

  // ---- The parts are found ----

  lemma Parity(high: nat, low: nat)
    ensures (2 * high + low) % 2 == low % 2
  {
  }

  lemma Shifts(high: nat, low: nat)
    requires low < 16
    ensures var n := 16 * high + low; n / 2 == 8 * high + low / 2 && n / 4 == 4 * high + low / 4 && n / 8 == 2 * high + low / 8
  {
  }

  /** The low four bits of a number, one by one. */
  lemma LowBits(high: nat, low: nat)
    requires low < 16
    ensures var n := 16 * high + low;
      n % 2 == low % 2 && n / 2 % 2 == low / 2 % 2 && n / 4 % 2 == low / 4 % 2 && n / 8 % 2 == low / 8 % 2
  {
    Shifts(high, low);
    Parity(8 * high, low);
    Parity(4 * high, low / 2);
    Parity(2 * high, low / 4);
    Parity(high, low / 8);
  }

  lemma Halves(b: u8)
    ensures b / 4 == b / 2 / 2 && b / 8 == b / 2 / 4 && b / 16 == b / 2 / 8
  {
  }

  lemma GroupBits(b: u8)
    ensures var g := b / 2 % 16;
      && Bit(g, 1) == (b / 2 % 2 == 1) && Bit(g, 2) == (b / 4 % 2 == 1)
      && Bit(g, 4) == (b / 8 % 2 == 1) && Bit(g, 8) == (b / 16 % 2 == 1)
  {
    LowBits(b / 2 / 16, b / 2 % 16);
    Halves(b);
  }

  lemma BaseFirst(p: Parts)
    requires WellBuilt(p)
    ensures |Built(p)| >= 16 && Built(p)[..16] == p.base
    ensures forall i :: 0 <= i < 16 ==> Built(p)[i] == p.base[i]
  {
    var rest := Optional(p.group4) + Optional(p.group1) + Optional(p.group2) + Optional(p.group3) + Optional(p.alignment) + p.frame;
    assert Built(p) == p.base + rest;
  }

  /** Bytes in front of group 3, and in front of the frame. */
  lemma Lengths(p: Parts)
    requires WellBuilt(p)
    ensures |Built(p)| >= 16
    ensures HeaderLen(Built(p)) == |Descriptor(p)|
    ensures BeforeGroup3(Groups(Built(p))) == |Optional(p.group4)| + |Optional(p.group1)| + |Optional(p.group2)|
    ensures Bit(Groups(Built(p)), 4) == p.group3.Some?
  {
    BaseFirst(p);
    GroupBits(p.base[3]);
  }

  lemma Middle(front: seq<u8>, middle: seq<u8>, rest: seq<u8>)
    ensures (front + middle + rest)[|front|..|front| + |middle|] == middle
  {
  }

  /** Group 3 is where the parser looks for it. */
  lemma Group3Found(p: Parts)
    requires WellBuilt(p) && p.group3.Some?
    ensures HasVector(Built(p))
    ensures Built(p)[Group3(Built(p))..Group3(Built(p)) + 24] == p.group3.value
  {
    Lengths(p);
    var front := p.base + Optional(p.group4) + Optional(p.group1) + Optional(p.group2);
    Middle(front, p.group3.value, Optional(p.alignment) + p.frame);
    assert Built(p) == front + p.group3.value + (Optional(p.alignment) + p.frame);
  }

  lemma VectorMeans(b: seq<u8>, at: nat, group3: seq<u8>, rssiOffset: int)
    requires |group3| == 24 && at + 24 <= |b| && b[at..at + 24] == group3
    ensures b[at + 12] == group3[12] && b[at..at + 4] == group3[..4]
  {
    assert b[at + 12] == b[at..at + 24][12] && b[at..at + 4] == b[at..at + 24][..4];
  }

  /** Signal and rate. */
  lemma VectorRead(p: Parts, rssiOffset: int)
    requires WellBuilt(p)
    ensures var r := RssiAt(Built(p), rssiOffset); SignalOf(p, rssiOffset) == if r != 0 then Some(r) else None
    ensures StatusOf(RateAt(Built(p))) == ReceiveRate(p)
  {
    Lengths(p);
    if p.group3.Some? {
      Group3Found(p);
      VectorMeans(Built(p), Group3(Built(p)), p.group3.value, rssiOffset);
      RateCodeRoundTrip(Le32(p.group3.value[..4]));
    }
  }

  /** Where the frame is. */
  lemma FrameFound(p: Parts)
    requires WellBuilt(p)
    ensures |Built(p)| == |Descriptor(p)| + |p.frame| < 0x1_0000 && |Descriptor(p)| >= 16
    ensures Built(p)[|Descriptor(p)|..] == p.frame && PayloadLen(Built(p)) == |p.frame|
  {
    Lengths(p);
    BaseFirst(p);
  }

  /** What parsing tells of a built subframe. */
  lemma BuiltParsed(p: Parts, rssiOffset: int)
    requires WellBuilt(p) && (PktType(p.base) == 2 || PktType(p.base) == 3)
    ensures Parsed(Built(p), rssiOffset).Ok?
    ensures var info := Parsed(Built(p), rssiOffset).value;
      && info.pktLen == |p.frame| && info.hdrLen == |Descriptor(p)| && info.isCrcError == (p.base[10] / 2 % 2 == 1)
      && info.rssi == RssiAt(Built(p), rssiOffset) && info.rate == RateAt(Built(p))
  {
    BaseFirst(p);
    Lengths(p);
    FrameFound(p);
  }

  /** Channel and kind: a beacon by its type or by what the hardware says, else data by its type. */
  lemma BuiltClassified(p: Parts, rssiOffset: int)
    requires WellBuilt(p) && (PktType(p.base) == 2 || PktType(p.base) == 3)
    ensures Parsed(Built(p), rssiOffset).Ok?
    ensures var info := Parsed(Built(p), rssiOffset).value;
      && info.channel == p.base[5]
      && (info.isBeacon <==> |p.frame| >= 2 && ((p.frame[0] / 4 % 4 == 0 && p.frame[0] / 16 == 8)
                                                || p.base[4] / 16 % 2 == 1 || p.base[4] / 32 % 2 == 1))
      && (info.isData <==> |p.frame| >= 2 && !info.isBeacon && p.frame[0] / 4 % 4 == 2)
  {
    BuiltParsed(p, rssiOffset);
    FrameFound(p);
    BaseFirst(p);
    if |p.frame| >= 2 {
      assert Built(p)[|Descriptor(p)|] == Built(p)[|Descriptor(p)|..][0];
      TypeAndSubtype(p.frame[0]);
    }
  }

  lemma TypeAndSubtype(b: u8)
    ensures b / 4 % 64 == 0x20 <==> b / 4 % 4 == 0 && b / 16 == 8
  {
  }

  lemma OtherTypesIgnored(p: Parts, rssiOffset: int)
    requires WellBuilt(p) && PktType(p.base) != 2 && PktType(p.base) != 3
    ensures Deliver(Built(p), rssiOffset) == None
  {
    BaseFirst(p);
  }

  /** Delivery, from what parsing tells. */
  lemma DeliveryIs(b: seq<u8>, rssiOffset: int, info: RxInfo)
    requires Parsed(b, rssiOffset) == Ok(info) && (info.pktLen > 4 ==> info.hdrLen >= 16 && info.hdrLen + info.pktLen == |b|)
    ensures Deliver(b, rssiOffset) == if info.pktLen > 4 && !info.isCrcError
      then Some(Delivered(b[info.hdrLen..], if info.rssi != 0 then Some(info.rssi) else None, StatusOf(info.rate),
                          Bit(b[info.hdrLen + 1], 64) && b[9] / 16 != 0 && b[10] / 4 % 16 == 0))
      else None
  {
    if info.pktLen > 4 {
      assert b[info.hdrLen..] == b[info.hdrLen..info.hdrLen + info.pktLen];
    }
  }

  /** The frame that the device put behind a descriptor is what the stack gets, with the signal, rate
      and decryption that the descriptor tells, exactly when the type is that of a frame, its
      checksum was right, and it has more than four bytes. */
  lemma BuiltDelivered(p: Parts, rssiOffset: int)
    requires WellBuilt(p)
    ensures Deliver(Built(p), rssiOffset) == Wanted(p, rssiOffset)
  {
    if p.base[3] / 32 != 2 && p.base[3] / 32 != 3 {
      OtherTypesIgnored(p, rssiOffset);
    } else {
      var b, at := Built(p), |Descriptor(p)|;
      BuiltParsed(p, rssiOffset);
      FrameFound(p);
      DeliveryIs(b, rssiOffset, Parsed(b, rssiOffset).value);
      BaseFirst(p);
      VectorRead(p, rssiOffset);
      if |p.frame| > 4 {
        assert b[at + 1] == b[at..][1];
      }
    }
  }

  // ---- The receive vector ----

  /** The first word of the receive vector, from its fields; what lies between them is free. */
  function VectorWord(code: nat, mode: nat, width: nat, shortGi: bool, free1: nat, free2: nat, free3: nat): nat {
    code + 0x80 * free1 + 0x1000 * mode + 0x8000 * width + 0x2_0000 * free2 + (if shortGi then 0x8_0000 else 0) + 0x10_0000 * free3
  }

  lemma ModeField(low: nat, mode: nat, rest: nat)
    requires low < 0x1000 && mode < 8
    ensures (low + 0x1000 * (mode + 8 * rest)) / 0x1000 % 8 == mode
  {
    assert (low + 0x1000 * (mode + 8 * rest)) / 0x1000 == mode + 8 * rest;
  }

  lemma WidthField(low: nat, width: nat, rest: nat)
    requires low < 0x8000 && width < 4
    ensures (low + 0x8000 * (width + 4 * rest)) / 0x8000 % 4 == width
  {
    assert (low + 0x8000 * (width + 4 * rest)) / 0x8000 == width + 4 * rest;
  }

  lemma GiField(low: nat, gi: nat, rest: nat)
    requires low < 0x8_0000 && gi < 2
    ensures (low + 0x8_0000 * (gi + 2 * rest)) / 0x8_0000 % 2 == gi
  {
    assert (low + 0x8_0000 * (gi + 2 * rest)) / 0x8_0000 == gi + 2 * rest;
  }

  lemma VectorFields(code: nat, mode: nat, width: nat, shortGi: bool, free1: nat, free2: nat, free3: nat)
    requires code < 0x80 && mode < 8 && width < 4 && free1 < 0x20 && free2 < 4
    ensures var w := VectorWord(code, mode, width, shortGi, free1, free2, free3);
      && w / 0x1000 % 8 == mode && w / 0x8000 % 4 == width && Bit(w, 0x8_0000) == shortGi
  {
    var gi := if shortGi then 1 else 0;
    var aboveWidth := free2 + 4 * (gi + 2 * free3);
    ModeField(code + 0x80 * free1, mode, width + 4 * aboveWidth);
    WidthField(code + 0x80 * free1 + 0x1000 * mode, width, aboveWidth);
    GiField(code + 0x80 * free1 + 0x1000 * mode + 0x8000 * width + 0x2_0000 * free2, gi, free3);
  }

  lemma VectorLow(code: nat, mode: nat, width: nat, shortGi: bool, free1: nat, free2: nat, free3: nat)
    requires code < 0x80
    ensures VectorWord(code, mode, width, shortGi, free1, free2, free3) % 16 == code % 16
    ensures VectorWord(code, mode, width, shortGi, free1, free2, free3) % 4 == code % 4
  {
    var gi := if shortGi then 1 else 0;
    var k := 8 * free1 + 0x100 * mode + 0x800 * width + 0x2000 * free2 + 0x8000 * gi + 0x1_0000 * free3;
    assert VectorWord(code, mode, width, shortGi, free1, free2, free3) == 16 * k + code;
    Multiple(k, code);
  }

  lemma LastQuarter(high: nat, low: nat)
    requires low < 4
    ensures (4 * high + low) % 4 == low
  {
  }

  lemma Multiple(k: nat, n: nat)
    ensures (16 * k + n) % 16 == n % 16 && (16 * k + n) % 4 == n % 4
  {
    assert 16 * k + n == 16 * (k + n / 16) + n % 16;
    LastHexDigit(k + n / 16, n % 16);
    assert 16 * k + n == 4 * (4 * k + n / 4) + n % 4;
    LastQuarter(4 * k + n / 4, n % 4);
  }

  /** An HT rate is received as it is: index, width and guard interval. */
  lemma HtReceived(mcs: nat, mode: nat, width: nat, shortGi: bool, free1: nat, free2: nat, free3: nat)
    requires mcs < 16 && 2 <= mode < 8 && width < 4 && free1 < 0x20 && free2 < 4 && free3 < 0x1000
    ensures RateOf(VectorWord(mcs, mode, width, shortGi, free1, free2, free3)) == Ht(mcs, width == 1, shortGi)
  {
    VectorFields(mcs, mode, width, shortGi, free1, free2, free3);
    VectorLow(mcs, mode, width, shortGi, free1, free2, free3);
  }

  /** The code that the transmitter uses for an OFDM rate is received as that rate, behind the four CCK
      rates. */
  lemma OfdmReceived(i: nat, width: nat, shortGi: bool, free1: nat, free2: nat, free3: nat)
    requires i < 8 && width < 4 && free1 < 0x20 && free2 < 4 && free3 < 0x1000
    ensures RateOf(VectorWord(Txd.OFDM_CODES[i], 1, width, shortGi, free1, free2, free3)) == Legacy(i + 4)
  {
    VectorFields(Txd.OFDM_CODES[i], 1, width, shortGi, free1, free2, free3);
    VectorLow(Txd.OFDM_CODES[i], 1, width, shortGi, free1, free2, free3);
  }

  /** CCK rates, with either preamble, except that 1 Mbit/s has none that is short. */
  lemma CckReceived(i: nat, short: bool, width: nat, shortGi: bool, free1: nat, free2: nat, free3: nat)
    requires i < 4 && width < 4 && free1 < 0x20 && free2 < 4 && free3 < 0x1000 && (short ==> i > 0)
    ensures RateOf(VectorWord(if short then Txd.CCK_SHORT[i] else Txd.CCK_LONG[i], 0, width, shortGi, free1, free2, free3)) == Legacy(i)
  {
    var code := if short then Txd.CCK_SHORT[i] else Txd.CCK_LONG[i];
    VectorFields(code, 0, width, shortGi, free1, free2, free3);
    VectorLow(code, 0, width, shortGi, free1, free2, free3);
  }

  // ---- Status reports ----

  lemma FlagField(low: nat, flag: bool, high: nat)
    requires low < 0x1_0000
    ensures Bit(low + (if flag then 0x1_0000 else 0) + 0x2_0000 * high, 0x1_0000) == flag
  {
    var n := low + (if flag then 0x1_0000 else 0) + 0x2_0000 * high;
    assert n / 0x1_0000 == (if flag then 1 else 0) + 2 * high;
  }

  lemma PidField(low: nat, pid: u8, high: nat)
    requires low < 0x4000
    ensures (low + 0x4000 * (pid + 0x100 * high)) / 0x4000 % 0x100 == pid
  {
    assert (low + 0x4000 * (pid + 0x100 * high)) / 0x4000 == pid + 0x100 * high;
    Digit(high, pid);
  }

  /** A status entry tells the packet id and whether sending failed, at these places of its first and
      last word. */
  lemma EntryRead(e: seq<u8>, low0: nat, failed: bool, high0: nat, low4: nat, pid: u8, high4: nat)
    requires |e| == 20 && low0 < 0x1_0000 && low4 < 0x4000
    requires Le32(e[0..4]) == low0 + (if failed then 0x1_0000 else 0) + 0x2_0000 * high0
    requires Le32(e[16..20]) == low4 + 0x4000 * (pid + 0x100 * high4)
    ensures TxsEntry(e) == TxStatus(pid, failed)
  {
    FlagField(low0, failed, high0);
    PidField(low4, pid, high4);
  }

  function Flat(entries: seq<seq<u8>>): seq<u8> {
    if entries == [] then [] else entries[0] + Flat(entries[1..])
  }

  lemma {:induction false} FlatAt(entries: seq<seq<u8>>, i: nat)
    requires i < |entries| && forall k :: 0 <= k < |entries| ==> |entries[k]| == 20
    ensures |Flat(entries)| == 20 * |entries| && Flat(entries)[20 * i..20 * i + 20] == entries[i]
    decreases |entries|
  {
    var rest := entries[1..];
    if rest == [] {
      assert Flat(entries) == entries[0] + [];
    } else {
      FlatAt(rest, if i == 0 then 0 else i - 1);
      if i > 0 {
        assert Flat(entries)[20 * i..20 * i + 20] == Flat(rest)[20 * (i - 1)..20 * (i - 1) + 20];
      }
    }
  }

  /** A report with its head: type 0, the number of entries and the length of the whole. */
  predicate WellReported(head: seq<u8>, entries: seq<seq<u8>>) {
    && |head| == 4 && 0 < |entries| < 32 && (forall k :: 0 <= k < |entries| ==> |entries[k]| == 20)
    && head[3] / 32 == 0 && head[2] % 32 == |entries| && Le16(head[0], head[1]) == 4 + 20 * |entries|
  }

  lemma {:induction false} EventsOfEntries(b: seq<u8>, cnt: nat, n: nat)
    requires n * 20 + 4 <= cnt <= |b|
    ensures |TxsEvents(b, cnt, n)| == n && forall i :: 0 <= i < n ==> TxsEvents(b, cnt, n)[i] == TxsEntry(Entry(b, i))
  {
    if n > 0 {
      EventsOfEntries(b, cnt, n - 1);
    }
  }

  lemma EntryFound(head: seq<u8>, entries: seq<seq<u8>>, i: nat)
    requires |head| == 4 && i < |entries| && forall k :: 0 <= k < |entries| ==> |entries[k]| == 20
    ensures var b := head + Flat(entries); |b| == 4 + 20 * |entries| && Entry(b, i) == entries[i]
  {
    FlatAt(entries, i);
    var b := head + Flat(entries);
    assert b[4 + i * 20..4 + i * 20 + 20] == Flat(entries)[20 * i..20 * i + 20];
  }

  lemma ReportEvents(b: seq<u8>, n: nat, rssiOffset: int)
    requires 0 < n < 32 && |b| == n * 20 + 4 && b[3] / 32 == 0 && b[2] % 32 == n
    ensures Events(b, |b|, rssiOffset) == TxsEvents(b, |b|, n)
  {
  }

  /** Every entry of a report is reported, in order. */
  lemma ReportRead(head: seq<u8>, entries: seq<seq<u8>>, rssiOffset: int)
    requires WellReported(head, entries)
    ensures var b := head + Flat(entries); var events := Events(b, |b|, rssiOffset);
      |events| == |entries| && forall i :: 0 <= i < |entries| ==> events[i] == TxsEntry(entries[i])
  {
    var b, n := head + Flat(entries), |entries|;
    EntryFound(head, entries, 0);
    assert b[2] == head[2] && b[3] == head[3];
    ReportEvents(b, n, rssiOffset);
    EventsOfEntries(b, |b|, n);
    forall i | 0 <= i < n ensures Entry(b, i) == entries[i] {
      EntryFound(head, entries, i);
    }
  }

  // ---- A whole transfer ----

  function AllBuilt(ps: seq<Parts>): (b: seq<seq<u8>>)
    ensures |b| == |ps|
  {
    if ps == [] then [] else [Built(ps[0])] + AllBuilt(ps[1..])
  }

  /** What the stack should get for one subframe. */
  function WantedEvents(p: Parts, rssiOffset: int): seq<RxEvent>
    requires WellBuilt(p)
  {
    if Wanted(p, rssiOffset).Some? then [Frame(Wanted(p, rssiOffset).value)] else []
  }

  lemma BuiltEvents(p: Parts, rssiOffset: int)
    requires WellBuilt(p) && p.base[3] / 32 != 0
    ensures Announces(Built(p)) && |Built(p)| >= 16 && Events(Built(p), |Built(p)|, rssiOffset) == WantedEvents(p, rssiOffset)
  {
    BaseFirst(p);
    FrameFound(p);
    BuiltDelivered(p, rssiOffset);
  }

  lemma {:induction false} AllAnnounce(ps: seq<Parts>, i: nat)
    requires i < |ps| && forall k :: 0 <= k < |ps| ==> WellBuilt(ps[k]) && ps[k].base[3] / 32 != 0
    ensures AllBuilt(ps)[i] == Built(ps[i]) && Announces(AllBuilt(ps)[i]) && |AllBuilt(ps)[i]| >= 16
    decreases |ps|
  {
    if i == 0 {
      BuiltEvents(ps[0], 0);
    } else {
      AllAnnounce(ps[1..], i - 1);
    }
  }

  lemma {:induction false} ExplainedAt(subs: seq<seq<u8>>, handed: seq<seq<RxEvent>>, rssiOffset: int, i: nat)
    requires Explains(subs, handed, rssiOffset) && i < |subs|
    ensures |handed| == |subs| && handed[i] == Events(subs[i], |subs[i]|, rssiOffset)
    decreases |subs|
  {
    if i > 0 {
      ExplainedAt(subs[1..], handed[1..], rssiOffset, i - 1);
    }
  }

  /** For any frames with any descriptors, aggregated in one transfer, what the receive loop hands up
      is exactly what the device put in, frame by frame and in order. */
  lemma TransferDelivered(ps: seq<Parts>, tails: seq<seq<u8>>, handed: seq<seq<RxEvent>>, rssiOffset: int)
    requires forall k :: 0 <= k < |ps| ==> WellBuilt(ps[k]) && ps[k].base[3] / 32 != 0
    requires Tails(AllBuilt(ps), tails)
    requires Explains(Subframes(Aggregate(AllBuilt(ps), tails)), handed, rssiOffset)
    ensures |handed| == |ps| && forall i :: 0 <= i < |ps| ==> handed[i] == WantedEvents(ps[i], rssiOffset)
  {
    var subs := AllBuilt(ps);
    forall i | 0 <= i < |subs| ensures Announces(subs[i]) && |subs[i]| >= 9 {
      AllAnnounce(ps, i);
    }
    WalkInvertsAggregate(subs, tails);
    forall i | 0 <= i < |ps| ensures |handed| == |ps| && handed[i] == WantedEvents(ps[i], rssiOffset) {
      AllAnnounce(ps, i);
      ExplainedAt(subs, handed, rssiOffset, i);
      BuiltEvents(ps[i], rssiOffset);
    }
    if ps == [] {
      assert subs == [];
    }
  }
}
