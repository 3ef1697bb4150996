/** The receive descriptor in front of every frame (src/rust/src/rx.rs) and the part of it that
    src/c/mac80211.c hands on to mac80211. */
module RxDescriptor {
  import opened Machine

  const RXD_MIN_SIZE := 16

  datatype RxInfo = RxInfo(pktLen: u16, hdrLen: u16, rssi: int, channel: u8, rate: u8,
                           isBeacon: bool, isData: bool, isCrcError: bool)

  const NO_INFO := RxInfo(0, 0, 0, 0, 0, false, false, false)

  // ---- Layout ----

  predicate Bit(n: nat, weight: nat)
    requires weight > 0
  {
    n / weight % 2 == 1
  }

  function PktType(b: seq<u8>): nat
    requires |b| >= RXD_MIN_SIZE
  {
    b[3] / 32
  }

  function Groups(b: seq<u8>): nat
    requires |b| >= RXD_MIN_SIZE
  {
    b[3] / 2 % 16
  }

  /** Bytes of groups 4, 1 and 2, which come before group 3. */
  function BeforeGroup3(groups: nat): nat {
    (if Bit(groups, 8) then 16 else 0) + (if Bit(groups, 1) then 16 else 0) + (if Bit(groups, 2) then 8 else 0)
  }

  function HeaderLen(b: seq<u8>): (n: nat)
    requires |b| >= RXD_MIN_SIZE
    ensures RXD_MIN_SIZE <= n <= 82
  {
    RXD_MIN_SIZE + BeforeGroup3(Groups(b)) + (if Bit(Groups(b), 4) then 24 else 0) + (if Bit(b[6], 64) then 2 else 0)
  }

  // ---- Rate ----

  /** A received rate as mac80211 wants to know it. */
  datatype RxRate = Legacy(index: nat) | Ht(mcs: nat, bw40: bool, shortGi: bool)

  /** Position of an OFDM rate code in the driver's rate table; unknown codes read as 6 Mbit/s. */
  function OfdmIndex(code: nat): (i: nat)
    ensures 4 <= i <= 11
  {
    if code == 11 then 4 else if code == 15 then 5 else if code == 10 then 6 else if code == 14 then 7
    else if code == 9 then 8 else if code == 13 then 9 else if code == 8 then 10 else if code == 12 then 11 else 4
  }

  /** The rate that the first word of the receive vector stands for. */
  function RateOf(rxv: u32): RxRate {
    var mode := rxv / 0x1000 % 8;
    if mode >= 2 then Ht(rxv % 16, rxv / 0x8000 % 4 == 1, Bit(rxv, 0x8_0000))
    else if mode == 1 then Legacy(OfdmIndex(rxv % 16))
    else Legacy(rxv % 4)
  }

  /** How `mt7603_rx_complete` reads the one-byte code back. */
  function StatusOf(rate: u8): RxRate {
    if rate / 0x80 == 1 then Ht(rate % 0x20, Bit(rate, 0x40), Bit(rate, 0x20)) else Legacy(rate % 0x20)
  }

  /** The code `parse_rx_frame` builds. */
  function RateCode(rxv: u32): u8 {
    var mode := rxv / 0x1000 % 8;
    (if rxv / 0x8000 % 4 == 1 then 0x40 else 0) + (if Bit(rxv, 0x8_0000) then 0x20 else 0)
    + ModeBits(mode, rxv)
  }

  /** The code carries the rate across the language border; its index always fits the tables. */
  lemma RateCodeRoundTrip(rxv: u32)
    ensures StatusOf(RateCode(rxv)) == RateOf(rxv)
    ensures match RateOf(rxv) case Legacy(i) => i < 12 case Ht(mcs, _, _) => mcs < 16
  {
    FlagsAndIndex(rxv / 0x8000 % 4 == 1, Bit(rxv, 0x8_0000), ModeBits(rxv / 0x1000 % 8, rxv));
  }

  lemma FlagsAndIndex(bw40: bool, shortGi: bool, bits: nat)
    requires bits < 0x20 || 0x80 <= bits < 0x90
    ensures StatusOf((if bw40 then 0x40 else 0) + (if shortGi then 0x20 else 0) + bits)
         == if bits >= 0x80 then Ht(bits - 0x80, bw40, shortGi) else Legacy(bits)
  {
  }

  // ---- Parsing ----

  function SignedByte(b: u8): int {
    if b < 0x80 then b else b - 0x100
  }

  function Saturate(n: int): int {
    if n < -128 then -128 else if n > 127 then 127 else n
  }

  function Rssi(ib: int, offset: int): int {
    if ib == 0 then 0 else Saturate(ib + offset)
  }

  /** Length of the frame behind the header: up to the announced length if that is within the
      buffer, else up to the end of the buffer. */
  function PayloadLen(b: seq<u8>): nat
    requires |b| >= RXD_MIN_SIZE
  {
    var announced := Le16(b[0], b[1]);
    var total := if 0 < announced <= |b| then announced else |b|;
    if total < HeaderLen(b) then 0 else total - HeaderLen(b)
  }

  /** Group 3, the receive vector, is announced and fits. */
  predicate HasVector(b: seq<u8>) {
    |b| >= RXD_MIN_SIZE && |b| >= HeaderLen(b) && Bit(Groups(b), 4)
  }

  function Group3(b: seq<u8>): (at: nat)
    requires HasVector(b)
    ensures at + 24 <= |b|
  {
    RXD_MIN_SIZE + BeforeGroup3(Groups(b))
  }

  /** Type 0 and subtype 8, or flagged as a beacon by the hardware. */
  predicate IsBeacon(frameCtrl: u8, flags: u8) {
    frameCtrl / 4 % 64 == 0x20 || Bit(flags, 16) || Bit(flags, 32)
  }

  function RssiAt(b: seq<u8>, rssiOffset: int): int {
    if HasVector(b) then Rssi(SignedByte(b[Group3(b) + 12]), rssiOffset) else 0
  }

  function RateAt(b: seq<u8>): u8 {
    if HasVector(b) then RateCode(Le32(b[Group3(b)..Group3(b) + 4])) else 0
  }

  /** What parsing yields, said without the order in which it is found out. */
  function Parsed(b: seq<u8>, rssiOffset: int): Result<RxInfo>
  {
    if |b| < RXD_MIN_SIZE then Err(EINVAL)
    else if PktType(b) != 2 && PktType(b) != 3 then Ok(NO_INFO)
    else if |b| < HeaderLen(b) then Err(EINVAL)
    else
      var len := PayloadLen(b);
      var beacon := len >= 2 && IsBeacon(b[HeaderLen(b)], b[4]);
      Ok(RxInfo(len % 0x1_0000, HeaderLen(b), RssiAt(b, rssiOffset), b[5], RateAt(b), beacon, len >= 2 && !beacon && b[HeaderLen(b)] / 4 % 4 == 2, Bit(b[10], 2)))
  }

  /** Header length, accumulated flag by flag. */
  method AccumulateHeader(buf: seq<u8>) returns (rmacInfoLen: nat)
    requires |buf| >= RXD_MIN_SIZE
    ensures rmacInfoLen == HeaderLen(buf)
  {
    var grpVld := buf[3] / 2 % 16;
    rmacInfoLen := RXD_MIN_SIZE;
    if grpVld / 8 % 2 != 0 { rmacInfoLen := rmacInfoLen + 16; }
    if grpVld / 1 % 2 != 0 { rmacInfoLen := rmacInfoLen + 16; }
    if grpVld / 2 % 2 != 0 { rmacInfoLen := rmacInfoLen + 8; }
    if grpVld / 4 % 2 != 0 { rmacInfoLen := rmacInfoLen + 24; }
    if buf[6] / 64 % 2 == 1 { rmacInfoLen := rmacInfoLen + 2; }
  }

  /** Signal strength and rate from group 3, whose offset is computed on its own. */
  method ReadVector(buf: seq<u8>, rssiOffset: int) returns (rssi: int, rate: u8)
    requires HasVector(buf)
    ensures rssi == Rssi(SignedByte(buf[Group3(buf) + 12]), rssiOffset)
    ensures rate == RateCode(Le32(buf[Group3(buf)..Group3(buf) + 4]))
  {
    var grpVld := buf[3] / 2 % 16;
    var grp3Off := RXD_MIN_SIZE;
    if grpVld / 8 % 2 != 0 { grp3Off := grp3Off + 16; }
    if grpVld / 1 % 2 != 0 { grp3Off := grp3Off + 16; }
    if grpVld / 2 % 2 != 0 { grp3Off := grp3Off + 8; }
    assert grp3Off == Group3(buf);
    var ibrssi0 := SignedByte(buf[grp3Off + 12]);
    rssi := 0;
    if ibrssi0 != 0 {
      rssi := Saturate(ibrssi0 + rssiOffset);
    }
    rate := EncodeRate(Le32(buf[grp3Off..grp3Off + 4]));
  }

  method Classify(frameCtrl: u8, flags: u8) returns (isBeacon: bool, isData: bool)
    ensures isBeacon == IsBeacon(frameCtrl, flags)
    ensures isData == (!isBeacon && frameCtrl / 4 % 4 == 2)
  {
    var frameType, frameSubtype := frameCtrl / 4 % 4, frameCtrl / 16 % 16;
    isBeacon, isData := false, false;
    if (frameType == 0 && frameSubtype == 8) || flags / 16 % 2 != 0 || flags / 32 % 2 != 0 {
      isBeacon := true;
    } else if frameType == 2 {
      isData := true;
    }
  }

  /** `parse_rx_frame` (src/rust/src/rx.rs). */
  method ParseRxFrame(buf: seq<u8>, rssiOffset: int) returns (r: Result<RxInfo>)
    ensures r == Parsed(buf, rssiOffset)
  {
    if |buf| < RXD_MIN_SIZE {
      return Err(EINVAL);
    }
    var info := NO_INFO;
    var rxByteCnt := Le16(buf[0], buf[1]);
    var pktType := buf[3] / 32;
    if pktType != 2 && pktType != 3 {
      return Ok(info.(pktLen := 0));
    }
    var rmacInfoLen := AccumulateHeader(buf);
    info := info.(isCrcError := Bit(buf[10], 2), hdrLen := rmacInfoLen);
    if |buf| < rmacInfoLen {
      return Err(EINVAL);
    }
    if Bit(Groups(buf), 4) {
      var rssi, rate := ReadVector(buf, rssiOffset);
      info := info.(rssi := rssi, rate := rate);
    }
    var totalLen := if rxByteCnt <= |buf| && rxByteCnt > 0 then rxByteCnt else |buf|;
    var mpduLen := if totalLen < rmacInfoLen then 0 else totalLen - rmacInfoLen;
    info := info.(pktLen := mpduLen % 0x1_0000, channel := buf[5]);
    if mpduLen >= 2 {
      var isBeacon, isData := Classify(buf[rmacInfoLen], buf[4]);
      info := info.(isBeacon := isBeacon, isData := isData);
    }
    return Ok(info);
  }

  lemma LastHexDigit(high: nat, low: nat)
    requires low < 16
    ensures (16 * high + low) % 16 == low
  {
  }

  lemma LowBits(n: nat)
    ensures n % 0x80 % 16 == n % 16 && n % 0x80 % 4 == n % 4
  {
    var q, r := n / 0x80, n % 0x80;
    var low := r % 16;
    assert n == 16 * (8 * q + r / 16) + low;
    LastHexDigit(8 * q + r / 16, low);
    LastDigits(q, r);
  }

  lemma LastDigits(q: nat, r: nat)
    ensures (0x80 * q + r) % 4 == r % 4
  {
  }

  /** The index bits of the rate code. */
  function ModeBits(mode: nat, n: nat): (r: nat)
    ensures r < 0x20 || (mode >= 2 && 0x80 <= r < 0x90)
  {
    if mode >= 2 then 0x80 + n % 16 else if mode == 1 then OfdmIndex(n % 16) else n % 4
  }

  method EncodeMode(txMode: nat, txRate: nat, ghost rxv: nat) returns (rate: nat)
    requires txRate == rxv % 0x80
    ensures rate == ModeBits(txMode, rxv)
  {
    LowBits(rxv);
    if txMode >= 2 {
      rate := 0x80 + txRate % 16;
    } else if txMode == 1 {
      rate := OfdmIndex(txRate % 16);
    } else {
      rate := txRate % 4;
    }
  }

  /** The rate part of `parse_rx_frame`, accumulated bit by bit. */
  method EncodeRate(rxv: u32) returns (rate: u8)
    ensures rate == RateCode(rxv)
  {
    var txRate := rxv % 0x80;
    var txMode := rxv / 0x1000 % 8;
    var frMode := rxv / 0x8000 % 4;
    rate := 0;
    if frMode == 1 { rate := rate + 0x40; }
    if rxv / 0x8_0000 % 2 != 0 { rate := rate + 0x20; }
    var bits := EncodeMode(txMode, txRate, rxv);
    rate := rate + bits;
  }

  /** On success the frame lies inside the buffer, and the separately computed start of group 3
      agrees with the header length. */
  lemma ParsedInBounds(b: seq<u8>, rssiOffset: int)
    requires Parsed(b, rssiOffset).Ok? && -128 <= rssiOffset <= 127
    ensures var info := Parsed(b, rssiOffset).value;
      && info.hdrLen + info.pktLen <= |b|
      && -128 <= info.rssi <= 127
    ensures HasVector(b) ==> Group3(b) + 24 + (if Bit(b[6], 64) then 2 else 0) == HeaderLen(b) <= |b|
  {
  }

  // ---- Delivery ----

  /** One frame given to mac80211, with the status it carries. */
  datatype Delivered = Delivered(payload: seq<u8>, signal: Option<int>, rate: RxRate, decrypted: bool)

  /** Decrypted by the hardware: a protected frame, a cipher in use and no security error. */
  predicate Decrypted(b: seq<u8>, hdrLen: nat)
    requires |b| >= RXD_MIN_SIZE && hdrLen + 2 <= |b|
  {
    Bit(b[hdrLen + 1], 64) && b[9] / 16 != 0 && b[10] / 4 % 16 == 0
  }

  /** What becomes of the subframe that starts a buffer: the buffer may go on after it. */
  function Deliver(b: seq<u8>, rssiOffset: int): Option<Delivered> {
    match Parsed(b, rssiOffset)
    case Err(_) => None
    case Ok(info) =>
      if info.pktLen > 4 && !info.isCrcError && info.hdrLen + info.pktLen <= |b| then
        Some(Delivered(b[info.hdrLen..info.hdrLen + info.pktLen],
                       if info.rssi != 0 then Some(info.rssi) else None,
                       StatusOf(info.rate), Decrypted(b, info.hdrLen)))
      else None
  }

  lemma PktLenOf(b: seq<u8>, rssiOffset: int)
    requires Parsed(b, rssiOffset).Ok?
    ensures Parsed(b, rssiOffset).value.pktLen == 0 || Parsed(b, rssiOffset).value.pktLen == PayloadLen(b) % 0x1_0000
  {
  }

  /** A short subframe never yields a frame, whatever follows it in the buffer. */
  lemma ShortYieldsNothing(b: seq<u8>, cnt: nat, rssiOffset: int)
    requires RXD_MIN_SIZE <= |b| && cnt == Le16(b[0], b[1]) && 0 < cnt < RXD_MIN_SIZE
    ensures Deliver(b, rssiOffset) == None && Deliver(b[..cnt], rssiOffset) == None
  {
    if Parsed(b, rssiOffset).Ok? {
      PktLenOf(b, rssiOffset);
      assert PayloadLen(b) == 0;
    }
  }

  lemma SameHeader(b: seq<u8>, s: seq<u8>)
    requires RXD_MIN_SIZE <= |s| && s <= b
    ensures HeaderLen(s) == HeaderLen(b) && Groups(s) == Groups(b) && PktType(s) == PktType(b)
  {
    assert forall i :: 0 <= i < RXD_MIN_SIZE ==> s[i] == b[i];
  }

  /** Signal strength and rate are within the header. */
  lemma VectorLocal(b: seq<u8>, s: seq<u8>, rssiOffset: int)
    requires RXD_MIN_SIZE <= |s| && s <= b && HeaderLen(b) <= |s|
    ensures RssiAt(s, rssiOffset) == RssiAt(b, rssiOffset) && RateAt(s) == RateAt(b)
  {
    SameHeader(b, s);
    if HasVector(b) {
      var at := Group3(b);
      assert s[at..at + 4] == b[at..at + 4] && s[at + 12] == b[at + 12];
    }
  }

  lemma ParsedLocal(b: seq<u8>, cnt: nat, rssiOffset: int)
    requires RXD_MIN_SIZE <= |b| && cnt == Le16(b[0], b[1]) && HeaderLen(b) <= cnt <= |b|
    ensures Parsed(b, rssiOffset) == Parsed(b[..cnt], rssiOffset)
  {
    SameHeader(b, b[..cnt]);
    VectorLocal(b, b[..cnt], rssiOffset);
  }

  /** Two buffers that agree on the frame and its header deliver the same. */
  lemma SameDelivery(b: seq<u8>, s: seq<u8>, rssiOffset: int)
    requires RXD_MIN_SIZE <= |s| && s <= b && Parsed(s, rssiOffset) == Parsed(b, rssiOffset)
    requires Parsed(b, rssiOffset).Ok? ==> Parsed(b, rssiOffset).value.hdrLen + Parsed(b, rssiOffset).value.pktLen <= |s|
    ensures Deliver(b, rssiOffset) == Deliver(s, rssiOffset)
  {
    var info := Parsed(b, rssiOffset);
    if info.Ok? {
      var from, to := info.value.hdrLen, info.value.hdrLen + info.value.pktLen;
      assert s[from..to] == b[from..to];
    }
  }

  /** Whether a subframe is delivered, and everything delivered with it, depends on its own bytes
      alone: parsing all that remains of the buffer is as good as parsing the exact slice. */
  lemma DeliverLocal(b: seq<u8>, cnt: nat, rssiOffset: int)
    requires RXD_MIN_SIZE <= |b| && cnt == Le16(b[0], b[1]) && 0 < cnt <= |b|
    ensures Deliver(b, rssiOffset) == Deliver(b[..cnt], rssiOffset)
  {
    if cnt < RXD_MIN_SIZE {
      ShortYieldsNothing(b, cnt, rssiOffset);
    } else if HeaderLen(b) <= cnt {
      ParsedLocal(b, cnt, rssiOffset);
      LengthWithin(b, cnt, rssiOffset);
      SameDelivery(b, b[..cnt], rssiOffset);
    } else {
      HeaderCutOff(b, cnt, rssiOffset);
    }
  }

  lemma LengthWithin(b: seq<u8>, cnt: nat, rssiOffset: int)
    requires RXD_MIN_SIZE <= |b| && cnt == Le16(b[0], b[1]) && HeaderLen(b) <= cnt <= |b|
    ensures Parsed(b, rssiOffset).Ok? ==> Parsed(b, rssiOffset).value.hdrLen + Parsed(b, rssiOffset).value.pktLen <= cnt
  {
  }

  /** A subframe that ends within its own header yields nothing. */
  lemma HeaderCutOff(b: seq<u8>, cnt: nat, rssiOffset: int)
    requires RXD_MIN_SIZE <= cnt <= |b| && cnt == Le16(b[0], b[1]) && cnt < HeaderLen(b)
    ensures Deliver(b, rssiOffset) == None && Deliver(b[..cnt], rssiOffset) == None
  {
    SameHeader(b, b[..cnt]);
    if Parsed(b, rssiOffset).Ok? {
      PktLenOf(b, rssiOffset);
      assert PayloadLen(b) == 0;
    }
  }
}
