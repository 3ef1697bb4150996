/** How `mt7603_mac80211_tx` (src/c/mac80211.c) chooses the descriptor of a frame, and what the
    transmitter then reads in front of that frame. */
module TxSelect {
  import opened Machine
  import opened Txd
  import opened TxFrame

  const MGMT := 0
  const DATA := 2

  /** What the stack says about one frame. `rateIdx` is negative when it chose no rate. */
  datatype Control = Control(hdrLen: u8, encrypted: bool, injected: bool, noAck: bool, rateIdx: int,
                             mcs: bool, wide: bool, shortGi: bool, shortPreamble: bool)

  /** The driver state that transmission consults. */
  datatype Radio = Radio(running: bool, monitoring: bool, accessPoint: bool, bw: u8, channel: nat)

  function FrameType(frame: seq<u8>): nat
    requires |frame| >= 5
  {
    frame[0] / 4 % 4
  }

  predicate IsGroup(frame: seq<u8>)
    requires |frame| >= 5
  {
    frame[4] % 2 == 1
  }

  /** Frames that are sent on behalf of nobody the driver associated with. */
  predicate Injected(radio: Radio, ctl: Control) {
    ctl.injected || (radio.monitoring && !radio.accessPoint)
  }

  /** Mode, index, preamble and bandwidth. */
  datatype Choice = Choice(mode: u8, mcs: u8, preamble: u8, bw: u8)

  function RateChoice(radio: Radio, ctl: Control, isMgmt: bool): Choice {
    if !isMgmt && ctl.rateIdx >= 0 then
      if ctl.mcs then
        Choice(MODE_HTMIX, ctl.rateIdx % 0x10, if ctl.shortGi then 2 else 0, if ctl.wide then 1 else radio.bw)
      else if ctl.rateIdx < 4 then Choice(MODE_CCK, ctl.rateIdx, if ctl.shortPreamble then 0 else 1, 0)
      else Choice(MODE_OFDM, (ctl.rateIdx - 4) % 8, 1, 0)
    else if radio.channel > 14 then Choice(MODE_OFDM, 0, 1, radio.bw)
    else Choice(MODE_CCK, 0, 1, radio.bw)
  }

  /** The parameters handed to the descriptor builder. The length is narrowed to sixteen bits. */
  function Params(radio: Radio, ctl: Control, frame: seq<u8>): TxParams
    requires |frame| >= 5
  {
    var isMgmt := FrameType(frame) == MGMT;
    var group := IsGroup(frame);
    var injected := Injected(radio, ctl);
    var c := RateChoice(radio, ctl, isMgmt);
    TxParams(if injected || group then 0 else 1,
             if isMgmt || injected then 4 else 1,
             ctl.hdrLen, FrameType(frame), frame[0] / 0x10,
             if group || (injected && ctl.noAck) then 1 else 0,
             if group then 1 else 0,
             c.mode, c.mcs, c.preamble, c.bw, |frame| % 0x1_0000,
             if ctl.encrypted then 1 else 0)
  }

  /** The builder is never asked for a rate outside its tables. */
  lemma ParamsInRange(radio: Radio, ctl: Control, frame: seq<u8>)
    requires |frame| >= 5
    ensures var p := Params(radio, ctl, frame); RateInRange(p.rateMode, p.rateMcs) && p.rateMode <= MODE_HTMIX
  {
  }

  /** Whether the builder refuses. */
  predicate Refused(p: TxParams) {
    p.pktLen + TXWI_SIZE > 0xffff || p.hdrLen % 2 != 0
  }

  /** Data frames ask for a status report marked with the packet id 0x42. */
  function Tagged(txwi: seq<u8>, isData: bool): (t: seq<u8>)
    requires |txwi| == TXWI_SIZE
    ensures |t| == TXWI_SIZE
  {
    if isData then txwi[..20] + [0x42, WithBit2(txwi[21])] + txwi[22..] else txwi
  }

  function WithBit2(b: u8): u8 {
    if b / 4 % 2 == 1 then b else b + 4
  }

  /** The descriptor as it is put in front of the frame. */
  function SentTxd(p: TxParams): (t: seq<u8>)
    requires RateInRange(p.rateMode, p.rateMcs) && !Refused(p)
    ensures |t| == TXWI_SIZE
  {
    Tagged(TxdBytes(p), p.frmType == DATA)
  }

  /** The whole transfer for one frame. */
  function Sent(radio: Radio, ctl: Control, frame: seq<u8>): seq<u8>
    requires |frame| >= 5 && ctl.hdrLen <= |frame| && !Refused(Params(radio, ctl, frame))
  {
    var p := Params(radio, ctl, frame);
    Encap(frame, ctl.hdrLen, SentTxd(p), p.frmType == MGMT)
  }

  // ---- What the transmitter reads ----

  /** The rate that the stack asked for, or the slowest of the band. */
  function Wanted(radio: Radio, ctl: Control, isMgmt: bool): Rate {
    if !isMgmt && ctl.rateIdx >= 0 then
      if ctl.mcs then HtMcs(ctl.rateIdx % 0x10)
      else if ctl.rateIdx < 4 then Cck(ctl.rateIdx, ctl.shortPreamble)
      else Ofdm((ctl.rateIdx - 4) % 8)
    else if radio.channel > 14 then Ofdm(0) else Cck(0, false)
  }

  /** A word after its low half was replaced. */
  lemma LowHalfReplaced(first: FourBytes, low: seq<u8>, cnt: nat, queue: nat)
    requires |low| == 2 && cnt < 0x1_0000 && queue < 0x10 && Le32(first) == cnt + queue * 0x800_0000
    ensures Le32(low + first[2..]) == Le16(low[0], low[1]) + queue * 0x800_0000
  {
    assert Le16(first[2], first[3]) == queue * 0x800;
    var b := low + first[2..];
    assert b[0] == low[0] && b[1] == low[1] && b[2] == first[2] && b[3] == first[3];
  }

  /** Only four of the eight words hold fields. */
  lemma FieldsLocal(b: seq<u8>, c: seq<u8>)
    requires |b| == |c| == TXWI_SIZE && b[0..12] == c[0..12] && b[24..28] == c[24..28]
    ensures DescriptorOf(b) == DescriptorOf(c)
  {
    assert forall s: seq<u8> | |s| == TXWI_SIZE ::
        s[0..4] == s[0..12][0..4] && s[4..8] == s[0..12][4..8] && s[8..12] == s[0..12][8..12];
  }

  lemma TaggedFields(txwi: seq<u8>, isData: bool)
    requires |txwi| == TXWI_SIZE
    ensures DescriptorOf(Tagged(txwi, isData)) == DescriptorOf(txwi)
  {
    var t := Tagged(txwi, isData);
    assert t[0..12] == txwi[0..12] && t[24..28] == txwi[24..28];
    FieldsLocal(t, txwi);
  }

  lemma FirstWordFields(v: u32, w: u32, w1: u32, w2: u32, w6: u32)
    requires Field(v, 0x800_0000, 0x10) == Field(w, 0x800_0000, 0x10)
    ensures OfWords(v, w1, w2, w6) == OfWords(w, w1, w2, w6).(byteCnt := Field(v, 1, 0x1_0000))
  {
  }

  /** Other first word, same remaining words. */
  lemma OtherFirstWord(b: seq<u8>, c: seq<u8>, v: u32, w: u32)
    requires |b| == |c| == TXWI_SIZE && b[4..] == c[4..] && Le32(b[0..4]) == v && Le32(c[0..4]) == w
    requires Field(v, 0x800_0000, 0x10) == Field(w, 0x800_0000, 0x10)
    ensures DescriptorOf(b) == DescriptorOf(c).(byteCnt := Field(v, 1, 0x1_0000))
  {
    assert forall s: seq<u8> | |s| == TXWI_SIZE ::
        s[4..8] == s[4..][0..4] && s[8..12] == s[4..][4..8] && s[24..28] == s[4..][20..24];
    FirstWordFields(v, w, Le32(b[4..8]), Le32(b[8..12]), Le32(b[24..28]));
  }

  lemma Spliced(low: seq<u8>, txwi: seq<u8>, first: FourBytes)
    requires |low| == 2 && |txwi| == TXWI_SIZE && txwi[0..4] == first
    ensures var t := low + txwi[2..]; |t| == TXWI_SIZE && t[0..4] == low + first[2..] && t[4..] == txwi[4..]
  {
    assert txwi[2..4] == first[2..];
  }

  lemma Fits(n: nat)
    requires n <= 0xffff
    ensures n % 0x1_0000 == n
  {
  }

  lemma Replaced(txwi: seq<u8>, low: seq<u8>, cnt: nat, queue: nat, rounded: nat)
    requires |txwi| == TXWI_SIZE && |low| == 2 && cnt < 0x1_0000 && queue < 0x10 && rounded < 0x1_0000
    requires Le32(txwi[0..4]) == cnt + queue * 0x800_0000 && Le16(low[0], low[1]) == rounded
    ensures DescriptorOf(low + txwi[2..]) == DescriptorOf(txwi).(byteCnt := rounded)
  {
    Spliced(low, txwi, txwi[0..4]);
    LowHalfReplaced(txwi[0..4], low, cnt, queue);
    SameQueue(cnt, rounded, queue);
    OtherFirstWord(low + txwi[2..], txwi, rounded + queue * 0x800_0000, cnt + queue * 0x800_0000);
  }

  /** Rewriting the byte count changes no other field. */
  lemma RewrittenFields(txwi: seq<u8>, cnt: nat, queue: nat, rounded: nat)
    requires |txwi| == TXWI_SIZE && cnt < 0x1_0000 && queue < 0x10 && rounded <= 0xffff
    requires Le32(txwi[0..4]) == cnt + queue * 0x800_0000
    ensures DescriptorOf(Rewritten(txwi, false, rounded)) == DescriptorOf(txwi).(byteCnt := rounded)
  {
    Fits(rounded);
    Replaced(txwi, ToLe16(rounded), cnt, queue, rounded);
  }

  lemma SameQueue(cnt: nat, other: nat, queue: nat)
    requires cnt < 0x1_0000 && other < 0x1_0000 && queue < 0x10
    ensures var v, w := other + queue * 0x800_0000, cnt + queue * 0x800_0000;
      Field(v, 0x800_0000, 0x10) == Field(w, 0x800_0000, 0x10) && Field(v, 1, 0x1_0000) == other
  {
    CountAndQueue(cnt, queue);
    CountAndQueue(other, queue);
  }

  /** The descriptor that parameters call for, each field as the frame and the stack gave it. */
  function Expected(p: TxParams, byteCnt: nat): Descriptor
    requires RateInRange(p.rateMode, p.rateMcs)
  {
    Descriptor(byteCnt, p.queue % 0x10, p.pid, p.hdrLen / 2 % 0x20, 2, 1, HdrPad(p.hdrLen), p.noAck % 2,
               p.protectFrm % 2, p.subType % 0x10, p.frmType % 4, p.isBm % 2, p.bw % 4, TxRate(p),
               if Gi(p) then 1 else 0)
  }

  lemma BuiltFields(p: TxParams)
    requires RateInRange(p.rateMode, p.rateMcs) && p.pktLen + HdrPad(p.hdrLen) + TXWI_SIZE <= 0xffff
    ensures DescriptorOf(TxdBytes(p)) == Expected(p, TXWI_SIZE + p.pktLen + HdrPad(p.hdrLen))
  {
    var w0, w1, w2, w6 := ToLe32(Dw0(p)), ToLe32(Dw1(p)), ToLe32(Dw2(p)), ToLe32(Dw6(p));
    Word0Fields(p, w1, w2, w6);
    Word1Fields(p, w0, w2, w6);
    Word2Fields(p, w0, w1, w6);
    Word6Fields(p, w0, w1, w2);
  }

  lemma TaggedFirst(txwi: seq<u8>, isData: bool)
    requires |txwi| == TXWI_SIZE
    ensures Tagged(txwi, isData)[0..4] == txwi[0..4]
  {
  }

  lemma LayoutFirst(w0: FourBytes, w1: FourBytes, w2: FourBytes, w6: FourBytes)
    ensures Layout(w0, w1, w2, w6)[0..4] == w0
  {
  }

  lemma TaggedFront(p: TxParams)
    requires RateInRange(p.rateMode, p.rateMcs) && p.pktLen + HdrPad(p.hdrLen) + TXWI_SIZE <= 0xffff && !Refused(p)
    ensures DescriptorOf(SentTxd(p)) == Expected(p, TXWI_SIZE + p.pktLen + HdrPad(p.hdrLen))
    ensures Le32(SentTxd(p)[0..4]) == Dw0(p)
  {
    TaggedFields(TxdBytes(p), p.frmType == DATA);
    BuiltFields(p);
    TaggedFirst(TxdBytes(p), p.frmType == DATA);
    StoredWord(ToLe32(Dw0(p)), Dw0(p));
    LayoutFirst(ToLe32(Dw0(p)), ToLe32(Dw1(p)), ToLe32(Dw2(p)), ToLe32(Dw6(p)));
  }

  lemma RewrittenFront(txd: seq<u8>, d: Descriptor, isMgmt: bool, cnt: nat, queue: nat, rounded: nat)
    requires |txd| == TXWI_SIZE && DescriptorOf(txd) == d && cnt <= 0xffff && queue < 0x10 && rounded <= 0xffff
    requires Le32(txd[0..4]) == cnt + queue * 0x800_0000
    ensures DescriptorOf(Rewritten(txd, isMgmt, rounded)) == if isMgmt then d else d.(byteCnt := rounded)
  {
    if !isMgmt {
      RewrittenFields(txd, cnt, queue, rounded);
    }
  }

  lemma FrontFields(p: TxParams, n: nat, rounded: nat)
    requires RateInRange(p.rateMode, p.rateMcs) && !Refused(p)
    requires n == TXWI_SIZE + p.pktLen + HdrPad(p.hdrLen) && n <= rounded <= 0xffff
    ensures DescriptorOf(Rewritten(SentTxd(p), p.frmType == MGMT, rounded))
         == Expected(p, if p.frmType == MGMT then n else rounded)
  {
    TaggedFront(p);
    Dw0Is(p);
    RewrittenFront(SentTxd(p), Expected(p, n), p.frmType == MGMT, n, p.queue % 0x10, rounded);
    CountReplaced(p, n, rounded);
  }

  lemma Dw0Is(p: TxParams)
    requires p.pktLen + TXWI_SIZE <= 0xffff
    ensures Dw0(p) == TXWI_SIZE + p.pktLen + HdrPad(p.hdrLen) + p.queue % 0x10 * 0x800_0000
  {
  }

  lemma CountReplaced(p: TxParams, n: nat, m: nat)
    requires RateInRange(p.rateMode, p.rateMcs)
    ensures Expected(p, n).(byteCnt := m) == Expected(p, m)
  {
  }

  /** Every field of the descriptor in front of a sent frame, when the rounded length fits the
      byte count: the length is the whole transfer without its tail for management frames, and
      rounded up to four for all others. */
  lemma SentFields(radio: Radio, ctl: Control, frame: seq<u8>)
    requires |frame| >= 5 && ctl.hdrLen <= |frame| && ctl.hdrLen % 2 == 0
    requires var n := Total(|frame|, ctl.hdrLen); n + Pad4(n) <= 0xffff
    ensures var p := Params(radio, ctl, frame); var n := Total(|frame|, ctl.hdrLen);
      && !Refused(p)
      && DescriptorOf(Sent(radio, ctl, frame)[..TXWI_SIZE])
         == Expected(p, if p.frmType == MGMT then n else n + Pad4(n))
  {
    ParamsInRange(radio, ctl, frame);
    SentFieldsBy(Params(radio, ctl, frame), frame);
  }

  lemma SentFieldsBy(p: TxParams, frame: seq<u8>)
    requires RateInRange(p.rateMode, p.rateMcs) && p.pktLen == |frame| && p.hdrLen <= |frame| && !Refused(p)
    requires var n := Total(|frame|, p.hdrLen); n + Pad4(n) <= 0xffff
    ensures var n := Total(|frame|, p.hdrLen);
      DescriptorOf(Encap(frame, p.hdrLen, SentTxd(p), p.frmType == MGMT)[..TXWI_SIZE])
      == Expected(p, if p.frmType == MGMT then n else n + Pad4(n))
  {
    var n := Total(|frame|, p.hdrLen);
    EncapFront(frame, p.hdrLen, SentTxd(p), p.frmType == MGMT);
    FrontOf(Encap(frame, p.hdrLen, SentTxd(p), p.frmType == MGMT), p, n, n + Pad4(n));
  }

  lemma FrontOf(e: seq<u8>, p: TxParams, n: nat, rounded: nat)
    requires RateInRange(p.rateMode, p.rateMcs) && !Refused(p)
    requires n == TXWI_SIZE + p.pktLen + HdrPad(p.hdrLen) && n <= rounded <= 0xffff
    requires |e| >= TXWI_SIZE && e[..TXWI_SIZE] == Rewritten(SentTxd(p), p.frmType == MGMT, rounded)
    ensures DescriptorOf(e[..TXWI_SIZE]) == Expected(p, if p.frmType == MGMT then n else rounded)
  {
    FrontFields(p, n, rounded);
  }

  lemma EncapFront(frame: seq<u8>, hdrLen: nat, txwi: seq<u8>, isMgmt: bool)
    requires hdrLen <= |frame| && |txwi| == TXWI_SIZE
    ensures var n := Total(|frame|, hdrLen); var e := Encap(frame, hdrLen, txwi, isMgmt);
      |e| >= TXWI_SIZE && e[..TXWI_SIZE] == Rewritten(txwi, isMgmt, n + Pad4(n))
  {
    var n := Total(|frame|, hdrLen);
    WrapTail(Rewritten(txwi, isMgmt, n + Pad4(n)), frame, hdrLen, HdrPad(hdrLen), Pad4(n) + 4);
  }

  /** The rate in front of a sent frame is the wanted one, except that short-preamble 1 Mbit/s
      reads as 2 Mbit/s. */
  lemma SentRate(radio: Radio, ctl: Control, frame: seq<u8>)
    requires |frame| >= 5
    ensures var p := Params(radio, ctl, frame); var want := Wanted(radio, ctl, p.frmType == MGMT);
      && RateInRange(p.rateMode, p.rateMcs)
      && (RateOfCode(TxRate(p)) == want <==> want != Cck(0, true))
  {
    var p := Params(radio, ctl, frame);
    ParamsInRange(radio, ctl, frame);
    ChoiceIsWanted(radio, ctl, p);
    RateRecovered(p);
  }

  lemma ChoiceIsWanted(radio: Radio, ctl: Control, p: TxParams)
    requires var c := RateChoice(radio, ctl, p.frmType == MGMT);
      p.rateMode == c.mode && p.rateMcs == c.mcs && p.preamble == c.preamble
    ensures RateOf(p) == Wanted(radio, ctl, p.frmType == MGMT)
  {
  }

  /** The stack chose an HT rate. */
  predicate ChoseHt(ctl: Control, mgmt: bool) {
    !mgmt && ctl.rateIdx >= 0 && ctl.mcs
  }

  /** Type, destination, queue, acknowledgement, protection and header. */
  ghost predicate TellsFrame(d: Descriptor, radio: Radio, ctl: Control, frame: seq<u8>)
    requires |frame| >= 5
  {
    var mgmt, group := frame[0] / 4 % 4 == 0, frame[4] % 2 == 1;
    var nobody := ctl.injected || (radio.monitoring && !radio.accessPoint);
    && d.frmType == frame[0] / 4 % 4 && d.subType == frame[0] / 0x10
    && (d.bm == 1 <==> group)
    && d.wcid == (if group || nobody then 0 else 1)
    && d.queue == (if mgmt || nobody then 4 else 1)
    && (d.noAck == 1 <==> group || (nobody && ctl.noAck))
    && (d.protect == 1 <==> ctl.encrypted)
    && d.pad < 4 && (ctl.hdrLen + d.pad) % 4 == 0
    && (ctl.hdrLen < 64 ==> d.hdrInfo * 2 == ctl.hdrLen)
  }

  /** Rate, streams, guard interval and bandwidth: what the stack chose for HT; twenty megahertz for a
      legacy rate that it chose; else the slowest rate of the band, and the radio's bandwidth. */
  ghost predicate TellsRate(d: Descriptor, radio: Radio, ctl: Control, mgmt: bool) {
    var rate := Wanted(radio, ctl, mgmt);
    && RateOfCode(d.rate) == (if rate == Cck(0, true) then Cck(1, true) else rate)
    && (ChoseHt(ctl, mgmt) ==> d.rate / 0x200 == ctl.rateIdx % 0x10 / 8)
    && (d.gi == 1 <==> ChoseHt(ctl, mgmt) && ctl.shortGi)
    && d.bw == (if ChoseHt(ctl, mgmt) then (if ctl.wide then 1 else radio.bw % 4)
                else if !mgmt && ctl.rateIdx >= 0 then 0 else radio.bw % 4)
  }

  lemma ExpectedTellsFrame(radio: Radio, ctl: Control, frame: seq<u8>, byteCnt: nat)
    requires |frame| >= 5 && ctl.hdrLen % 2 == 0
    ensures var p := Params(radio, ctl, frame);
      RateInRange(p.rateMode, p.rateMcs) && TellsFrame(Expected(p, byteCnt), radio, ctl, frame)
  {
    ParamsInRange(radio, ctl, frame);
    EvenHeader(ctl.hdrLen);
  }

  lemma EvenHeader(hdrLen: u8)
    requires hdrLen % 2 == 0
    ensures hdrLen < 64 ==> hdrLen / 2 % 0x20 * 2 == hdrLen
  {
  }

  /** The streams of an HT rate. */
  lemma Streams(p: TxParams)
    requires p.rateMode == MODE_HTMIX && p.rateMcs < 16
    ensures TxRate(p) / 0x200 == p.rateMcs / 8
  {
    assert Nss(p.rateMode, p.rateMcs) == 1 + p.rateMcs / 8;
  }

  lemma ExpectedTellsRate(radio: Radio, ctl: Control, frame: seq<u8>, byteCnt: nat)
    requires |frame| >= 5
    ensures var p := Params(radio, ctl, frame);
      RateInRange(p.rateMode, p.rateMcs) && TellsRate(Expected(p, byteCnt), radio, ctl, frame[0] / 4 % 4 == 0)
  {
    var p := Params(radio, ctl, frame);
    SentRate(radio, ctl, frame);
    if ChoseHt(ctl, p.frmType == MGMT) {
      Streams(p);
    }
  }

  /** Header bytes, zero bytes for alignment, payload bytes and a zero tail follow the descriptor. */
  lemma SentLayout(radio: Radio, ctl: Control, frame: seq<u8>)
    requires |frame| >= 5 && ctl.hdrLen <= |frame| && !Refused(Params(radio, ctl, frame))
    ensures LaidOut(Sent(radio, ctl, frame), frame, ctl.hdrLen)
  {
    var p := Params(radio, ctl, frame);
    EncapLaidOut(frame, ctl.hdrLen, SentTxd(p), p.frmType == MGMT);
  }

  /** Where everything is behind the descriptor. */
  predicate LaidOut(e: seq<u8>, frame: seq<u8>, hdrLen: nat)
    requires hdrLen <= |frame|
  {
    var pad := (4 - hdrLen % 4) % 4;
    PartsAre(e, frame, hdrLen, pad, (4 - (32 + |frame| + pad) % 4) % 4 + 4)
  }

  predicate PartsAre(e: seq<u8>, frame: seq<u8>, hdrLen: nat, pad: nat, tail: nat)
    requires hdrLen <= |frame|
  {
    var n := 32 + |frame| + pad;
    |e| == n + tail && e[32..n] == frame[..hdrLen] + Zeros(pad) + frame[hdrLen..] && e[n..] == Zeros(tail)
  }

  lemma EncapLaidOut(frame: seq<u8>, hdrLen: nat, txwi: seq<u8>, isMgmt: bool)
    requires hdrLen <= |frame| && |txwi| == TXWI_SIZE
    ensures LaidOut(Encap(frame, hdrLen, txwi, isMgmt), frame, hdrLen)
  {
    EncapParts(frame, hdrLen, txwi, isMgmt);
    PadIs(hdrLen);
    PadIs(Total(|frame|, hdrLen));
  }

  lemma EncapParts(frame: seq<u8>, hdrLen: nat, txwi: seq<u8>, isMgmt: bool)
    requires hdrLen <= |frame| && |txwi| == TXWI_SIZE
    ensures PartsAre(Encap(frame, hdrLen, txwi, isMgmt), frame, hdrLen, HdrPad(hdrLen), Pad4(Total(|frame|, hdrLen)) + 4)
  {
    EncapLength(frame, hdrLen, txwi, isMgmt);
    EncapMiddle(frame, hdrLen, txwi, isMgmt);
  }

  lemma PadIs(n: nat)
    ensures Pad4(n) == (4 - n % 4) % 4 && HdrPad(n) == (4 - n % 4) % 4
  {
  }

  lemma EncapMiddle(frame: seq<u8>, hdrLen: nat, txwi: seq<u8>, isMgmt: bool)
    requires hdrLen <= |frame| && |txwi| == TXWI_SIZE
    ensures var n, e := Total(|frame|, hdrLen), Encap(frame, hdrLen, txwi, isMgmt);
      |e| >= n && e[TXWI_SIZE..n] == Padded(frame, hdrLen, HdrPad(hdrLen))
  {
    var n := Total(|frame|, hdrLen);
    WrapMiddle(Rewritten(txwi, isMgmt, n + Pad4(n)), Padded(frame, hdrLen, HdrPad(hdrLen)), Zeros(Pad4(n) + 4));
  }

  lemma WrapMiddle(a: seq<u8>, b: seq<u8>, c: seq<u8>)
    ensures (a + b + c)[|a|..|a| + |b|] == b
  {
  }

  /** The length of a transfer without its tail, rounded up to four unless the frame is a management
      frame. */
  function SentCount(len: nat, hdrLen: nat, mgmt: bool): nat {
    var n := 32 + len + (4 - hdrLen % 4) % 4;
    if mgmt then n else n + (4 - n % 4) % 4
  }

  lemma CountIs(len: nat, hdrLen: nat, mgmt: bool)
    ensures var n := Total(len, hdrLen); SentCount(len, hdrLen, mgmt) == if mgmt then n else n + Pad4(n)
  {
  }

  lemma SentAs(radio: Radio, ctl: Control, frame: seq<u8>)
    requires |frame| >= 5 && ctl.hdrLen <= |frame| && ctl.hdrLen % 2 == 0
    requires var n := Total(|frame|, ctl.hdrLen); n + Pad4(n) <= 0xffff
    ensures !Refused(Params(radio, ctl, frame)) && |Sent(radio, ctl, frame)| >= 32
    ensures var p := Params(radio, ctl, frame);
      && RateInRange(p.rateMode, p.rateMcs)
      && DescriptorOf(Sent(radio, ctl, frame)[..32]) == Expected(p, SentCount(|frame|, ctl.hdrLen, frame[0] / 4 % 4 == 0))
  {
    SentFields(radio, ctl, frame);
    SentLong(radio, ctl, frame);
    ParamsInRange(radio, ctl, frame);
    CountIs(|frame|, ctl.hdrLen, Params(radio, ctl, frame).frmType == MGMT);
  }

  /** What the parameters' descriptor tells, whatever carries it. */
  lemma Telling(d: Descriptor, radio: Radio, ctl: Control, frame: seq<u8>, byteCnt: nat)
    requires |frame| >= 5 && ctl.hdrLen % 2 == 0
    requires RateInRange(Params(radio, ctl, frame).rateMode, Params(radio, ctl, frame).rateMcs)
    requires d == Expected(Params(radio, ctl, frame), byteCnt)
    ensures TellsFrame(d, radio, ctl, frame) && TellsRate(d, radio, ctl, frame[0] / 4 % 4 == 0) && d.byteCnt == byteCnt
  {
    ExpectedTellsFrame(radio, ctl, frame, byteCnt);
    ExpectedTellsRate(radio, ctl, frame, byteCnt);
  }

  /** The descriptor in front of every frame that is sent tells the transmitter what the frame and
      the stack say, as long as the rounded length fits; its byte count is the length of the
      transfer without its tail, rounded up to four unless the frame is a management frame. */
  lemma SentTells(radio: Radio, ctl: Control, frame: seq<u8>)
    requires |frame| >= 5 && ctl.hdrLen <= |frame| && ctl.hdrLen % 2 == 0
    requires var n := Total(|frame|, ctl.hdrLen); n + Pad4(n) <= 0xffff
    ensures !Refused(Params(radio, ctl, frame)) && |Sent(radio, ctl, frame)| >= 32
    ensures Tells(DescriptorOf(Sent(radio, ctl, frame)[..32]), radio, ctl, frame)
  {
    SentAs(radio, ctl, frame);
    Telling(DescriptorOf(Sent(radio, ctl, frame)[..32]), radio, ctl, frame, SentCount(|frame|, ctl.hdrLen, frame[0] / 4 % 4 == 0));
  }

  /** Length, addressing and rate. */
  ghost predicate Tells(d: Descriptor, radio: Radio, ctl: Control, frame: seq<u8>)
    requires |frame| >= 5
  {
    var mgmt := frame[0] / 4 % 4 == 0;
    d.byteCnt == SentCount(|frame|, ctl.hdrLen, mgmt) && TellsFrame(d, radio, ctl, frame) && TellsRate(d, radio, ctl, mgmt)
  }

  lemma SentLong(radio: Radio, ctl: Control, frame: seq<u8>)
    requires |frame| >= 5 && ctl.hdrLen <= |frame| && !Refused(Params(radio, ctl, frame))
    ensures |Sent(radio, ctl, frame)| >= 32
  {
    var p := Params(radio, ctl, frame);
    EncapFront(frame, ctl.hdrLen, SentTxd(p), p.frmType == MGMT);
  }

  // ---- What is the same in every descriptor ----

  lemma AboveSum(low: nat, high: nat)
    requires low < 0x2000_0000
    ensures (low + 0x2000_0000 * high) / 0x2000_0000 == high
  {
  }

  /** No aggregation and a fixed rate. */
  lemma Dw2Fixed(p: TxParams)
    ensures Dw2(p) / 0x2000_0000 % 2 == 1 && Dw2(p) / 0x8000_0000 == 1
  {
    AboveSum(p.subType % 0x10 + p.frmType % 4 * 0x10 + p.isBm % 2 * 0x400, 5);
    assert Dw2(p) / 0x8000_0000 == Dw2(p) / 0x2000_0000 / 4;
  }

  lemma Bit10(low: nat, high: nat)
    requires low < 0x400
    ensures (low + 0x400 * (1 + 2 * high)) / 0x400 % 2 == 1
  {
    assert (low + 0x400 * (1 + 2 * high)) / 0x400 == 1 + 2 * high;
  }

  lemma Bit11(low: nat, high: nat)
    requires low < 0x800
    ensures (low + 0x800 * (1 + 2 * high)) / 0x800 % 2 == 1
  {
    assert (low + 0x800 * (1 + 2 * high)) / 0x800 == 1 + 2 * high;
  }

  lemma Bits10And11(low: nat, high: nat)
    requires 0x400 <= low < 0x800
    ensures var w := low + 0x800 + 0x4_0000 * high; w / 0x400 % 2 == 1 && w / 0x800 % 2 == 1
  {
    Bit10(low - 0x400, 1 + 0x80 * high);
    Bit11(low, 0x40 * high);
    assert low + 0x800 + 0x4_0000 * high == low - 0x400 + 0x400 * (1 + 2 * (1 + 0x80 * high)) == low + 0x800 * (1 + 2 * (0x40 * high));
  }

  /** A fixed bandwidth, and spatial extension. */
  lemma Dw6Fixed(p: TxParams)
    requires RateInRange(p.rateMode, p.rateMcs)
    ensures Dw6(p) / 0x400 % 2 == 1 && Dw6(p) / 0x800 % 2 == 1
  {
    Bits10And11((4 + p.bw % 4) * 0x100, TxRate(p) + if Gi(p) then 0x2000 else 0);
  }

  /** Behind the byte count, the descriptor in front of a frame is the tagged one. */
  lemma SentWords(radio: Radio, ctl: Control, frame: seq<u8>)
    requires |frame| >= 5 && ctl.hdrLen <= |frame| && !Refused(Params(radio, ctl, frame))
    ensures |Sent(radio, ctl, frame)| >= 32 && Sent(radio, ctl, frame)[4..32] == SentTxd(Params(radio, ctl, frame))[4..]
  {
    var p := Params(radio, ctl, frame);
    EncapFront(frame, ctl.hdrLen, SentTxd(p), p.frmType == MGMT);
    BehindCount(Sent(radio, ctl, frame), SentTxd(p), p.frmType == MGMT, Total(|frame|, ctl.hdrLen) + Pad4(Total(|frame|, ctl.hdrLen)));
  }

  lemma BehindCount(e: seq<u8>, txd: seq<u8>, isMgmt: bool, rounded: nat)
    requires |e| >= 32 && |txd| == 32 && e[..32] == Rewritten(txd, isMgmt, rounded)
    ensures e[4..32] == txd[4..]
  {
    assert Rewritten(txd, isMgmt, rounded)[4..] == txd[4..];
    assert e[4..32] == e[..32][4..];
  }

  lemma LayoutWords(w0: FourBytes, w1: FourBytes, w2: FourBytes, w6: FourBytes)
    ensures var b := Layout(w0, w1, w2, w6);
      && b[8..12] == w2 && b[12..20] == [0, 0x78, 0, 0, 0, 0, 0, 0] && b[20..24] == [0, 0x10, 0, 0]
      && b[24..28] == w6 && b[28..] == [0, 0, 0, 0]
  {
  }

  lemma TaggedSlices(b: seq<u8>, isData: bool)
    requires |b| == TXWI_SIZE && b[20..24] == [0, 0x10, 0, 0]
    ensures var t := Tagged(b, isData);
      && t[8..12] == b[8..12] && t[12..20] == b[12..20] && t[24..28] == b[24..28] && t[28..] == b[28..]
      && t[20..24] == if isData then [0x42, 0x14, 0, 0] else [0, 0x10, 0, 0]
  {
    var t := Tagged(b, isData);
    assert b[21] == b[20..24][1] == 0x10 && b[22] == b[20..24][2] == 0 && b[23] == b[20..24][3] == 0;
    if isData {
      assert WithBit2(0x10) == 0x14;
      assert t[20] == 0x42 && t[21] == 0x14 && t[22] == 0 && t[23] == 0;
    }
  }

  lemma SamePart(e: seq<u8>, t: seq<u8>, i: nat, j: nat)
    requires |e| >= 32 && |t| == 32 && e[4..32] == t[4..] && 4 <= i <= j <= 32
    ensures e[i..j] == t[i..j]
  {
    forall k | i <= k < j ensures e[k] == t[k] {
      assert e[4..32][k - 4] == e[k] && t[4..][k - 4] == t[k];
    }
  }

  /** The words of the tagged descriptor behind the second. */
  lemma TaggedWords(p: TxParams)
    requires RateInRange(p.rateMode, p.rateMcs) && !Refused(p)
    ensures var t := SentTxd(p);
      && t[8..12] == ToLe32(Dw2(p)) && t[12..20] == [0, 0x78, 0, 0, 0, 0, 0, 0] && t[24..28] == ToLe32(Dw6(p))
      && t[20..24] == (if p.frmType == DATA then [0x42, 0x14, 0, 0] else [0, 0x10, 0, 0]) && t[28..32] == [0, 0, 0, 0]
  {
    LayoutWords(ToLe32(Dw0(p)), ToLe32(Dw1(p)), ToLe32(Dw2(p)), ToLe32(Dw6(p)));
    TaggedSlices(TxdBytes(p), p.frmType == DATA);
  }

  /** Bits that are always set, in the words that hold them. */
  lemma FixedBits(p: TxParams)
    requires RateInRange(p.rateMode, p.rateMcs)
    ensures var w2, w6 := Le32(ToLe32(Dw2(p))), Le32(ToLe32(Dw6(p)));
      w2 / 0x2000_0000 % 2 == 1 && w2 / 0x8000_0000 == 1 && w6 / 0x400 % 2 == 1 && w6 / 0x800 % 2 == 1
  {
    StoredWord(ToLe32(Dw2(p)), Dw2(p));
    StoredWord(ToLe32(Dw6(p)), Dw6(p));
    Dw2Fixed(p);
    Dw6Fixed(p);
  }

  /** What every transfer asks for, whatever is sent: no aggregation, a fixed rate and bandwidth,
      fifteen retries; and for data frames, and only for them, a status report with packet id 0x42. */
  lemma SentAlways(radio: Radio, ctl: Control, frame: seq<u8>)
    requires |frame| >= 5 && ctl.hdrLen <= |frame| && !Refused(Params(radio, ctl, frame))
    ensures |Sent(radio, ctl, frame)| >= 32 && AsAlways(Sent(radio, ctl, frame), frame[0] / 4 % 4 == 2)
  {
    var p := Params(radio, ctl, frame);
    ParamsInRange(radio, ctl, frame);
    SentWords(radio, ctl, frame);
    WordsAsAlways(p, Sent(radio, ctl, frame));
  }

  predicate AsAlways(e: seq<u8>, isData: bool)
    requires |e| >= 32
  {
    && Le32(e[8..12]) / 0x2000_0000 % 2 == 1 && Le32(e[8..12]) / 0x8000_0000 == 1
    && e[12..20] == [0, 0x78, 0, 0, 0, 0, 0, 0]
    && e[20..24] == (if isData then [0x42, 0x14, 0, 0] else [0, 0x10, 0, 0])
    && Le32(e[24..28]) / 0x400 % 2 == 1 && Le32(e[24..28]) / 0x800 % 2 == 1 && e[28..32] == [0, 0, 0, 0]
  }

  lemma WordsAsAlways(p: TxParams, e: seq<u8>)
    requires RateInRange(p.rateMode, p.rateMcs) && !Refused(p) && |e| >= 32 && e[4..32] == SentTxd(p)[4..]
    ensures AsAlways(e, p.frmType == 2)
  {
    var t := SentTxd(p);
    SamePart(e, t, 8, 12);
    SamePart(e, t, 12, 20);
    SamePart(e, t, 20, 24);
    SamePart(e, t, 24, 28);
    SamePart(e, t, 28, 32);
    TaggedWords(p);
    FixedBits(p);
  }
}
