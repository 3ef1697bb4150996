/** The 32-byte transmit descriptor of src/rust/src/tx.rs and the parameters that
    src/c/mac80211.c puts into it. */
module Txd {
  import opened Machine

  const TXWI_SIZE := 32
  const MODE_CCK := 0
  const MODE_OFDM := 1
  const MODE_HTMIX := 2
  const MODE_HTGF := 3
  const LONG_PREAMBLE := 1

  datatype TxParams = TxParams(pid: u8, queue: u8, hdrLen: u8, frmType: u8, subType: u8, noAck: u8, isBm: u8,
                               rateMode: u8, rateMcs: u8, preamble: u8, bw: u8, pktLen: u16, protectFrm: u8)

  /** `(4 - (hdr_len & 3)) & 3`: zero bytes put between header and payload. */
  function HdrPad(hdrLen: nat): nat {
    Pad4(hdrLen)
  }

  /** Indices for which the rate tables have an entry, and which fit the field. */
  predicate RateInRange(mode: u8, mcs: u8) {
    (mode == MODE_CCK ==> mcs < 4) && (mode == MODE_OFDM ==> mcs < 8) && (mode > MODE_OFDM ==> mcs < 64)
  }

  const CCK_LONG: seq<nat> := [0, 1, 2, 3]
  const CCK_SHORT: seq<nat> := [5, 5, 6, 7]
  const OFDM_CODES: seq<nat> := [11, 15, 10, 14, 9, 13, 8, 12]

  /** `tx_rate_to_tmi`, without space-time coding, which the driver never asks for. */
  function TxRateToTmi(mode: u8, mcs: u8, nss: nat, preamble: u8): nat
    requires RateInRange(mode, mcs) && nss > 0
  {
    if mode == MODE_CCK then (if preamble == LONG_PREAMBLE then CCK_LONG[mcs] else CCK_SHORT[mcs])
    else if mode == MODE_OFDM then MODE_OFDM * 0x40 + OFDM_CODES[mcs]
    else if mode == MODE_HTMIX || mode == MODE_HTGF then (nss - 1) % 4 * 0x200 + mode * 0x40 + mcs
    else 0
  }

  predicate IsHt(mode: u8) {
    mode == MODE_HTMIX || mode == MODE_HTGF
  }

  function Nss(mode: u8, mcs: u8): (n: nat)
    ensures n > 0
  {
    if IsHt(mode) && mcs != 32 then 1 + mcs / 8 else 1
  }

  function TxRate(p: TxParams): (r: nat)
    requires RateInRange(p.rateMode, p.rateMcs)
    ensures r < 0x1000
  {
    TxRateToTmi(p.rateMode, p.rateMcs, Nss(p.rateMode, p.rateMcs), p.preamble % 2)
  }

  predicate Gi(p: TxParams) {
    IsHt(p.rateMode) && p.preamble / 2 % 2 == 1
  }

  // The five words with content. The fields they are ored from do not overlap, so sums say the
  // same; `TxdFields` recovers every one of them.

  function Dw0(p: TxParams): u32
    requires p.pktLen + TXWI_SIZE <= 0xffff
  {
    p.pktLen + HdrPad(p.hdrLen) + TXWI_SIZE + p.queue % 0x10 * 0x800_0000
  }

  function Dw1(p: TxParams): u32 {
    p.pid + p.hdrLen / 2 % 0x20 * 0x100 + 2 * 0x2000 + 1 * 0x8000 + HdrPad(p.hdrLen) * 0x1_0000
    + p.noAck % 2 * 0x8_0000 + p.protectFrm % 2 * 0x80_0000
  }

  function Dw2(p: TxParams): u32 {
    p.subType % 0x10 + p.frmType % 4 * 0x10 + p.isBm % 2 * 0x400 + 0x2000_0000 + 0x8000_0000
  }

  function Dw6(p: TxParams): u32
    requires RateInRange(p.rateMode, p.rateMcs)
  {
    (4 + p.bw % 4) * 0x100 + 0x800 + TxRate(p) * 0x4_0000 + (if Gi(p) then 0x8000_0000 else 0)
  }

  /** Where the words lie: words 4 and 7 are zero, word 3 asks for fifteen retries and word 5 for
      software sequence control of block-ack requests. */
  function Layout(w0: FourBytes, w1: FourBytes, w2: FourBytes, w6: FourBytes): (b: seq<u8>)
    ensures |b| == TXWI_SIZE
  {
    w0 + w1 + w2 + [0, 0x78, 0, 0] + [0, 0, 0, 0] + [0, 0x10, 0, 0] + w6 + [0, 0, 0, 0]
  }

  function TxdBytes(p: TxParams): (b: seq<u8>)
    requires RateInRange(p.rateMode, p.rateMcs) && p.pktLen + TXWI_SIZE <= 0xffff
    ensures |b| == TXWI_SIZE
  {
    Layout(ToLe32(Dw0(p)), ToLe32(Dw1(p)), ToLe32(Dw2(p)), ToLe32(Dw6(p)))
  }

  /** The next word, in front of what is still as it was at the start. */
  method StoreWord(out: array<u8>, pos: nat, w: FourBytes, ghost before: seq<u8>) returns (next: nat)
    requires pos + 4 <= out.Length == |before| && out[pos..] == before[pos..]
    modifies out
    ensures next == pos + 4 && out[..next] == old(out[..pos]) + w && out[next..] == before[next..]
  {
    SameTail(out[..], before, pos, pos + 4);
    next := PutBytes(out, pos, w);
  }

  /** A word that keeps what it has. */
  lemma SkippedWord(now: seq<u8>, before: seq<u8>, pos: nat)
    requires |now| == |before| && pos + 4 <= |now| && now[pos..] == before[pos..]
    ensures now[..pos + 4] == now[..pos] + before[pos..pos + 4] && now[pos + 4..] == before[pos + 4..]
  {
    assert now[pos..][..4] == now[pos..pos + 4] && before[pos..][..4] == before[pos..pos + 4];
    SameTail(now, before, pos, pos + 4);
  }

  method StoreBytes(out: array<u8>, w0: FourBytes, w1: FourBytes, w2: FourBytes, w3: FourBytes, w5: FourBytes, w6: FourBytes)
    requires out.Length >= TXWI_SIZE
    modifies out
    ensures out[..] == w0 + w1 + w2 + w3 + old(out[16..20]) + w5 + w6 + old(out[28..])
  {
    ghost var before := out[..];
    var pos := StoreWord(out, 0, w0, before);
    assert out[..pos] == w0;
    pos := StoreWord(out, pos, w1, before);
    pos := StoreWord(out, pos, w2, before);
    pos := StoreWord(out, pos, w3, before);
    SkippedWord(out[..], before, 16);
    assert out[..][..20] == out[..20] && out[..][20..] == out[20..];
    pos := StoreWord(out, 20, w5, before);
    pos := StoreWord(out, pos, w6, before);
    assert out[..] == out[..28] + out[28..];
  }

  /** Fifteen retries, and software sequence control of block-ack requests. */
  lemma FixedWords()
    ensures ToLe32(0x0f * 0x800) == [0, 0x78, 0, 0] && ToLe32(0x1000) == [0, 0x10, 0, 0]
  {
  }

  /** Words 4 and 7 of a cleared descriptor. */
  lemma ClearedWords(b: seq<u8>)
    requires |b| >= TXWI_SIZE && b[..TXWI_SIZE] == Zeros(TXWI_SIZE)
    ensures b[16..20] == [0, 0, 0, 0] && b[28..] == [0, 0, 0, 0] + b[TXWI_SIZE..]
  {
    var z := b[..TXWI_SIZE];
    assert z[16..20] == b[16..20] && z[28..] == b[28..TXWI_SIZE];
    assert b[28..] == b[28..TXWI_SIZE] + b[TXWI_SIZE..];
  }

  /** Words 4 and 7 keep the zeros they have. */
  method WriteWords(out: array<u8>, w0: FourBytes, w1: FourBytes, w2: FourBytes, w6: FourBytes)
    requires out.Length >= TXWI_SIZE && out[..TXWI_SIZE] == Zeros(TXWI_SIZE)
    modifies out
    ensures out[..] == Layout(w0, w1, w2, w6) + old(out[TXWI_SIZE..])
  {
    FixedWords();
    ClearedWords(out[..]);
    assert out[..][16..20] == out[16..20] && out[..][28..] == out[28..] && out[..][TXWI_SIZE..] == out[TXWI_SIZE..];
    StoreBytes(out, w0, w1, w2, ToLe32(0x0f * 0x800), ToLe32(0x1000), w6);
  }

  /** `build_txwi` (src/rust/src/tx.rs). The buffer is cleared before the header length is found
      to be odd. */
  method BuildTxwi(p: TxParams, out: array<u8>) returns (r: Result<nat>)
    requires RateInRange(p.rateMode, p.rateMcs)
    modifies out
    ensures r == if out.Length < TXWI_SIZE then Err(ENOSPC)
                 else if p.pktLen + TXWI_SIZE > 0xffff || p.hdrLen % 2 != 0 then Err(EINVAL) else Ok(TXWI_SIZE)
    ensures r.Ok? ==> out[..] == TxdBytes(p) + old(out[TXWI_SIZE..])
    ensures r.Err? ==>
      (out[..] == old(out[..]) || (out.Length >= TXWI_SIZE && out[..] == Zeros(TXWI_SIZE) + old(out[TXWI_SIZE..])))
  {
    if out.Length < TXWI_SIZE {
      return Err(ENOSPC);
    }
    if p.pktLen + TXWI_SIZE > 0xffff {
      return Err(EINVAL);
    }
    CopyBytes(out, 0, Zeros(TXWI_SIZE));
    if p.hdrLen % 2 != 0 {
      return Err(EINVAL);
    }
    WriteWords(out, ToLe32(Dw0(p)), ToLe32(Dw1(p)), ToLe32(Dw2(p)), ToLe32(Dw6(p)));
    return Ok(TXWI_SIZE);
  }

  // ---- Reading a descriptor back ----

  function Field(word: u32, weight: nat, size: nat): nat
    requires weight > 0 && size > 0
  {
    word / weight % size
  }

  /** What the transmitter finds in the rate field. */
  datatype Rate = Cck(index: nat, short: bool) | Ofdm(index: nat) | HtMcs(mcs: nat) | Unknown

  function RateOfCode(code: nat): Rate {
    if code < 4 then Cck(code, false)
    else if 5 <= code < 8 then Cck(code - 4, true)
    else if code / 0x40 == 1 && 8 <= code % 0x40 < 16 then Ofdm([6, 4, 2, 0, 7, 5, 3, 1][code % 0x40 - 8])
    else if code / 0x40 % 8 == 2 then HtMcs(code % 0x40)
    else Unknown
  }

  /** The rate that parameters ask for. */
  function RateOf(p: TxParams): Rate {
    if p.rateMode == MODE_CCK then Cck(p.rateMcs, p.preamble % 2 != LONG_PREAMBLE)
    else if p.rateMode == MODE_OFDM then Ofdm(p.rateMcs)
    else if p.rateMode == MODE_HTMIX then HtMcs(p.rateMcs)
    else Unknown
  }

  /** The rate field says what was asked for, except that 1 Mbit/s with short preamble, which
      does not exist, reads as 2 Mbit/s. */
  lemma RateRecovered(p: TxParams)
    requires RateInRange(p.rateMode, p.rateMcs) && p.rateMode <= MODE_HTMIX
    ensures RateOfCode(TxRate(p)) == RateOf(p) <==> RateOf(p) != Cck(0, true)
    ensures RateOf(p) == Cck(0, true) ==> RateOfCode(TxRate(p)) == Cck(1, true)
  {
    if p.rateMode == MODE_HTMIX {
      var nss := Nss(p.rateMode, p.rateMcs);
      assert TxRate(p) / 0x40 == (nss - 1) % 4 * 8 + 2;
    }
  }

  datatype Descriptor = Descriptor(byteCnt: nat, queue: nat, wcid: nat, hdrInfo: nat, format: nat, longForm: nat,
                                   pad: nat, noAck: nat, protect: nat, subType: nat, frmType: nat, bm: nat,
                                   bw: nat, rate: nat, gi: nat)

  /** The fields of a descriptor, at the bit positions of the hardware manual. */
  function DescriptorOf(b: seq<u8>): Descriptor
    requires |b| == TXWI_SIZE
  {
    OfWords(Le32(b[0..4]), Le32(b[4..8]), Le32(b[8..12]), Le32(b[24..28]))
  }

  function OfWords(w0: u32, w1: u32, w2: u32, w6: u32): Descriptor {
    Descriptor(Field(w0, 1, 0x1_0000), Field(w0, 0x800_0000, 0x10),
               Field(w1, 1, 0x100), Field(w1, 0x100, 0x20), Field(w1, 0x2000, 4), Field(w1, 0x8000, 2),
               Field(w1, 0x1_0000, 8), Field(w1, 0x8_0000, 2), Field(w1, 0x80_0000, 2),
               Field(w2, 1, 0x10), Field(w2, 0x10, 4), Field(w2, 0x400, 2),
               Field(w6, 0x100, 4), Field(w6, 0x4_0000, 0x1000), Field(w6, 0x8000_0000, 2))
  }

  lemma LayoutReadsBack(w0: FourBytes, w1: FourBytes, w2: FourBytes, w6: FourBytes)
    ensures DescriptorOf(Layout(w0, w1, w2, w6)) == OfWords(Le32(w0), Le32(w1), Le32(w2), Le32(w6))
  {
    var b := Layout(w0, w1, w2, w6);
    assert b[0..4] == w0 && b[4..8] == w1 && b[8..12] == w2 && b[24..28] == w6;
  }

  /** A word that was stored is read back. */
  lemma StoredWord(w: FourBytes, v: u32)
    requires w == ToLe32(v)
    ensures Le32(w) == v
  {
    Le32OfBytes(v);
  }

  // In each of the next four lemmas the words not mentioned by name may hold anything.

  /** The queue always comes back. The byte count does exactly when header padding does not push
      it past sixteen bits, which the builder does not check. */
  lemma Word0Fields(p: TxParams, w1: FourBytes, w2: FourBytes, w6: FourBytes)
    requires p.pktLen + TXWI_SIZE <= 0xffff
    ensures var d := DescriptorOf(Layout(ToLe32(Dw0(p)), w1, w2, w6));
      && d.queue == p.queue % 0x10
      && (d.byteCnt == TXWI_SIZE + p.pktLen + HdrPad(p.hdrLen) <==> p.pktLen + HdrPad(p.hdrLen) + TXWI_SIZE <= 0xffff)
  {
    StoredWord(ToLe32(Dw0(p)), Dw0(p));
    LayoutReadsBack(ToLe32(Dw0(p)), w1, w2, w6);
    CountAndQueue(p.pktLen + HdrPad(p.hdrLen) + TXWI_SIZE, p.queue % 0x10);
  }

  lemma CountAndQueue(cnt: nat, queue: nat)
    requires cnt < 0x2_0000 && queue < 0x10
    ensures var w := cnt + queue * 0x800_0000; (w % 0x1_0000 == cnt <==> cnt <= 0xffff) && w / 0x800_0000 % 0x10 == queue
  {
  }

  /** Word 1 as a sum of its five variable fields. */
  lemma FiveFields(pid: u8, hdr: nat, pad: nat, noAck: nat, protect: nat)
    requires hdr < 0x20 && pad < 4 && noAck < 2 && protect < 2
    ensures var w := pid + hdr * 0x100 + 2 * 0x2000 + 0x8000 + pad * 0x1_0000 + noAck * 0x8_0000 + protect * 0x80_0000;
      && w % 0x100 == pid && w / 0x100 % 0x20 == hdr && w / 0x2000 % 4 == 2 && w / 0x8000 % 2 == 1
      && w / 0x1_0000 % 8 == pad && w / 0x8_0000 % 2 == noAck && w / 0x80_0000 % 2 == protect
  {
    var w := pid + hdr * 0x100 + 2 * 0x2000 + 0x8000 + pad * 0x1_0000 + noAck * 0x8_0000 + protect * 0x80_0000;
    assert w / 0x100 == hdr + 0xc0 + pad * 0x100 + noAck * 0x800 + protect * 0x8000;
    assert w / 0x2000 == 6 + pad * 8 + noAck * 0x40 + protect * 0x400;
    assert w / 0x8000 == 1 + pad * 2 + noAck * 0x10 + protect * 0x100;
    assert w / 0x1_0000 == pad + noAck * 8 + protect * 0x80;
    assert w / 0x8_0000 == noAck + protect * 0x10;
  }

  /** Station, header length, padding, acknowledgement policy and protection. */
  lemma Word1Fields(p: TxParams, w0: FourBytes, w2: FourBytes, w6: FourBytes)
    ensures var d := DescriptorOf(Layout(w0, ToLe32(Dw1(p)), w2, w6));
      && d.wcid == p.pid && d.hdrInfo == p.hdrLen / 2 % 0x20 && d.format == 2 && d.longForm == 1
      && d.pad == HdrPad(p.hdrLen) && d.noAck == p.noAck % 2 && d.protect == p.protectFrm % 2
  {
    StoredWord(ToLe32(Dw1(p)), Dw1(p));
    LayoutReadsBack(w0, ToLe32(Dw1(p)), w2, w6);
    FiveFields(p.pid, p.hdrLen / 2 % 0x20, HdrPad(p.hdrLen), p.noAck % 2, p.protectFrm % 2);
  }

  /** Frame type, subtype and the multicast mark. */
  lemma Word2Fields(p: TxParams, w0: FourBytes, w1: FourBytes, w6: FourBytes)
    ensures var d := DescriptorOf(Layout(w0, w1, ToLe32(Dw2(p)), w6));
      d.subType == p.subType % 0x10 && d.frmType == p.frmType % 4 && d.bm == p.isBm % 2
  {
    StoredWord(ToLe32(Dw2(p)), Dw2(p));
    LayoutReadsBack(w0, w1, ToLe32(Dw2(p)), w6);
    TypeFields(p.subType % 0x10, p.frmType % 4, p.isBm % 2);
  }

  lemma TypeFields(sub: nat, typ: nat, bm: nat)
    requires sub < 0x10 && typ < 4 && bm < 2
    ensures var w := sub + typ * 0x10 + bm * 0x400 + 0x2000_0000 + 0x8000_0000;
      w % 0x10 == sub && w / 0x10 % 4 == typ && w / 0x400 % 2 == bm
  {
    var w := sub + typ * 0x10 + bm * 0x400 + 0x2000_0000 + 0x8000_0000;
    assert w / 0x10 == typ + bm * 0x40 + 0xa00_0000;
    assert w / 0x400 == bm + 0x28_0000;
  }

  lemma ThreeFields(bw: nat, rate: nat, gi: nat)
    requires bw < 4 && rate < 0x1000 && gi < 2
    ensures var w := (4 + bw) * 0x100 + 0x800 + rate * 0x4_0000 + gi * 0x8000_0000;
      w / 0x100 % 4 == bw && w / 0x4_0000 % 0x1000 == rate && w / 0x8000_0000 % 2 == gi
  {
    var w := (4 + bw) * 0x100 + 0x800 + rate * 0x4_0000 + gi * 0x8000_0000;
    assert w / 0x100 == 4 + bw + 8 + rate * 0x400 + gi * 0x80_0000;
    assert w / 0x4_0000 == rate + gi * 0x2000;
  }

  /** Bandwidth, rate and guard interval. */
  lemma Word6Fields(p: TxParams, w0: FourBytes, w1: FourBytes, w2: FourBytes)
    requires RateInRange(p.rateMode, p.rateMcs)
    ensures var d := DescriptorOf(Layout(w0, w1, w2, ToLe32(Dw6(p))));
      d.bw == p.bw % 4 && d.rate == TxRate(p) && d.gi == if Gi(p) then 1 else 0
  {
    StoredWord(ToLe32(Dw6(p)), Dw6(p));
    LayoutReadsBack(w0, w1, w2, ToLe32(Dw6(p)));
    ThreeFields(p.bw % 4, TxRate(p), if Gi(p) then 1 else 0);
  }

  // ---- Values that the unit tests expect ----

  lemma RateValues()
    ensures TxRateToTmi(MODE_CCK, 0, 1, 1) == 0 && TxRateToTmi(MODE_CCK, 3, 1, 1) == 3 && TxRateToTmi(MODE_CCK, 0, 1, 0) == 5
    ensures TxRateToTmi(MODE_OFDM, 0, 1, 1) == 75 && TxRateToTmi(MODE_OFDM, 4, 1, 1) == 73
    ensures TxRateToTmi(MODE_HTMIX, 15, 2, 2) == 655
  {
  }

  lemma FourStored(a: u32, b: u32, c: u32, d: u32)
    ensures a == 189 ==> ToLe32(a) == [189, 0, 0, 0]
    ensures b == 0x82_cd01 ==> ToLe32(b) == [0x01, 0xcd, 0x82, 0]
    ensures c == 0xa000_0028 ==> ToLe32(c) == [0x28, 0, 0, 0xa0]
    ensures d == 0xc00 ==> ToLe32(d) == [0, 0x0c, 0, 0]
  {
  }

  /** A protected data frame of 155 bytes with a header of 26, to station 1. */
  lemma QosDataBytes(p: TxParams)
    requires p == TxParams(1, 0, 26, 2, 8, 0, 0, 0, 0, 1, 0, 155, 1)
    ensures TxdBytes(p)
         == [189, 0, 0, 0] + [0x01, 0xcd, 0x82, 0] + [0x28, 0, 0, 0xa0] + [0, 0x78, 0, 0] + [0, 0, 0, 0] + [0, 0x10, 0, 0]
            + [0, 0x0c, 0, 0] + [0, 0, 0, 0]
  {
    FourStored(Dw0(p), Dw1(p), Dw2(p), Dw6(p));
  }
}
