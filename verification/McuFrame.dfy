/** Command frames for the microcontroller: the framing of src/rust/src/mcu.rs and the four
    commands of a firmware download. */
module McuFrame {
  import opened Machine

  const SHORT_HEADER := 12
  const FULL_HEADER := 32
  const PKT_ID_CMD: u8 := 0xa0
  const EXT_CID: u8 := 0xed
  const CMD_QUERY: u8 := 0
  const CMD_SET: u8 := 1
  const CMD_NA: u8 := 3
  const UPLOAD_UNIT := 4096
  const MAX_CHUNK := 4064

  /** Header fields that the caller chooses. */
  datatype Command = Command(cid: u8, queue: u16, setQuery: u8, extCid: u8, seqNo: u8)

  /** Whether the firmware is asked to acknowledge. */
  predicate NeedsAck(c: Command, needRsp: bool) {
    c.cid == EXT_CID && (c.setQuery == CMD_SET || c.setQuery == CMD_QUERY) && needRsp && c.seqNo != 0
  }

  /** The twelve bytes common to both header sizes. The length is narrowed to sixteen bits. */
  function Header(c: Command, ack: bool, total: nat): (h: seq<u8>)
    ensures |h| == SHORT_HEADER
  {
    [total % 0x100, total / 0x100 % 0x100, c.queue % 0x100, c.queue / 0x100,
     c.cid, PKT_ID_CMD, c.setQuery, c.seqNo, 0, c.extCid, 0, if ack then 1 else 0]
  }

  function Frame(c: Command, needRsp: bool, hdrSize: nat, payload: seq<u8>): (f: seq<u8>)
    requires hdrSize >= SHORT_HEADER
    ensures |f| == hdrSize + |payload|
  {
    Header(c, NeedsAck(c, needRsp), hdrSize + |payload|) + Zeros(hdrSize - SHORT_HEADER) + payload
  }

  /** `build_fw_txd_frame`. */
  method BuildFwTxdFrame(c: Command, needRsp: bool, hdrSize: nat, payload: seq<u8>, out: array<u8>) returns (r: Result<nat>)
    requires hdrSize == SHORT_HEADER || hdrSize == FULL_HEADER
    modifies out
    ensures r == if out.Length < hdrSize + |payload| then Err(ENOSPC) else Ok(hdrSize + |payload|)
    ensures r.Ok? ==> out[..] == Frame(c, needRsp, hdrSize, payload) + old(out[hdrSize + |payload|..])
    ensures r.Err? ==> out[..] == old(out[..])
  {
    var total := hdrSize + |payload|;
    if out.Length < total {
      return Err(ENOSPC);
    }
    CopyBytes(out, SHORT_HEADER, Zeros(hdrSize - SHORT_HEADER));
    var head := Header(c, NeedsAck(c, needRsp), total);
    CopyBytes(out, 0, head);
    assert out[..hdrSize] == head + Zeros(hdrSize - SHORT_HEADER);
    CopyBytes(out, hdrSize, payload);
    return Ok(total);
  }

  // ---- Reading a frame back ----

  /** What the receiver of a frame makes of it. */
  datatype Received = Received(command: Command, ack: bool, reserved: seq<u8>, payload: seq<u8>)

  /** The receiver trusts the length field: what follows the announced length is padding. */
  function Parse(b: seq<u8>, hdrSize: nat): Option<Received>
    requires hdrSize >= SHORT_HEADER
  {
    if |b| < hdrSize || b[5] != PKT_ID_CMD then None
    else
      var len := Le16(b[0], b[1]);
      if len < hdrSize || len > |b| then None
      else Some(Received(Command(b[4], Le16(b[2], b[3]), b[6], b[9], b[7]), b[11] == 1, b[SHORT_HEADER..hdrSize], b[hdrSize..len]))
  }

  lemma LowHalf(n: nat)
    ensures Le16(n % 0x100, n / 0x100 % 0x100) == n % 0x1_0000
  {
  }

  lemma HeaderFields(c: Command, ack: bool, total: nat, rest: seq<u8>)
    ensures var b := Header(c, ack, total) + rest;
      && Le16(b[0], b[1]) == total % 0x1_0000 && b[11] == (if ack then 1 else 0)
      && Command(b[4], Le16(b[2], b[3]), b[6], b[9], b[7]) == c && b[5] == PKT_ID_CMD
  {
    LowHalf(total);
  }

  /** A header for `total` bytes, and at least that many. */
  lemma ParseParts(c: Command, ack: bool, hdrSize: nat, total: nat, rest: seq<u8>, len: nat)
    requires hdrSize >= SHORT_HEADER && total >= hdrSize && SHORT_HEADER + |rest| >= total && len == total % 0x1_0000 <= total
    ensures Parse(Header(c, ack, total) + rest, hdrSize)
         == if len < hdrSize then None
            else Some(Received(c, ack, rest[..hdrSize - SHORT_HEADER], rest[hdrSize - SHORT_HEADER..len - SHORT_HEADER]))
  {
    HeaderFields(c, ack, total, rest);
    var b := Header(c, ack, total) + rest;
    assert b[SHORT_HEADER..hdrSize] == rest[..hdrSize - SHORT_HEADER];
    if len >= hdrSize {
      assert b[hdrSize..len] == rest[hdrSize - SHORT_HEADER..len - SHORT_HEADER];
    }
  }

  /** Parsing undoes framing, whatever padding follows, exactly when the frame's length fits the
      length field. */
  lemma ParseInvertsFrame(c: Command, needRsp: bool, hdrSize: nat, payload: seq<u8>, padding: seq<u8>)
    requires hdrSize >= SHORT_HEADER
    ensures Parse(Frame(c, needRsp, hdrSize, payload) + padding, hdrSize)
            == Some(Received(c, NeedsAck(c, needRsp), Zeros(hdrSize - SHORT_HEADER), payload))
       <==> hdrSize + |payload| <= 0xffff
  {
    var total := hdrSize + |payload|;
    FitsLengthField(total);
    ParseFramed(c, NeedsAck(c, needRsp), hdrSize, payload, padding, total % 0x1_0000);
  }

  lemma FitsLengthField(n: nat)
    ensures n % 0x1_0000 <= n && (n % 0x1_0000 == n <==> n <= 0xffff)
  {
  }

  /** The same with the narrowed length by itself. */
  lemma ParseFramed(c: Command, ack: bool, hdrSize: nat, payload: seq<u8>, padding: seq<u8>, len: nat)
    requires hdrSize >= SHORT_HEADER && len == (hdrSize + |payload|) % 0x1_0000 <= hdrSize + |payload|
    ensures Parse(Header(c, ack, hdrSize + |payload|) + Zeros(hdrSize - SHORT_HEADER) + payload + padding, hdrSize)
            == Some(Received(c, ack, Zeros(hdrSize - SHORT_HEADER), payload))
       <==> len == hdrSize + |payload|
  {
    var total := hdrSize + |payload|;
    Reassembled(Header(c, ack, total), Zeros(hdrSize - SHORT_HEADER), payload, padding, len);
    ParseParts(c, ack, hdrSize, total, Zeros(hdrSize - SHORT_HEADER) + payload + padding, len);
  }

  /** Where the payload is, and what a length that is too small makes of it. */
  lemma Reassembled(head: seq<u8>, zeros: seq<u8>, payload: seq<u8>, padding: seq<u8>, len: nat)
    requires |head| == SHORT_HEADER && len <= SHORT_HEADER + |zeros| + |payload|
    ensures head + zeros + payload + padding == head + (zeros + payload + padding)
    ensures (zeros + payload + padding)[..|zeros|] == zeros
    ensures len >= SHORT_HEADER + |zeros| ==>
              ((zeros + payload + padding)[|zeros|..len - SHORT_HEADER] == payload <==> len == SHORT_HEADER + |zeros| + |payload|)
  {
    if len >= SHORT_HEADER + |zeros| {
      var n := len - SHORT_HEADER - |zeros|;
      assert (zeros + payload + padding)[|zeros|..len - SHORT_HEADER] == payload[..n];
    }
  }

  // ---- The commands of a download ----

  const LOAD_ADDRESS: u32 := 0x10_0000
  const NEED_RSP: u32 := 0x8000_0000
  const OVERRIDE: u32 := 1

  function AddrLenCommand(seqNo: u8): Command { Command(0x01, 0x8000, CMD_NA, 0, seqNo) }
  function StartCommand(seqNo: u8): Command { Command(0x02, 0x8000, CMD_NA, 0, seqNo) }
  function RestartCommand(seqNo: u8): Command { Command(0xef, 0x8000, CMD_NA, 0, seqNo) }
  function ScatterCommand(): Command { Command(0xee, 0xc000, CMD_NA, 0, 0) }

  function AddrLenFrame(address: u32, len: u32, seqNo: u8): (f: seq<u8>)
    ensures |f| == SHORT_HEADER + 12
  {
    Frame(AddrLenCommand(seqNo), true, SHORT_HEADER, ToLe32(address) + ToLe32(len) + ToLe32(NEED_RSP))
  }

  function StartFrame(override: u32, address: u32, seqNo: u8): (f: seq<u8>)
    ensures |f| == SHORT_HEADER + 8
  {
    Frame(StartCommand(seqNo), true, SHORT_HEADER, ToLe32(override) + ToLe32(address))
  }

  function RestartFrame(seqNo: u8): (f: seq<u8>)
    ensures |f| == SHORT_HEADER
  {
    Frame(RestartCommand(seqNo), true, SHORT_HEADER, [])
  }

  function ScatterFrame(chunk: seq<u8>): (f: seq<u8>)
    ensures |f| == SHORT_HEADER + |chunk|
  {
    Frame(ScatterCommand(), false, SHORT_HEADER, chunk)
  }

  method BuildAddrLen(address: u32, len: u32, seqNo: u8, out: array<u8>) returns (r: Result<nat>)
    modifies out
    ensures r == if out.Length < SHORT_HEADER + 12 then Err(ENOSPC) else Ok(SHORT_HEADER + 12)
    ensures r.Ok? ==> out[..] == AddrLenFrame(address, len, seqNo) + old(out[SHORT_HEADER + 12..])
    ensures r.Err? ==> out[..] == old(out[..])
  {
    r := BuildFwTxdFrame(AddrLenCommand(seqNo), true, SHORT_HEADER, ToLe32(address) + ToLe32(len) + ToLe32(NEED_RSP), out);
  }

  method BuildStart(override: u32, address: u32, seqNo: u8, out: array<u8>) returns (r: Result<nat>)
    modifies out
    ensures r == if out.Length < SHORT_HEADER + 8 then Err(ENOSPC) else Ok(SHORT_HEADER + 8)
    ensures r.Ok? ==> out[..] == StartFrame(override, address, seqNo) + old(out[SHORT_HEADER + 8..])
    ensures r.Err? ==> out[..] == old(out[..])
  {
    r := BuildFwTxdFrame(StartCommand(seqNo), true, SHORT_HEADER, ToLe32(override) + ToLe32(address), out);
  }

  method BuildRestart(seqNo: u8, out: array<u8>) returns (r: Result<nat>)
    modifies out
    ensures r == if out.Length < SHORT_HEADER then Err(ENOSPC) else Ok(SHORT_HEADER)
    ensures r.Ok? ==> out[..] == RestartFrame(seqNo) + old(out[SHORT_HEADER..])
    ensures r.Err? ==> out[..] == old(out[..])
  {
    r := BuildFwTxdFrame(RestartCommand(seqNo), true, SHORT_HEADER, [], out);
  }

  /** `build_fw_scatter_frame`. */
  method BuildScatter(chunk: seq<u8>, out: array<u8>) returns (r: Result<nat>)
    modifies out
    ensures r == if |chunk| > MAX_CHUNK then Err(EINVAL)
                 else if out.Length < SHORT_HEADER + |chunk| then Err(ENOSPC) else Ok(SHORT_HEADER + |chunk|)
    ensures r.Ok? ==> out[..] == ScatterFrame(chunk) + old(out[SHORT_HEADER + |chunk|..])
    ensures r.Err? ==> out[..] == old(out[..])
  {
    if |chunk| > MAX_CHUNK {
      return Err(EINVAL);
    }
    r := BuildFwTxdFrame(ScatterCommand(), false, SHORT_HEADER, chunk, out);
  }

  // ---- The same on the wire ----

  /** Only numbered extended commands that set or query something, and wait, ask for an answer. */
  lemma AckByte(c: Command, needRsp: bool, hdrSize: nat, payload: seq<u8>)
    requires hdrSize >= 12
    ensures Frame(c, needRsp, hdrSize, payload)[11] == if c.cid == 0xed && c.setQuery <= 1 && needRsp && c.seqNo != 0 then 1 else 0
  {
  }

  lemma AnnouncementBytes(len: u32, seqNo: u8)
    ensures AddrLenFrame(0x10_0000, len, seqNo)
         == [24, 0, 0, 0x80, 1, 0xa0, 3, seqNo, 0, 0, 0, 0] + [0, 0, 0x10, 0] + ToLe32(len) + [0, 0, 0, 0x80]
  {
    assert ToLe32(0x10_0000) == [0, 0, 0x10, 0] && ToLe32(0x8000_0000) == [0, 0, 0, 0x80];
  }

  lemma StartBytes(seqNo: u8)
    ensures StartFrame(1, 0x10_0000, seqNo) == [20, 0, 0, 0x80, 2, 0xa0, 3, seqNo, 0, 0, 0, 0, 1, 0, 0, 0, 0, 0, 0x10, 0]
  {
    assert ToLe32(0x10_0000) == [0, 0, 0x10, 0] && ToLe32(1) == [1, 0, 0, 0];
  }

  lemma RestartBytes(seqNo: u8)
    ensures RestartFrame(seqNo) == [12, 0, 0, 0x80, 0xef, 0xa0, 3, seqNo, 0, 0, 0, 0]
  {
    assert Frame(RestartCommand(seqNo), true, SHORT_HEADER, []) == Header(RestartCommand(seqNo), false, SHORT_HEADER);
  }

  /** Pieces of an image use the other queue, and have no number. */
  lemma ScatterBytes(chunk: seq<u8>)
    requires |chunk| <= 4064
    ensures var n := 12 + |chunk|;
      ScatterFrame(chunk) == [n % 0x100, n / 0x100, 0, 0xc0, 0xee, 0xa0, 3, 0, 0, 0, 0, 0] + chunk
  {
    assert Zeros(0) == [];
  }

  /** `fw_dl_len`: the last word of the image, and four checksum bytes more. The addition wraps. */
  function FwDlLen(fw: seq<u8>): Option<u32> {
    if |fw| < 4 then None else Some((Le32(fw[|fw| - 4..]) + 4) % 0x1_0000_0000)
  }

  /** The length announced by the image itself is downloaded unless it is within four of the
      largest word, in which case at most three bytes are. */
  lemma DlLenWraps(fw: seq<u8>)
    requires |fw| >= 4
    ensures var tail := Le32(fw[|fw| - 4..]); var n := FwDlLen(fw).value;
      && (n == tail + 4 <==> tail < 0xffff_fffc) && (n <= 3 <==> tail >= 0xffff_fffc)
  {
    SumWraps(Le32(fw[|fw| - 4..]));
  }

  lemma SumWraps(tail: u32)
    ensures (tail + 4) % 0x1_0000_0000 == if tail < 0xffff_fffc then tail + 4 else tail + 4 - 0x1_0000_0000
  {
  }
}
