/** What a firmware download sends (src/c/usb.c, src/rust/src/mcu.rs), and the boot ROM at the other
    end of the cable. */
module Rom {
  import opened Machine
  import opened McuFrame

  /** A frame on the wire, with four bytes of padding. */
  function Transfer(frame: seq<u8>): (t: seq<u8>)
    ensures |t| == |frame| + 4
  {
    frame + Zeros(4)
  }

  // ---- The script ----

  /** The image cut into pieces as large as possible. */
  function Chunks(d: seq<u8>): (c: seq<seq<u8>>)
    decreases |d|
  {
    if d == [] then [] else if |d| <= MAX_CHUNK then [d] else [d[..MAX_CHUNK]] + Chunks(d[MAX_CHUNK..])
  }

  function Scatters(d: seq<u8>): (t: seq<seq<u8>>)
    decreases |d|
  {
    if d == [] then []
    else if |d| <= MAX_CHUNK then [Transfer(ScatterFrame(d))]
    else [Transfer(ScatterFrame(d[..MAX_CHUNK]))] + Scatters(d[MAX_CHUNK..])
  }

  /** The announcement, the image and the order to start it. An image shorter than it claims is
      announced, and then nothing more is sent. */
  function Around(first: seq<u8>, fw: seq<u8>, len: nat, last: seq<u8>): seq<seq<u8>> {
    [first] + (if len <= |fw| then Scatters(fw[..len]) + [last] else [])
  }

  /** Everything after an optional restart. */
  function Script(fw: seq<u8>, len: u32, addrSeq: u8, startSeq: u8): seq<seq<u8>> {
    Around(Transfer(AddrLenFrame(LOAD_ADDRESS, len, addrSeq)), fw, len, Transfer(StartFrame(OVERRIDE, LOAD_ADDRESS, startSeq)))
  }

  // ---- The boot ROM ----

  /** `Running` is firmware in memory, `Ready` the ROM waiting for an image. */
  datatype State = Running | Ready | Loading(address: u32, expected: u32, image: seq<u8>)
                 | Started(entry: u32, code: seq<u8>) | Confused

  function Receive(s: State, transfer: seq<u8>): State {
    var p := Parse(transfer, SHORT_HEADER);
    if p.None? then Confused else Obey(s, p.value.command.cid, p.value.payload)
  }

  function Obey(s: State, cid: u8, payload: seq<u8>): State {
    if cid == 0xef && (s.Running? || s.Ready?) then Ready
    else if cid == 0x01 && s.Ready? && |payload| == 12 then Loading(Le32(payload[..4]), Le32(payload[4..8]), [])
    else if cid == 0xee && s.Loading? && payload != [] && |s.image| + |payload| <= s.expected then
      s.(image := s.image + payload)
    else if cid == 0x02 && s.Loading? && |payload| == 8 && |s.image| == s.expected && Le32(payload[4..]) == s.address then
      Started(s.address, s.image)
    else Confused
  }

  function ReceiveAll(s: State, transfers: seq<seq<u8>>): State
    decreases |transfers|
  {
    if transfers == [] then s else ReceiveAll(Receive(s, transfers[0]), transfers[1..])
  }

  lemma {:induction false} ReceiveAllAppend(s: State, a: seq<seq<u8>>, b: seq<seq<u8>>)
    ensures ReceiveAll(s, a + b) == ReceiveAll(ReceiveAll(s, a), b)
    decreases |a|
  {
    if a == [] {
      assert a + b == b;
    } else {
      assert (a + b)[1..] == a[1..] + b;
      ReceiveAllAppend(Receive(s, a[0]), a[1..], b);
    }
  }

  lemma Received(s: State, c: Command, needRsp: bool, payload: seq<u8>)
    requires SHORT_HEADER + |payload| <= 0xffff
    ensures Receive(s, Transfer(Frame(c, needRsp, SHORT_HEADER, payload))) == Obey(s, c.cid, payload)
  {
    ParseInvertsFrame(c, needRsp, SHORT_HEADER, payload, Zeros(4));
  }

  lemma ScatterLoads(s: State, piece: seq<u8>)
    requires s.Loading? && 0 < |piece| <= MAX_CHUNK && |s.image| + |piece| <= s.expected
    ensures Receive(s, Transfer(ScatterFrame(piece))) == s.(image := s.image + piece)
  {
    Received(s, ScatterCommand(), false, piece);
  }

  /** The scatter frames deliver the image, on top of what is already there. */
  lemma {:induction false} ScattersLoad(s: State, d: seq<u8>)
    requires s.Loading? && |s.image| + |d| <= s.expected
    ensures ReceiveAll(s, Scatters(d)) == s.(image := s.image + d)
    decreases |d|
  {
    if d == [] {
      assert s.image + d == s.image;
    } else if |d| <= MAX_CHUNK {
      ScatterLoads(s, d);
      OneTransfer(s, Scatters(d)[0]);
    } else {
      var head, tail := d[..MAX_CHUNK], d[MAX_CHUNK..];
      ScatterLoads(s, head);
      ScattersLoad(s.(image := s.image + head), tail);
      FirstTransfer(s, Transfer(ScatterFrame(head)), Scatters(tail));
      assert s.image + head + tail == s.image + d;
    }
  }

  lemma OneTransfer(s: State, t: seq<u8>)
    ensures ReceiveAll(s, [t]) == Receive(s, t)
  {
  }

  lemma FirstTransfer(s: State, t: seq<u8>, rest: seq<seq<u8>>)
    ensures ReceiveAll(s, [t] + rest) == ReceiveAll(Receive(s, t), rest)
  {
    assert ([t] + rest)[1..] == rest;
  }

  lemma StartObeyed(s: State, override: FourBytes, entry: FourBytes)
    requires s.Loading? && |s.image| == s.expected && Le32(entry) == s.address
    ensures Obey(s, 0x02, override + entry) == Started(s.address, s.image)
  {
    assert (override + entry)[4..] == entry;
  }

  lemma StartStarts(image: seq<u8>, startSeq: u8)
    requires |image| < 0x1_0000_0000
    ensures Receive(Loading(LOAD_ADDRESS, |image|, image), Transfer(StartFrame(OVERRIDE, LOAD_ADDRESS, startSeq)))
         == Started(LOAD_ADDRESS, image)
  {
    var s := Loading(LOAD_ADDRESS, |image|, image);
    Le32OfBytes(LOAD_ADDRESS);
    StartObeyed(s, ToLe32(OVERRIDE), ToLe32(LOAD_ADDRESS));
    Received(s, StartCommand(startSeq), true, ToLe32(OVERRIDE) + ToLe32(LOAD_ADDRESS));
  }

  lemma AnnouncementObeyed(address: FourBytes, len: FourBytes, mode: FourBytes)
    ensures Obey(Ready, 0x01, address + len + mode) == Loading(Le32(address), Le32(len), [])
  {
    var payload := address + len + mode;
    assert payload[..4] == address && payload[4..8] == len;
  }

  lemma AnnouncementLoads(len: u32, addrSeq: u8)
    ensures Receive(Ready, Transfer(AddrLenFrame(LOAD_ADDRESS, len, addrSeq))) == Loading(LOAD_ADDRESS, len, [])
  {
    Le32OfBytes(LOAD_ADDRESS);
    Le32OfBytes(len);
    AnnouncementObeyed(ToLe32(LOAD_ADDRESS), ToLe32(len), ToLe32(NEED_RSP));
    Received(Ready, AddrLenCommand(addrSeq), true, ToLe32(LOAD_ADDRESS) + ToLe32(len) + ToLe32(NEED_RSP));
  }

  lemma AroundLoads(first: seq<u8>, fw: seq<u8>, len: u32, last: seq<u8>)
    requires Receive(Ready, first) == Loading(LOAD_ADDRESS, len, [])
    requires len <= |fw| ==> Receive(Loading(LOAD_ADDRESS, len, fw[..len]), last) == Started(LOAD_ADDRESS, fw[..len])
    ensures ReceiveAll(Ready, Around(first, fw, len, last))
         == if len <= |fw| then Started(LOAD_ADDRESS, fw[..len]) else Loading(LOAD_ADDRESS, len, [])
  {
    var s := Loading(LOAD_ADDRESS, len, []);
    if len <= |fw| {
      var image := fw[..len];
      FirstTransfer(Ready, first, Scatters(image) + [last]);
      ReceiveAllAppend(s, Scatters(image), [last]);
      ScattersLoad(s, image);
      assert [] + image == image;
      OneTransfer(s.(image := image), last);
    } else {
      assert [first] + [] == [first];
      OneTransfer(Ready, first);
    }
  }

  /** The ROM ends up running exactly the announced part of the image if that much exists, and
      otherwise waits for it. */
  lemma ScriptLoads(fw: seq<u8>, len: u32, addrSeq: u8, startSeq: u8)
    ensures ReceiveAll(Ready, Script(fw, len, addrSeq, startSeq))
         == if len <= |fw| then Started(LOAD_ADDRESS, fw[..len]) else Loading(LOAD_ADDRESS, len, [])
  {
    assert len <= |fw| ==> Receive(Loading(LOAD_ADDRESS, len, fw[..len]), Transfer(StartFrame(OVERRIDE, LOAD_ADDRESS, startSeq)))
                           == Started(LOAD_ADDRESS, fw[..len]) by {
      if len <= |fw| {
        StartStarts(fw[..len], startSeq);
      }
    }
    assert Receive(Ready, Transfer(AddrLenFrame(LOAD_ADDRESS, len, addrSeq))) == Loading(LOAD_ADDRESS, len, []) by {
      AnnouncementLoads(len, addrSeq);
    }
    AroundLoads(Transfer(AddrLenFrame(LOAD_ADDRESS, len, addrSeq)), fw, len,
                Transfer(StartFrame(OVERRIDE, LOAD_ADDRESS, startSeq)));
  }

  /** A restart brings running firmware back to the ROM. */
  lemma RestartWorks(restartSeq: u8, script: seq<seq<u8>>)
    ensures ReceiveAll(Running, [Transfer(RestartFrame(restartSeq))] + script) == ReceiveAll(Ready, script)
  {
    Received(Running, RestartCommand(restartSeq), true, []);
    FirstTransfer(Running, Transfer(RestartFrame(restartSeq)), script);
  }

  /** Without a restart, running firmware takes no announcement. */
  lemma RestartNeeded(len: u32, addrSeq: u8)
    ensures Receive(Running, Transfer(AddrLenFrame(LOAD_ADDRESS, len, addrSeq))) == Confused
  {
    Received(Running, AddrLenCommand(addrSeq), true, ToLe32(LOAD_ADDRESS) + ToLe32(len) + ToLe32(NEED_RSP));
  }

  lemma {:induction false} StaysConfused(transfers: seq<seq<u8>>)
    ensures ReceiveAll(Confused, transfers) == Confused
    decreases |transfers|
  {
    if transfers != [] {
      StaysConfused(transfers[1..]);
    }
  }

  // ---- Sizes ----

  function Flat(c: seq<seq<u8>>): seq<u8> {
    if c == [] then [] else c[0] + Flat(c[1..])
  }

  /** The pieces make up the image; there are as few as possible, and none is empty or too long. */
  lemma {:induction false} ChunksCover(d: seq<u8>)
    ensures Flat(Chunks(d)) == d
    ensures |Chunks(d)| == (|d| + MAX_CHUNK - 1) / MAX_CHUNK
    ensures forall i :: 0 <= i < |Chunks(d)| ==> 1 <= |Chunks(d)[i]| <= MAX_CHUNK
    decreases |d|
  {
    if |d| > MAX_CHUNK {
      ChunksCover(d[MAX_CHUNK..]);
      assert Chunks(d)[1..] == Chunks(d[MAX_CHUNK..]);
      assert d == d[..MAX_CHUNK] + d[MAX_CHUNK..];
      assert (|d| - MAX_CHUNK + MAX_CHUNK - 1) / MAX_CHUNK + 1 == (|d| + MAX_CHUNK - 1) / MAX_CHUNK;
    } else if d != [] {
      assert Flat([d]) == d + Flat([]) == d;
    }
  }

  /** Each piece is sent in one frame, and every transfer fits the upload unit. */
  lemma {:induction false} ScattersCarryChunks(d: seq<u8>)
    ensures |Scatters(d)| == |Chunks(d)|
    ensures forall i :: 0 <= i < |Chunks(d)| ==>
              Scatters(d)[i] == Transfer(ScatterFrame(Chunks(d)[i])) && |Scatters(d)[i]| <= UPLOAD_UNIT
    decreases |d|
  {
    if |d| > MAX_CHUNK {
      ScattersCarryChunks(d[MAX_CHUNK..]);
    }
  }

  predicate Fit(ts: seq<seq<u8>>) {
    forall i :: 0 <= i < |ts| ==> |ts[i]| <= UPLOAD_UNIT
  }

  /** An announcement has 28 bytes on the wire and a start order 24. */
  lemma TransfersFit(first: seq<u8>, fw: seq<u8>, len: nat, last: seq<u8>)
    requires |first| == 28 && |last| == 24
    ensures Fit(Around(first, fw, len, last))
  {
    if len <= |fw| {
      ScattersCarryChunks(fw[..len]);
    }
  }

  lemma FitTogether(a: seq<seq<u8>>, b: seq<seq<u8>>)
    requires Fit(a) && Fit(b)
    ensures Fit(a + b)
  {
  }
}
