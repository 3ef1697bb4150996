/** `mt7603_download_firmware` (src/c/usb.c). Whether an access, a transfer or an allocation succeeds
    is decided by the device and the kernel; the driver only sees the error. */
module Firmware {
  import opened Machine
  import opened McuFrame
  import opened Rom
  import opened Delivery
  import opened CmdSeq

  const BYPASS: bv32 := 0x20
  const QID_MASK: bv32 := 0x0f
  const QID_USB: bv32 := 8
  const PSE_RESET: bv32 := 0x100
  const ROM_READY := 1
  const RAM_RUNNING := 2
  const POLL_MAX := 500

  /** The scheduler word that routes commands to the loader. */
  function Bypassed(v: bv32): bv32 {
    (((v & !BYPASS) | BYPASS) & !QID_MASK) | QID_USB
  }

  function Normal(v: bv32): bv32 {
    (v & !BYPASS) & !QID_MASK
  }

  function Pulsed(v: bv32): bv32 {
    Normal(v) | PSE_RESET
  }

  function Restored(v: bv32): bv32 {
    Pulsed(v) & !PSE_RESET
  }

  lemma BypassedWord(w: bv32)
    ensures Bypassed(w) == ((w & 0xffff_ffd0) | 0x28)
  {
  }

  lemma NormalWord(w: bv32)
    ensures Normal(Bypassed(w)) == (w & 0xffff_ffd0)
  {
  }

  lemma PulsedWord(w: bv32)
    ensures Pulsed(Bypassed(w)) == ((w & 0xffff_ffd0) | 0x100)
  {
  }

  lemma LastWord(w: bv32)
    ensures Restored(Bypassed(w)) == (w & 0xffff_fed0)
  {
  }

  /** Bypass, forced queue and reset bits end up clear, and all other bits are as before the
      download, no matter what they were. */
  lemma RestoredWord(before: bv32)
    ensures var v := Restored(Bypassed(before));
      && v & BYPASS == 0 && v & QID_MASK == 0 && v & PSE_RESET == 0
      && v & !(BYPASS | QID_MASK | PSE_RESET) == before & !(BYPASS | QID_MASK | PSE_RESET)
    ensures Bypassed(before) & BYPASS == BYPASS && Bypassed(before) & QID_MASK == QID_USB
  {
  }

  lemma ThreeMore(s: seq<bv32>, a: bv32, b: bv32, c: bv32)
    ensures s + [a] + [b] + [c] == s + [a, b, c]
  {
  }

  /** The scheduler register, and every word that was written to it. Accesses are numbered; which ones succeed, and which failing writes have
      an effect nonetheless, is fixed beforehand and unknown to the driver. */
  class Scheduler {
    const works: nat -> bool
    const lands: nat -> bool
    var calls: nat
    var word: bv32
    ghost var asked: seq<bv32>

    constructor (works: nat -> bool, lands: nat -> bool, word: bv32)
      ensures this.works == works && this.lands == lands && this.word == word && calls == 0 && asked == []
    {
      this.works, this.lands, this.word, calls, asked := works, lands, word, 0, [];
    }

    method Read() returns (ret: int, val: bv32)
      modifies this`calls
      ensures calls == old(calls) + 1 && ret <= 0 && (ret == 0 <==> works(old(calls)))
      ensures ret == 0 ==> val == word
    {
      ret, val := 0, word;
      if !works(calls) {
        ret := Errno();
        val := *;
      }
      calls := calls + 1;
    }

    /** What the register holds after write number `n`. */
    function Written(w: bv32, val: bv32, n: nat): bv32 {
      if works(n) || lands(n) then val else w
    }

    method Write(val: bv32) returns (ret: int)
      modifies this`calls, this`word, this`asked
      ensures asked == old(asked) + [val]
      ensures calls == old(calls) + 1 && ret <= 0 && (ret == 0 <==> works(old(calls)))
      ensures word == Written(old(word), val, old(calls))
    {
      ret := 0;
      if works(calls) || lands(calls) {
        word := val;
      }
      if !works(calls) {
        ret := Errno();
      }
      calls, asked := calls + 1, asked + [val];
    }

    /** After a restoration whose first access is number `n`: a reading and three writes, of which
        the failing ones are not noticed; nothing if the reading fails. */
    function AfterRestore(w: bv32, n: nat): bv32 {
      if !works(n) then w
      else Written(Written(Written(w, Normal(w), n + 1), Pulsed(w), n + 2), Restored(w), n + 3)
    }

    /** The words written by a restoration. */
    function Pulse(w: bv32, n: nat): seq<bv32> {
      if !works(n) then [] else [Normal(w), Pulsed(w), Restored(w)]
    }

    /** Back to normal mode, with a pulse of the reset bit. */
    method Restore()
      modifies this`calls, this`word, this`asked
      ensures asked == old(asked) + Pulse(old(word), old(calls))
      ensures calls == old(calls) + (if works(old(calls)) then 4 else 1)
      ensures word == AfterRestore(old(word), old(calls))
    {
      ghost var w, before := word, asked;
      var ret, val := Read();
      if ret == 0 {
        ret := Write(Normal(val));
        ret := Write(Pulsed(val));
        ret := Write(Restored(val));
        ThreeMore(before, Normal(w), Pulsed(w), Restored(w));
      }
    }

    /** After a download that got as far as this register, whose accesses start at number `n`: a
        reading, the write that enters bypass mode, a reading for the log, and the restoration. */
    function AfterDownload(w: bv32, n: nat): bv32 {
      if !works(n) then w
      else if !works(n + 1) then Written(w, Bypassed(w), n + 1)
      else AfterRestore(Bypassed(w), n + 3)
    }

    /** The words that a download writes. */
    function DownloadWrites(w: bv32, n: nat): seq<bv32> {
      if !works(n) then []
      else [Bypassed(w)] + if !works(n + 1) then [] else Pulse(Bypassed(w), n + 3)
    }

    /** Once bypass mode was entered and can be read, four words are written: one that sets bypass mode
        and queue 8, one that clears both, one that also sets the reset bit, and one that clears it. */
    lemma FourWrites(w: bv32, n: nat)
      requires works(n) && works(n + 1) && works(n + 3)
      ensures var a := DownloadWrites(w, n);
        && |a| == 4
        && a[0] == ((w & 0xffff_ffd0) | 0x28) && a[1] == (w & 0xffff_ffd0)
        && a[2] == ((w & 0xffff_ffd0) | 0x100) && a[3] == (w & 0xffff_fed0)
    {
      BypassedWord(w);
      NormalWord(w);
      PulsedWord(w);
      LastWord(w);
    }

    /** Once bypass mode was entered, a restoring reading that succeeds and a last write that takes
        effect are enough: bypass, forced queue and reset bits end up clear, and all other bits
        are as before the download. */
    lemma NormalAgain(w: bv32, n: nat)
      requires works(n) && works(n + 1) && works(n + 3) && (works(n + 6) || lands(n + 6))
      ensures var v := AfterDownload(w, n);
        && v & (BYPASS | QID_MASK | PSE_RESET) == 0
        && v & !(BYPASS | QID_MASK | PSE_RESET) == w & !(BYPASS | QID_MASK | PSE_RESET)
    {
      assert AfterDownload(w, n) == Restored(Bypassed(w));
      RestoredWord(w);
    }
  }

  /** The other registers: the DMA set-up, and the status register, whose word depends on what has
      become of the device and may change by itself besides. */
  class Cable {
    const works: nat -> bool
    const status: (nat, State) -> u32
    const pipe: Pipe
    var calls: nat

    constructor (works: nat -> bool, status: (nat, State) -> u32, pipe: Pipe)
      ensures this.works == works && this.status == status && this.pipe == pipe && calls == 0
    {
      this.works, this.status, this.pipe, calls := works, status, pipe, 0;
    }

    /** `mt7603_usb_enable_udma`. */
    method EnableUdma() returns (ret: int)
      modifies this`calls
      ensures calls == old(calls) + 1 && ret <= 0 && (ret == 0 <==> works(old(calls)))
    {
      ret := 0;
      if !works(calls) {
        ret := Errno();
      }
      calls := calls + 1;
    }

    method ReadStatus() returns (ret: int, val: u32)
      modifies this`calls
      ensures calls == old(calls) + 1 && ret <= 0 && (ret == 0 <==> works(old(calls)))
      ensures ret == 0 ==> val == status(old(calls), pipe.Device())
    {
      ret, val := 0, status(calls, pipe.Device());
      if !works(calls) {
        ret := Errno();
        val := *;
      }
      calls := calls + 1;
    }

    /** Access number `n`, to a device in the given state, shows the bit. */
    predicate Seen(n: nat, device: State, bit: nat)
      requires bit > 0
    {
      works(n) && status(n, device) / bit % 2 == 1
    }

    /** From reading number `from` on, the bit does not show for as long as one poll lasts. */
    ghost predicate Silent(from: nat, device: State, bit: nat)
      requires bit > 0
    {
      forall n :: from <= n < from + POLL_MAX ==> works(n) && status(n, device) / bit % 2 == 0
    }

    /** Some access since number `from` failed. */
    ghost predicate Failed(from: nat)
      reads this`calls
    {
      exists n :: from <= n < calls && !works(n)
    }

    /** A whole poll since number `from` saw nothing. */
    ghost predicate Unseen(from: nat, device: State, bit: nat)
      requires bit > 0
      reads this`calls
    {
      exists n :: from <= n && n + POLL_MAX <= calls && Silent(n, device, bit)
    }

    /** `mt7603_poll_top_misc2`: it stops at the first reading that shows the bit or fails, and after
        500 that do neither. */
    method Poll(bit: nat) returns (ret: int)
      requires bit > 0
      modifies this`calls
      ensures old(calls) < calls <= old(calls) + POLL_MAX
      ensures forall n :: old(calls) <= n < calls - 1 ==> works(n) && status(n, pipe.Device()) / bit % 2 == 0
      ensures ret == (if Seen(calls - 1, pipe.Device(), bit) then 0 else if !works(calls - 1) then EIO else ETIMEDOUT)
      ensures ret < 0 ==> Failed(old(calls)) || Unseen(old(calls), pipe.Device(), bit)
    {
      for i := 0 to POLL_MAX
        invariant calls == old(calls) + i
        invariant forall n :: old(calls) <= n < calls ==> works(n) && status(n, pipe.Device()) / bit % 2 == 0
      {
        var failed, val := ReadStatus();
        if failed != 0 {
          return EIO;
        }
        if val / bit % 2 == 1 {
          return 0;
        }
      }
      assert Silent(old(calls), pipe.Device(), bit);
      return ETIMEDOUT;
    }
  }

  /** What is due once the ROM is ready. */
  function Due(fw: seq<u8>, cmdSeq: u8): seq<seq<u8>> {
    var len := FwDlLen(fw);
    if len.None? then [] else Script(fw, len.value, NextCmdSeq(cmdSeq), NextCmdSeq(NextCmdSeq(cmdSeq)))
  }

  /** All that is due. A device whose firmware runs costs a sequence number, even when the restart
      does not reach it. */
  function Plan(fw: seq<u8>, running: bool, restarted: bool): seq<seq<u8>> {
    RestartPart(restarted) + Due(fw, if running then 1 else 0)
  }

  function RestartPart(restarted: bool): seq<seq<u8>> {
    if restarted then [Transfer(RestartFrame(1))] else []
  }

  /** An image that is as long as it says. */
  predicate Complete(fw: seq<u8>) {
    FwDlLen(fw).Some? && FwDlLen(fw).value <= |fw|
  }

  /** When everything that is due arrives, the device runs the image: all of what the image
      announces, and nothing else. */
  lemma PlanStartsImage(fw: seq<u8>, running: bool, restarted: bool)
    requires Complete(fw)
    ensures ReceiveAll(if restarted then Running else Ready, Plan(fw, running, restarted))
         == Started(LOAD_ADDRESS, fw[..FwDlLen(fw).value])
  {
    var seqNo: u8 := if running then 1 else 0;
    ScriptLoads(fw, FwDlLen(fw).value, NextCmdSeq(seqNo), NextCmdSeq(NextCmdSeq(seqNo)));
    if restarted {
      RestartWorks(1, Due(fw, seqNo));
    } else {
      assert [] + Due(fw, seqNo) == Due(fw, seqNo);
    }
  }

  /** A device that still runs firmware ends up running the image exactly when the restart reached
      it. */
  lemma RestartDecides(fw: seq<u8>, running: bool, restarted: bool)
    requires Complete(fw)
    ensures ReceiveAll(Running, Plan(fw, running, restarted)) == Started(LOAD_ADDRESS, fw[..FwDlLen(fw).value]) <==> restarted
  {
    if restarted {
      PlanStartsImage(fw, running, restarted);
    } else {
      var seqNo: u8 := if running then 1 else 0;
      var due := Due(fw, seqNo);
      assert [] + due == due;
      RestartNeeded(FwDlLen(fw).value, NextCmdSeq(seqNo));
      StaysConfused(due[1..]);
    }
  }

  /** The numbers of the commands: from 1 on, in order, with the restart in front if firmware was seen
      running. */
  lemma PlanNumbers(fw: seq<u8>, running: bool, restarted: bool)
    requires Complete(fw) && (restarted ==> running)
    ensures var n := FwDlLen(fw).value; var plan := Plan(fw, running, restarted);
      var at := if restarted then 1 else 0; var first: u8 := if running then 2 else 1;
      && (restarted ==> plan[0] == Transfer(RestartFrame(1)))
      && plan[at] == Transfer(AddrLenFrame(0x10_0000, n, first))
      && plan[|plan| - 1] == Transfer(StartFrame(1, 0x10_0000, first + 1))
      && plan[at + 1..|plan| - 1] == Scatters(fw[..n])
  {
    var n := FwDlLen(fw).value;
    var first: u8 := if running then 2 else 1;
    PlanParts(Transfer(RestartFrame(1)), restarted, Transfer(AddrLenFrame(0x10_0000, n, first)), Scatters(fw[..n]),
              Transfer(StartFrame(1, 0x10_0000, first + 1)));
  }

  lemma PlanParts(zeroth: seq<u8>, restarted: bool, first: seq<u8>, pieces: seq<seq<u8>>, last: seq<u8>)
    ensures var plan := (if restarted then [zeroth] else []) + ([first] + (pieces + [last]));
      var at := if restarted then 1 else 0;
      && (restarted ==> plan[0] == zeroth) && plan[at] == first && plan[|plan| - 1] == last
      && plan[at + 1..|plan| - 1] == pieces
  {
  }

  /** No transfer of a download exceeds the upload unit. */
  lemma PlanFits(fw: seq<u8>, running: bool, restarted: bool)
    ensures Fit(Plan(fw, running, restarted))
  {
    DueFits(fw, if running then 1 else 0);
    FitTogether(RestartPart(restarted), Due(fw, if running then 1 else 0));
  }

  lemma DueFits(fw: seq<u8>, cmdSeq: u8)
    ensures Fit(Due(fw, cmdSeq))
  {
    var len := FwDlLen(fw);
    if len.Some? {
      TransfersFit(Transfer(AddrLenFrame(LOAD_ADDRESS, len.value, NextCmdSeq(cmdSeq))), fw, len.value,
                   Transfer(StartFrame(OVERRIDE, LOAD_ADDRESS, NextCmdSeq(NextCmdSeq(cmdSeq)))));
    }
  }

  // ---- The download ----

  /** The restart command reaches the device: both answer buffers were set up, and the transfer
      arrived. The first of the calls has number `n`. */
  predicate RestartArrives(pipe: Pipe, n: nat) {
    pipe.works(n) && pipe.works(n + 1) && (pipe.works(n + 2) || pipe.lands(n + 2))
  }

  function RestartCalls(pipe: Pipe, n: nat): nat {
    if !pipe.works(n) then 1 else if !pipe.works(n + 1) then 2 else 3
  }

  /** `mt7603_restart_dl_rsp`, whose outcome is ignored. */
  method Restart(pipe: Pipe)
    modifies pipe`calls, pipe`sent
    ensures pipe.calls == old(pipe.calls) + RestartCalls(pipe, old(pipe.calls))
    ensures pipe.sent == old(pipe.sent) + RestartPart(RestartArrives(pipe, old(pipe.calls)))
  {
    var buf := new u8[UPLOAD_UNIT](_ => 0);
    var built := BuildRestart(1, buf);
    assert buf[..built.value] == RestartFrame(1);
    var ret := pipe.Try();
    if ret == 0 {
      ret := pipe.Try();
      if ret == 0 {
        ret := pipe.Send(buf[..built.value]);
      }
    }
  }

  /** All that is due, if the image tells how long it is. */
  method Deliver(pipe: Pipe, fw: seq<u8>, cmdSeq: u8) returns (ret: int)
    modifies pipe`calls, pipe`sent
    ensures old(pipe.calls) <= pipe.calls && ret <= 0 && (ret == 0 <==> Complete(fw) && !pipe.Trouble(old(pipe.calls)))
    ensures old(pipe.sent) <= pipe.sent <= old(pipe.sent) + Due(fw, cmdSeq)
    ensures ret == 0 ==> pipe.sent == old(pipe.sent) + Due(fw, cmdSeq)
  {
    var len := FwDlLen(fw);
    if len.None? {
      return EINVAL;
    }
    var cmd := new u8[UPLOAD_UNIT](_ => 0);
    ret := Transmit(pipe, fw, len.value, NextCmdSeq(cmdSeq), NextCmdSeq(NextCmdSeq(cmdSeq)), cmd);
  }

  /** The ROM was seen ready by some reading since number `from`. */
  ghost predicate ReadySince(cable: Cable, from: nat, device: State)
    reads cable
  {
    exists n :: from <= n < cable.calls && cable.Seen(n, device, ROM_READY)
  }

  /** Everything was sent and the last reading shows the firmware running. */
  ghost predicate Loaded(cable: Cable, fw: seq<u8>, goal: seq<seq<u8>>)
    reads cable, cable.pipe
  {
    Complete(fw) && cable.pipe.sent == goal && cable.calls > 0 && cable.Seen(cable.calls - 1, cable.pipe.Device(), RAM_RUNNING)
  }

  /** What may keep the image from running: the image, a command or allocation since number `p`, a
      reading since number `c`, a ROM that never shows that it is ready, or, although all was
      sent, firmware that never shows that it runs. */
  ghost predicate Prevented(cable: Cable, c: nat, p: nat, fw: seq<u8>, before: State, goal: seq<seq<u8>>)
    reads cable, cable.pipe
  {
    || !Complete(fw) || cable.pipe.Trouble(p) || cable.Failed(c) || cable.Unseen(c, before, ROM_READY)
    || (cable.pipe.sent == goal && cable.Unseen(c, cable.pipe.Device(), RAM_RUNNING))
  }

  /** From waiting for the ROM to waiting for the firmware. Nothing is sent before the ROM was
      ready, and whatever fails, what was sent is a beginning of what is due. */
  method Load(cable: Cable, fw: seq<u8>, cmdSeq: u8) returns (ret: int)
    modifies cable`calls, cable.pipe`calls, cable.pipe`sent
    ensures old(cable.calls) <= cable.calls && old(cable.pipe.calls) <= cable.pipe.calls && ret <= 0
    ensures old(cable.pipe.sent) <= cable.pipe.sent <= old(cable.pipe.sent) + Due(fw, cmdSeq)
    ensures cable.pipe.sent != old(cable.pipe.sent) ==> ReadySince(cable, old(cable.calls), old(cable.pipe.Device()))
    ensures ret == 0 ==> Loaded(cable, fw, old(cable.pipe.sent) + Due(fw, cmdSeq)) && !cable.pipe.Trouble(old(cable.pipe.calls))
    ensures ret < 0 ==> Prevented(cable, old(cable.calls), old(cable.pipe.calls), fw, old(cable.pipe.Device()),
                                  old(cable.pipe.sent) + Due(fw, cmdSeq))
  {
    ghost var before := cable.pipe.Device();
    ret := cable.Poll(ROM_READY);
    if ret < 0 {
      return;
    }
    ghost var seen := cable.calls - 1;
    ret := Deliver(cable.pipe, fw, cmdSeq);
    if ret < 0 {
      return;
    }
    ret := cable.Poll(RAM_RUNNING);
    assert cable.Seen(seen, before, ROM_READY);
  }

  /** The same, with the frame buffer that it needs. */
  method Guarded(cable: Cable, fw: seq<u8>, cmdSeq: u8) returns (ret: int)
    modifies cable`calls, cable.pipe`calls, cable.pipe`sent
    ensures ret <= 0
    ensures old(cable.pipe.sent) <= cable.pipe.sent <= old(cable.pipe.sent) + Due(fw, cmdSeq)
    ensures cable.pipe.sent != old(cable.pipe.sent) ==> ReadySince(cable, old(cable.calls), old(cable.pipe.Device()))
    ensures ret == 0 ==> Loaded(cable, fw, old(cable.pipe.sent) + Due(fw, cmdSeq)) && !cable.pipe.Trouble(old(cable.pipe.calls))
    ensures ret < 0 ==> Prevented(cable, old(cable.calls), old(cable.pipe.calls), fw, old(cable.pipe.Device()),
                                  old(cable.pipe.sent) + Due(fw, cmdSeq))
  {
    ret := cable.pipe.Try();
    if ret == 0 {
      ret := Load(cable, fw, cmdSeq);
    }
  }

  /** The part that runs in bypass mode, with every exit leading through the restoration. */
  method InBypass(sch: Scheduler, cable: Cable, fw: seq<u8>, cmdSeq: u8) returns (ret: int)
    modifies sch`calls, sch`word, sch`asked, cable`calls, cable.pipe`calls, cable.pipe`sent
    ensures ret <= 0
    ensures old(cable.pipe.sent) <= cable.pipe.sent <= old(cable.pipe.sent) + Due(fw, cmdSeq)
    ensures cable.pipe.sent != old(cable.pipe.sent) ==> ReadySince(cable, old(cable.calls), old(cable.pipe.Device()))
    ensures ret == 0 ==> Loaded(cable, fw, old(cable.pipe.sent) + Due(fw, cmdSeq)) && !cable.pipe.Trouble(old(cable.pipe.calls))
    ensures ret < 0 ==> Prevented(cable, old(cable.calls), old(cable.pipe.calls), fw, old(cable.pipe.Device()),
                                  old(cable.pipe.sent) + Due(fw, cmdSeq))
    ensures sch.word == sch.AfterRestore(old(sch.word), old(sch.calls))
    ensures sch.asked == old(sch.asked) + sch.Pulse(old(sch.word), old(sch.calls))
  {
    ret := Guarded(cable, fw, cmdSeq);
    sch.Restore();
  }

  method EnterBypass(sch: Scheduler) returns (ret: int)
    modifies sch`calls, sch`word, sch`asked
    ensures ret <= 0 && (ret == 0 <==> sch.works(old(sch.calls)) && sch.works(old(sch.calls) + 1))
    ensures ret == 0 ==> sch.calls == old(sch.calls) + 3 && sch.word == Bypassed(old(sch.word))
    ensures ret == 0 ==> sch.asked == old(sch.asked) + [Bypassed(old(sch.word))]
    ensures ret < 0 ==> sch.word == sch.AfterDownload(old(sch.word), old(sch.calls))
    ensures ret < 0 ==> sch.asked == old(sch.asked) + sch.DownloadWrites(old(sch.word), old(sch.calls))
  {
    var val;
    ret, val := sch.Read();
    if ret == 0 {
      ret := sch.Write(Bypassed(val));
      if ret == 0 {
        var ignored, readback := sch.Read();
      }
    }
  }

  /** Bypass mode can be entered, by accesses `n` and `n + 1`. */
  predicate Enters(sch: Scheduler, n: nat) {
    sch.works(n) && sch.works(n + 1)
  }

  /** Bypass mode, and everything in it. */
  method Rest(sch: Scheduler, cable: Cable, fw: seq<u8>, cmdSeq: u8) returns (ret: int)
    modifies sch`calls, sch`word, sch`asked, cable`calls, cable.pipe`calls, cable.pipe`sent
    ensures ret <= 0
    ensures old(cable.pipe.sent) <= cable.pipe.sent <= old(cable.pipe.sent) + Due(fw, cmdSeq)
    ensures cable.pipe.sent != old(cable.pipe.sent) ==> ReadySince(cable, old(cable.calls), old(cable.pipe.Device()))
    ensures ret == 0 ==> Enters(sch, old(sch.calls)) && Loaded(cable, fw, old(cable.pipe.sent) + Due(fw, cmdSeq))
    ensures ret < 0 ==> !Enters(sch, old(sch.calls))
                        || Prevented(cable, old(cable.calls), old(cable.pipe.calls), fw, old(cable.pipe.Device()),
                                     old(cable.pipe.sent) + Due(fw, cmdSeq))
    ensures sch.word == sch.AfterDownload(old(sch.word), old(sch.calls))
    ensures sch.asked == old(sch.asked) + sch.DownloadWrites(old(sch.word), old(sch.calls))
  {
    ret := EnterBypass(sch);
    if ret == 0 {
      ret := InBypass(sch, cable, fw, cmdSeq);
    }
  }

  lemma Joined(start: seq<seq<u8>>, restart: seq<seq<u8>>, due: seq<seq<u8>>, now: seq<seq<u8>>)
    requires start + restart <= now <= start + restart + due
    ensures start <= now <= start + (restart + due) && start + restart + due == start + (restart + due)
  {
  }

  /** The status reading before the download, which is access `n + 1`, shows running firmware. */
  predicate RunningSeen(cable: Cable, n: nat, device: State) {
    cable.works(n) && cable.works(n + 1) && cable.status(n + 1, device) / 2 % 2 == 1
  }

  /** Both accesses before bypass mode succeed. */
  predicate Reached(cable: Cable, n: nat) {
    cable.works(n) && cable.works(n + 1)
  }

  /** The steps before bypass mode: firmware that was seen running is asked to restart. */
  method Probe(cable: Cable) returns (ret: int, cmdSeq: u8)
    modifies cable`calls, cable.pipe`calls, cable.pipe`sent
    ensures ret <= 0 && (ret == 0 <==> Reached(cable, old(cable.calls)))
    ensures cmdSeq == (if RunningSeen(cable, old(cable.calls), old(cable.pipe.Device())) then 1 else 0)
    ensures cable.calls == old(cable.calls) + (if cable.works(old(cable.calls)) then 2 else 1)
    ensures cable.pipe.calls == old(cable.pipe.calls) + RestartsCost(cable, old(cable.calls), old(cable.pipe.Device()), old(cable.pipe.calls))
    ensures cable.pipe.sent == old(cable.pipe.sent) + RestartPart(Restarted(cable, old(cable.calls), old(cable.pipe.Device()), old(cable.pipe.calls)))
  {
    cmdSeq := 0;
    ret := cable.EnableUdma();
    if ret < 0 {
      return;
    }
    var status;
    ret, status := cable.ReadStatus();
    if ret == 0 && status / RAM_RUNNING % 2 == 1 {
      cmdSeq := NextCmdSeq(cmdSeq);
      Restart(cable.pipe);
    }
  }

  /** A restart is due and arrives. */
  predicate Restarted(cable: Cable, n: nat, device: State, p: nat) {
    RunningSeen(cable, n, device) && RestartArrives(cable.pipe, p)
  }

  function RestartsCost(cable: Cable, n: nat, device: State, p: nat): nat {
    if RunningSeen(cable, n, device) then RestartCalls(cable.pipe, p) else 0
  }

  // ---- Against a device that behaves ----

  /** The ROM shows in bit 0 that it is ready, at one of 500 readings. */
  ghost predicate ShowsReady(cable: Cable, from: nat) {
    exists m :: from <= m < from + 500 && cable.status(m, Ready) % 2 == 1
  }

  /** Firmware that was started shows in bit 1 that it runs, at one of 500 readings. */
  ghost predicate ShowsRunning(cable: Cable, from: nat, device: State) {
    exists m :: from <= m < from + 500 && cable.status(m, device) / 2 % 2 == 1
  }

  /** The device's side of the status register: bit 1 is set while firmware runs, and clear while the
      ROM waits; the ROM does not take longer than a poll to show that it is ready, nor firmware that
      was just started to show that it runs. */
  ghost predicate Prompt(cable: Cable) {
    && (forall n: nat :: cable.status(n, Running) / 2 % 2 == 1 && cable.status(n, Ready) / 2 % 2 == 0)
    && (forall n: nat :: ShowsReady(cable, n))
    && (forall n: nat, s: State :: s.Started? ==> ShowsRunning(cable, n, s))
  }

  /** Nothing fails. */
  ghost predicate AllWork(sch: Scheduler, cable: Cable) {
    (forall n :: sch.works(n)) && (forall n :: cable.works(n)) && (forall n :: cable.pipe.works(n))
  }

  lemma ReadyShows(cable: Cable, from: nat)
    requires Prompt(cable)
    ensures !cable.Unseen(from, Ready, ROM_READY)
  {
    forall n: nat ensures !cable.Silent(n, Ready, ROM_READY) {
      assert ShowsReady(cable, n);
      var m :| n <= m < n + 500 && cable.status(m, Ready) % 2 == 1;
      assert cable.status(m, Ready) / ROM_READY == cable.status(m, Ready);
    }
  }

  lemma StartedShows(cable: Cable, from: nat, s: State)
    requires Prompt(cable) && s.Started?
    ensures !cable.Unseen(from, s, RAM_RUNNING)
  {
    forall n: nat ensures !cable.Silent(n, s, RAM_RUNNING) {
      assert ShowsRunning(cable, n, s);
    }
  }

  /** What becomes of the device on the way. */
  lemma OnTheWay(s: State, fw: seq<u8>, restarted: bool)
    requires Complete(fw) && s == if restarted then Running else Ready
    ensures ReceiveAll(s, RestartPart(restarted)) == Ready
    ensures ReceiveAll(s, Plan(fw, restarted, restarted)) == Started(0x10_0000, fw[..FwDlLen(fw).value])
  {
    PlanStartsImage(fw, restarted, restarted);
    if restarted {
      RestartWorks(1, []);
      assert RestartPart(true) + [] == RestartPart(true);
    }
  }

  /** How a download went that found the device in state `s` and `start` sent, from access `c` and
      call `p` on. */
  ghost predicate Went(ret: int, sch: Scheduler, n: nat, cable: Cable, c: nat, p: nat, fw: seq<u8>, s: State, start: seq<seq<u8>>)
    reads cable, cable.pipe
  {
    var restarted := Restarted(cable, c, s, p);
    var part := RestartPart(restarted);
    var goal := start + Plan(fw, RunningSeen(cable, c, s), restarted);
    && start <= cable.pipe.sent <= goal
    && (cable.pipe.sent != start + part ==> ReadySince(cable, c + 2, ReceiveAll(s, part)))
    && (ret == 0 ==> Reached(cable, c) && Enters(sch, n) && Loaded(cable, fw, goal))
    && (ret < 0 ==> !Reached(cable, c) || !Enters(sch, n)
                    || Prevented(cable, c + 2, p + RestartsCost(cable, c, s, p), fw, ReceiveAll(s, part), goal))
  }

  lemma Arrives(ret: int, sch: Scheduler, n: nat, cable: Cable, c: nat, p: nat, fw: seq<u8>, s: State, start: seq<seq<u8>>)
    requires Went(ret, sch, n, cable, c, p, fw, s, start) && ret <= 0
    requires s == ReceiveAll(cable.pipe.initial, start) && (s.Running? || s.Ready?)
    requires AllWork(sch, cable) && Prompt(cable) && Complete(fw)
    ensures ret == 0 && cable.pipe.Device() == Started(0x10_0000, fw[..FwDlLen(fw).value])
  {
    var restarted := Restarted(cable, c, s, p);
    assert RunningSeen(cable, c, s) == restarted == s.Running?;
    OnTheWay(s, fw, restarted);
    ReceiveAllAppend(cable.pipe.initial, start, Plan(fw, restarted, restarted));
    ReadyShows(cable, c + 2);
    StartedShows(cable, c + 2, Started(0x10_0000, fw[..FwDlLen(fw).value]));
  }

  /** The download by itself. */
  method Attempt(sch: Scheduler, cable: Cable, fw: seq<u8>) returns (ret: int)
    modifies sch`calls, sch`word, sch`asked, cable`calls, cable.pipe`calls, cable.pipe`sent
    ensures ret <= 0
    ensures Went(ret, sch, old(sch.calls), cable, old(cable.calls), old(cable.pipe.calls), fw, old(cable.pipe.Device()), old(cable.pipe.sent))
    ensures sch.word == if Reached(cable, old(cable.calls)) then sch.AfterDownload(old(sch.word), old(sch.calls)) else old(sch.word)
    ensures sch.asked == old(sch.asked) + if Reached(cable, old(cable.calls)) then sch.DownloadWrites(old(sch.word), old(sch.calls)) else []
  {
    ghost var c, p, s, start := cable.calls, cable.pipe.calls, cable.pipe.Device(), cable.pipe.sent;
    var cmdSeq;
    ret, cmdSeq := Probe(cable);
    if ret == 0 {
      ghost var part := RestartPart(Restarted(cable, c, s, p));
      ReceiveAllAppend(cable.pipe.initial, start, part);
      ret := Rest(sch, cable, fw, cmdSeq);
      Joined(start, part, Due(fw, cmdSeq), cable.pipe.sent);
    }
  }

  /** `mt7603_download_firmware`. On every exit, what was sent is a beginning of the plan, nothing but
      a restart is sent before the ROM was seen ready, and the scheduler register holds what its
      own accesses make of it. Success means that everything was sent, that the image is complete
      and that the firmware was seen running; and nothing but an incomplete image, a failing call
      or a silent device prevents it.
      Against a device that behaves, when nothing fails and the image is complete, it succeeds, and
      the device runs the image. */
  method Download(sch: Scheduler, cable: Cable, fw: seq<u8>) returns (ret: int)
    modifies sch`calls, sch`word, sch`asked, cable`calls, cable.pipe`calls, cable.pipe`sent
    ensures ret <= 0
    ensures Went(ret, sch, old(sch.calls), cable, old(cable.calls), old(cable.pipe.calls), fw, old(cable.pipe.Device()), old(cable.pipe.sent))
    ensures old(cable.pipe.Device().Running? || cable.pipe.Device().Ready?) && AllWork(sch, cable) && Prompt(cable) && Complete(fw) ==>
              ret == 0 && cable.pipe.Device() == Started(0x10_0000, fw[..FwDlLen(fw).value])
    ensures sch.word == if Reached(cable, old(cable.calls)) then sch.AfterDownload(old(sch.word), old(sch.calls)) else old(sch.word)
    ensures sch.asked == old(sch.asked) + if Reached(cable, old(cable.calls)) then sch.DownloadWrites(old(sch.word), old(sch.calls)) else []
  {
    ghost var n, c, p, s, start := sch.calls, cable.calls, cable.pipe.calls, cable.pipe.Device(), cable.pipe.sent;
    ret := Attempt(sch, cable, fw);
    if (s.Running? || s.Ready?) && AllWork(sch, cable) && Prompt(cable) && Complete(fw) {
      Arrives(ret, sch, n, cable, c, p, fw, s, start);
    }
  }
}
