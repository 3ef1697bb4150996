/** The transfers of a firmware download (src/c/usb.c). Which of them succeed is decided by the device
    and the kernel; the driver only sees the error. */
module Delivery {
  import opened Machine
  import opened McuFrame
  import opened Rom

  /** A negative result for a failing call. */
  method Errno() returns (ret: int)
    ensures ret < 0
  {
    ret := *;
    if ret >= 0 {
      ret := EIO;
    }
  }

  /** The command endpoint, with the transfers that reached the device, which was in some state
      before. Calls are numbered; which
      ones succeed, and which failing transfers reach the device nonetheless, is fixed beforehand
      and unknown to the driver. */
  class Pipe {
    const works: nat -> bool
    const lands: nat -> bool
    const initial: State
    var calls: nat
    var sent: seq<seq<u8>>

    constructor (works: nat -> bool, lands: nat -> bool, initial: State)
      ensures this.works == works && this.lands == lands && this.initial == initial && calls == 0 && sent == []
    {
      this.works, this.lands, this.initial, calls, sent := works, lands, initial, 0, [];
    }

    /** What has become of the device by what reached it. */
    function Device(): State
      reads this`sent
    {
      ReceiveAll(initial, sent)
    }

    /** Some call since number `from` failed. */
    ghost predicate Trouble(from: nat)
      reads this`calls
    {
      exists n :: from <= n < calls && !works(n)
    }

    /** A call that only prepares something. */
    method Try() returns (ret: int)
      modifies this`calls
      ensures calls == old(calls) + 1 && ret <= 0 && (ret == 0 <==> works(old(calls)))
    {
      ret := 0;
      if !works(calls) {
        ret := Errno();
      }
      calls := calls + 1;
    }

    /** `mt7603_usb_send_cmd`. */
    method Send(frame: seq<u8>) returns (ret: int)
      modifies this`calls, this`sent
      ensures calls == old(calls) + 1 && ret <= 0 && (ret == 0 <==> works(old(calls)))
      ensures sent == if works(old(calls)) || lands(old(calls)) then old(sent) + [Transfer(frame)] else old(sent)
    {
      if works(calls) || lands(calls) {
        sent := sent + [Transfer(frame)];
      }
      ret := Try();
    }

    /** A command that waits for an answer: the answer's buffer may be missing. */
    method Command(frame: seq<u8>) returns (ret: int)
      modifies this`calls, this`sent
      ensures old(calls) < calls && ret <= 0 && (ret == 0 <==> !Trouble(old(calls)))
      ensures ret == 0 ==> sent == old(sent) + [Transfer(frame)]
      ensures sent == old(sent) || sent == old(sent) + [Transfer(frame)]
    {
      ret := Try();
      if ret == 0 {
        ret := Send(frame);
      }
    }
  }

  /** The length of the next piece. */
  function PieceLen(left: nat): nat {
    if left > MAX_CHUNK then MAX_CHUNK else left
  }

  lemma ScatterStep(fw: seq<u8>, offset: nat, len: nat)
    requires offset < len <= |fw|
    ensures var next := offset + PieceLen(len - offset);
      Scatters(fw[offset..len]) == [Transfer(ScatterFrame(fw[offset..next]))] + Scatters(fw[next..len])
  {
    var d, n := fw[offset..len], PieceLen(len - offset);
    assert d[..n] == fw[offset..offset + n] && d[n..] == fw[offset + n..len];
    if |d| <= MAX_CHUNK {
      assert d[..n] == d && Scatters(d[n..]) == [];
    }
  }

  /** One piece, in the shared frame buffer. */
  method SendPiece(pipe: Pipe, piece: seq<u8>, cmd: array<u8>) returns (ret: int)
    requires |piece| <= MAX_CHUNK && cmd.Length == UPLOAD_UNIT
    modifies pipe`calls, pipe`sent, cmd
    ensures pipe.calls == old(pipe.calls) + 1 && ret <= 0 && (ret == 0 <==> pipe.works(old(pipe.calls)))
    ensures ret == 0 ==> pipe.sent == old(pipe.sent) + [Transfer(ScatterFrame(piece))]
    ensures pipe.sent == old(pipe.sent) || pipe.sent == old(pipe.sent) + [Transfer(ScatterFrame(piece))]
  {
    var built := BuildScatter(piece, cmd);
    ret := pipe.Send(cmd[..built.value]);
  }

  lemma OneMore(done: seq<seq<u8>>, t: seq<u8>, rest: seq<seq<u8>>)
    ensures done + [t] + rest == done + ([t] + rest)
    ensures done <= done + ([t] + rest) && done + [t] <= done + ([t] + rest)
  {
  }

  /** `done` is what the upload of `goal` has sent when the bytes `left` remain. */
  ghost predicate Underway(done: seq<seq<u8>>, left: seq<u8>, goal: seq<seq<u8>>) {
    done + Scatters(left) == goal
  }

  /** Sent so far is `done`, on top of what was sent at the start. */
  ghost predicate SentSince(pipe: Pipe, start: seq<seq<u8>>, done: seq<seq<u8>>)
    reads pipe`sent
  {
    pipe.sent == start + done
  }

  lemma NothingLeft(done: seq<seq<u8>>, goal: seq<seq<u8>>)
    requires Underway(done, [], goal)
    ensures done == goal
  {
  }

  /** One round of the scatter loop, which sends the piece at `offset`, or nothing. */
  method NextPiece(pipe: Pipe, fw: seq<u8>, offset: nat, len: nat, cmd: array<u8>,
                   ghost start: seq<seq<u8>>, ghost done: seq<seq<u8>>, ghost goal: seq<seq<u8>>)
    returns (ret: int, n: nat, ghost more: seq<seq<u8>>)
    requires offset < len <= |fw| && cmd.Length == UPLOAD_UNIT
    requires SentSince(pipe, start, done) && Underway(done, fw[offset..len], goal)
    modifies pipe`calls, pipe`sent, cmd
    ensures pipe.calls == old(pipe.calls) + 1 && ret <= 0 && (ret == 0 <==> pipe.works(old(pipe.calls)))
    ensures 0 < n <= len - offset
    ensures SentSince(pipe, start, more) && more <= goal
    ensures ret == 0 ==> Underway(more, fw[offset + n..len], goal)
  {
    n := if len - offset > MAX_CHUNK then MAX_CHUNK else len - offset;
    ScatterStep(fw, offset, len);
    ghost var t := Transfer(ScatterFrame(fw[offset..offset + n]));
    OneMore(done, t, Scatters(fw[offset + n..len]));
    ret := SendPiece(pipe, fw[offset..offset + n], cmd);
    more := if SentSince(pipe, start, done) then done else done + [t];
  }

  /** The scatter loop. Whatever fails, what was sent is a beginning of the upload. */
  method Scatter(pipe: Pipe, fw: seq<u8>, len: nat, cmd: array<u8>) returns (ret: int)
    requires len <= |fw| && cmd.Length == UPLOAD_UNIT
    modifies pipe`calls, pipe`sent, cmd
    ensures old(pipe.calls) <= pipe.calls && ret <= 0 && (ret == 0 <==> !pipe.Trouble(old(pipe.calls)))
    ensures old(pipe.sent) <= pipe.sent <= old(pipe.sent) + Scatters(fw[..len])
    ensures ret == 0 ==> pipe.sent == old(pipe.sent) + Scatters(fw[..len])
  {
    var offset := 0;
    ghost var start, goal, done: seq<seq<u8>> := pipe.sent, Scatters(fw[..len]), [];
    while offset < len
      invariant offset <= len
      invariant old(pipe.calls) <= pipe.calls && !pipe.Trouble(old(pipe.calls))
      invariant SentSince(pipe, start, done) && done <= goal && Underway(done, fw[offset..len], goal)
    {
      var n;
      ret, n, done := NextPiece(pipe, fw, offset, len, cmd, start, done, goal);
      if ret < 0 {
        return;
      }
      offset := offset + n;
    }
    NothingLeft(done, goal);
    return 0;
  }

  /** The announcement. */
  method Announce(pipe: Pipe, len: u32, seqNo: u8, cmd: array<u8>) returns (ret: int)
    requires cmd.Length == UPLOAD_UNIT
    modifies pipe`calls, pipe`sent, cmd
    ensures old(pipe.calls) < pipe.calls && ret <= 0 && (ret == 0 <==> !pipe.Trouble(old(pipe.calls)))
    ensures ret == 0 ==> pipe.sent == old(pipe.sent) + [Transfer(AddrLenFrame(LOAD_ADDRESS, len, seqNo))]
    ensures pipe.sent == old(pipe.sent) || pipe.sent == old(pipe.sent) + [Transfer(AddrLenFrame(LOAD_ADDRESS, len, seqNo))]
  {
    var built := BuildAddrLen(LOAD_ADDRESS, len, seqNo, cmd);
    ret := pipe.Command(cmd[..built.value]);
  }

  /** The order to start. */
  method Launch(pipe: Pipe, seqNo: u8, cmd: array<u8>) returns (ret: int)
    requires cmd.Length == UPLOAD_UNIT
    modifies pipe`calls, pipe`sent, cmd
    ensures old(pipe.calls) < pipe.calls && ret <= 0 && (ret == 0 <==> !pipe.Trouble(old(pipe.calls)))
    ensures ret == 0 ==> pipe.sent == old(pipe.sent) + [Transfer(StartFrame(OVERRIDE, LOAD_ADDRESS, seqNo))]
    ensures pipe.sent == old(pipe.sent) || pipe.sent == old(pipe.sent) + [Transfer(StartFrame(OVERRIDE, LOAD_ADDRESS, seqNo))]
  {
    var built := BuildStart(OVERRIDE, LOAD_ADDRESS, seqNo, cmd);
    ret := pipe.Command(cmd[..built.value]);
  }

  /** Announcement, image and start order; `cmd` is the frame buffer that they share. All of it is
      sent exactly when no call fails and the image is as long as announced. */
  method Transmit(pipe: Pipe, fw: seq<u8>, len: u32, addrSeq: u8, startSeq: u8, cmd: array<u8>) returns (ret: int)
    requires cmd.Length == UPLOAD_UNIT
    modifies pipe`calls, pipe`sent, cmd
    ensures old(pipe.calls) <= pipe.calls && ret <= 0 && (ret == 0 <==> len <= |fw| && !pipe.Trouble(old(pipe.calls)))
    ensures old(pipe.sent) <= pipe.sent <= old(pipe.sent) + Script(fw, len, addrSeq, startSeq)
    ensures ret == 0 ==> pipe.sent == old(pipe.sent) + Script(fw, len, addrSeq, startSeq)
  {
    ret := Announce(pipe, len, addrSeq, cmd);
    if ret < 0 {
      return;
    }
    if len > |fw| {
      return EINVAL;
    }
    ret := Scatter(pipe, fw, len, cmd);
    if ret < 0 {
      return;
    }
    ret := Launch(pipe, startSeq, cmd);
  }
}
