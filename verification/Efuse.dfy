/** Reading the calibration image out of the fuse array (src/c/regops.c). */
module Efuse {
  import opened Machine

  const AIN: bv32 := 0x03ff_0000
  const MODE: bv32 := 0xc0
  const KICK: bv32 := 0x4000_0000
  const AOUT: bv32 := 0x3f
  const VALID: bv32 := 0x2000_0000
  const EMPTY: bv32 := 0x4000_0000
  const POLLS := 100

  /** Sixteen fused bytes, and what the array reports about them. */
  datatype Block = Block(valid: bool, aout: bv32, bytes: seq<u8>)

  /** What the driver should make of a block. */
  function Image(b: Block): seq<u8> {
    if !b.valid || b.aout & AOUT == AOUT then Ones() else b.bytes
  }

  function Ones(): (o: seq<u8>)
    ensures |o| == 16
  {
    seq(16, _ => 0xff)
  }

  /** The command word for one block. */
  function Request(before: bv32, addr: bv16): bv32 {
    (before & !(AIN | MODE)) | (((addr & 0xfff0) as bv32) << 16) | KICK
  }

  /** The row that a command word selects. */
  function Selected(ctrl: bv32): bv32 {
    (ctrl >> 16) & 0x3ff
  }

  /** The row of an address: the array has 1024 bytes. */
  function Row(addr: bv16): bv32 {
    (addr as bv32) & 0x3f0
  }

  /** Whatever was in the command word before, the array sees the row of the address. */
  lemma RequestSelectsRow(before: bv32, addr: bv16)
    ensures Selected(Request(before, addr)) == Row(addr) && Request(before, addr) & KICK == KICK
  {
  }

  /** The command asks for a read in mode 0 and, within the array, keeps all other
      bits. */
  lemma RequestBits(before: bv32, addr: bv16)
    ensures var c := Request(before, addr);
      && c & 0x4000_0000 != 0 && c & 0xc0 == 0 && (c >> 16) & 0x3ff == (addr as bv32) & 0x3f0
      && (addr < 0x400 ==> c & 0xbc00_ff3f == before & 0xbc00_ff3f)
  {
  }

  /** The word when the array is done. */
  function Answer(ctrl: bv32, b: Block): bv32 {
    (ctrl & !(KICK | VALID | AOUT)) | (if b.valid then VALID else 0) | (b.aout & AOUT)
  }

  predicate Busy(ctrl: bv32) {
    ctrl & KICK != 0
  }

  predicate Blank(ctrl: bv32) {
    ctrl & AOUT == AOUT || ctrl & VALID == 0
  }

  /** Where the answer is. */
  lemma AnswerAt(ctrl: bv32)
    ensures (Busy(ctrl) <==> (ctrl >> 30) & 1 == 1) && (Blank(ctrl) <==> ctrl & 0x3f == 0x3f || (ctrl >> 29) & 1 == 0)
  {
  }

  lemma AnswerIdle(ctrl: bv32, b: Block)
    ensures !Busy(Answer(ctrl, b))
  {
  }

  lemma AnswerRow(ctrl: bv32, b: Block)
    ensures Selected(Answer(ctrl, b)) == Selected(ctrl)
  {
  }

  lemma AnswerBits(kept: bv32, valid: bool, aout: bv32)
    requires kept & (KICK | VALID | AOUT) == 0
    ensures var a := kept | (if valid then VALID else 0) | (aout & AOUT); (a & VALID == 0 <==> !valid) && a & AOUT == aout & AOUT
  {
  }

  /** The driver takes a block for blank exactly when it is invalid or reports all ones. */
  lemma AnswerSays(ctrl: bv32, b: Block)
    ensures var a := Answer(ctrl, b);
      !Busy(a) && Selected(a) == Selected(ctrl) && (Blank(a) <==> !b.valid || b.aout & AOUT == AOUT)
  {
    AnswerIdle(ctrl, b);
    AnswerRow(ctrl, b);
    AnswerBits(ctrl & !(KICK | VALID | AOUT), b.valid, b.aout);
  }

  /** The fuse array. It answers a command after any number of readings of the command word, or
      never; any access may fail. */
  class Fuses {
    const base: bv32
    const fuse: bv32 -> Block
    var ctrl: bv32
    ghost var polls: nat

    ghost predicate Valid() {
      forall r :: |fuse(r).bytes| == 16
    }

    constructor (base: bv32, fuse: bv32 -> Block)
      requires forall r :: |fuse(r).bytes| == 16
      ensures Valid() && this.base == base && this.fuse == fuse
    {
      this.base, this.fuse, ctrl, polls := base, fuse, 0, 0;
    }

    method ReadBase() returns (ret: int, val: bv32)
      ensures ret <= 0 && (ret == 0 ==> val == base)
    {
      ret, val := *, base;
      if ret > 0 {
        ret := 0;
      }
    }

    /** The answer appears between two readings. */
    method ReadCtrl() returns (ret: int, val: bv32)
      modifies this
      ensures ret <= 0 && polls == old(polls) + 1 && (ret == 0 ==> val == ctrl)
      ensures ctrl == old(ctrl) || (Busy(old(ctrl)) && ctrl == Answer(old(ctrl), fuse(Selected(old(ctrl)))))
    {
      var done: bool := *;
      ret := *;
      polls := polls + 1;
      if ret > 0 {
        ret := 0;
      }
      if Busy(ctrl) && done {
        ctrl := Answer(ctrl, fuse(Selected(ctrl)));
      }
      val := ctrl;
    }

    method WriteCtrl(val: bv32) returns (ret: int)
      modifies this`ctrl
      ensures ret <= 0 && (ret == 0 ==> ctrl == val)
    {
      ret := *;
      if ret >= 0 {
        ret, ctrl := 0, val;
      }
    }

    method ReadData(i: nat) returns (ret: int, val: u32)
      requires Valid() && i < 4
      ensures ret <= 0 && (ret == 0 ==> val == Le32(fuse(Selected(ctrl)).bytes[4 * i..4 * i + 4]))
    {
      ret := *;
      if ret > 0 {
        ret := 0;
      }
      val := Le32(fuse(Selected(ctrl)).bytes[4 * i..4 * i + 4]);
    }

    /** A command, and readings until the answer is there. */
    method Ask(addr: bv16) returns (ret: int)
      modifies this
      ensures ret <= 0 && polls <= old(polls) + POLLS + 1
      ensures ret == 0 ==> exists asked :: Selected(asked) == Row(addr) && ctrl == Answer(asked, fuse(Row(addr)))
    {
      var val;
      ret, val := ReadCtrl();
      if ret != 0 {
        return;
      }
      var asked := Request(val, addr);
      RequestSelectsRow(val, addr);
      ret := WriteCtrl(asked);
      if ret != 0 {
        return;
      }
      var i := 0;
      while i < POLLS
        invariant i <= POLLS && polls == old(polls) + 1 + i
        invariant ctrl == asked
      {
        ret, val := ReadCtrl();
        i := i + 1;
        if ret != 0 {
          return;
        }
        if !Busy(val) {
          return;
        }
        AnswerSays(asked, fuse(Row(addr)));
      }
      return ETIMEDOUT;
    }
  }

  /** The bytes of one word of the selected block go to `buf[at + 4 * i..]`. */
  method Fetch(dev: Fuses, i: nat, buf: array<u8>, at: nat) returns (ret: int)
    requires dev.Valid() && i < 4 && at + 16 <= buf.Length
    modifies buf
    ensures ret <= 0
    ensures ret == 0 ==> buf[..] == old(buf[..at + 4 * i]) + dev.fuse(Selected(dev.ctrl)).bytes[4 * i..4 * i + 4] + old(buf[at + 4 * i + 4..])
    ensures ret != 0 ==> buf[..] == old(buf[..])
  {
    var val;
    ret, val := dev.ReadData(i);
    if ret == 0 {
      BytesOfLe32(dev.fuse(Selected(dev.ctrl)).bytes[4 * i..4 * i + 4]);
      CopyBytes(buf, at + 4 * i, ToLe32(val));
    }
  }

  /** Four more bytes of the block are in place. */
  lemma WordArrives(before: seq<u8>, now: seq<u8>, at: nat, n: nat, bytes: seq<u8>)
    requires n + 4 <= |bytes| == 16 && at + 16 <= |before|
    requires before[at..at + n] == bytes[..n] && now == before[..at + n] + bytes[n..n + 4] + before[at + n + 4..]
    ensures now[at..at + n + 4] == bytes[..n + 4] && now[..at] == before[..at] && now[at + 16..] == before[at + 16..]
  {
    assert now[at..at + n + 4] == before[at..at + n] + bytes[n..n + 4];
  }

  /** The four words of the selected block. */
  method FetchAll(dev: Fuses, buf: array<u8>, at: nat) returns (ret: int)
    requires dev.Valid() && at + 16 <= buf.Length
    modifies buf
    ensures ret <= 0 && buf[..at] == old(buf[..at]) && buf[at + 16..] == old(buf[at + 16..])
    ensures ret == 0 ==> buf[at..at + 16] == dev.fuse(Selected(dev.ctrl)).bytes
  {
    ret := 0;
    ghost var bytes := dev.fuse(Selected(dev.ctrl)).bytes;
    for i := 0 to 4
      invariant buf[..at] == old(buf[..at]) && buf[at + 16..] == old(buf[at + 16..])
      invariant buf[at..at + 4 * i] == bytes[..4 * i] && ret == 0
    {
      ghost var before := buf[..];
      ret := Fetch(dev, i, buf, at);
      if ret != 0 {
        return;
      }
      WordArrives(before, buf[..], at, 4 * i, bytes);
    }
    assert bytes[..16] == bytes;
  }

  /** `mt7603_efuse_read_block` for the window `buf[at..at + 16]`. */
  method ReadBlock(dev: Fuses, addr: bv16, buf: array<u8>, at: nat) returns (ret: int)
    requires dev.Valid() && at + 16 <= buf.Length
    modifies dev, buf
    ensures ret <= 0 && dev.polls <= old(dev.polls) + POLLS + 2
    ensures buf[..at] == old(buf[..at]) && buf[at + 16..] == old(buf[at + 16..])
    ensures ret == 0 ==> buf[at..at + 16] == Image(dev.fuse(Row(addr)))
  {
    ret := dev.Ask(addr);
    if ret != 0 {
      return;
    }
    ghost var asked :| Selected(asked) == Row(addr) && dev.ctrl == Answer(asked, dev.fuse(Row(addr)));
    AnswerSays(asked, dev.fuse(Row(addr)));
    var val;
    ret, val := dev.ReadCtrl();
    if ret != 0 {
      return;
    }
    if Blank(val) {
      CopyBytes(buf, at, Ones());
      return;
    }
    ret := FetchAll(dev, buf, at);
  }

  /** The address of the n-th block, as the loop counts it in sixteen bits. */
  function Address(n: nat): bv16 {
    if n == 0 then 0 else Address(n - 1) + 16
  }

  /** The image of the first `n` blocks. */
  function ImageOf(fuse: bv32 -> Block, n: nat): seq<u8> {
    if n == 0 then [] else ImageOf(fuse, n - 1) + Image(fuse(Row(Address(n - 1))))
  }

  lemma {:induction false} ImageLength(fuse: bv32 -> Block, n: nat)
    requires forall r :: |fuse(r).bytes| == 16
    ensures |ImageOf(fuse, n)| == 16 * n
  {
    if n > 0 {
      ImageLength(fuse, n - 1);
    }
  }

  /** The first `n` blocks are read. */
  ghost predicate ImageRead(fuse: bv32 -> Block, buf: seq<u8>, n: nat) {
    16 * n <= |buf| && buf[..16 * n] == ImageOf(fuse, n)
  }

  lemma BlockArrives(fuse: bv32 -> Block, before: seq<u8>, now: seq<u8>, n: nat)
    requires ImageRead(fuse, before, n) && |now| == |before| && 16 * n + 16 <= |now|
    requires now[..16 * n] == before[..16 * n] && now[16 * n..16 * n + 16] == Image(fuse(Row(Address(n))))
    ensures ImageRead(fuse, now, n + 1)
  {
    assert now[..16 * n + 16] == now[..16 * n] + now[16 * n..16 * n + 16];
  }

  /** One round of the block loop, which does not reach behind `end`. */
  method ReadNext(dev: Fuses, buf: array<u8>, n: nat, addr: bv16, ghost end: nat) returns (ret: int)
    requires dev.Valid() && 16 * n + 16 <= end <= buf.Length && addr == Address(n) && ImageRead(dev.fuse, buf[..], n)
    modifies dev, buf
    ensures ret <= 0 && dev.polls <= old(dev.polls) + POLLS + 2
    ensures ret == 0 ==> ImageRead(dev.fuse, buf[..], n + 1)
    ensures buf[end..] == old(buf[end..])
  {
    ghost var before := buf[..];
    ret := ReadBlock(dev, addr, buf, 16 * n);
    SameTail(before, buf[..], 16 * n + 16, end);
    if ret == 0 {
      BlockArrives(dev.fuse, before, buf[..], n);
    }
  }

  /** The block loop; `blocks` is the number of full blocks in the window. */
  method ReadBlocks(dev: Fuses, buf: array<u8>, len: nat, ghost blocks: nat) returns (ret: int)
    requires dev.Valid() && 16 * blocks <= len < 16 * blocks + 16 && len <= buf.Length
    modifies dev, buf
    ensures ret <= 0 && dev.polls <= old(dev.polls) + blocks * (POLLS + 2)
    ensures ret == 0 ==> ImageRead(dev.fuse, buf[..], blocks)
    ensures buf[16 * blocks..] == old(buf[16 * blocks..])
  {
    ret := 0;
    var n, addr: bv16 := 0, 0;
    while 16 * n + 16 <= len
      invariant n <= blocks && addr == Address(n) && ret == 0
      invariant ImageRead(dev.fuse, buf[..], n) && buf[16 * blocks..] == old(buf[16 * blocks..])
      invariant dev.polls <= old(dev.polls) + n * (POLLS + 2)
    {
      ret := ReadNext(dev, buf, n, addr, 16 * blocks);
      if ret != 0 {
        return;
      }
      n, addr := n + 1, addr + 16;
    }
  }

  /** Where each block is in the image. */
  lemma {:induction false} ImageAt(fuse: bv32 -> Block, n: nat, k: nat)
    requires k < n && forall r :: |fuse(r).bytes| == 16
    ensures |ImageOf(fuse, n)| == 16 * n
    ensures ImageOf(fuse, n)[16 * k..16 * k + 16] == Image(fuse(Row(Address(k))))
  {
    ImageLength(fuse, n - 1);
    WindowOfSum(ImageOf(fuse, n - 1), Image(fuse(Row(Address(n - 1)))), 16 * k);
    if k < n - 1 {
      ImageAt(fuse, n - 1, k);
    }
  }

  lemma WindowOfSum(front: seq<u8>, last: seq<u8>, i: nat)
    requires |last| == 16
    ensures i + 16 <= |front| ==> (front + last)[i..i + 16] == front[i..i + 16]
    ensures i == |front| ==> (front + last)[i..i + 16] == last
  {
  }

  lemma NextAddress(a: bv16, n: nat)
    requires n < 1024 && a as int == n && a & 0xf == 0
    ensures (a + 16) as int == n + 16 && (a + 16) & 0xf == 0
  {
  }

  /** Block n is at address 16 n, and is the device's row 16 n. */
  lemma {:induction false} AddressIs(n: nat)
    requires n < 64
    ensures Address(n) as int == 16 * n && Address(n) & 0xf == 0
  {
    if n > 0 {
      AddressIs(n - 1);
      NextAddress(Address(n - 1), 16 * (n - 1));
    }
  }

  lemma RowIs(addr: bv16)
    requires addr < 1024 && addr & 0xf == 0
    ensures Row(addr) as int == addr as int
  {
    assert addr & 0x3f0 == addr;
  }

  lemma RowOfBlock(n: nat)
    requires n < 64
    ensures Row(Address(n)) as int == 16 * n
  {
    AddressIs(n);
    RowIs(Address(n));
  }

  /** Sixteen bytes that a block leaves: its own if it is valid and has contents, and ones if not. */
  predicate Left(b: Block, window: seq<u8>) {
    |window| == 16
    && if b.valid && b.aout & 0x3f != 0x3f then window == b.bytes else forall i :: 0 <= i < 16 ==> window[i] == 0xff
  }

  /** What a successful read leaves: the device's row 16 k in the place of block k. */
  predicate BlocksRead(fuse: bv32 -> Block, buf: seq<u8>, blocks: nat) {
    |buf| >= 16 * blocks && forall k :: 0 <= k < blocks ==> Left(fuse(Row(Address(k))), buf[16 * k..16 * k + 16])
  }

  lemma ImageIsBlocks(fuse: bv32 -> Block, buf: seq<u8>, blocks: nat)
    requires forall r :: |fuse(r).bytes| == 16
    requires ImageRead(fuse, buf, blocks)
    ensures BlocksRead(fuse, buf, blocks)
  {
    forall k | 0 <= k < blocks ensures Left(fuse(Row(Address(k))), buf[16 * k..16 * k + 16]) {
      ImageAt(fuse, blocks, k);
      assert buf[..16 * blocks][16 * k..16 * k + 16] == buf[16 * k..16 * k + 16];
    }
  }

  /** `mt7603_efuse_read_all`: every full block of the window is read from the row that
      `RowOfBlock` names, nothing behind the last full block is touched, and each block costs at
      most 102 readings of the command word. */
  method ReadAll(dev: Fuses, buf: array<u8>, len: nat) returns (ret: int)
    requires dev.Valid() && len <= buf.Length
    modifies dev, buf
    ensures (dev.base >> 30) & 1 == 1 ==> ret != 0 && buf[..] == old(buf[..])
    ensures ret == 0 ==> BlocksRead(dev.fuse, buf[..], len / 16)
    ensures ret == 0 && len <= 1024 ==> forall k :: 0 <= k < len / 16 ==> Row(Address(k)) as int == 16 * k
    ensures buf[16 * (len / 16)..] == old(buf[16 * (len / 16)..])
    ensures dev.polls <= old(dev.polls) + len / 16 * 102
  {
    var base;
    ret, base := dev.ReadBase();
    if ret != 0 {
      return;
    }
    if base & EMPTY != 0 {
      return ENODATA;
    }
    ret := ReadBlocks(dev, buf, len, len / 16);
    if ret == 0 {
      ImageIsBlocks(dev.fuse, buf[..], len / 16);
    }
    if len <= 1024 {
      forall k | 0 <= k < len / 16 ensures Row(Address(k)) as int == 16 * k {
        RowOfBlock(k);
      }
    }
  }
}
