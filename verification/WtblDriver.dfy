/** The mac80211 callbacks of src/c/mac80211.c that program the wireless table. */
module WtblDriver {
  import opened Machine
  import opened Regmap
  import opened Device
  import opened BlockAck
  import opened Wtbl
  import opened WtblRun

  const ZERO_ADDR: Mac := [0, 0, 0, 0, 0, 0]
  const EOPNOTSUPP := -95

  /** `build_wtbl_sta_sequence` (src/rust/src/sta.rs). */
  method BuildWtblStaSequence(bssid: Mac, ops: array<RegOp>) returns (r: Result<nat>)
    modifies ops
    ensures r == if ops.Length < 12 then Err(ENOSPC) else Ok(12)
    ensures r.Err? ==> ops[..] == old(ops[..])
    ensures r.Ok? ==> ops[..12] == StaOps(bssid) && ops[12..] == old(ops[12..])
  {
    if ops.Length < 12 {
      return Err(ENOSPC);
    }
    ops[0], ops[1], ops[2] := RegOp(WTBL1_BASE, MCAST_DW0), RegOp(WTBL1_BASE + 0x04, 0xFFFF_FFFF), RegOp(WTBL1_BASE + 0x08, 0);
    ops[3] := RegOp(WTBL1_BASE + WTBL1_ENTRY_SIZE, PeerDw0(bssid));
    ops[4] := RegOp(WTBL1_BASE + WTBL1_ENTRY_SIZE + 0x04, Word(bssid[..4]));
    ops[5] := RegOp(WTBL1_BASE + WTBL1_ENTRY_SIZE + 0x08, PEER_DW2);
    ops[6] := RegOp(WTBL1OR, 0x8000_0000);
    ops[7], ops[8] := RegOp(WTBL1_BASE + 0x0C, WtblDw3(0)), RegOp(WTBL1_BASE + 0x10, WtblDw4(0));
    ops[9] := RegOp(WTBL1_BASE + WTBL1_ENTRY_SIZE + 0x0C, WtblDw3(1));
    ops[10] := RegOp(WTBL1_BASE + WTBL1_ENTRY_SIZE + 0x10, WtblDw4(1));
    ops[11] := RegOp(WTBL1OR, 0);
    return Ok(12);
  }

  lemma StaOpsAreNamed(bssid: Mac)
    ensures NamedOps(PhysicalAddrMap, StaOps(bssid))
  {
  }

  /** `mt7603_mac80211_sta_add`: channel retuning apart, this is what it writes. */
  method StaAdd(dev: UsbDevice, addr: Mac, apMode: bool)
    requires dev.Valid()
    modifies dev`phys, dev`regs
    ensures dev.Valid()
    ensures dev.online ==> dev.regs == Step(old(dev.regs), Event.StaAdd(addr, apMode))
  {
    if addr == ZERO_ADDR {
      return;
    }
    var ret;
    if !apMode {
      var lo, hi := Word(addr[..4]), BssidHigh(addr);
      ret := dev.WriteReg(0x21804, lo);
      ret := dev.WriteReg(0x21808, hi);
    }
    var ops := new RegOp[32](_ => RegOp(0, 0));
    var built := BuildWtblStaSequence(addr, ops);
    StaOpsAreNamed(addr);
    ret := dev.ExecuteRegOps(ops[..built.value]);
    ret := dev.WriteReg(0x4007C, 0);
  }

  /** `mt7603_mac80211_sta_remove`. */
  method StaRemove(dev: UsbDevice, apMode: bool)
    requires dev.Valid()
    modifies dev`phys, dev`regs
    ensures dev.Valid()
    ensures dev.online ==> dev.regs == Step(old(dev.regs), Event.StaRemove(apMode))
  {
    var ret;
    if !apMode {
      ret := dev.WriteReg(0x21804, 0);
      ret := dev.WriteReg(0x21808, 0);
    }
    ret := dev.WriteReg(0x28020, 0);
    ret := dev.WriteReg(0x28024, 0);
    ret := dev.WriteReg(0x28028, 0);
  }

  /** The BSSID part of `mt7603_mac80211_bss_info_changed`; a zero `bssid` stands for none. */
  method ChangeBss(dev: UsbDevice, bssid: Mac, apMode: bool)
    requires dev.Valid()
    modifies dev`phys, dev`regs
    ensures dev.Valid()
    ensures dev.online ==> dev.regs == Step(old(dev.regs), BssChanged(bssid, apMode))
  {
    if bssid == ZERO_ADDR {
      if !apMode {
        StaRemove(dev, false);
      }
      return;
    }
    ProgramBssid(dev, bssid);
    if !apMode {
      StaAdd(dev, bssid, true);
    }
  }

  /** The current BSSID, and no others. */
  method ProgramBssid(dev: UsbDevice, bssid: Mac)
    requires dev.Valid()
    modifies dev`phys, dev`regs
    ensures dev.Valid()
    ensures dev.online ==> dev.regs == NewBssid(old(dev.regs), bssid)
  {
    var ret := dev.WriteReg(0x21804, Word(bssid[..4]));
    if ret == 0 {
      ret := dev.WriteReg(0x21808, BssidHigh(bssid));
    }
    var rmacdr;
    ret, rmacdr := dev.ReadReg(RMACDR);
    if ret == 0 {
      ret := dev.WriteReg(RMACDR, SingleBssid(rmacdr));
    }
  }

  /** Two read-modify-write accesses: DW0 and DW2 of an entry, each skipped if it cannot be read. */
  method UpdateEntry(dev: UsbDevice, w: nat, dw0Of: bv32 -> bv32, dw2Of: bv32 -> bv32)
    requires dev.Valid() && w < 2
    modifies dev`phys, dev`regs
    ensures dev.Valid()
    ensures dev.online ==> var r := old(dev.regs);
      dev.regs == Set(Set(r, Entry(w), dw0Of(r(Entry(w)))), Entry(w) + 8, dw2Of(r(Entry(w) + 8)))
  {
    var ret, dw := dev.ReadReg(Entry(w));
    if ret == 0 {
      ret := dev.WriteReg(Entry(w), dw0Of(dw));
    }
    ret, dw := dev.ReadReg(Entry(w) + 8);
    if ret == 0 {
      ret := dev.WriteReg(Entry(w) + 8, dw2Of(dw));
    }
  }

  /** The removal branch of `mt7603_mac80211_set_key`. */
  method RemoveKey(dev: UsbDevice, pairwise: bool, staKnown: bool)
    requires dev.Valid()
    modifies dev`phys, dev`regs
    ensures dev.Valid()
    ensures dev.online ==> dev.regs == RemoveKeyRegs(old(dev.regs), if pairwise || staKnown then 1 else 0)
  {
    var wcid := if pairwise then 1 else if staKnown then 1 else 0;
    UpdateEntry(dev, wcid, dw => UnkeyedDw0(dw), dw => UnkeyedDw2(dw));
  }

  lemma KeyWordAt(w: nat, key: seq<bv8>, dw0: bv32, dw2: bv32, i: nat)
    requires w < 2 && |key| == 16 && i < 4
    ensures StoreKeyOps(w, KeyWords(key), dw0, dw2)[i]
         == RegOp(WTBL3_KEY_BASE + w * WTBL3_ENTRY_SIZE + i * 4, Word(key[i * 4..i * 4 + 4]))
  {
  }

  /** The key memory writes of `set_key`: four little-endian words. */
  method WriteKey(dev: UsbDevice, wcid: nat, key: seq<bv8>, ghost dw0: bv32, ghost dw2: bv32)
    requires dev.Valid() && wcid < 2 && |key| == 16
    modifies dev`phys, dev`regs
    ensures dev.Valid()
    ensures dev.online ==> dev.regs == Exec(old(dev.regs), StoreKeyOps(wcid, KeyWords(key), dw0, dw2)[..4])
  {
    ghost var ops, before := StoreKeyOps(wcid, KeyWords(key), dw0, dw2), dev.regs;
    var keyBase := WTBL3_KEY_BASE + wcid * WTBL3_ENTRY_SIZE;
    for i := 0 to 4
      invariant dev.Valid()
      invariant dev.online ==> dev.regs == Exec(before, ops[..i])
    {
      ghost var now := dev.regs;
      if dev.online {
        ExecNext(before, ops, i, now);
      }
      KeyWordAt(wcid, key, dw0, dw2, i);
      var ret := dev.WriteReg(keyBase + i * 4, Word(key[i * 4..i * 4 + 4]));
    }
  }

  /** After the key words, what `set_key` reads back for modification is as it was, and its
      remaining writes complete the list. */
  lemma RemainingWrites(r: RegFile, w: nat, k: seq<bv32>, dw0: bv32, dw2: bv32)
    requires w < 2 && |k| == 4
    ensures var r6 := Set(Set(Exec(r, StoreKeyOps(w, k, dw0, dw2)[..4]), WTBL2_BASE + w * 64, 1), WTBL2_BASE + w * 64 + 4, 0);
      && r6(Entry(w)) == r(Entry(w)) && r6(Entry(w) + 8) == r(Entry(w) + 8)
      && Set(Set(Set(Set(r6, Entry(w), dw0), Entry(w) + 8, dw2), WTBL1OR, 0x8000_0000), WTBL1OR, 0)
         == Exec(r, StoreKeyOps(w, k, dw0, dw2))
  {
    var ops := StoreKeyOps(w, k, dw0, dw2);
    ExecKeeps(r, ops[..4], Entry(w));
    ExecKeeps(r, ops[..4], Entry(w) + 8);
    assert ops == ops[..4] + ops[4..];
    ExecConcat(r, ops[..4], ops[4..]);
    ExecSix(Exec(r, ops[..4]), ops[4..]);
  }

  lemma ExecSix(r: RegFile, o: seq<RegOp>)
    requires |o| == 6
    ensures Exec(r, o)
         == Set(Set(Set(Set(Set(Set(r, o[0].addr, o[0].val), o[1].addr, o[1].val), o[2].addr, o[2].val),
            o[3].addr, o[3].val), o[4].addr, o[4].val), o[5].addr, o[5].val)
  {
    var r1 := Set(r, o[0].addr, o[0].val);
    var r2 := Set(r1, o[1].addr, o[1].val);
    var r3 := Set(r2, o[2].addr, o[2].val);
    var r4 := Set(r3, o[3].addr, o[3].val);
    assert o[1..][1..] == o[2..] && o[2..][1..] == o[3..] && o[3..][1..] == o[4..] && o[4..][1..] == o[5..];
    assert Exec(r, o) == Exec(r1, o[1..]) == Exec(r2, o[2..]);
    assert Exec(r2, o[2..]) == Exec(r3, o[3..]) == Exec(r4, o[4..]);
    var r5 := Set(r4, o[4].addr, o[4].val);
    var r6 := Set(r5, o[5].addr, o[5].val);
    assert o[5..][1..] == [];
    assert Exec(r4, o[4..]) == Exec(r5, o[5..]) == Exec(r6, []) == r6;
  }

  /** The installation branch of `mt7603_mac80211_set_key`; `hwKeyIdx` is the slot reported to
      mac80211, or -1 when the key is declined. */
  method InstallKey(dev: UsbDevice, pairwise: bool, staKnown: bool, ccmp: bool, key: seq<bv8>, keyIdx: bv32, apMode: bool)
    returns (ret: int, hwKeyIdx: int)
    requires dev.Valid() && (ccmp ==> |key| == 16)
    modifies dev`phys, dev`regs
    ensures dev.Valid()
    ensures ret == (if ccmp then 0 else EOPNOTSUPP) && hwKeyIdx == (if !ccmp then -1 else if pairwise || staKnown then 1 else 0)
    ensures !ccmp ==> dev.regs == old(dev.regs)
    ensures ccmp && dev.online ==> var w := if pairwise || staKnown then 1 else 0;
      dev.regs == SetKeyRegs(old(dev.regs), w, key, keyIdx, w != 0 || !apMode)
  {
    var wcid := if pairwise then 1 else if staKnown then 1 else 0;
    if !ccmp {
      return EOPNOTSUPP, -1;
    }
    var rkv := wcid != 0 || !apMode;
    ghost var dw0, dw2 := KeyedDw0(dev.regs(Entry(wcid)), keyIdx, rkv), KeyedDw2(dev.regs(Entry(wcid) + 8));
    RemainingWrites(dev.regs, wcid, KeyWords(key), dw0, dw2);
    WriteKey(dev, wcid, key, dw0, dw2);
    var r := dev.WriteReg(WTBL2_BASE + wcid * 64, 1);
    r := dev.WriteReg(WTBL2_BASE + wcid * 64 + 4, 0);
    UpdateEntry(dev, wcid, dw => KeyedDw0(dw, keyIdx, rkv), dw => KeyedDw2(dw));
    r := dev.WriteReg(WTBL1OR, 0x8000_0000);
    r := dev.WriteReg(WTBL1OR, 0);
    return 0, wcid;
  }

  /** Building and writing the session word; `dw15` is the word as it was read. */
  method ChangeSession(dev: UsbDevice, wcid: u8, tid: u8, baSize: u8, enable: bool, dw15: bv32, ops: array<RegOp>)
    requires dev.Valid() && wcid < 2 && ops.Length > 0
    requires dev.online ==> dw15 == dev.regs(SessionRegister(wcid))
    modifies dev`phys, dev`regs, ops
    ensures dev.Valid()
    ensures dev.online ==> dev.regs == SessionRegs(old(dev.regs), wcid, tid, enable, baSize)
  {
    var built := BuildBaSession(wcid, tid, baSize, enable, dw15, ops);
    if built.Ok? {
      var ret := dev.ExecuteRegOps([ops[0]]);
    }
  }

  datatype AmpduAction = RxStart | TxStart | TxOperational | TxStop | Other

  /** `mt7603_mac80211_ampdu_action`; `immediate` stands for the answer to a start request. */
  method HandleAmpdu(dev: UsbDevice, action: AmpduAction, staKnown: bool, addr: Mac, tid: u8, bufSize: u16)
    returns (immediate: bool)
    requires dev.Valid()
    modifies dev`phys, dev`regs
    ensures dev.Valid() && immediate == action.TxStart?
    ensures dev.online && action.TxOperational? ==>
      dev.regs == SessionRegs(old(dev.regs), if staKnown then 1 else 0, tid, true, BuilderSize(bufSize))
    ensures dev.online && action.TxStop? ==>
      dev.regs == SessionRegs(old(dev.regs), if staKnown then 1 else 0, tid, false, 0)
    ensures dev.online && action.RxStart? && staKnown ==>
      dev.regs == Set(Set(old(dev.regs), 0x21868, Word(addr[..4])), 0x2186C, RxStartWord(addr, tid))
    ensures !action.TxOperational? && !action.TxStop? && !(action.RxStart? && staKnown) ==> dev.regs == old(dev.regs)
  {
    var wcid := if staKnown then 1 else 0;
    var ret, dw15 := dev.ReadReg(0x0004_0000 + wcid * 64 + 15 * 4);
    if ret != 0 {
      dw15 := 0;
    }
    var ops := new RegOp[4](_ => RegOp(0, 0));
    immediate := false;
    match action {
      case RxStart =>
        if staKnown {
          ret := dev.WriteReg(0x21868, Word(addr[..4]));
          ret := dev.WriteReg(0x2186C, RxStartWord(addr, tid));
        }
      case TxStart =>
        immediate := true;
      case TxOperational =>
        ChangeSession(dev, wcid, tid, (if bufSize != 0 then bufSize else 64) % 0x100, true, dw15, ops);
      case TxStop =>
        ChangeSession(dev, wcid, tid, 0, false, dw15, ops);
      case Other =>
    }
  }

  function RxStartWord(addr: Mac, tid: u8): bv32 {
    PeerAndTid(addr, tid as bv32)
  }

  function PeerAndTid(addr: Mac, tid: bv32): bv32 {
    (addr[4] as bv32) | (addr[5] as bv32 << 8) | (tid << 16) | (1 << 22)
  }

  /** The registers of a receive session: the peer's address, the traffic identifier, and the bit
      that starts it. */
  lemma RxStartFields(addr: Mac, tid: bv32)
    requires tid < 64
    ensures Bytes(Word(addr[..4])) == addr[..4]
    ensures var hi := PeerAndTid(addr, tid); Bytes(hi)[..2] == addr[4..] && (hi >> 16) & 0x3f == tid && hi >> 22 == 1
  {
    BytesOfWord(addr[..4]);
    PackedBits(addr[4], addr[5], tid);
  }

  lemma PackedBits(a: bv8, b: bv8, tid: bv32)
    requires tid < 64
    ensures var hi := (a as bv32) | (b as bv32 << 8) | (tid << 16) | (1 << 22);
      (hi & 0xff) as bv8 == a && ((hi >> 8) & 0xff) as bv8 == b && (hi >> 16) & 0x3f == tid && (hi >> 22) == 1
  {
  }
}
