/** Register address translation of src/rust/src/regmap.rs.

    The results are declared to be 32-bit, so that none of the sums overflows is part of what
    is verified. */
module Regmap {
  import opened Machine

  /** True when `addr` lies in the segment of `len` bytes that starts at `start`. */
  predicate InSegment(addr: u32, start: u32, len: u32) {
    start <= addr && addr - start < len
  }

  /** The MAC control-register table, searched in order; a miss returns the address unchanged. */
  function MacCrRangeMap(addr: u32): u32 {
    if InSegment(addr, 0x20000, 0x200) then 0x6000_0000 + (addr - 0x20000)        // WF_CFG
    else if InSegment(addr, 0x21000, 0x200) then 0x6010_0000 + (addr - 0x21000)   // WF_TRB
    else if InSegment(addr, 0x21200, 0x200) then 0x6011_0000 + (addr - 0x21200)   // WF_AGG
    else if InSegment(addr, 0x21400, 0x200) then 0x6012_0000 + (addr - 0x21400)   // WF_ARB
    else if InSegment(addr, 0x21600, 0x200) then 0x6013_0000 + (addr - 0x21600)   // WF_TMAC
    else if InSegment(addr, 0x21800, 0x200) then 0x6014_0000 + (addr - 0x21800)   // WF_RMAC
    else if InSegment(addr, 0x21a00, 0x200) then 0x6015_0000 + (addr - 0x21a00)   // WF_SEC
    else if InSegment(addr, 0x21c00, 0x200) then 0x6016_0000 + (addr - 0x21c00)   // WF_DMA
    else if InSegment(addr, 0x21e00, 0x200) then 0x6017_0000 + (addr - 0x21e00)   // WF_CFGOFF
    else if InSegment(addr, 0x22000, 0x1000) then 0x6018_0000 + (addr - 0x22000)  // WF_PF
    else if InSegment(addr, 0x23000, 0x200) then 0x6019_0000 + (addr - 0x23000)   // WF_WTBLOFF
    else if InSegment(addr, 0x23200, 0x200) then 0x601a_0000 + (addr - 0x23200)   // WF_ETBF
    else if InSegment(addr, 0x24000, 0x400) then 0x6030_0000 + (addr - 0x24000)   // WF_LPON
    else if InSegment(addr, 0x24400, 0x200) then 0x6031_0000 + (addr - 0x24400)   // WF_INT
    else if InSegment(addr, 0x28000, 0x4000) then 0x6032_0000 + (addr - 0x28000)  // WF_WTBLON
    else if InSegment(addr, 0x2c000, 0x200) then 0x6033_0000 + (addr - 0x2c000)   // WF_MIB
    else if InSegment(addr, 0x2d000, 0x200) then 0x6040_0000 + (addr - 0x2d000)   // WF_AON
    else addr
  }

  /** The address put on the wire for a kernel-facing register address. */
  function PhysicalAddrMap(addr: u32): u32 {
    if addr < 0x2000 then 0x8002_0000 + addr                        // TOP_CFG
    else if addr < 0x4000 then 0x8000_0000 + addr - 0x2000          // MCU_CFG
    else if addr < 0x8000 then 0x5000_0000 + addr - 0x4000          // PDMA_CFG
    else if addr < 0x10000 then 0xa000_0000 + addr - 0x8000         // PSE_CFG
    else if addr < 0x20000 then 0x6020_0000 + addr - 0x10000        // WF_PHY
    else if addr < 0x40000 then MacCrRangeMap(addr)
    else if addr < 0x80000 then 0xa500_0000 + addr - 0x40000        // WTBL
    else if 0xc0000 <= addr < 0xc0100 then 0x800c_0000 + addr - 0xc0000 // PSE client
    else addr
  }

  /** The kernel-facing registers lie below this bound, and all the windows that they are moved to at
      or above it. The driver also names registers above it that stay where they are: those of the
      fuse array. */
  const FIRST_GLOBAL: u32 := 0x5000_0000

  lemma MacCrRangeMapInjective(a: u32, b: u32)
    requires 0x20000 <= a < b < 0x40000
    ensures MacCrRangeMap(a) != MacCrRangeMap(b)
  {
  }

  /** The blocks keep their order, and each starts where a window starts. */
  lemma BlocksInOrder(a: u32, b: u32)
    requires 0x20000 <= a < b < 0x40000 && MacCrRangeMap(a) != a && MacCrRangeMap(b) != b
    ensures MacCrRangeMap(a) < MacCrRangeMap(b)
    ensures b - a <= MacCrRangeMap(b) - MacCrRangeMap(a)
  {
  }

  /** Addresses that the unit tests expect: the first of each window, and some inside. */
  lemma AnchorValues()
    ensures PhysicalAddrMap(0x1134) == 0x8002_1134 && PhysicalAddrMap(0) == 0x8002_0000 && PhysicalAddrMap(0x1fff) == 0x8002_1fff
    ensures PhysicalAddrMap(0x2000) == 0x8000_0000 && PhysicalAddrMap(0x2abc) == 0x8000_0abc && PhysicalAddrMap(0x3fff) == 0x8000_1fff
    ensures PhysicalAddrMap(0x4594) == 0x5000_0594 && PhysicalAddrMap(0x4000) == 0x5000_0000 && PhysicalAddrMap(0x7fff) == 0x5000_3fff
    ensures PhysicalAddrMap(0x8000) == 0xa000_0000 && PhysicalAddrMap(0xffff) == 0xa000_7fff
    ensures PhysicalAddrMap(0x10000) == 0x6020_0000 && PhysicalAddrMap(0x1ffff) == 0x6020_ffff
    ensures PhysicalAddrMap(0x21600) == 0x6013_0000 && PhysicalAddrMap(0x24000) == 0x6030_0000 && PhysicalAddrMap(0x2d000) == 0x6040_0000
    ensures PhysicalAddrMap(0x28000) == 0x6032_0000 && PhysicalAddrMap(0x2bfff) == 0x6032_3fff
    ensures PhysicalAddrMap(0x40000) == 0xa500_0000 && PhysicalAddrMap(0x7ffff) == 0xa503_ffff
    ensures PhysicalAddrMap(0xc0000) == 0x800c_0000 && PhysicalAddrMap(0xc00ff) == 0x800c_00ff
    ensures PhysicalAddrMap(0xdead_beef) == 0xdead_beef
  {
  }

  lemma MapInjectiveBelow(a: u32, b: u32)
    requires a < FIRST_GLOBAL && b < FIRST_GLOBAL
    ensures PhysicalAddrMap(a) == PhysicalAddrMap(b) <==> a == b
  {
    if 0x20000 <= a < b < 0x40000 {
      MacCrRangeMapInjective(a, b);
    } else if 0x20000 <= b < a < 0x40000 {
      MacCrRangeMapInjective(b, a);
    } else if a != b {
    }
  }

  /** Whatever the translation moves starts below FIRST_GLOBAL and lands at or above it. */
  lemma MapMovesUp(addr: u32)
    ensures PhysicalAddrMap(addr) == addr || addr < FIRST_GLOBAL <= PhysicalAddrMap(addr)
  {
  }

  /** The windows. */
  lemma MapLandsInWindows(addr: u32)
    ensures var w := PhysicalAddrMap(addr);
      || w == addr || 0x5000_0000 <= w < 0x5000_4000 || 0x6000_0000 <= w < 0x6041_0000
      || 0x8000_0000 <= w < 0x8000_2000 || 0x8002_0000 <= w < 0x8002_2000 || 0x800c_0000 <= w < 0x800c_0100
      || 0xa000_0000 <= w < 0xa000_8000 || 0xa500_0000 <= w < 0xa504_0000
  {
  }

  lemma MapIdempotent(addr: u32)
    ensures PhysicalAddrMap(PhysicalAddrMap(addr)) == PhysicalAddrMap(addr)
  {
    MapMovesUp(addr);
    MapMovesUp(PhysicalAddrMap(addr));
  }

  /** On all 32-bit addresses, two of them reach the same register exactly when they are equal
      or one is the other's translation. */
  lemma MapCollisions(a: u32, b: u32)
    ensures PhysicalAddrMap(a) == PhysicalAddrMap(b)
       <==> a == b || PhysicalAddrMap(a) == b || PhysicalAddrMap(b) == a
  {
    MapMovesUp(a);
    MapMovesUp(b);
    MapIdempotent(a);
    MapIdempotent(b);
    if PhysicalAddrMap(a) != a && PhysicalAddrMap(b) != b {
      MapInjectiveBelow(a, b);
    }
  }
}
