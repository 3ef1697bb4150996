/** The wireless table: station entries (WTBL1), packet numbers and A-MPDU sessions (WTBL2) and
    key memory (WTBL3), as src/c/mac80211.c and src/rust/src/sta.rs program them. */
module Wtbl {
  import opened Machine
  import opened Regmap
  import opened Device
  import opened BlockAck

  const WTBL1_BASE: u32 := 0x0002_8000
  const WTBL1_ENTRY_SIZE: u32 := 0x20
  const WTBL1OR: u32 := 0x0002_A300
  const WTBL2_BASE: u32 := 0x0004_0000
  const WTBL2_ENTRY_SIZE: u32 := 64
  const WTBL3_KEY_BASE: u32 := 0x0004_2000
  const WTBL3_ENTRY_SIZE: u32 := 0x40

  // ---- Cross-links ----

  /** `wtbl_entry234`: the page (fid) and the element in the page (eid) of a station's WTBL2,
      WTBL3 and WTBL4 entries. Pages are 128 bytes; entries are 64, 64 and 32 bytes. */
  function WtblEntry234(wcid: bv32): (bv32, bv32, bv32, bv32, bv32, bv32) {
    var ecnt2: bv32 := 128 / 64;
    var ecnt3: bv32 := 128 / 64;
    var ecnt4: bv32 := 128 / 32;
    var baseFid3 := 128 / ecnt2;
    var baseFid4 := baseFid3 + 128 / ecnt3;
    (wcid / ecnt2, wcid % ecnt2,
     baseFid3 + wcid / ecnt3, wcid % ecnt3 * 2,
     baseFid4 + wcid / ecnt4, wcid % ecnt4)
  }

  function WtblDw3(wcid: bv32): bv32 {
    var (fid2, eid2, fid3, eid3, fid4, eid4) := WtblEntry234(wcid);
    (1 << 29) | (1 << 28) | fid2 | (eid2 << 11) | (fid4 << 16)
  }

  function WtblDw4(wcid: bv32): bv32 {
    var (fid2, eid2, fid3, eid3, fid4, eid4) := WtblEntry234(wcid);
    fid3 | (eid3 << 11) | (eid4 << 17)
  }

  /** Where the MAC looks for a station's key, given DW4 of its entry: page and element 32 bytes. */
  function KeyLink(dw4: bv32): bv32 {
    0x40000 + (dw4 & 0x7ff) * 128 + ((dw4 >> 11) & 0x3f) * 32
  }

  /** Where it looks for packet number and sessions, given DW3: page and element 64 bytes. */
  function SessionLink(dw3: bv32): bv32 {
    0x40000 + (dw3 & 0x7ff) * 128 + ((dw3 >> 11) & 0x1f) * 64
  }

  /** And where it looks for the rate and airtime counters, given both: page and element 32 bytes. */
  function CounterLink(dw3: bv32, dw4: bv32): bv32 {
    0x40000 + ((dw3 >> 16) & 0x7ff) * 128 + ((dw4 >> 17) & 0x3f) * 32
  }

  /** The six fields come back from DW3 and DW4 for every station index, beside the two
      power-save bits. */
  lemma CrossLinkFields(wcid: bv32)
    requires wcid < 128
    ensures WtblEntry234(wcid) ==
      (WtblDw3(wcid) & 0x7ff, (WtblDw3(wcid) >> 11) & 0x1f,
       WtblDw4(wcid) & 0x7ff, (WtblDw4(wcid) >> 11) & 0x3f,
       (WtblDw3(wcid) >> 16) & 0x7ff, (WtblDw4(wcid) >> 17) & 0x3f)
    ensures WtblDw3(wcid) >> 27 == 6 && WtblDw4(wcid) >> 23 == 0
  {
  }

  /** The link leads to the address that `set_key` computes without it, for every station, and
      its packet numbers are below all keys. */
  lemma KeyLinkReachesKey(wcid: bv32)
    requires wcid < 128
    ensures KeyLink(WtblDw4(wcid)) == 0x42000 + wcid * 0x40
    ensures SessionLink(WtblDw3(wcid)) == 0x40000 + wcid * 64
  {
  }

  /** Its counters are behind all keys. */
  lemma CountersBehindKeys(wcid: bv32)
    requires wcid < 128
    ensures CounterLink(WtblDw3(wcid), WtblDw4(wcid)) == 0x44000 + wcid * 0x20
  {
  }

  /** Words that the unit tests expect. */
  lemma LinkValues()
    ensures WtblEntry234(0) == (0, 0, 64, 0, 128, 0) && WtblDw3(0) == 0x3080_0000 && WtblDw4(0) == 0x40
    ensures WtblEntry234(1) == (0, 1, 64, 2, 128, 1) && WtblDw3(1) == 0x3080_0800 && WtblDw4(1) == 0x2_1040
    ensures WtblEntry234(2) == (1, 0, 65, 0, 128, 2) && WtblDw3(2) == 0x3080_0001 && WtblDw4(2) == 0x4_0041
    ensures WtblEntry234(3) == (1, 1, 65, 2, 128, 3)
  {
  }

  // ---- What the registers mean ----

  type Mac = a: seq<bv8> | |a| == 6 witness [0, 0, 0, 0, 0, 0]

  function Word(b: seq<bv8>): bv32
    requires |b| == 4
  {
    (b[0] as bv32) | (b[1] as bv32 << 8) | (b[2] as bv32 << 16) | (b[3] as bv32 << 24)
  }

  function Bytes(w: bv32): seq<bv8> {
    [(w & 0xff) as bv8, ((w >> 8) & 0xff) as bv8, ((w >> 16) & 0xff) as bv8, ((w >> 24) & 0xff) as bv8]
  }

  lemma BytesOfWord(b: seq<bv8>)
    requires |b| == 4
    ensures Bytes(Word(b)) == b
  {
  }

  const CIPHER_NONE: bv32 := 0
  const CIPHER_CCMP: bv32 := 4

  /** One station as the MAC sees it. `key` is what lies behind the entry's cross-link. */
  datatype Slot = Slot(addr: seq<bv8>, rxValid: bool, keyValid: bool, keyId: bv32, cipher: bv32,
                       admitted: bool, key: seq<bv8>)

  function KeyBytes(k: seq<bv32>): seq<bv8>
    requires |k| == 4
  {
    Bytes(k[0]) + Bytes(k[1]) + Bytes(k[2]) + Bytes(k[3])
  }

  /** The meaning of DW0, DW1, DW2, DW4 and the four key words. */
  function SlotOf(s: seq<bv32>): Slot
    requires |s| == 8
  {
    Slot(Bytes(s[1]) + Bytes(s[0])[..2], s[0] & (1 << 28) != 0, s[0] & (1 << 26) != 0, (s[0] >> 23) & 3,
         (s[2] >> 3) & 0xf, s[2] & (1 << 30) != 0,
         KeyBytes(s[4..]))
  }

  function Entry(w: nat): u32
    requires w < 2
  {
    WTBL1_BASE + w * WTBL1_ENTRY_SIZE
  }

  function KeyBase(w: nat): u32
    requires w < 2
  {
    WTBL3_KEY_BASE + w * WTBL3_ENTRY_SIZE
  }

  /** The words of one station, its key being read at `key`. */
  function WordsAt(r: RegFile, w: nat, key: int): (s: seq<bv32>)
    requires w < 2
    ensures |s| == 8
  {
    [r(Entry(w)), r(Entry(w) + 4), r(Entry(w) + 8), r(Entry(w) + 0x10),
     r(key), r(key + 4), r(key + 8), r(key + 12)]
  }

  /** The station as the MAC finds it, following the key link. */
  function SlotAt(r: RegFile, w: nat): Slot
    requires w < 2
  {
    SlotOf(WordsAt(r, w, KeyLink(r(Entry(w) + 0x10)) as int))
  }

  /** DW4 of entries 0 and 1, the only two stations the driver programs. */
  function LinkWord(w: nat): bv32
    requires w < 2
  {
    if w == 0 then 0x40 else 0x2_1040
  }

  lemma LinkWords()
    ensures LinkWord(0) == WtblDw4(0) && LinkWord(1) == WtblDw4(1)
    ensures KeyLink(LinkWord(0)) as int == KeyBase(0) && KeyLink(LinkWord(1)) as int == KeyBase(1)
  {
  }

  /** The entry carries the cross-links of its own index. */
  predicate Linked(r: RegFile, w: nat)
    requires w < 2
  {
    r(Entry(w) + 0x10) == LinkWord(w)
  }

  /** The words of one station, its key being read where `set_key` writes it. */
  function StationWords(r: RegFile, w: nat): (s: seq<bv32>)
    requires w < 2
    ensures |s| == 8
  {
    WordsAt(r, w, KeyBase(w))
  }

  lemma SlotAtLinked(r: RegFile, w: nat)
    requires w < 2 && Linked(r, w)
    ensures SlotAt(r, w) == SlotOf(StationWords(r, w))
  {
    LinkWords();
  }

  /** The registers of one station: its entry and its key memory. */
  predicate InStation(w: nat, addr: int)
    requires w < 2
  {
    Entry(w) <= addr < Entry(w) + 0x20 || KeyBase(w) <= addr < KeyBase(w) + 0x40
  }

  ghost predicate SameStation(r: RegFile, r': RegFile, w: nat)
    requires w < 2
  {
    forall addr | InStation(w, addr) :: r'(addr) == r(addr)
  }

  lemma SameStationSameWords(r: RegFile, r': RegFile, w: nat)
    requires w < 2 && SameStation(r, r', w)
    ensures StationWords(r', w) == StationWords(r, w)
  {
  }

  // ---- set_key ----

  function KeyedDw0(dw0: bv32, keyIdx: bv32, rkv: bool): bv32 {
    var dw := (dw0 & !(3 << 23)) | ((1 << 28) | (1 << 22) | (1 << 25) | ((keyIdx & 3) << 23));
    if rkv then dw | (1 << 26) else dw & !(1 << 26)
  }

  function KeyedDw2(dw2: bv32): bv32 {
    (dw2 & !0x78) | (4 << 3) | (1 << 30)
  }

  function UnkeyedDw0(dw0: bv32): bv32 {
    dw0 & !((1 << 26) | (3 << 23))
  }

  function UnkeyedDw2(dw2: bv32): bv32 {
    dw2 & !0x78
  }

  /** The address bytes survive; validity, key index, cipher and admission take their new values. */
  lemma KeyedFields(dw0: bv32, dw2: bv32, keyIdx: bv32, rkv: bool)
    ensures var new0, new2 := KeyedDw0(dw0, keyIdx, rkv), KeyedDw2(dw2);
      && Bytes(new0)[..2] == Bytes(dw0)[..2] && new0 & (1 << 28) != 0 && (new0 & (1 << 26) != 0) == rkv
      && (new0 >> 23) & 3 == keyIdx & 3 && (new2 >> 3) & 0xf == CIPHER_CCMP && new2 & (1 << 30) != 0
  {
  }

  lemma UnkeyedFields(dw0: bv32, dw2: bv32)
    ensures var new0, new2 := UnkeyedDw0(dw0), UnkeyedDw2(dw2);
      && Bytes(new0)[..2] == Bytes(dw0)[..2] && (new0 & (1 << 28) != 0) == (dw0 & (1 << 28) != 0)
      && new0 & (1 << 26) == 0 && (new0 >> 23) & 3 == 0
      && (new2 >> 3) & 0xf == CIPHER_NONE && (new2 & (1 << 30) != 0) == (dw2 & (1 << 30) != 0)
  {
  }

  /** The writes of `set_key`: four key words, a fresh packet number, DW0, DW2 and the flush. */
  function StoreKeyOps(w: nat, k: seq<bv32>, dw0: bv32, dw2: bv32): seq<RegOp>
    requires w < 2 && |k| == 4
  {
    [RegOp(KeyBase(w), k[0]), RegOp(KeyBase(w) + 4, k[1]), RegOp(KeyBase(w) + 8, k[2]), RegOp(KeyBase(w) + 12, k[3]),
     RegOp(WTBL2_BASE + w * WTBL2_ENTRY_SIZE, 1), RegOp(WTBL2_BASE + w * WTBL2_ENTRY_SIZE + 4, 0),
     RegOp(Entry(w), dw0), RegOp(Entry(w) + 8, dw2), RegOp(WTBL1OR, 0x8000_0000), RegOp(WTBL1OR, 0)]
  }

  lemma StoreKeyEntry(r: RegFile, w: nat, k: seq<bv32>, dw0: bv32, dw2: bv32)
    requires w < 2 && |k| == 4
    ensures StationWords(Exec(r, StoreKeyOps(w, k, dw0, dw2)), w)[..4]
         == [dw0, StationWords(r, w)[1], dw2, StationWords(r, w)[3]]
  {
    var ops := StoreKeyOps(w, k, dw0, dw2);
    ExecGet(r, ops, 6);
    ExecGet(r, ops, 7);
    ExecKeeps(r, ops, Entry(w) + 4);
    ExecKeeps(r, ops, Entry(w) + 0x10);
  }

  lemma StoreKeyKey(r: RegFile, w: nat, k: seq<bv32>, dw0: bv32, dw2: bv32)
    requires w < 2 && |k| == 4
    ensures StationWords(Exec(r, StoreKeyOps(w, k, dw0, dw2)), w)[4..] == k
  {
    var ops := StoreKeyOps(w, k, dw0, dw2);
    ExecGet(r, ops, 0);
    ExecGet(r, ops, 1);
    ExecGet(r, ops, 2);
    ExecGet(r, ops, 3);
  }

  lemma StoreKeyWords(r: RegFile, w: nat, k: seq<bv32>, dw0: bv32, dw2: bv32)
    requires w < 2 && |k| == 4
    ensures StationWords(Exec(r, StoreKeyOps(w, k, dw0, dw2)), w)
         == [dw0, StationWords(r, w)[1], dw2, StationWords(r, w)[3]] + k
  {
    StoreKeyEntry(r, w, k, dw0, dw2);
    StoreKeyKey(r, w, k, dw0, dw2);
    var s := StationWords(Exec(r, StoreKeyOps(w, k, dw0, dw2)), w);
    assert s == s[..4] + s[4..];
  }

  lemma StoreKeyKeepsOther(r: RegFile, w: nat, k: seq<bv32>, dw0: bv32, dw2: bv32)
    requires w < 2 && |k| == 4
    ensures SameStation(r, Exec(r, StoreKeyOps(w, k, dw0, dw2)), 1 - w)
  {
    forall addr | InStation(1 - w, addr)
      ensures Exec(r, StoreKeyOps(w, k, dw0, dw2))(addr) == r(addr)
    {
      ExecKeeps(r, StoreKeyOps(w, k, dw0, dw2), addr);
    }
  }

  function KeyWords(key: seq<bv8>): (k: seq<bv32>)
    requires |key| == 16
    ensures |k| == 4
  {
    [Word(key[..4]), Word(key[4..8]), Word(key[8..12]), Word(key[12..])]
  }

  lemma KeyWordsRoundTrip(key: seq<bv8>)
    requires |key| == 16
    ensures KeyBytes(KeyWords(key)) == key
  {
    BytesOfWord(key[..4]);
    BytesOfWord(key[4..8]);
    BytesOfWord(key[8..12]);
    BytesOfWord(key[12..]);
  }

  /** The registers after a CCMP key is installed. */
  function SetKeyRegs(r: RegFile, w: nat, key: seq<bv8>, keyIdx: bv32, rkv: bool): RegFile
    requires w < 2 && |key| == 16
  {
    Exec(r, StoreKeyOps(w, KeyWords(key), KeyedDw0(r(Entry(w)), keyIdx, rkv), KeyedDw2(r(Entry(w) + 8))))
  }

  function Keyed(s: Slot, key: seq<bv8>, keyIdx: bv32, rkv: bool): Slot {
    s.(rxValid := true, keyValid := rkv, keyId := keyIdx & 3, cipher := CIPHER_CCMP, admitted := true, key := key)
  }

  function Unkeyed(s: Slot): Slot {
    s.(keyValid := false, keyId := 0, cipher := CIPHER_NONE)
  }

  function FreshGroup(key: seq<bv8>): Slot {
    Slot(BROADCAST, true, false, 0, CIPHER_NONE, false, key)
  }

  function FreshPeer(addr: Mac, key: seq<bv8>): Slot {
    Slot(addr, true, false, 0, CIPHER_NONE, true, key)
  }

  function NoPeer(key: seq<bv8>): Slot {
    Slot([0, 0, 0, 0, 0, 0], false, false, 0, CIPHER_NONE, false, key)
  }

  /** The words of both stations. */
  datatype Stations = Stations(group: seq<bv32>, peer: seq<bv32>) {
    predicate Valid() {
      |group| == 8 && |peer| == 8 && group[3] == LinkWord(0) && peer[3] == LinkWord(1)
    }

    function Get(w: nat): seq<bv32>
      requires w < 2
    {
      if w == 0 then group else peer
    }

    function Put(w: nat, s: seq<bv32>): Stations
      requires w < 2
    {
      if w == 0 then this.(group := s) else this.(peer := s)
    }
  }

  function StationsOf(r: RegFile): Stations {
    Stations(StationWords(r, 0), StationWords(r, 1))
  }

  lemma OneStationChanged(r: RegFile, r': RegFile, w: nat, s: seq<bv32>)
    requires w < 2 && SameStation(r, r', 1 - w) && StationWords(r', w) == s
    ensures StationsOf(r') == StationsOf(r).Put(w, s)
  {
    if w == 0 {
      SameStationSameWords(r, r', 1);
    } else {
      SameStationSameWords(r, r', 0);
    }
  }

  function KeyedWords(s: seq<bv32>, key: seq<bv8>, keyIdx: bv32, rkv: bool): seq<bv32>
    requires |s| == 8 && |key| == 16
  {
    [KeyedDw0(s[0], keyIdx, rkv), s[1], KeyedDw2(s[2]), s[3]] + KeyWords(key)
  }

  function UnkeyedWords(s: seq<bv32>): seq<bv32>
    requires |s| == 8
  {
    [UnkeyedDw0(s[0]), s[1], UnkeyedDw2(s[2])] + s[3..]
  }

  lemma StoreKeyEffect(r: RegFile, w: nat, k: seq<bv32>, dw0: bv32, dw2: bv32)
    requires w < 2 && |k| == 4
    ensures StationsOf(Exec(r, StoreKeyOps(w, k, dw0, dw2)))
         == StationsOf(r).Put(w, [dw0, StationWords(r, w)[1], dw2, StationWords(r, w)[3]] + k)
  {
    StoreKeyWords(r, w, k, dw0, dw2);
    StoreKeyKeepsOther(r, w, k, dw0, dw2);
    OneStationChanged(r, Exec(r, StoreKeyOps(w, k, dw0, dw2)), w,
                      [dw0, StationWords(r, w)[1], dw2, StationWords(r, w)[3]] + k);
  }

  function RemoveKeyRegs(r: RegFile, w: nat): RegFile
    requires w < 2
  {
    Set(Set(r, Entry(w), UnkeyedDw0(r(Entry(w)))), Entry(w) + 8, UnkeyedDw2(r(Entry(w) + 8)))
  }

  lemma TwoWordsEffect(r: RegFile, w: nat, dw0: bv32, dw2: bv32)
    requires w < 2
    ensures StationsOf(Set(Set(r, Entry(w), dw0), Entry(w) + 8, dw2))
         == StationsOf(r).Put(w, [dw0, StationWords(r, w)[1], dw2] + StationWords(r, w)[3..])
  {
    OneStationChanged(r, Set(Set(r, Entry(w), dw0), Entry(w) + 8, dw2), w,
                      [dw0, StationWords(r, w)[1], dw2] + StationWords(r, w)[3..]);
  }

  // ---- sta_add and sta_remove ----

  const BROADCAST: Mac := [0xff, 0xff, 0xff, 0xff, 0xff, 0xff]
  const MCAST_DW0: bv32 := (1 << 29) | (1 << 28) | (1 << 22) | (0x0E << 16) | (0xFF << 8) | 0xFF
  const PEER_DW2: bv32 := (1 << 30) | (1 << 28) | (1 << 27) | (1 << 21) | (1 << 20)

  function PeerDw0(bssid: Mac): bv32 {
    (1 << 29) | (1 << 28) | (bssid[5] as bv32 << 8) | (bssid[4] as bv32)
  }

  /** The twelve writes of `build_wtbl_sta_sequence` (src/rust/src/sta.rs). */
  function StaOps(bssid: Mac): seq<RegOp> {
    [RegOp(WTBL1_BASE, MCAST_DW0), RegOp(WTBL1_BASE + 0x04, 0xFFFF_FFFF), RegOp(WTBL1_BASE + 0x08, 0),
     RegOp(WTBL1_BASE + WTBL1_ENTRY_SIZE, PeerDw0(bssid)),
     RegOp(WTBL1_BASE + WTBL1_ENTRY_SIZE + 0x04, Word(bssid[..4])),
     RegOp(WTBL1_BASE + WTBL1_ENTRY_SIZE + 0x08, PEER_DW2),
     RegOp(WTBL1OR, 0x8000_0000),
     RegOp(WTBL1_BASE + 0x0C, WtblDw3(0)), RegOp(WTBL1_BASE + 0x10, WtblDw4(0)),
     RegOp(WTBL1_BASE + WTBL1_ENTRY_SIZE + 0x0C, WtblDw3(1)), RegOp(WTBL1_BASE + WTBL1_ENTRY_SIZE + 0x10, WtblDw4(1)),
     RegOp(WTBL1OR, 0)]
  }

  lemma StaOpsGroup(r: RegFile, bssid: Mac)
    ensures StationWords(Exec(r, StaOps(bssid)), 0)[..4] == [MCAST_DW0, 0xFFFF_FFFF, 0, LinkWord(0)]
  {
    var ops := StaOps(bssid);
    ExecGet(r, ops, 0);
    ExecGet(r, ops, 1);
    ExecGet(r, ops, 2);
    ExecGet(r, ops, 8);
    LinkWords();
  }

  lemma StaOpsPeer(r: RegFile, bssid: Mac)
    ensures StationWords(Exec(r, StaOps(bssid)), 1)[..4] == [PeerDw0(bssid), Word(bssid[..4]), PEER_DW2, LinkWord(1)]
  {
    var ops := StaOps(bssid);
    ExecGet(r, ops, 3);
    ExecGet(r, ops, 4);
    ExecGet(r, ops, 5);
    ExecGet(r, ops, 10);
    LinkWords();
  }

  /** Nothing outside the station entries and the flush register is written. */
  lemma StaOpsKeep(r: RegFile, bssid: Mac, addr: int)
    requires WTBL2_BASE <= addr < FIRST_GLOBAL
    ensures Exec(r, StaOps(bssid))(addr) == r(addr)
  {
    ExecKeeps(r, StaOps(bssid), addr);
  }

  /** The meaning of an entry after a key is installed: its key material is new and its address
      is not touched. */
  lemma KeyedSlot(s: seq<bv32>, key: seq<bv8>, keyIdx: bv32, rkv: bool)
    requires |s| == 8 && |key| == 16
    ensures SlotOf(KeyedWords(s, key, keyIdx, rkv)) == Keyed(SlotOf(s), key, keyIdx, rkv)
  {
    KeyWordsRoundTrip(key);
    KeyedFields(s[0], s[2], keyIdx, rkv);
  }

  lemma UnkeyedParts(s: seq<bv32>)
    requires |s| == 8
    ensures var u := UnkeyedWords(s);
      |u| == 8 && u[0] == UnkeyedDw0(s[0]) && u[1] == s[1] && u[2] == UnkeyedDw2(s[2]) && u[4..] == s[4..]
  {
  }

  lemma UnkeyedSlot(s: seq<bv32>)
    requires |s| == 8
    ensures SlotOf(UnkeyedWords(s)) == Unkeyed(SlotOf(s))
  {
    UnkeyedParts(s);
    UnkeyedFields(s[0], s[2]);
  }

  lemma FreshGroupSlot(k: seq<bv32>)
    requires |k| == 4
    ensures SlotOf([MCAST_DW0, 0xFFFF_FFFF, 0, LinkWord(0)] + k) == FreshGroup(KeyBytes(k))
  {
    assert ([MCAST_DW0, 0xFFFF_FFFF, 0, LinkWord(0)] + k)[4..] == k;
  }

  lemma FreshPeerSlot(bssid: Mac, k: seq<bv32>)
    requires |k| == 4
    ensures SlotOf([PeerDw0(bssid), Word(bssid[..4]), PEER_DW2, LinkWord(1)] + k) == FreshPeer(bssid, KeyBytes(k))
  {
    assert ([PeerDw0(bssid), Word(bssid[..4]), PEER_DW2, LinkWord(1)] + k)[4..] == k;
    BytesOfWord(bssid[..4]);
    assert Bytes(PeerDw0(bssid))[..2] == bssid[4..];
    assert bssid == bssid[..4] + bssid[4..];
  }

  lemma NoPeerSlot(k: seq<bv32>)
    requires |k| == 4
    ensures SlotOf([0, 0, 0, LinkWord(1)] + k) == NoPeer(KeyBytes(k))
  {
    assert ([0, 0, 0, LinkWord(1)] + k)[4..] == k;
  }

  // ---- Words that the unit tests and the comments of the source spell out ----

  lemma StaOpsValues()
    ensures StaOps([0xfc, 0x34, 0x97, 0x19, 0x0e, 0x01])
         == [RegOp(0x2_8000, 0x304e_ffff), RegOp(0x2_8004, 0xffff_ffff), RegOp(0x2_8008, 0),
             RegOp(0x2_8020, 0x3000_010e), RegOp(0x2_8024, 0x1997_34fc), RegOp(0x2_8028, 0x5830_0000),
             RegOp(0x2_A300, 0x8000_0000),
             RegOp(0x2_800C, 0x3080_0000), RegOp(0x2_8010, 0x40), RegOp(0x2_802C, 0x3080_0800), RegOp(0x2_8030, 0x2_1040),
             RegOp(0x2_A300, 0)]
  {
    LinkValues();
    var bssid: Mac := [0xfc, 0x34, 0x97, 0x19, 0x0e, 0x01];
    assert bssid[..4] == [0xfc, 0x34, 0x97, 0x19];
  }

  lemma KeyWordValues()
    ensures KeyedDw0(0, 0, true) == 0x1640_0000 && KeyedDw0(0x0400_0000, 1, false) == 0x12c0_0000 && KeyedDw2(0x78) == 0x4000_0020
    ensures UnkeyedDw0(0xffff_ffff) == 0xfa7f_ffff && UnkeyedDw2(0xffff_ffff) == 0xffff_ff87
  {
  }
}
