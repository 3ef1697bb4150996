/** Every sequence of driver calls on the wireless table, refined to an abstract table. */
module WtblRun {
  import opened Machine
  import opened Device
  import opened BlockAck
  import opened Wtbl

  /** One call into the driver that touches the table. `staKnown` stands for a station argument
      whose address is not zero, `apMode` for an interface of access-point type; a zero `bssid`
      stands for the end of an association. */
  datatype Event =
    | StaAdd(addr: Mac, apMode: bool)
    | StaRemove(apMode: bool)
    | BssChanged(bssid: Mac, apMode: bool)
    | InstallKey(pairwise: bool, staKnown: bool, ccmp: bool, key: seq<bv8>, keyIdx: bv32, apMode: bool)
    | RemoveKey(pairwise: bool, staKnown: bool)
    | SessionStart(staKnown: bool, tid: u8, bufSize: u16)
    | SessionStop(staKnown: bool, tid: u8)
  {
    /** CCMP keys have sixteen bytes. */
    predicate Valid() {
      InstallKey? && ccmp ==> |key| == 16
    }
  }

  function WcidOf(pairwise: bool, staKnown: bool): nat {
    if pairwise || staKnown then 1 else 0
  }

  function CurrentBssid(r: RegFile, lo: bv32, hi: bv32): RegFile {
    Set(Set(r, 0x21804, lo), 0x21808, hi)
  }

  function StaAddRegs(r: RegFile, addr: Mac, apMode: bool): RegFile {
    if addr == [0, 0, 0, 0, 0, 0] then r else
    var r1 := if apMode then r
              else CurrentBssid(r, Word(addr[..4]), BssidHigh(addr));
    Set(Exec(r1, StaOps(addr)), SessionRegister(1), 0)
  }

  function StaRemoveRegs(r: RegFile, apMode: bool): RegFile {
    var r1 := if apMode then r else CurrentBssid(r, 0, 0);
    Set(Set(Set(r1, Entry(1), 0), Entry(1) + 4, 0), Entry(1) + 8, 0)
  }

  /** Current BSSID, and a single one. */
  function NewBssid(r: RegFile, bssid: Mac): RegFile {
    var r1 := CurrentBssid(r, Word(bssid[..4]), BssidHigh(bssid));
    Set(r1, RMACDR, SingleBssid(r1(RMACDR)))
  }

  const RMACDR: u32 := 0x21878

  function SingleBssid(rmacdr: bv32): bv32 {
    rmacdr & !0x0300_0000
  }

  function BssidHigh(a: Mac): bv32 {
    (a[4] as bv32) | (a[5] as bv32 << 8) | (1 << 16)
  }

  function BssRegs(r: RegFile, bssid: Mac, apMode: bool): RegFile {
    if bssid == [0, 0, 0, 0, 0, 0] then (if apMode then r else StaRemoveRegs(r, false))
    else if apMode then NewBssid(r, bssid) else StaAddRegs(NewBssid(r, bssid), bssid, true)
  }

  function SessionRegs(r: RegFile, w: nat, tid: u8, enable: bool, size: u8): RegFile
    requires w < 2
  {
    if tid >= 8 then r
    else Set(r, SessionRegister(w), if enable
      then WithSession(r(SessionRegister(w)), AsTid(tid), AsBits(WindowIndex(size)))
      else WithoutSession(r(SessionRegister(w)), AsTid(tid)))
  }

  /** What a call leaves in the registers when its transfers succeed. */
  function Step(r: RegFile, e: Event): RegFile
    requires e.Valid()
  {
    match e
    case StaAdd(addr, ap) => StaAddRegs(r, addr, ap)
    case StaRemove(ap) => StaRemoveRegs(r, ap)
    case BssChanged(bssid, ap) => BssRegs(r, bssid, ap)
    case InstallKey(pairwise, known, ccmp, key, keyIdx, ap) =>
      var w := WcidOf(pairwise, known);
      if ccmp then SetKeyRegs(r, w, key, keyIdx, w != 0 || !ap) else r
    case RemoveKey(pairwise, known) => RemoveKeyRegs(r, WcidOf(pairwise, known))
    case SessionStart(known, tid, size) => SessionRegs(r, WcidOf(false, known), tid, true, BuilderSize(size))
    case SessionStop(known, tid) => SessionRegs(r, WcidOf(false, known), tid, false, 0)
  }

  /** Both stations set up anew, except for their keys' memory. */
  function AddedWords(s: Stations, addr: Mac): Stations
    requires s.Valid()
  {
    Stations([MCAST_DW0, 0xFFFF_FFFF, 0, LinkWord(0)] + s.group[4..],
             [PeerDw0(addr), Word(addr[..4]), PEER_DW2, LinkWord(1)] + s.peer[4..])
  }

  function RemovedWords(s: Stations): Stations
    requires s.Valid()
  {
    s.(peer := [0, 0, 0] + s.peer[3..])
  }

  /** What the call does to the words of the two stations. */
  function StepStations(s: Stations, e: Event): Stations
    requires e.Valid() && s.Valid()
  {
    match e
    case StaAdd(addr, _) =>
      if addr == [0, 0, 0, 0, 0, 0] then s else AddedWords(s, addr)
    case StaRemove(_) => RemovedWords(s)
    case BssChanged(bssid, ap) =>
      if ap then s else if bssid == [0, 0, 0, 0, 0, 0] then RemovedWords(s) else AddedWords(s, bssid)
    case InstallKey(pairwise, known, ccmp, key, keyIdx, ap) =>
      var w := WcidOf(pairwise, known);
      if ccmp then s.Put(w, KeyedWords(s.Get(w), key, keyIdx, w != 0 || !ap)) else s
    case RemoveKey(pairwise, known) =>
      var w := WcidOf(pairwise, known);
      s.Put(w, UnkeyedWords(s.Get(w)))
    case SessionStart(_, _, _) => s
    case SessionStop(_, _) => s
  }

  lemma StaAddStations(r: RegFile, addr: Mac, apMode: bool)
    requires addr != [0, 0, 0, 0, 0, 0]
    ensures StationsOf(StaAddRegs(r, addr, apMode))
         == Stations([MCAST_DW0, 0xFFFF_FFFF, 0, LinkWord(0)] + StationWords(r, 0)[4..],
                     [PeerDw0(addr), Word(addr[..4]), PEER_DW2, LinkWord(1)] + StationWords(r, 1)[4..])
  {
    var r1 := if apMode then r
              else CurrentBssid(r, Word(addr[..4]), BssidHigh(addr));
    var r2 := Exec(r1, StaOps(addr));
    StaOpsGroup(r1, addr);
    StaOpsPeer(r1, addr);
    forall a | WTBL3_KEY_BASE <= a < WTBL3_KEY_BASE + 0x80
      ensures r2(a) == r(a)
    {
      StaOpsKeep(r1, addr, a);
    }
    var r3 := StaAddRegs(r, addr, apMode);
    SplitWords(r3, r2, r, 0);
    SplitWords(r3, r2, r, 1);
  }

  /** Entry words from one register file, key words from another. */
  lemma SplitWords(r3: RegFile, r2: RegFile, r: RegFile, w: nat)
    requires w < 2
    requires forall a | Entry(w) <= a < Entry(w) + 0x20 :: r3(a) == r2(a)
    requires forall a | KeyBase(w) <= a < KeyBase(w) + 0x40 :: r3(a) == r(a)
    ensures StationWords(r3, w) == StationWords(r2, w)[..4] + StationWords(r, w)[4..]
  {
  }

  lemma StaRemoveStations(r: RegFile, apMode: bool)
    ensures StationsOf(StaRemoveRegs(r, apMode)) == StationsOf(r).(peer := [0, 0, 0] + StationWords(r, 1)[3..])
  {
    OneStationChanged(r, StaRemoveRegs(r, apMode), 1, [0, 0, 0] + StationWords(r, 1)[3..]);
  }

  lemma InstallKeyStations(r: RegFile, w: nat, key: seq<bv8>, keyIdx: bv32, rkv: bool)
    requires w < 2 && |key| == 16
    ensures StationsOf(SetKeyRegs(r, w, key, keyIdx, rkv))
         == StationsOf(r).Put(w, KeyedWords(StationWords(r, w), key, keyIdx, rkv))
  {
    StoreKeyEffect(r, w, KeyWords(key), KeyedDw0(r(Entry(w)), keyIdx, rkv), KeyedDw2(r(Entry(w) + 8)));
  }

  lemma RemoveKeyStations(r: RegFile, w: nat)
    requires w < 2
    ensures StationsOf(RemoveKeyRegs(r, w)) == StationsOf(r).Put(w, UnkeyedWords(StationWords(r, w)))
  {
    TwoWordsEffect(r, w, UnkeyedDw0(r(Entry(w))), UnkeyedDw2(r(Entry(w) + 8)));
  }

  lemma SessionKeepsStations(r: RegFile, w: nat, tid: u8, enable: bool, size: u8)
    requires w < 2
    ensures StationsOf(SessionRegs(r, w, tid, enable, size)) == StationsOf(r)
  {
    SameStationSameWords(r, SessionRegs(r, w, tid, enable, size), 0);
    SameStationSameWords(r, SessionRegs(r, w, tid, enable, size), 1);
  }

  /** The BSSID registers are no part of the tables. */
  lemma NewBssidKeeps(r: RegFile, bssid: Mac)
    ensures StationsOf(NewBssid(r, bssid)) == StationsOf(r)
    ensures forall a | 0x22000 <= a :: NewBssid(r, bssid)(a) == r(a)
  {
    SameStationSameWords(r, NewBssid(r, bssid), 0);
    SameStationSameWords(r, NewBssid(r, bssid), 1);
  }

  lemma NewBssFollowsWords(r: RegFile, bssid: Mac)
    requires StationsOf(r).Valid() && bssid != [0, 0, 0, 0, 0, 0]
    ensures StationsOf(StaAddRegs(NewBssid(r, bssid), bssid, true)) == AddedWords(StationsOf(r), bssid)
  {
    var r2 := NewBssid(r, bssid);
    NewBssidKeeps(r, bssid);
    StaAddStations(r2, bssid, true);
    assert StationWords(r2, 0) == StationsOf(r2).group && StationWords(r2, 1) == StationsOf(r2).peer;
  }

  lemma BssFollowsWords(r: RegFile, bssid: Mac, ap: bool)
    requires StationsOf(r).Valid()
    ensures StationsOf(BssRegs(r, bssid, ap)) == StepStations(StationsOf(r), BssChanged(bssid, ap))
  {
    if bssid == [0, 0, 0, 0, 0, 0] {
      StaRemoveStations(r, false);
    } else if ap {
      NewBssidKeeps(r, bssid);
    } else {
      NewBssFollowsWords(r, bssid);
    }
  }

  lemma KeyFollowsWords(r: RegFile, e: Event)
    requires e.Valid() && StationsOf(r).Valid() && (e.InstallKey? || e.RemoveKey?)
    ensures StationsOf(Step(r, e)) == StepStations(StationsOf(r), e)
  {
    var w := WcidOf(e.pairwise, e.staKnown);
    if e.RemoveKey? {
      RemoveKeyStations(r, w);
    } else if e.ccmp {
      InstallKeyStations(r, w, e.key, e.keyIdx, w != 0 || !e.apMode);
    }
  }

  lemma SessionFollowsWords(r: RegFile, e: Event)
    requires StationsOf(r).Valid() && (e.SessionStart? || e.SessionStop?)
    ensures StationsOf(Step(r, e)) == StepStations(StationsOf(r), e)
  {
    var w := WcidOf(false, e.staKnown);
    if e.SessionStart? {
      SessionKeepsStations(r, w, e.tid, true, BuilderSize(e.bufSize));
    } else {
      SessionKeepsStations(r, w, e.tid, false, 0);
    }
  }

  lemma PeerFollowsWords(r: RegFile, e: Event)
    requires StationsOf(r).Valid() && (e.StaAdd? || e.StaRemove?)
    ensures StationsOf(Step(r, e)) == StepStations(StationsOf(r), e)
  {
    if e.StaRemove? {
      StaRemoveStations(r, e.apMode);
    } else if e.addr != [0, 0, 0, 0, 0, 0] {
      StaAddStations(r, e.addr, e.apMode);
    }
  }

  /** The register file follows the words, call by call. */
  lemma StepFollowsWords(r: RegFile, e: Event)
    requires e.Valid() && StationsOf(r).Valid()
    ensures StationsOf(Step(r, e)) == StepStations(StationsOf(r), e)
  {
    if e.StaAdd? || e.StaRemove? {
      PeerFollowsWords(r, e);
    } else if e.BssChanged? {
      BssFollowsWords(r, e.bssid, e.apMode);
    } else if e.InstallKey? || e.RemoveKey? {
      KeyFollowsWords(r, e);
    } else {
      SessionFollowsWords(r, e);
    }
  }

  /** No call breaks a cross-link. */
  lemma StepKeepsLinks(s: Stations, e: Event)
    requires e.Valid() && s.Valid()
    ensures StepStations(s, e).Valid()
  {
  }

  /** Both stations, meaning by meaning. */
  datatype Table = Table(group: Slot, peer: Slot) {
    function Get(w: nat): Slot
      requires w < 2
    {
      if w == 0 then group else peer
    }

    function Put(w: nat, s: Slot): Table
      requires w < 2
    {
      if w == 0 then this.(group := s) else this.(peer := s)
    }
  }

  function TableOf(s: Stations): Table
    requires s.Valid()
  {
    Table(SlotOf(s.group), SlotOf(s.peer))
  }

  function AddedTable(t: Table, addr: Mac): Table {
    Table(FreshGroup(t.group.key), FreshPeer(addr, t.peer.key))
  }

  /** The same call on the abstract table. */
  function StepTable(t: Table, e: Event): Table {
    match e
    case StaAdd(addr, _) =>
      if addr == [0, 0, 0, 0, 0, 0] then t else AddedTable(t, addr)
    case StaRemove(_) => t.(peer := NoPeer(t.peer.key))
    case BssChanged(bssid, ap) =>
      if ap then t else if bssid == [0, 0, 0, 0, 0, 0] then t.(peer := NoPeer(t.peer.key)) else AddedTable(t, bssid)
    case InstallKey(pairwise, known, ccmp, key, keyIdx, ap) =>
      var w := WcidOf(pairwise, known);
      if ccmp then t.Put(w, Keyed(t.Get(w), key, keyIdx, w != 0 || !ap)) else t
    case RemoveKey(pairwise, known) =>
      var w := WcidOf(pairwise, known);
      t.Put(w, Unkeyed(t.Get(w)))
    case SessionStart(_, _, _) => t
    case SessionStop(_, _) => t
  }

  lemma AddFollowsTable(s: Stations, addr: Mac)
    requires s.Valid() && AddedWords(s, addr).Valid()
    ensures TableOf(AddedWords(s, addr)) == AddedTable(TableOf(s), addr)
  {
    FreshGroupSlot(s.group[4..]);
    FreshPeerSlot(addr, s.peer[4..]);
  }

  lemma RemoveFollowsTable(s: Stations)
    requires s.Valid() && RemovedWords(s).Valid()
    ensures TableOf(RemovedWords(s)) == TableOf(s).(peer := NoPeer(TableOf(s).peer.key))
  {
    NoPeerSlot(s.peer[4..]);
    assert [0, 0, 0] + s.peer[3..] == [0, 0, 0, LinkWord(1)] + s.peer[4..];
  }

  lemma KeyFollowsTable(s: Stations, e: Event)
    requires ((e.InstallKey? && e.ccmp) || e.RemoveKey?) && e.Valid() && s.Valid() && StepStations(s, e).Valid()
    ensures TableOf(StepStations(s, e)) == StepTable(TableOf(s), e)
  {
    var w := WcidOf(e.pairwise, e.staKnown);
    if e.InstallKey? {
      KeyedSlot(s.Get(w), e.key, e.keyIdx, w != 0 || !e.apMode);
    } else {
      UnkeyedSlot(s.Get(w));
    }
  }

  lemma WordsFollowTable(s: Stations, e: Event)
    requires e.Valid() && s.Valid() && StepStations(s, e).Valid()
    ensures TableOf(StepStations(s, e)) == StepTable(TableOf(s), e)
  {
    if e.StaAdd? && e.addr != [0, 0, 0, 0, 0, 0] {
      AddFollowsTable(s, e.addr);
    } else if e.BssChanged? && !e.apMode && e.bssid != [0, 0, 0, 0, 0, 0] {
      AddFollowsTable(s, e.bssid);
    } else if e.StaRemove? || (e.BssChanged? && !e.apMode) {
      RemoveFollowsTable(s);
    } else if (e.InstallKey? && e.ccmp) || e.RemoveKey? {
      KeyFollowsTable(s, e);
    }
  }

  predicate ValidRun(es: seq<Event>) {
    forall i :: 0 <= i < |es| ==> es[i].Valid()
  }

  function Run(r: RegFile, es: seq<Event>): RegFile
    requires ValidRun(es)
    decreases |es|
  {
    if es == [] then r else Run(Step(r, es[0]), es[1..])
  }

  function RunTable(t: Table, es: seq<Event>): Table
    decreases |es|
  {
    if es == [] then t else RunTable(StepTable(t, es[0]), es[1..])
  }

  /** Over every run, the bit-packed registers decode to the abstract table. */
  lemma {:induction false} RunRefinesTable(r: RegFile, es: seq<Event>)
    requires ValidRun(es) && StationsOf(r).Valid()
    ensures StationsOf(Run(r, es)).Valid()
    ensures TableOf(StationsOf(Run(r, es))) == RunTable(TableOf(StationsOf(r)), es)
    decreases |es|
  {
    if es != [] {
      StepFollowsWords(r, es[0]);
      StepKeepsLinks(StationsOf(r), es[0]);
      WordsFollowTable(StationsOf(r), es[0]);
      RunRefinesTable(Step(r, es[0]), es[1..]);
    }
  }

  // ---- The key the hardware uses ----

  /** The registers that `start` leaves, whatever was there before: the broadcast station twice. */
  function StartRegs(r: RegFile): RegFile {
    Exec(r, StaOps(BROADCAST))
  }

  lemma StartLinks(r: RegFile)
    ensures StationsOf(StartRegs(r)).Valid()
    ensures TableOf(StationsOf(StartRegs(r))).group.cipher == CIPHER_NONE
    ensures TableOf(StationsOf(StartRegs(r))).peer.cipher == CIPHER_NONE
    ensures Sound(TableOf(StationsOf(StartRegs(r))))
  {
    var s := StationsOf(StartRegs(r));
    StaOpsGroup(r, BROADCAST);
    StaOpsPeer(r, BROADCAST);
    assert s.group == s.group[..4] + s.group[4..] && s.peer == s.peer[..4] + s.peer[4..];
    assert s.group[3] == s.group[..4][3] && s.peer[3] == s.peer[..4][3];
    FreshGroupSlot(s.group[4..]);
    FreshPeerSlot(BROADCAST, s.peer[4..]);
  }

  /** A station marked as holding a receive key has a cipher to use it with. */
  predicate Sound(t: Table) {
    (t.group.keyValid ==> t.group.cipher == CIPHER_CCMP) && (t.peer.keyValid ==> t.peer.cipher == CIPHER_CCMP)
  }

  lemma {:induction false} RunStaysSound(t: Table, es: seq<Event>)
    requires Sound(t)
    ensures Sound(RunTable(t, es))
    decreases |es|
  {
    if es != [] {
      RunStaysSound(StepTable(t, es[0]), es[1..]);
    }
  }

  /** What the MAC encrypts and decrypts a station's frames with. */
  datatype KeyUse = InClear | Ccmp(key: seq<bv8>, forReceive: bool)

  function UseOf(s: Slot): KeyUse {
    if s.cipher == CIPHER_CCMP then Ccmp(s.key, s.keyValid) else InClear
  }

  /** What the caller expects of station `w`: the last key given to it, until it is removed or the
      station is set up again or torn down. Pairwise keys and keys of a known station are station
      1's, group keys station 0's; an access point does not receive with a group key. */
  function Expect(u: KeyUse, e: Event, w: nat): KeyUse
    requires w < 2
  {
    match e
    case StaAdd(addr, _) => if addr == [0, 0, 0, 0, 0, 0] then u else InClear
    case StaRemove(_) => if w == 1 then InClear else u
    case BssChanged(bssid, ap) => if !ap && (w == 1 || bssid != [0, 0, 0, 0, 0, 0]) then InClear else u
    case InstallKey(pairwise, known, ccmp, key, _, ap) =>
      if ccmp && (w == 1 <==> pairwise || known) then Ccmp(key, w == 1 || !ap) else u
    case RemoveKey(pairwise, known) => if w == 1 <==> pairwise || known then InClear else u
    case SessionStart(_, _, _) => u
    case SessionStop(_, _) => u
  }

  function ExpectAll(u: KeyUse, es: seq<Event>, w: nat): KeyUse
    requires w < 2
    decreases |es|
  {
    if es == [] then u else ExpectAll(Expect(u, es[0], w), es[1..], w)
  }

  lemma {:induction false} RunTableExpect(t: Table, es: seq<Event>, w: nat)
    requires w < 2
    ensures UseOf(RunTable(t, es).Get(w)) == ExpectAll(UseOf(t.Get(w)), es, w)
    decreases |es|
  {
    if es != [] {
      RunTableExpect(StepTable(t, es[0]), es[1..], w);
    }
  }

  /** From power-on, after `start` and any sequence of calls, following a station's cross-link
      reaches its key memory, and what the hardware finds there is the last key installed, if it
      is still in use at all. */
  lemma KeyLookup(powerOn: RegFile, es: seq<Event>, w: nat)
    requires ValidRun(es) && w < 2
    ensures var r := Run(StartRegs(powerOn), es);
      && KeyLink(r(0x2_8000 + 0x20 * w + 0x10)) as int == 0x4_2000 + 0x40 * w
      && UseOf(SlotAt(r, w)) == ExpectAll(InClear, es, w)
  {
    var r0 := StartRegs(powerOn);
    StartLinks(powerOn);
    RunRefinesTable(r0, es);
    RunTableExpect(TableOf(StationsOf(r0)), es, w);
    LinkedSlot(Run(r0, es), w);
  }

  lemma {:induction false} ExpectLast(u: KeyUse, es: seq<Event>, e: Event, w: nat)
    requires w < 2
    ensures ExpectAll(u, es + [e], w) == Expect(ExpectAll(u, es, w), e, w)
    decreases |es|
  {
    if es == [] {
      assert es + [e] == [e];
      assert ExpectAll(u, [e], w) == ExpectAll(Expect(u, e, w), [e][1..], w);
    } else {
      assert (es + [e])[1..] == es[1..] + [e];
      ExpectLast(Expect(u, es[0], w), es[1..], e, w);
    }
  }

  lemma FourWords(a: seq<bv8>, b: seq<bv8>, c: seq<bv8>, d: seq<bv8>, key: seq<bv8>)
    requires |a| == |b| == |c| == |d| == 4 && a + b + c + d == key
    ensures |key| == 16 && a == key[..4] && b == key[4..8] && c == key[8..12] && d == key[12..16]
  {
  }

  /** The key lies at an address, least significant byte of each word first. */
  predicate KeyAt(r: RegFile, at: int, key: seq<bv8>) {
    |key| == 16 && Bytes(r(at)) == key[..4] && Bytes(r(at + 4)) == key[4..8] && Bytes(r(at + 8)) == key[8..12]
    && Bytes(r(at + 12)) == key[12..16]
  }

  /** What is used lies in the station's own key memory. */
  lemma KeyMemory(r: RegFile, w: nat, key: seq<bv8>, forReceive: bool)
    requires w < 2 && UseOf(SlotOf(StationWords(r, w))) == Ccmp(key, forReceive)
    ensures KeyAt(r, 0x4_2000 + 0x40 * w, key)
  {
    var at := 0x4_2000 + 0x40 * w;
    assert StationWords(r, w)[4..] == [r(at), r(at + 4), r(at + 8), r(at + 12)];
    FourWords(Bytes(r(at)), Bytes(r(at + 4)), Bytes(r(at + 8)), Bytes(r(at + 12)), key);
  }

  /** The key lookup, and the memory it reads. */
  lemma KeyLookupAt(powerOn: RegFile, es: seq<Event>, w: nat)
    requires ValidRun(es) && w < 2
    ensures var r := Run(StartRegs(powerOn), es);
      && UseOf(SlotOf(StationWords(r, w))) == ExpectAll(InClear, es, w)
      && (ExpectAll(InClear, es, w).Ccmp? ==> KeyAt(r, 0x4_2000 + 0x40 * w, ExpectAll(InClear, es, w).key))
  {
    var r0 := StartRegs(powerOn);
    StartLinks(powerOn);
    RunRefinesTable(r0, es);
    RunTableExpect(TableOf(StationsOf(r0)), es, w);
    var u := ExpectAll(InClear, es, w);
    if u.Ccmp? {
      KeyMemory(Run(r0, es), w, u.key, u.forReceive);
    }
  }

  /** The key is used by station `w`, found by the hardware through its cross-link. */
  lemma KeyInUse(powerOn: RegFile, es: seq<Event>, w: nat, key: seq<bv8>, forReceive: bool)
    requires ValidRun(es) && w < 2 && ExpectAll(InClear, es, w) == Ccmp(key, forReceive)
    ensures UseOf(SlotAt(Run(StartRegs(powerOn), es), w)) == Ccmp(key, forReceive)
    ensures KeyAt(Run(StartRegs(powerOn), es), 0x4_2000 + 0x40 * w, key)
  {
    KeyLookup(powerOn, es, w);
    KeyLookupAt(powerOn, es, w);
  }

  /** The key is not used differently than before. */
  lemma UseKept(powerOn: RegFile, es: seq<Event>, e: Event, w: nat)
    requires ValidRun(es) && ValidRun(es + [e]) && w < 2 && ExpectAll(InClear, es + [e], w) == ExpectAll(InClear, es, w)
    ensures UseOf(SlotAt(Run(StartRegs(powerOn), es + [e]), w)) == UseOf(SlotAt(Run(StartRegs(powerOn), es), w))
  {
    KeyLookup(powerOn, es, w);
    KeyLookup(powerOn, es + [e], w);
  }

  /** A pairwise key, or one of a known station, that a run ends with is used by station 1, from the
      key memory at 0x42040, and station 0 goes on as before. */
  lemma PairwiseKeyFound(powerOn: RegFile, es: seq<Event>, e: Event)
    requires ValidRun(es) && e.Valid() && e.InstallKey? && e.ccmp && (e.pairwise || e.staKnown)
    ensures ValidRun(es + [e])
    ensures UseOf(SlotAt(Run(StartRegs(powerOn), es + [e]), 1)) == Ccmp(e.key, true)
    ensures KeyAt(Run(StartRegs(powerOn), es + [e]), 0x4_2040, e.key)
    ensures UseOf(SlotAt(Run(StartRegs(powerOn), es + [e]), 0)) == UseOf(SlotAt(Run(StartRegs(powerOn), es), 0))
  {
    ExpectLast(InClear, es, e, 0);
    ExpectLast(InClear, es, e, 1);
    KeyInUse(powerOn, es + [e], 1, e.key, true);
    UseKept(powerOn, es, e, 0);
  }

  /** A group key is used by station 0, from the key memory at 0x42000, and station 1 goes on as
      before. */
  lemma GroupKeyFound(powerOn: RegFile, es: seq<Event>, e: Event)
    requires ValidRun(es) && e.Valid() && e.InstallKey? && e.ccmp && !e.pairwise && !e.staKnown
    ensures ValidRun(es + [e])
    ensures UseOf(SlotAt(Run(StartRegs(powerOn), es + [e]), 0)) == Ccmp(e.key, !e.apMode)
    ensures KeyAt(Run(StartRegs(powerOn), es + [e]), 0x4_2000, e.key)
    ensures UseOf(SlotAt(Run(StartRegs(powerOn), es + [e]), 1)) == UseOf(SlotAt(Run(StartRegs(powerOn), es), 1))
  {
    ExpectLast(InClear, es, e, 0);
    ExpectLast(InClear, es, e, 1);
    KeyInUse(powerOn, es + [e], 0, e.key, !e.apMode);
    UseKept(powerOn, es, e, 1);
  }

  lemma LinkedSlot(r: RegFile, w: nat)
    requires w < 2 && StationsOf(r).Valid()
    ensures KeyLink(r(0x2_8000 + 0x20 * w + 0x10)) as int == 0x4_2000 + 0x40 * w
    ensures SlotAt(r, w) == TableOf(StationsOf(r)).Get(w)
  {
    assert r(Entry(w) + 0x10) == StationsOf(r).Get(w)[3] == LinkWord(w);
    LinkWords();
    SlotAtLinked(r, w);
  }

  // ---- One call, in the hardware's terms ----

  lemma StepDecodes(r: RegFile, e: Event, w: nat)
    requires e.Valid() && StationsOf(r).Valid() && w < 2
    ensures StationsOf(Step(r, e)).Valid()
    ensures SlotAt(Step(r, e), w) == StepTable(TableOf(StationsOf(r)), e).Get(w)
  {
    StepFollowsWords(r, e);
    StepKeepsLinks(StationsOf(r), e);
    WordsFollowTable(StationsOf(r), e);
    LinkedSlot(Step(r, e), w);
  }

  /** A new peer is known by its address, may be received from and sent to, and has no key; nor has
      the broadcast station. */
  lemma AddedPeer(r: RegFile, addr: Mac, apMode: bool)
    requires StationsOf(r).Valid() && addr != [0, 0, 0, 0, 0, 0]
    ensures var s := SlotAt(Step(r, StaAdd(addr, apMode)), 1);
      s.addr == addr && s.rxValid && s.admitted && !s.keyValid && s.cipher == 0
    ensures var s := SlotAt(Step(r, StaAdd(addr, apMode)), 0);
      s.addr == [0xff, 0xff, 0xff, 0xff, 0xff, 0xff] && s.rxValid && !s.keyValid && s.cipher == 0
  {
    StepDecodes(r, StaAdd(addr, apMode), 0);
    StepDecodes(r, StaAdd(addr, apMode), 1);
  }

  /** A peer that is gone is neither received from nor sent to, and the broadcast station stays. */
  lemma RemovedPeer(r: RegFile, apMode: bool)
    requires StationsOf(r).Valid()
    ensures var s := SlotAt(Step(r, StaRemove(apMode)), 1);
      s.addr == [0, 0, 0, 0, 0, 0] && !s.rxValid && !s.admitted && !s.keyValid && s.cipher == 0
    ensures SlotAt(Step(r, StaRemove(apMode)), 0) == SlotAt(r, 0)
  {
    StepDecodes(r, StaRemove(apMode), 0);
    StepDecodes(r, StaRemove(apMode), 1);
    LinkedSlot(r, 0);
  }

  lemma HighBytes(a: Mac)
    ensures Bytes(BssidHigh(a)) == [a[4], a[5], 1, 0]
  {
  }

  /** A station's access point is the one whose frames count; an access point has none. */
  lemma AddedBssid(r: RegFile, addr: Mac, apMode: bool)
    requires addr != [0, 0, 0, 0, 0, 0]
    ensures var m := Step(r, StaAdd(addr, apMode));
      if apMode then m(0x2_1804) == r(0x2_1804) && m(0x2_1808) == r(0x2_1808)
      else Bytes(m(0x2_1804)) == addr[..4] && Bytes(m(0x2_1808)) == [addr[4], addr[5], 1, 0]
  {
    var r1 := if apMode then r else CurrentBssid(r, Word(addr[..4]), BssidHigh(addr));
    ExecKeeps(r1, StaOps(addr), 0x2_1804);
    ExecKeeps(r1, StaOps(addr), 0x2_1808);
    BytesOfWord(addr[..4]);
    HighBytes(addr);
  }

  /** A new association of a station or access point: its BSSID counts, and no others. */
  lemma ChangedBssid(r: RegFile, bssid: Mac)
    ensures var m := NewBssid(r, bssid);
      && Bytes(m(0x2_1804)) == bssid[..4] && Bytes(m(0x2_1808)) == [bssid[4], bssid[5], 1, 0]
      && m(0x2_1878) == r(0x2_1878) & 0xfcff_ffff
  {
    BytesOfWord(bssid[..4]);
    HighBytes(bssid);
  }

  /** With a new key, packet numbers start at one, and the table's cache was flushed and is released. */
  lemma KeyRegisters(r: RegFile, w: nat, key: seq<bv8>, keyIdx: bv32, rkv: bool)
    requires w < 2 && |key| == 16
    ensures var m := SetKeyRegs(r, w, key, keyIdx, rkv);
      m(0x4_0000 + 0x40 * w) == 1 && m(0x4_0004 + 0x40 * w) == 0 && m(0x2_A300) == 0
  {
    var ops := StoreKeyOps(w, KeyWords(key), KeyedDw0(r(Entry(w)), keyIdx, rkv), KeyedDw2(r(Entry(w) + 8)));
    ExecGet(r, ops, 4);
    ExecGet(r, ops, 5);
    ExecGet(r, ops, 9);
  }

  // ---- A-MPDU sessions ----

  function SessionsAt(r: RegFile, w: nat): map<nat, bv32>
    requires w < 2
  {
    Sessions(r(SessionRegister(w)))
  }

  /** Effect of a call on the sessions of station `w`: sessions start and end one by one, and all
      end when the peer is set up again. */
  function StepSessions(m: map<nat, bv32>, e: Event, w: nat): map<nat, bv32>
    requires w < 2
  {
    match e
    case StaAdd(addr, _) => if addr != [0, 0, 0, 0, 0, 0] && w == 1 then map[] else m
    case BssChanged(bssid, ap) => if !ap && bssid != [0, 0, 0, 0, 0, 0] && w == 1 then map[] else m
    case SessionStart(known, tid, size) =>
      if (w == 1 <==> known) && tid < 8 then m[tid := AsBits(WindowIndex(BuilderSize(size)))] else m
    case SessionStop(known, tid) => if (w == 1 <==> known) && tid < 8 then m - {tid} else m
    case _ => m
  }

  function RunSessions(m: map<nat, bv32>, es: seq<Event>, w: nat): map<nat, bv32>
    requires w < 2
    decreases |es|
  {
    if es == [] then m else RunSessions(StepSessions(m, es[0], w), es[1..], w)
  }

  lemma AddKeepsGroupSessions(r: RegFile, addr: Mac, apMode: bool)
    ensures StaAddRegs(r, addr, apMode)(SessionRegister(0)) == r(SessionRegister(0))
  {
    if addr != [0, 0, 0, 0, 0, 0] {
      var r1 := if apMode then r else CurrentBssid(r, Word(addr[..4]), BssidHigh(addr));
      StaOpsKeep(r1, addr, SessionRegister(0));
    }
  }

  lemma StoreKeyKeepsSessions(r: RegFile, v: nat, k: seq<bv32>, dw0: bv32, dw2: bv32, w: nat)
    requires v < 2 && w < 2 && |k| == 4
    ensures Exec(r, StoreKeyOps(v, k, dw0, dw2))(SessionRegister(w)) == r(SessionRegister(w))
  {
    ExecKeeps(r, StoreKeyOps(v, k, dw0, dw2), SessionRegister(w));
  }

  lemma StartRefinesSessions(r: RegFile, v: nat, tid: u8, size: u8, w: nat)
    requires v < 2 && w < 2
    ensures SessionsAt(SessionRegs(r, v, tid, true, size), w)
         == if w == v && tid < 8 then SessionsAt(r, w)[tid := AsBits(WindowIndex(size))] else SessionsAt(r, w)
  {
    if tid < 8 {
      OpenSession(r(SessionRegister(v)), tid, AsBits(WindowIndex(size)));
    }
  }

  lemma StopRefinesSessions(r: RegFile, v: nat, tid: u8, size: u8, w: nat)
    requires v < 2 && w < 2
    ensures SessionsAt(SessionRegs(r, v, tid, false, size), w)
         == if w == v && tid < 8 then SessionsAt(r, w) - {tid} else SessionsAt(r, w)
  {
    if tid < 8 {
      CloseSession(r(SessionRegister(v)), tid);
    }
  }

  lemma SessionCallRefines(r: RegFile, e: Event, w: nat)
    requires (e.SessionStart? || e.SessionStop?) && w < 2
    ensures SessionsAt(Step(r, e), w) == StepSessions(SessionsAt(r, w), e, w)
  {
    if e.SessionStart? {
      StartRefinesSessions(r, WcidOf(false, e.staKnown), e.tid, BuilderSize(e.bufSize), w);
    } else {
      StopRefinesSessions(r, WcidOf(false, e.staKnown), e.tid, 0, w);
    }
  }

  lemma OtherCallKeepsSessions(r: RegFile, e: Event, w: nat)
    requires e.Valid() && w < 2 && (e.StaRemove? || e.InstallKey? || e.RemoveKey?)
    ensures Step(r, e)(SessionRegister(w)) == r(SessionRegister(w))
  {
    if e.InstallKey? && e.ccmp {
      var v := WcidOf(e.pairwise, e.staKnown);
      StoreKeyKeepsSessions(r, v, KeyWords(e.key), KeyedDw0(r(Entry(v)), e.keyIdx, v != 0 || !e.apMode),
                            KeyedDw2(r(Entry(v) + 8)), w);
    }
  }

  lemma AddRefinesSessions(r: RegFile, addr: Mac, apMode: bool, w: nat)
    requires w < 2
    ensures SessionsAt(StaAddRegs(r, addr, apMode), w) == StepSessions(SessionsAt(r, w), StaAdd(addr, apMode), w)
  {
    AddKeepsGroupSessions(r, addr, apMode);
    NoSessions();
  }

  lemma NewBssidKeepsSessions(r: RegFile, bssid: Mac, w: nat)
    requires w < 2
    ensures SessionsAt(NewBssid(r, bssid), w) == SessionsAt(r, w)
  {
    NewBssidKeeps(r, bssid);
  }

  lemma BssRefinesSessions(r: RegFile, bssid: Mac, ap: bool, w: nat)
    requires w < 2
    ensures SessionsAt(BssRegs(r, bssid, ap), w) == StepSessions(SessionsAt(r, w), BssChanged(bssid, ap), w)
  {
    if bssid == [0, 0, 0, 0, 0, 0] {
      OtherCallKeepsSessions(r, StaRemove(false), w);
      assert BssRegs(r, bssid, ap) == if ap then r else Step(r, StaRemove(false));
    } else {
      NewBssidKeepsSessions(r, bssid, w);
      if !ap {
        AddRefinesSessions(NewBssid(r, bssid), bssid, true, w);
        assert BssRegs(r, bssid, ap) == StaAddRegs(NewBssid(r, bssid), bssid, true);
      }
    }
  }

  lemma StepRefinesSessions(r: RegFile, e: Event, w: nat)
    requires e.Valid() && w < 2
    ensures SessionsAt(Step(r, e), w) == StepSessions(SessionsAt(r, w), e, w)
  {
    if e.StaAdd? {
      AddRefinesSessions(r, e.addr, e.apMode, w);
    } else if e.BssChanged? {
      BssRefinesSessions(r, e.bssid, e.apMode, w);
    } else if e.SessionStart? || e.SessionStop? {
      SessionCallRefines(r, e, w);
    } else {
      OtherCallKeepsSessions(r, e, w);
    }
  }

  /** Over every run, the session word decodes to the map of open sessions: work on one traffic
      identifier, or on keys, never disturbs another. */
  lemma {:induction false} RunRefinesSessions(r: RegFile, es: seq<Event>, w: nat)
    requires ValidRun(es) && w < 2
    ensures SessionsAt(Run(r, es), w) == RunSessions(SessionsAt(r, w), es, w)
    decreases |es|
  {
    if es != [] {
      StepRefinesSessions(r, es[0], w);
      RunRefinesSessions(Step(r, es[0]), es[1..], w);
    }
  }

  /** Where the hardware finds the sessions: in the last word of the station's second entry. */
  lemma SessionsFound(r: RegFile, es: seq<Event>, w: nat)
    requires ValidRun(es) && w < 2
    ensures Sessions(Run(r, es)(0x4_003C + 0x40 * w)) == RunSessions(Sessions(r(0x4_003C + 0x40 * w)), es, w)
  {
    var m := Run(r, es);
    RunRefinesSessions(r, es, w);
    assert SessionRegister(w) == 0x4_003C + 0x40 * w;
    assert Sessions(m(0x4_003C + 0x40 * w)) == SessionsAt(m, w);
  }
}
