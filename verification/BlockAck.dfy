/** A-MPDU sessions packed into one register word, WTBL2 DW15: three window-index bits and one
    enable bit for each of the eight traffic identifiers. */
module BlockAck {
  import opened Machine
  import opened Device

  /** Window sizes the hardware knows, by index. */
  const BA_RANGE: seq<u8> := [4, 5, 8, 10, 16, 20, 21, 42]

  /** Traffic identifiers as shift amounts. */
  type Tid = t: bv6 | t < 8

  function WindowMask(tid: Tid): bv32 {
    7 << (tid * 3)
  }

  function EnableBit(tid: Tid): bv32 {
    1 << (24 + tid)
  }

  function WindowBits(tid: Tid, idx: bv32): bv32 {
    (idx & 7) << (tid * 3)
  }

  predicate Enabled(dw15: bv32, tid: Tid) {
    dw15 & EnableBit(tid) != 0
  }

  function Window(dw15: bv32, tid: Tid): bv32 {
    (dw15 & WindowMask(tid)) >> (tid * 3)
  }

  /** The n-th traffic identifier. */
  function AsTid(n: nat): (t: Tid)
    requires n < 8
  {
    [0, 1, 2, 3, 4, 5, 6, 7][n]
  }

  lemma AsTidInjective(n: nat, m: nat)
    requires n < 8 && m < 8
    ensures AsTid(n) == AsTid(m) <==> n == m
  {
  }

  /** What the word means: the window index of every traffic identifier with a session. */
  function Sessions(dw15: bv32): map<nat, bv32> {
    map t: nat | t < 8 && Enabled(dw15, AsTid(t)) :: Window(dw15, AsTid(t))
  }

  function WithSession(dw15: bv32, tid: Tid, idx: bv32): bv32 {
    (dw15 & !WindowMask(tid)) | (EnableBit(tid) | WindowBits(tid, idx))
  }

  function WithoutSession(dw15: bv32, tid: Tid): bv32 {
    (dw15 & !WindowMask(tid)) & !EnableBit(tid)
  }

  lemma FieldsDisjoint(tid: Tid, t: Tid)
    ensures EnableBit(tid) & WindowMask(t) == 0 && EnableBit(tid) != 0
    ensures t != tid ==> WindowMask(tid) & WindowMask(t) == 0 && EnableBit(tid) & EnableBit(t) == 0
  {
  }

  lemma StoredWindow(tid: Tid, idx: bv32)
    ensures WindowBits(tid, idx) & !WindowMask(tid) == 0
  {
  }

  /** Replacing what lies under `cleared` by `enable` and `stored` leaves alone what lies under a
      mask that meets neither field. */
  lemma MaskedUpdate(word: bv32, cleared: bv32, enable: bv32, stored: bv32, mask: bv32)
    requires cleared & mask == 0 && enable & mask == 0 && stored & !cleared == 0
    ensures ((word & !cleared) | (enable | stored)) & mask == word & mask
    ensures ((word & !cleared) & !enable) & mask == word & mask
  {
  }

  lemma OthersKeepWindow(dw15: bv32, tid: Tid, idx: bv32, t: Tid)
    requires t != tid
    ensures Window(WithSession(dw15, tid, idx), t) == Window(dw15, t)
    ensures Window(WithoutSession(dw15, tid), t) == Window(dw15, t)
  {
    FieldsDisjoint(tid, t);
    StoredWindow(tid, idx);
    MaskedUpdate(dw15, WindowMask(tid), EnableBit(tid), WindowBits(tid, idx), WindowMask(t));
  }

  lemma OthersKeepEnable(dw15: bv32, tid: Tid, idx: bv32, t: Tid)
    requires t != tid
    ensures WithSession(dw15, tid, idx) & EnableBit(t) == dw15 & EnableBit(t)
    ensures WithoutSession(dw15, tid) & EnableBit(t) == dw15 & EnableBit(t)
  {
    FieldsDisjoint(tid, t);
    FieldsDisjoint(t, tid);
    StoredWindow(tid, idx);
    MaskedUpdate(dw15, WindowMask(tid), EnableBit(tid), WindowBits(tid, idx), EnableBit(t));
  }

  lemma OwnFields(dw15: bv32, tid: Tid, idx: bv32)
    requires idx < 8
    ensures Enabled(WithSession(dw15, tid, idx), tid) && Window(WithSession(dw15, tid, idx), tid) == idx
    ensures !Enabled(WithoutSession(dw15, tid), tid)
  {
  }

  lemma OpenBits(dw15: bv32, tid: Tid, idx: bv32, t: Tid)
    requires idx < 8
    ensures Enabled(WithSession(dw15, tid, idx), t) == (t == tid || Enabled(dw15, t))
    ensures Window(WithSession(dw15, tid, idx), t) == if t == tid then idx else Window(dw15, t)
  {
    if t == tid {
      OwnFields(dw15, tid, idx);
    } else {
      OthersKeepWindow(dw15, tid, idx, t);
      OthersKeepEnable(dw15, tid, idx, t);
    }
  }

  lemma CloseBits(dw15: bv32, tid: Tid, t: Tid)
    ensures Enabled(WithoutSession(dw15, tid), t) == (t != tid && Enabled(dw15, t))
    ensures t != tid ==> Window(WithoutSession(dw15, tid), t) == Window(dw15, t)
  {
    if t == tid {
      OwnFields(dw15, tid, 0);
    } else {
      OthersKeepWindow(dw15, tid, 0, t);
      OthersKeepEnable(dw15, tid, 0, t);
    }
  }

  /** Opening a session updates its own key of the map and no other. */
  lemma OpenSession(dw15: bv32, tid: nat, idx: bv32)
    requires tid < 8 && idx < 8
    ensures Sessions(WithSession(dw15, AsTid(tid), idx)) == Sessions(dw15)[tid := idx]
  {
    var after := WithSession(dw15, AsTid(tid), idx);
    forall t: nat | t < 8
      ensures t in Sessions(after) <==> t == tid || t in Sessions(dw15)
      ensures Window(after, AsTid(t)) == if t == tid then idx else Window(dw15, AsTid(t))
    {
      AsTidInjective(t, tid);
      OpenBits(dw15, AsTid(tid), idx, AsTid(t));
    }
  }

  lemma CloseSession(dw15: bv32, tid: nat)
    requires tid < 8
    ensures Sessions(WithoutSession(dw15, AsTid(tid))) == Sessions(dw15) - {tid}
  {
    var after := WithoutSession(dw15, AsTid(tid));
    forall t: nat | t < 8
      ensures t in Sessions(after) <==> t != tid && t in Sessions(dw15)
      ensures t != tid ==> Window(after, AsTid(t)) == Window(dw15, AsTid(t))
    {
      AsTidInjective(t, tid);
      CloseBits(dw15, AsTid(tid), AsTid(t));
    }
  }

  lemma NoSessions()
    ensures Sessions(0) == map[]
  {
    forall t: nat | t < 8 ensures !Enabled(0, AsTid(t)) {}
  }

  /** The largest index not above `top` whose window fits `size`, or 0 when none does. */
  function LargestFit(size: u8, top: nat): (idx: nat)
    requires top < 8
    ensures idx <= top
  {
    if top == 0 || BA_RANGE[top] <= size then top else LargestFit(size, top - 1)
  }

  function WindowIndex(size: u8): (idx: nat)
    ensures idx < 8
  {
    LargestFit(size, 7)
  }

  lemma {:induction false} LargestFitIs(size: u8, top: nat)
    requires top < 8
    ensures BA_RANGE[LargestFit(size, top)] <= size || LargestFit(size, top) == 0
    ensures forall j :: LargestFit(size, top) < j <= top ==> BA_RANGE[j] > size
  {
    if top != 0 && BA_RANGE[top] > size {
      LargestFitIs(size, top - 1);
    }
  }

  /** The chosen window is the greatest that does not exceed the size asked for. */
  lemma WindowIndexIsGreatestFit(size: u8, idx: nat)
    requires idx < 8
    ensures idx == WindowIndex(size)
       <==> (BA_RANGE[idx] <= size || idx == 0) && forall j :: idx < j < 8 ==> BA_RANGE[j] > size
  {
    LargestFitIs(size, 7);
  }

  lemma WindowIndexMonotone(size: u8, larger: u8)
    requires size <= larger
    ensures WindowIndex(size) <= WindowIndex(larger)
  {
    LargestFitIs(size, 7);
    LargestFitIs(larger, 7);
  }

  /** The thresholds. */
  lemma WindowThresholds(size: u8)
    ensures WindowIndex(size)
         == if size >= 42 then 7 else if size >= 21 then 6 else if size >= 20 then 5 else if size >= 16 then 4
            else if size >= 10 then 3 else if size >= 8 then 2 else if size >= 5 then 1 else 0
  {
    var idx := if size >= 42 then 7 else if size >= 21 then 6 else if size >= 20 then 5 else if size >= 16 then 4
               else if size >= 10 then 3 else if size >= 8 then 2 else if size >= 5 then 1 else 0;
    assert BA_RANGE[0] == 4 && BA_RANGE[1] == 5 && BA_RANGE[2] == 8 && BA_RANGE[3] == 10;
    assert BA_RANGE[4] == 16 && BA_RANGE[5] == 20 && BA_RANGE[6] == 21 && BA_RANGE[7] == 42;
    WindowIndexIsGreatestFit(size, idx);
  }

  /** A peer that names no size gets the largest window; the words that result from an empty one. */
  lemma SessionValues()
    ensures BuilderSize(0) == 64 && WindowIndex(64) == 7 && AsTid(0) == 0 && AsTid(7) == 7
    ensures WithSession(0, 0, 7) == 0x0100_0007 && WithSession(0, 7, 5) == 0x80a0_0000 && WithSession(0, 2, 1) == 0x0400_0040
    ensures WithoutSession(0x0100_0007, 0) == 0
  {
    WindowThresholds(64);
  }

  /** A window index as the three bits stored. */
  function AsBits(n: nat): (w: bv32)
    requires n < 8
    ensures w < 8
  {
    [0, 1, 2, 3, 4, 5, 6, 7][n]
  }

  /** `params->buf_size ? params->buf_size : 64`, narrowed to the builder's 8-bit parameter. */
  function BuilderSize(bufSize: u16): u8 {
    (if bufSize != 0 then bufSize else 64) % 0x100
  }

  /** The peer's buffer is honoured, meaning that it gets the greatest window not above it,
      unless the narrowing lost the part that mattered: a size of 256 or more whose low byte is
      below 42. */
  lemma NarrowingLosesWindow(bufSize: u16)
    requires bufSize != 0
    ensures (forall j :: WindowIndex(BuilderSize(bufSize)) < j < 8 ==> BA_RANGE[j] > bufSize)
       <==> bufSize < 0x100 || bufSize % 0x100 >= 42
  {
    LargestFitIs(BuilderSize(bufSize), 7);
    assert BA_RANGE[7] == 42;
    if bufSize >= 0x100 && bufSize % 0x100 < 42 {
      assert WindowIndex(BuilderSize(bufSize)) < 7;
      assert BA_RANGE[7] <= bufSize;
    }
  }

  function SessionRegister(wcid: u8): u32 {
    0x0004_0000 + wcid * 64 + 15 * 4
  }

  /** The window search of `build_ba_session_sequence` (src/rust/src/mac.rs). */
  method SearchWindow(baSize: u8) returns (idx: nat)
    ensures idx == WindowIndex(baSize)
  {
    idx := 0;
    while idx < 7 && BA_RANGE[idx] < baSize
      invariant idx <= 7
      invariant forall j :: 0 <= j < idx ==> BA_RANGE[j] < baSize
    {
      idx := idx + 1;
    }
    if idx > 0 && BA_RANGE[idx] > baSize {
      idx := idx - 1;
    }
    WindowIndexIsGreatestFit(baSize, idx);
  }

  /** `build_ba_session_sequence` (src/rust/src/mac.rs). */
  method BuildBaSession(wcid: u8, tid: u8, baSize: u8, enable: bool, prev: bv32, ops: array<RegOp>)
    returns (r: Result<nat>)
    modifies ops
    ensures r == if tid >= 8 then Err(EINVAL) else if ops.Length == 0 then Err(ENOSPC) else Ok(1)
    ensures r.Err? ==> ops[..] == old(ops[..])
    ensures r.Ok? ==> ops[1..] == old(ops[1..]) && ops[0].addr == SessionRegister(wcid)
    ensures r.Ok? ==> ops[0].val == if enable
      then WithSession(prev, AsTid(tid), AsBits(WindowIndex(baSize)))
      else WithoutSession(prev, AsTid(tid))
    ensures r.Ok? ==> Sessions(ops[0].val) == if enable
      then Sessions(prev)[tid := AsBits(WindowIndex(baSize))]
      else Sessions(prev) - {tid}
  {
    if tid >= 8 {
      return Err(EINVAL);
    }
    if ops.Length == 0 {
      return Err(ENOSPC);
    }
    var idx := SearchWindow(baSize);
    var dw15;
    if enable {
      dw15 := WithSession(prev, AsTid(tid), AsBits(idx));
      OpenSession(prev, tid, AsBits(idx));
    } else {
      dw15 := WithoutSession(prev, AsTid(tid));
      CloseSession(prev, tid);
    }
    ops[0] := RegOp(SessionRegister(wcid), dw15);
    return Ok(1);
  }
}
