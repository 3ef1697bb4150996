/** Register I/O of src/c/regops.c, against a device that holds one word per wire address. */
module Device {
  import opened Machine
  import opened Regmap

  datatype RegOp = RegOp(addr: u32, val: bv32)

  /** Contents of every register. */
  type RegFile = int -> bv32

  function Set(r: RegFile, addr: u32, val: bv32): RegFile {
    a => if a == addr then val else r(a)
  }

  /** Writing a list to a register file that has no address translation. */
  function Exec(r: RegFile, ops: seq<RegOp>): RegFile
    decreases |ops|
  {
    if ops == [] then r else Exec(Set(r, ops[0].addr, ops[0].val), ops[1..])
  }

  /** The same list, each operation sent to its translated address. */
  ghost function ExecMapped(translate: u32 -> u32, phys: RegFile, ops: seq<RegOp>): RegFile
    decreases |ops|
  {
    if ops == [] then phys
    else ExecMapped(translate, Set(phys, translate(ops[0].addr), ops[0].val), ops[1..])
  }

  /** A register that the translation reaches under no other name: one of the kernel-facing ones, or
      one above them that stays where it is and that no kernel-facing one is moved to. */
  ghost predicate Named(translate: u32 -> u32, addr: u32) {
    addr < FIRST_GLOBAL || (translate(addr) == addr && forall a: u32 | a < FIRST_GLOBAL :: translate(a) != addr)
  }

  ghost predicate NamedOps(translate: u32 -> u32, ops: seq<RegOp>) {
    forall i :: 0 <= i < |ops| ==> Named(translate, ops[i].addr)
  }

  /** `phys`, reached through the translation, reads like the plain register file `r`. */
  ghost predicate Simulates(translate: u32 -> u32, phys: RegFile, r: RegFile) {
    forall a: u32 | Named(translate, a) :: phys(translate(a)) == r(a)
  }

  /** Translations under which no two kernel-facing registers meet. */
  ghost predicate Separates(translate: u32 -> u32) {
    forall a: u32, b: u32 | a < FIRST_GLOBAL && b < FIRST_GLOBAL && translate(a) == translate(b) :: a == b
  }

  lemma MapSeparates()
    ensures Separates(PhysicalAddrMap)
  {
    forall a: u32, b: u32 | a < FIRST_GLOBAL && b < FIRST_GLOBAL && PhysicalAddrMap(a) == PhysicalAddrMap(b)
      ensures a == b
    {
      MapInjectiveBelow(a, b);
    }
  }

  /** The fuse array's registers, which lie above the kernel-facing ones, can be named as well. */
  lemma FuseRegistersNamed(addr: u32)
    requires 0x8107_0000 <= addr < 0x8107_0040
    ensures Named(PhysicalAddrMap, addr)
  {
    forall a: u32 | a < FIRST_GLOBAL ensures PhysicalAddrMap(a) != addr {
      MapLandsInWindows(a);
    }
  }

  lemma WriteThrough(translate: u32 -> u32, phys: RegFile, r: RegFile, addr: u32, val: bv32)
    requires Separates(translate) && Named(translate, addr) && Simulates(translate, phys, r)
    ensures Simulates(translate, Set(phys, translate(addr), val), Set(r, addr, val))
  {
    forall a: u32 | Named(translate, a) && translate(a) == translate(addr) ensures a == addr {
      NamesDiffer(translate, a, addr);
    }
  }

  lemma NamesDiffer(translate: u32 -> u32, a: u32, b: u32)
    requires Separates(translate) && Named(translate, a) && Named(translate, b) && translate(a) == translate(b)
    ensures a == b
  {
  }

  /** Running any list of writes to named registers through the translation and reading it back agrees
      with running it on a register file that has no translation. */
  lemma {:induction false} MappedExecSimulatesPlain(translate: u32 -> u32, phys: RegFile, r: RegFile, ops: seq<RegOp>)
    requires Separates(translate) && NamedOps(translate, ops) && Simulates(translate, phys, r)
    ensures Simulates(translate, ExecMapped(translate, phys, ops), Exec(r, ops))
    decreases |ops|
  {
    if ops != [] {
      WriteThrough(translate, phys, r, ops[0].addr, ops[0].val);
      MappedExecSimulatesPlain(translate, Set(phys, translate(ops[0].addr), ops[0].val),
                               Set(r, ops[0].addr, ops[0].val), ops[1..]);
    }
  }

  /** The driver's own translation, and every list of writes to named registers. */
  lemma DriverRunSimulatesPlain(phys: RegFile, r: RegFile, ops: seq<RegOp>)
    requires NamedOps(PhysicalAddrMap, ops) && Simulates(PhysicalAddrMap, phys, r)
    ensures Simulates(PhysicalAddrMap, ExecMapped(PhysicalAddrMap, phys, ops), Exec(r, ops))
  {
    MapSeparates();
    MappedExecSimulatesPlain(PhysicalAddrMap, phys, r, ops);
  }

  /** With a translation under which two registers meet, two writes already tell the difference. */
  lemma AliasingShows(translate: u32 -> u32, phys: RegFile, r: RegFile, a: u32, b: u32)
    requires a != b && a < FIRST_GLOBAL && b < FIRST_GLOBAL && translate(a) == translate(b)
    ensures var ops := [RegOp(a, 0), RegOp(b, 1)];
      !Simulates(translate, ExecMapped(translate, phys, ops), Exec(r, ops))
  {
    var ops := [RegOp(a, 0), RegOp(b, 1)];
    ExecGet(r, ops, 0);
    var half := Set(phys, translate(a), 0);
    assert ops[1..] == [RegOp(b, 1)];
    assert ExecMapped(translate, half, [RegOp(b, 1)]) == ExecMapped(translate, Set(half, translate(b), 1), []);
  }

  lemma {:induction false} ExecAppend(r: RegFile, ops: seq<RegOp>, op: RegOp)
    ensures Exec(r, ops + [op]) == Set(Exec(r, ops), op.addr, op.val)
    decreases |ops|
  {
    if ops == [] {
      assert ops + [op] == [op];
      assert Exec(r, [op]) == Exec(Set(r, op.addr, op.val), []);
    } else {
      assert (ops + [op])[1..] == ops[1..] + [op];
      ExecAppend(Set(r, ops[0].addr, ops[0].val), ops[1..], op);
    }
  }

  lemma ExecNext(r: RegFile, ops: seq<RegOp>, i: nat, now: RegFile)
    requires i < |ops| && now == Exec(r, ops[..i])
    ensures Exec(r, ops[..i + 1]) == Set(now, ops[i].addr, ops[i].val)
  {
    assert ops[..i + 1] == ops[..i] + [ops[i]];
    ExecAppend(r, ops[..i], ops[i]);
  }

  lemma {:induction false} ExecConcat(r: RegFile, first: seq<RegOp>, second: seq<RegOp>)
    ensures Exec(r, first + second) == Exec(Exec(r, first), second)
    decreases |first|
  {
    if first == [] {
      assert first + second == second;
    } else {
      assert (first + second)[1..] == first[1..] + second;
      ExecConcat(Set(r, first[0].addr, first[0].val), first[1..], second);
    }
  }

  /** A register holds the last value that the list sends to it. */
  lemma {:induction false} ExecGet(r: RegFile, ops: seq<RegOp>, i: nat)
    requires i < |ops| && forall j :: i < j < |ops| ==> ops[j].addr != ops[i].addr
    ensures Exec(r, ops)(ops[i].addr) == ops[i].val
    decreases |ops|
  {
    if i == 0 {
      ExecKeeps(Set(r, ops[0].addr, ops[0].val), ops[1..], ops[0].addr);
    } else {
      ExecGet(Set(r, ops[0].addr, ops[0].val), ops[1..], i - 1);
    }
  }

  /** A register that the list does not name is left alone. */
  lemma {:induction false} ExecKeeps(r: RegFile, ops: seq<RegOp>, addr: u32)
    requires forall j :: 0 <= j < |ops| ==> ops[j].addr != addr
    ensures Exec(r, ops)(addr) == r(addr)
    decreases |ops|
  {
    if ops != [] {
      ExecKeeps(Set(r, ops[0].addr, ops[0].val), ops[1..], addr);
    }
  }

  /** The device at the far end of the control pipe. `regs` are its registers under their
      kernel-facing names; `phys`, what the wire reaches, is tied to it by `Valid`. */
  class UsbDevice {
    var phys: RegFile
    ghost var regs: RegFile
    /** While true, every control transfer succeeds; otherwise each may fail on its own. */
    const online: bool

    ghost predicate Valid()
      reads this
    {
      Simulates(PhysicalAddrMap, phys, regs)
    }

    method ReadReg(addr: u32) returns (ret: int, val: bv32)
      requires Valid() && Named(PhysicalAddrMap, addr)
      ensures ret <= 0 && (online ==> ret == 0)
      ensures ret == 0 ==> val == regs(addr)
    {
      var mapped := PhysicalAddrMap(addr);
      var ok: bool := *;
      if online || ok {
        return 0, phys(mapped);
      }
      return EIO, 0;
    }

    /** A transfer that reports failure may still have reached the device. */
    method WriteReg(addr: u32, val: bv32) returns (ret: int)
      requires Valid() && Named(PhysicalAddrMap, addr)
      modifies this`phys, this`regs
      ensures Valid() && ret <= 0 && (online ==> ret == 0)
      ensures ret == 0 ==> regs == Set(old(regs), addr, val)
      ensures regs == old(regs) || regs == Set(old(regs), addr, val)
    {
      var mapped := PhysicalAddrMap(addr);
      var ok: bool, landed: bool := *, *;
      MapSeparates();
      WriteThrough(PhysicalAddrMap, phys, regs, addr, val);
      if online || ok || landed {
        phys := Set(phys, mapped, val);
        regs := Set(regs, addr, val);
      }
      ret := if online || ok then 0 else EIO;
    }

    /** Stops at the first failure; what has reached the device is then a prefix of the list. */
    method ExecuteRegOps(ops: seq<RegOp>) returns (ret: int)
      requires Valid() && NamedOps(PhysicalAddrMap, ops)
      modifies this`phys, this`regs
      ensures Valid() && ret <= 0 && (online ==> ret == 0)
      ensures ret == 0 ==> regs == Exec(old(regs), ops)
      ensures exists k :: 0 <= k <= |ops| && regs == Exec(old(regs), ops[..k])
    {
      for i := 0 to |ops|
        invariant Valid() && regs == Exec(old(regs), ops[..i])
      {
        ghost var now := regs;
        ret := WriteReg(ops[i].addr, ops[i].val);
        ExecNext(old(regs), ops, i, now);
        if ret < 0 {
          assert regs == now || regs == Exec(old(regs), ops[..i + 1]);
          return;
        }
      }
      assert ops[..|ops|] == ops;
      ret := 0;
    }
  }
}
