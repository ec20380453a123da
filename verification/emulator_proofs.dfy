/** Properties of the SMPU: register access, the bus protocol, fetching, the clock, and the
    effect of the arithmetic and stack instructions. */
module EmulatorProofs {
  import opened Base
  import opened Numerals
  import opened Js
  import opened Devices
  import opened DeviceProofs
  import opened Emulator

  // ---------------------------------------------------------------------------
  // Registers
  // ---------------------------------------------------------------------------

  /** Setting a register changes that register alone, to the value reduced by its modulus. */
  lemma SetSpec(regs: Regs, r: Reg, value: int)
    ensures Get(Set(regs, r, value), r) == Rem(value, Modulus(r))
    ensures forall r' :: r' != r ==> Get(Set(regs, r, value), r') == Get(regs, r')
  {
  }

  /** `getValue` reads the eight registers by name, `r` as the address pair and `z` as the
      zero flag, and is `undefined` for every other name. */
  lemma GetValueSpec(m: Machine, name: string)
    ensures GetValue(m, "r") == Some(m.regs.h * 256 + m.regs.l)
    ensures GetValue(m, "z") == Some(if m.regs.q == 0 then 1 else 0)
    ensures RegisterNamed(name).Some? ==> GetValue(m, name) == Some(Get(m.regs, RegisterNamed(name).value))
    ensures GetValue(m, name).None? <==> name !in {"a", "b", "q", "h", "l", "p", "s", "c", "r", "z"}
  {
  }

  /** `setValue` throws exactly for names other than the eight registers (so also for `r`
      and `z`); otherwise reading the register back gives the value reduced with JavaScript's
      `%`, which for a non-negative value lies in the register's range, and nothing else changes. */
  lemma SetValueSpec(m: Machine, name: string, value: int)
    ensures SetValue(m, name, value).Err? <==> name !in {"a", "b", "q", "h", "l", "p", "s", "c"}
    ensures SetValue(m, name, value).Ok? ==>
              var m' := SetValue(m, name, value).value;
              var r := RegisterNamed(name).value;
              && GetValue(m', name) == Some(Rem(value, Modulus(r)))
              && (value >= 0 ==> 0 <= Get(m'.regs, r) < Modulus(r))
              && (forall r' :: r' != r ==> Get(m'.regs, r') == Get(m.regs, r'))
              && m'.devices == m.devices && m'.halted == m.halted
  {
    if RegisterNamed(name).Some? {
      SetSpec(m.regs, RegisterNamed(name).value, value);
    }
  }

  /** JavaScript's `%` keeps the sign: setting `q` to -1 leaves -1, not 255. */
  lemma SetNegative(m: Machine)
    ensures SetValue(m, "q", -1).Ok? && SetValue(m, "q", -1).value.regs.q == -1
  {
  }

  /** Every register lies strictly between minus and plus its modulus. */
  predicate InRange(regs: Regs)
  {
    forall r :: -(Modulus(r) as int) < Get(regs, r) < Modulus(r)
  }

  // ---------------------------------------------------------------------------
  // The bus
  // ---------------------------------------------------------------------------

  /** Whether every device on the bus is valid. */
  predicate AllValid(devices: seq<Device>)
  {
    forall k :: 0 <= k < |devices| ==> Valid(devices[k])
  }

  /** Nobody responds to a read exactly when no device does; with valid devices the OR of
      their outputs is a byte. */
  lemma BusReadSpec(devices: seq<Device>, address: int)
    ensures BusRead(devices, address).1 == 0 <==> forall k :: 0 <= k < |devices| ==> !Read(devices[k], address).1
    ensures AllValid(devices) ==> 0 <= BusRead(devices, address).0 < 256
  {
    BusReadResponders(devices, address);
    if AllValid(devices) {
      BusReadByte(devices, address);
    }
  }

  lemma {:induction false} BusReadResponders(devices: seq<Device>, address: int)
    ensures BusRead(devices, address).1 == 0 <==> forall k :: 0 <= k < |devices| ==> !Read(devices[k], address).1
    decreases |devices|
  {
    if |devices| > 0 {
      var init := devices[..|devices| - 1];
      var last := Read(devices[|devices| - 1], address).1;
      BusReadResponders(init, address);
      BusReadCountStep(devices, address);
      if BusRead(devices, address).1 == 0 {
        forall k | 0 <= k < |devices| ensures !Read(devices[k], address).1 {
          if k < |init| {
            assert init[k] == devices[k];
          } else {
            assert k == |devices| - 1 && !last;
          }
        }
      } else if !last {
        var k :| 0 <= k < |init| && Read(init[k], address).1;
        assert init[k] == devices[k];
      }
    }
  }

  /** The loop of `readDevices` counts the last device after the others. */
  lemma BusReadCountStep(devices: seq<Device>, address: int)
    requires |devices| > 0
    ensures BusRead(devices, address).1
            == BusRead(devices[..|devices| - 1], address).1 + if Read(devices[|devices| - 1], address).1 then 1 else 0
  {}

  lemma {:induction false} BusReadByte(devices: seq<Device>, address: int)
    requires AllValid(devices)
    ensures 0 <= BusRead(devices, address).0 < 256
    decreases |devices|
  {
    if |devices| > 0 {
      var init := devices[..|devices| - 1];
      var last := devices[|devices| - 1];
      assert AllValid(init) by {
        assert forall k :: 0 <= k < |init| ==> init[k] == devices[k];
      }
      BusReadByte(init, address);
      ReadGivesByte(last, address);
      ByteBitwise(BusRead(init, address).0, CellNumber(Read(last, address).0));
    }
  }

  /** A single valid device: the bus yields what the device yields. */
  lemma BusReadSingle(d: Device, address: int)
    requires Valid(d)
    ensures BusRead([d], address) == (CellNumber(Read(d, address).0), if Read(d, address).1 then 1 else 0)
  {
    assert [d][..0] == [];
    ReadGivesByte(d, address);
    OrZero(CellNumber(Read(d, address).0));
  }

  /** A device that ignores the address contributes nothing to a read. */
  lemma BusReadSilentDevice(devices: seq<Device>, d: Device, address: int)
    requires AllValid(devices) && Read(d, address) == (Num(0), false)
    ensures BusRead(devices + [d], address) == BusRead(devices, address)
  {
    var all := devices + [d];
    assert all[..|all| - 1] == devices;
    BusReadSpec(devices, address);
    OrZero(BusRead(devices, address).0);
  }

  /** Every device is offered the value; nobody accepts exactly when no device does. */
  lemma {:induction false} BusWriteSpec(devices: seq<Device>, address: int, value: int)
    ensures forall k :: 0 <= k < |devices| ==> BusWrite(devices, address, value).0[k] == Write(devices[k], address, value).0
    ensures BusWrite(devices, address, value).1 == 0 <==> forall k :: 0 <= k < |devices| ==> !Write(devices[k], address, value).1
    ensures AllValid(devices) ==> AllValid(BusWrite(devices, address, value).0)
    decreases |devices|
  {
    if |devices| > 0 {
      var rest := devices[1..];
      BusWriteSpec(rest, address, value);
      var out := BusWrite(devices, address, value).0;
      assert out == [Write(devices[0], address, value).0] + BusWrite(rest, address, value).0;
      forall k | 0 <= k < |devices|
        ensures out[k] == Write(devices[k], address, value).0
      {
        if k > 0 {
          assert devices[k] == rest[k - 1];
        }
      }
      if BusWrite(devices, address, value).1 == 0 {
        forall k | 0 <= k < |devices| ensures !Write(devices[k], address, value).1 {
          if k > 0 {
            assert devices[k] == rest[k - 1];
          }
        }
      }
      if AllValid(devices) {
        forall k | 0 <= k < |devices| ensures Valid(out[k]) {
          WriteKeepsValid(devices[k], address, value);
        }
      }
    }
  }

  /** `readDevices` leaves registers and devices alone; it fails, halting the machine with a
      fatal message, exactly when no device responds, and warns when several respond. */
  lemma ReadDevicesSpec(m: Machine, address: int)
    ensures var f := ReadDevices(m, address);
            && f.value == BusRead(m.devices, address).0
            && f.m.regs == m.regs && f.m.devices == m.devices
            && (f.ok <==> exists k :: 0 <= k < |m.devices| && Read(m.devices[k], address).1)
            && (!f.ok ==> f.m.halted && f.events == [NoReader(address)])
            && (f.ok ==> f.m == m && (f.events == [MultipleReaders(address)] <==> BusRead(m.devices, address).1 > 1)
                                  && (f.events == [] <==> BusRead(m.devices, address).1 == 1))
  {
    BusReadSpec(m.devices, address);
  }

  /** `writeDevices` offers the value to every device and leaves registers alone; it fails,
      halting the machine with a fatal message, exactly when no device accepts. */
  lemma WriteDevicesSpec(m: Machine, address: int, value: int)
    ensures var w := WriteDevices(m, address, value);
            && w.m.regs == m.regs && w.m.devices == BusWrite(m.devices, address, value).0
            && (w.ok <==> exists k :: 0 <= k < |m.devices| && Write(m.devices[k], address, value).1)
            && (!w.ok ==> w.m.halted && w.events == [NoWriter(address)])
            && (w.ok ==> w.m.halted == m.halted
                         && (w.events == [MultipleWriters(address)] <==> BusWrite(m.devices, address, value).1 > 1)
                         && (w.events == [] <==> BusWrite(m.devices, address, value).1 == 1))
  {
    BusWriteSpec(m.devices, address, value);
  }

  /** A fetch reads at `p` and advances `p` modulo 65536 even when the read fails, warning
      exactly when `p` becomes 0; nothing else changes but the halted flag on failure. */
  lemma PullSpec(m: Machine)
    ensures var f := Pull(m);
            && f.m.regs == m.regs.(p := Rem(m.regs.p + 1, 65536))
            && f.m.devices == m.devices
            && f.value == BusRead(m.devices, m.regs.p).0
            && f.ok == ReadDevices(m, m.regs.p).ok
            && f.m.halted == (m.halted || !f.ok)
            && (PcOverflow in f.events <==> f.m.regs.p == 0)
            && (m.regs.p >= 0 ==> f.m.regs.p == (m.regs.p + 1) % 65536)
  {
    var r := ReadDevices(m, m.regs.p);
    ReadDevicesKeeps(m, m.regs.p);
    var regs := Set(r.m.regs, P, r.m.regs.p + 1);
    assert regs == m.regs.(p := Rem(m.regs.p + 1, 65536));
    var extra := if regs.p == 0 then [PcOverflow] else [];
    assert PcOverflow in r.events + extra <==> PcOverflow in extra;
  }

  /** What a read does to the machine: registers and devices stay, the halted flag is set
      on failure, and no fetch warning arises. */
  lemma ReadDevicesKeeps(m: Machine, address: int)
    ensures var f := ReadDevices(m, address);
            && f.value == BusRead(m.devices, address).0
            && f.m.regs == m.regs && f.m.devices == m.devices
            && f.m.halted == (m.halted || !f.ok)
            && PcOverflow !in f.events
  {
  }

  /** `mount` adds the device at the end, and `unmount` of a device that was not mounted
      before undoes it. */
  lemma MountUnmount(m: Machine, d: Device)
    requires d !in m.devices
    ensures d in Mount(m, d).devices
    ensures Unmount(Mount(m, d), d) == m
  {
    WithoutAbsent(m.devices, d);
    WithoutAppend(m.devices, [d], d);
    assert Without([d], d) == [] by {
      assert [d][1..] == [];
    }
    assert m.devices + [] == m.devices;
  }

  /** Removing a device that is not there changes nothing. */
  lemma {:induction false} WithoutAbsent(devices: seq<Device>, d: Device)
    requires d !in devices
    ensures Without(devices, d) == devices
    decreases |devices|
  {
    if |devices| > 0 {
      WithoutAbsent(devices[1..], d);
      assert devices == [devices[0]] + devices[1..];
    }
  }

  /** Removal distributes over concatenation. */
  lemma {:induction false} WithoutAppend(xs: seq<Device>, ys: seq<Device>, d: Device)
    ensures Without(xs + ys, d) == Without(xs, d) + Without(ys, d)
    decreases |xs|
  {
    if |xs| > 0 {
      WithoutAppend(xs[1..], ys, d);
      assert (xs + ys)[1..] == xs[1..] + ys;
    } else {
      assert xs + ys == ys;
    }
  }

  /** After `unmount` no copy of the device remains, and every other device stays. */
  lemma {:induction false} UnmountRemoves(devices: seq<Device>, d: Device)
    ensures d !in Without(devices, d)
    ensures forall e :: e in devices && e != d ==> e in Without(devices, d)
    decreases |devices|
  {
    if |devices| > 0 {
      UnmountRemoves(devices[1..], d);
      assert devices == [devices[0]] + devices[1..];
    }
  }

  // ---------------------------------------------------------------------------
  // Clock, decoding and halting
  // ---------------------------------------------------------------------------

  /** A fetch, and every read or write of the bus, reports failure exactly when it halts
      the machine (or the machine was halted already). */
  lemma AccessStatus(m: Machine, address: int, value: int)
    ensures ReadDevices(m, address).m.halted <==> m.halted || !ReadDevices(m, address).ok
    ensures WriteDevices(m, address, value).m.halted <==> m.halted || !WriteDevices(m, address, value).ok
    ensures Pull(m).m.halted <==> m.halted || !Pull(m).ok
  {
  }

  /** `ADR` fails exactly when it halts the machine. */
  lemma LoadAddressStatus(m: Machine)
    ensures LoadAddress(m).m.halted <==> m.halted || !LoadAddress(m).ok
  {
    AccessStatus(m, 0, 0);
    AccessStatus(Pull(m).m, 0, 0);
  }

  /** `PSH` fails exactly when it halts the machine. */
  lemma PushStatus(m: Machine)
    ensures Push(m).m.halted <==> m.halted || !Push(m).ok
  {
    AccessStatus(m, StackAddress(m.regs), m.regs.a);
  }

  /** `POP` fails exactly when it halts the machine. */
  lemma PopStatus(m: Machine)
    ensures Pop(m).m.halted <==> m.halted || !Pop(m).ok
  {
    var m1 := With(m, S, m.regs.s + 1);
    AccessStatus(m1, StackAddress(m1.regs), 0);
  }

  /** `SUBR` fails exactly when it halts the machine. */
  lemma CallStatus(m: Machine)
    ensures Call(m).m.halted <==> m.halted || !Call(m).ok
  {
    var w1 := WriteDevices(m, StackAddress(m.regs), m.regs.p / 256);
    var m1 := With(w1.m, S, w1.m.regs.s - 1);
    AccessStatus(m, StackAddress(m.regs), m.regs.p / 256);
    AccessStatus(m1, StackAddress(m1.regs), Rem(m1.regs.p, 256));
  }

  /** `RET` fails exactly when it halts the machine. */
  lemma ReturnStatus(m: Machine)
    ensures Return(m).m.halted <==> m.halted || !Return(m).ok
  {
    var m1 := With(m, S, m.regs.s + 1);
    var lo := ReadDevices(m1, StackAddress(m1.regs));
    var m2 := With(lo.m, S, lo.m.regs.s + 1);
    AccessStatus(m1, StackAddress(m1.regs), 0);
    AccessStatus(m2, StackAddress(m2.regs), 0);
  }

  /** Every instruction reports failure exactly when it leaves the machine halted (or found
      it halted). */
  lemma RunStatus(m: Machine, o: Opcode)
    ensures Run(m, o).m.halted <==> m.halted || !Run(m, o).ok
  {
    var r := m.regs;
    match o
    case ADR => LoadAddressStatus(m);
    case LDA => AccessStatus(m, AddressPair(r), 0);
    case STA => AccessStatus(m, AddressPair(r), r.a);
    case CLA => AccessStatus(m, 0, 0);
    case CLB => AccessStatus(m, 0, 0);
    case CLQ => AccessStatus(m, 0, 0);
    case PSH => PushStatus(m);
    case POP => PopStatus(m);
    case SUBR => CallStatus(m);
    case RET => ReturnStatus(m);
    case _ =>
  }

  /** `clock` reports failure exactly when it leaves the machine halted (or found it halted),
      so a program runs for as long as every clock succeeds. On a halted machine it changes
      nothing and reports nothing; once halted, a machine stays halted. */
  lemma ClockStatus(m: Machine)
    ensures Clock(m).m.halted <==> m.halted || !Clock(m).ok
    ensures m.halted ==> Clock(m) == Step(m, [], false)
    ensures m.halted ==> Clock(m).m.halted
  {
    if !m.halted {
      var f := Pull(m);
      AccessStatus(m, 0, 0);
      if f.ok {
        match Decode(f.value)
        case None =>
        case Some(o) => RunStatus(f.m, o);
      }
    }
  }

  /** A failed fetch halts the machine with the fetch's messages and executes nothing; a
      successful one executes the fetched value on the machine whose `p` has advanced. */
  lemma ClockFetches(m: Machine)
    requires !m.halted
    ensures var f := Pull(m);
            && (!f.ok ==> Clock(m) == Step(f.m, f.events, false) && f.m.halted)
            && (f.ok ==> Clock(m) == Step(Execute(f.m, f.value).m, f.events + Execute(f.m, f.value).events, Execute(f.m, f.value).ok)
                         && f.m == m.(regs := m.regs.(p := Rem(m.regs.p + 1, 65536))))
  {
    PullSpec(m);
  }

  /** The opcodes without a `case`, 16 to 19 and everything outside 0 to 45, halt the machine
      with a fatal message, and so does `HLT` (with an informational one). */
  lemma DecodeNone(m: Machine, op: int)
    ensures Decode(op).None? <==> op < 0 || 16 <= op < 20 || op > 45
    ensures Decode(op).None? ==> Execute(m, op) == Step(m.(halted := true), [InvalidInstruction(op)], false)
    ensures Execute(m, 0) == Step(m.(halted := true), [Halting], false)
    ensures LevelOf(InvalidInstruction(op)) == FatalLevel && LevelOf(Halting) == InfoLevel
  {
  }

  /** Decoding selects the opcode whose `case` label is the value, and only that one. */
  lemma DecodeCaseLabel(op: int, o: Opcode)
    ensures Decode(op) == Some(o) <==> CaseLabel(o) == op
  {
    DecodeFindsLabel(o);
    DecodeGivesLabel(op);
  }

  /** Each opcode's `case` label selects it. */
  lemma DecodeFindsLabel(o: Opcode)
    ensures Decode(CaseLabel(o)) == Some(o)
  {
  }

  /** A value that selects a `case` is that case's label. */
  lemma DecodeGivesLabel(op: int)
    ensures Decode(op).Some? ==> CaseLabel(Decode(op).value) == op
  {
  }

  // ---------------------------------------------------------------------------
  // Arithmetic, logic and register moves
  // ---------------------------------------------------------------------------

  /** Registers `a` and `b` hold bytes and the carry is 0 or 1. */
  predicate ByteOperands(regs: Regs)
  {
    0 <= regs.a < 256 && 0 <= regs.b < 256 && 0 <= regs.c < 2
  }

  /** A step that completes without messages and changes only the registers. */
  predicate Quiet(m: Machine, s: Step)
  {
    s.ok && s.events == [] && s.m.devices == m.devices && s.m.halted == m.halted
  }

  /** Storing a result below 1024 with its carry: `a` takes the low byte and the carry
      records whether the result exceeded 255. */
  lemma CarryStore(m: Machine, result: int)
    requires 0 <= result < 1024
    ensures WithCarry(m, result).regs == m.regs.(a := result % 256, c := if result > 255 then 1 else 0)
    ensures WithCarry(m, result).devices == m.devices && WithCarry(m, result).halted == m.halted
  {
  }

  /** `ADD` and `ADDC` are nine-bit additions: the carry and `a` together hold the exact sum
      `a + b (+ c)`, with `a` the sum modulo 256; no other register changes. */
  lemma SumSpec(m: Machine, carry: bool)
    requires ByteOperands(m.regs)
    ensures var r := m.regs; var n := Sum(m, carry); var sum := r.a + r.b + if carry then r.c else 0;
            && Quiet(m, n)
            && 256 * n.m.regs.c + n.m.regs.a == sum
            && n.m.regs == r.(a := sum % 256, c := if sum > 255 then 1 else 0)
  {
    var r := m.regs;
    CarryStore(m, r.a + r.b + if carry then r.c else 0);
  }

  /** 200 + 100 leaves 44 with the carry set. */
  lemma SumExample(m: Machine)
    requires m.regs.a == 200 && m.regs.b == 100
    ensures Sum(m, false).m.regs.a == 44 && Sum(m, false).m.regs.c == 1
  {
    CarryStore(m, 300);
  }

  /** Storing `d + 256`, the sum `SUB` forms for a difference `d` of bytes: `a` takes `d`
      modulo 256 and the carry records whether `d` is non-negative. */
  lemma CarryOfDifference(m: Machine, d: int)
    requires -256 < d < 257
    ensures WithCarry(m, d + 256).regs == m.regs.(a := d % 256, c := if d >= 0 then 1 else 0)
    ensures d < 256 ==> 256 * WithCarry(m, d + 256).regs.c + WithCarry(m, d + 256).regs.a == d + 256
    ensures WithCarry(m, d + 256).devices == m.devices && WithCarry(m, d + 256).halted == m.halted
  {
    CarryStore(m, d + 256);
    if d >= 256 {
      assert (d + 256) % 256 == d - 256 && d % 256 == d - 256;
    } else if d >= 0 {
      assert (d + 256) % 256 == d && d % 256 == d;
    } else {
      assert (d + 256) % 256 == d + 256 && d % 256 == d + 256;
    }
  }

  /** The sum `SUB` and `SUBC` form is the difference plus 256. */
  lemma DifferenceAdds(m: Machine, carry: bool)
    requires ByteOperands(m.regs)
    ensures var r := m.regs;
            Difference(m, carry) == Done(WithCarry(m, r.a - r.b + (if carry then r.c else 0) + 256))
  {
    XorFF(m.regs.b);
  }

  /** `SUB` is `a - b` modulo 256 with the carry set exactly when no borrow occurs
      (`a >= b`); `SUBC` adds the carry on top, so with the carry set it yields `a - b + 1`
      (and 255 - 0 + 1 wraps to 0, carry set). */
  lemma DifferenceSpec(m: Machine, carry: bool)
    requires ByteOperands(m.regs)
    ensures var r := m.regs; var n := Difference(m, carry); var d := r.a - r.b + if carry then r.c else 0;
            && Quiet(m, n)
            && n.m.regs == r.(a := d % 256, c := if d >= 0 then 1 else 0)
    ensures !carry ==> 256 * Difference(m, carry).m.regs.c + Difference(m, carry).m.regs.a == m.regs.a - m.regs.b + 256
  {
    var r := m.regs;
    DifferenceAdds(m, carry);
    CarryOfDifference(m, r.a - r.b + if carry then r.c else 0);
  }

  /** Storing twice a byte: the carry and `a` together hold the exact double. */
  lemma CarryOfDouble(m: Machine, x: int)
    requires 0 <= x < 256
    ensures 256 * WithCarry(m, 2 * x).regs.c + WithCarry(m, 2 * x).regs.a == 2 * x
  {
    CarryStore(m, 2 * x);
    if 2 * x > 255 {
      assert (2 * x) % 256 == 2 * x - 256;
    } else {
      assert (2 * x) % 256 == 2 * x;
    }
  }

  /** The value `SHL` and `SHLC` store: `a` times two to the shift count. */
  lemma ShiftUpMultiplies(m: Machine, carry: bool)
    requires ByteOperands(m.regs)
    ensures var k := 1 + if carry then m.regs.c else 0;
            && 0 <= m.regs.a * Pow(2, k) < 1024
            && ShiftUp(m, carry) == Done(WithCarry(m, m.regs.a * Pow(2, k)))
  {
    var k := 1 + if carry then m.regs.c else 0;
    if k == 1 {
      ShiftLeftByte(m.regs.a, 1);
      assert Pow(2, 1) == 2;
    } else {
      ShiftLeftByte(m.regs.a, 2);
      assert Pow(2, 2) == 4;
    }
  }

  /** `SHL` doubles `a` and `SHLC` multiplies it by `2^(1 + c)`, since the carry is added to
      the shift count; `a` keeps the product modulo 256 and the carry records whether it
      exceeded 255. For `SHL` the carry and `a` together hold the exact double. */
  lemma ShiftUpSpec(m: Machine, carry: bool)
    requires ByteOperands(m.regs)
    ensures var r := m.regs; var n := ShiftUp(m, carry);
            var product := r.a * Pow(2, 1 + if carry then r.c else 0);
            && Quiet(m, n)
            && n.m.regs == r.(a := product % 256, c := if product > 255 then 1 else 0)
    ensures !carry ==> 256 * ShiftUp(m, carry).m.regs.c + ShiftUp(m, carry).m.regs.a == 2 * m.regs.a
  {
    ShiftUpStores(m, carry);
    if !carry {
      ShiftUpDoubles(m);
    }
  }

  /** What `SHL` and `SHLC` store, through the product. */
  lemma ShiftUpStores(m: Machine, carry: bool)
    requires ByteOperands(m.regs)
    ensures var r := m.regs; var n := ShiftUp(m, carry);
            var product := r.a * Pow(2, 1 + if carry then r.c else 0);
            && Quiet(m, n)
            && n.m.regs == r.(a := product % 256, c := if product > 255 then 1 else 0)
  {
    var p := m.regs.a * Pow(2, 1 + if carry then m.regs.c else 0);
    ShiftUpMultiplies(m, carry);
    assert ShiftUp(m, carry) == Done(WithCarry(m, p));
    CarryStore(m, p);
  }

  /** `SHL` keeps the exact double in the carry and `a`. */
  lemma ShiftUpDoubles(m: Machine)
    requires ByteOperands(m.regs)
    ensures 256 * ShiftUp(m, false).m.regs.c + ShiftUp(m, false).m.regs.a == 2 * m.regs.a
  {
    ShiftUpMultiplies(m, false);
    assert Pow(2, 1) == 2;
    CarryOfDouble(m, m.regs.a);
  }

  /** `SHR` halves `a` and clears the carry, and `SHRC` does exactly the same: its shift
      count `1 + c * 128` is 1 or 129, which the five-bit mask turns back into 1, so the
      carry never enters `a`. */
  lemma ShiftDownSpec(m: Machine, carry: bool)
    requires ByteOperands(m.regs)
    ensures Quiet(m, ShiftDown(m, carry)) && ShiftDown(m, carry).m.regs == m.regs.(a := m.regs.a / 2, c := 0)
    ensures ShiftDown(m, true) == ShiftDown(m, false)
  {
    ShiftDownHalves(m, true);
    ShiftDownHalves(m, false);
  }

  /** `SHR` and `SHRC` both store half of `a` and clear the carry. */
  lemma ShiftDownHalves(m: Machine, carry: bool)
    requires ByteOperands(m.regs)
    ensures ShiftDown(m, carry) == Done(m.(regs := m.regs.(a := m.regs.a / 2, c := 0)))
  {
    var r := m.regs;
    var count := 1 + if carry then r.c * 128 else 0;
    ShiftRightByte(r.a, count);
    assert count % 32 == 1;
    assert Pow(2, 1) == 2;
    CarryStore(m, r.a / 2);
  }

  /** The value `Logic` stores before any complement. */
  function Bits(op: BitOp, x: int, y: int): int
  {
    match op
    case AndOp => BitAnd(x, y)
    case OrOp => BitOr(x, y)
    case XorOp => BitXor(x, y)
  }

  /** The logic instructions store a byte; `NAND`, `NOR` and `XNOR` store the complement
      within a byte of what `AND`, `OR` and `XOR` store, and nothing else changes. */
  lemma LogicSpec(m: Machine, op: BitOp)
    requires ByteOperands(m.regs)
    ensures var x := Bits(op, m.regs.a, m.regs.b);
            && 0 <= x < 256
            && Quiet(m, Logic(m, op, false)) && Logic(m, op, false).m.regs == m.regs.(a := x)
            && Quiet(m, Logic(m, op, true)) && Logic(m, op, true).m.regs == m.regs.(a := 255 - x)
  {
    ByteBitwise(m.regs.a, m.regs.b);
    XorFF(Bits(op, m.regs.a, m.regs.b));
  }

  /** On bytes, `Bits` is the bit-by-bit operation over eight bits. */
  lemma BitsOfBytes(op: BitOp, x: int, y: int)
    requires 0 <= x < 256 && 0 <= y < 256
    ensures Bits(op, x, y) == Bitwise(op, x, y, 8)
  {
    BytesAreNarrow(x);
    BytesAreNarrow(y);
    BitwiseNarrow(op, x, y, 8, 32);
    BitwiseBound(op, x, y, 8);
  }

  /** The number of ones among the low `n` bits of `x`, counted from the lowest. */
  function SetBits(x: nat, n: nat): nat
  {
    if n == 0 then 0 else x % 2 + SetBits(x / 2, n - 1)
  }

  /** Bit `i` of `x`. */
  function BitAt(x: nat, i: nat): nat
  {
    PowPositive(2, i);
    (x / Pow(2, i)) % 2
  }

  /** Counting from the lowest bit adds the bits one by one from below. */
  lemma {:induction false} SetBitsTop(x: nat, n: nat)
    ensures SetBits(x, n + 1) == SetBits(x, n) + BitAt(x, n)
    decreases n
  {
    if n > 0 {
      SetBitsTop(x / 2, n - 1);
      PowPositive(2, n - 1);
      DivDiv(x, 2, Pow(2, n - 1));
    }
  }

  /** Bit `i` of a byte is what `(a >> i) & 1` yields. */
  lemma BitOfByte(a: int, i: nat)
    requires 0 <= a < 256 && i < 8
    ensures LowBit(ShiftRight(a, i)) == BitAt(a, i)
  {
    PowPositive(2, i);
    var q := a / Pow(2, i);
    ShiftRightByte(a, i);
    assert i % 32 == i;
    assert ShiftRight(a, i) == q;
    DivAtMost(a, Pow(2, i));
    assert ToUint32(q) == q;
  }

  /** The loop of `CKSM` adds the bits of a byte, so it counts its set bits. */
  lemma {:induction false} BitSumCounts(a: int, n: nat)
    requires 0 <= a < 256 && n <= 8
    ensures BitSum(a, n) == SetBits(a, n)
    decreases n
  {
    if n > 0 {
      BitSumCounts(a, n - 1);
      BitOfByte(a, n - 1);
      SetBitsTop(a, n - 1);
    }
  }

  /** The value the `CKSM` loop leaves, reduced modulo 2, is the parity of the set bits. */
  lemma ChecksumParity(a: int, extra: int)
    requires 0 <= a < 256 && 0 <= extra
    ensures Rem(BitSum(a, 8) + extra, 2) == (SetBits(a, 8) + extra) % 2
  {
    var n := SetBits(a, 8) + extra;
    BitSumCounts(a, 8);
    assert BitSum(a, 8) + extra == n;
    assert Rem(n, 2) == n % 2;
  }

  /** A bit stored in the carry is kept as it is. */
  lemma CarryBitStore(m: Machine, v: int)
    requires 0 <= v < 2
    ensures With(m, C, v) == m.(regs := m.regs.(c := v))
  {
  }

  /** `CKSM` sets the carry to the parity of the number of set bits of `a`, and `CKSMC`
      to the parity of that number plus the carry. */
  lemma ChecksumSpec(m: Machine, carry: bool)
    requires ByteOperands(m.regs)
    ensures var r := m.regs;
            && Quiet(m, Checksum(m, carry))
            && Checksum(m, carry).m.regs == r.(c := (SetBits(r.a, 8) + if carry then r.c else 0) % 2)
  {
    var r := m.regs;
    var extra := if carry then r.c else 0;
    var v := (SetBits(r.a, 8) + extra) % 2;
    ChecksumParity(r.a, extra);
    CarryBitStore(m, v);
    assert Checksum(m, carry) == Done(With(m, C, v));
  }

  /** `DECR` undoes `INCR` on a counter that stays clear of the modulus, and at zero it
      yields -1 rather than 255. */
  lemma CountSpec(m: Machine)
    ensures Quiet(m, Count(m, 1)) && Quiet(m, Count(m, -1))
    ensures -256 < m.regs.q < 255 ==> Count(Count(m, 1).m, -1).m == m
    ensures m.regs.q == 255 ==> Count(m, 1).m.regs.q == 0
    ensures m.regs.q == 0 ==> Count(m, -1).m.regs.q == -1
  {
  }

  /** A jump that is taken loads the address in `h` and `l` into `p`; otherwise nothing
      changes. */
  lemma JumpSpec(m: Machine, taken: bool)
    requires -256 < m.regs.h < 256 && -256 < m.regs.l < 256
    ensures Quiet(m, JumpIf(m, taken))
    ensures JumpIf(m, taken).m.regs == if taken then m.regs.(p := 256 * m.regs.h + m.regs.l) else m.regs
  {
  }

  /** `SWP` exchanges `a` and `b`, so swapping twice restores them. */
  lemma SwapSpec(m: Machine)
    requires -256 < m.regs.a < 256 && -256 < m.regs.b < 256
    ensures Quiet(m, Swap(m)) && Swap(m).m.regs == m.regs.(a := m.regs.b, b := m.regs.a)
    ensures Swap(Swap(m).m).m == m
  {
  }

  /** A move between 8-bit registers copies the value and changes nothing else. */
  lemma MoveSpec(m: Machine, from: Reg, to: Reg)
    requires Modulus(from) == 256 && Modulus(to) == 256 && -256 < Get(m.regs, from) < 256
    ensures Quiet(m, Move(m, from, to))
    ensures Get(Move(m, from, to).m.regs, to) == Get(m.regs, from)
    ensures forall r :: r != to ==> Get(Move(m, from, to).m.regs, r) == Get(m.regs, r)
  {
    SetSpec(m.regs, to, Get(m.regs, from));
  }

  // ---------------------------------------------------------------------------
  // The stack, with one 16-bit memory on the bus
  // ---------------------------------------------------------------------------

  /** The bus holds exactly one valid memory of 65536 bytes. */
  predicate SingleMemory(m: Machine)
  {
    && |m.devices| == 1 && m.devices[0].Memory? && m.devices[0].nbits == 16
    && ValidMemory(16, m.devices[0].cells) && |m.devices[0].cells| == 65536
  }

  /** The bytes of the single memory. */
  function Cells(m: Machine): (cells: seq<int>)
    requires SingleMemory(m)
    ensures |cells| == 65536 && forall k :: 0 <= k < 65536 ==> 0 <= cells[k] < 256
  {
    m.devices[0].cells
  }

  /** A write into the single memory stores the value modulo 256 at the address. */
  lemma SingleWrite(m: Machine, address: int, value: int)
    requires SingleMemory(m) && 0 <= address < 65536
    ensures var w := WriteDevices(m, address, value);
            && w == Step(m.(devices := [Memory(16, Cells(m)[address := ToUint8(value)])]), [], true)
            && SingleMemory(w.m) && Cells(w.m) == Cells(m)[address := ToUint8(value)]
  {
    Pow16();
    IndexInside(16, address);
    var d := m.devices[0];
    assert m.devices[1..] == [];
    assert BusWrite(m.devices[1..], address, value) == ([], 0);
    assert Write(d, address, value).1;
    assert [Write(d, address, value).0] + [] == [Write(d, address, value).0];
    assert BusWrite(m.devices, address, value) == ([Write(d, address, value).0], 1);
    assert MemoryWrite(16, d.cells, address, value) == d.cells[address := ToUint8(value)];
    Pow16();
  }

  /** A read of the single memory yields the byte at the address. */
  lemma SingleRead(m: Machine, address: int)
    requires SingleMemory(m) && 0 <= address < 65536
    ensures ReadDevices(m, address) == Fetch(m, Cells(m)[address], [], true)
  {
    Pow16();
    IndexInside(16, address);
    assert m.devices == [m.devices[0]];
    BusReadSingle(m.devices[0], address);
  }

  /** `PSH` stores `a` at `0xFF00 + s` and decrements `s`, without any message even when
      `s` goes below zero. */
  lemma PushSpec(m: Machine)
    requires SingleMemory(m) && -255 < m.regs.s < 256
    ensures var n := Push(m);
            && n.ok && n.events == [] && n.m.halted == m.halted
            && n.m.regs == m.regs.(s := m.regs.s - 1)
            && SingleMemory(n.m) && Cells(n.m) == Cells(m)[m.regs.s + 0xFF00 := ToUint8(m.regs.a)]
  {
    SingleWrite(m, StackAddress(m.regs), m.regs.a);
  }

  /** `POP` increments `s` modulo 256 and loads the byte at `0xFF00 + s` into `a`, warning
      when `s` becomes 0, as it does from the empty stack at 255. */
  lemma PopSpec(m: Machine)
    requires SingleMemory(m) && -256 < m.regs.s < 256
    ensures var n := Pop(m); var s := Rem(m.regs.s + 1, 256);
            && n.ok && n.m.halted == m.halted && n.m.devices == m.devices
            && n.m.regs == m.regs.(s := s, a := Cells(m)[s + 0xFF00])
            && n.events == if s == 0 then [StackOverflow] else []
  {
    var m1 := With(m, S, m.regs.s + 1);
    SingleRead(m1, StackAddress(m1.regs));
  }

  /** `PSH` followed by `POP` restores every register and leaves the pushed byte on the
      stack; only the `POP` from `s == 0` back to 0 warns. */
  lemma PushPop(m: Machine)
    requires SingleMemory(m) && 0 <= m.regs.a < 256 && -255 < m.regs.s < 256
    ensures var push := Push(m); var pop := Pop(push.m);
            && push.ok && push.events == [] && pop.ok
            && pop.m.regs == m.regs && pop.m.halted == m.halted
            && Cells(pop.m)[m.regs.s + 0xFF00] == m.regs.a
            && pop.events == if m.regs.s == 0 then [StackOverflow] else []
  {
    PushSpec(m);
    PopSpec(Push(m).m);
  }

  /** `SUBR` pushes the high and then the low byte of `p` and jumps to the address in `h`
      and `l`, without any message. */
  lemma CallSpec(m: Machine)
    requires SingleMemory(m) && 0 <= m.regs.p < 65536 && -254 < m.regs.s < 256
    ensures var n := Call(m); var r := m.regs;
            && n.ok && n.events == [] && n.m.halted == m.halted
            && n.m.regs == r.(s := r.s - 2, p := Rem(AddressPair(r), 65536))
            && SingleMemory(n.m)
            && Cells(n.m) == Cells(m)[r.s + 0xFF00 := r.p / 256][r.s - 1 + 0xFF00 := r.p % 256]
  {
    var r := m.regs;
    var w1 := WriteDevices(m, StackAddress(r), r.p / 256);
    SingleWrite(m, StackAddress(r), r.p / 256);
    var m1 := With(w1.m, S, w1.m.regs.s - 1);
    SingleWrite(m1, StackAddress(m1.regs), Rem(m1.regs.p, 256));
  }

  /** `RET` pops the low and then the high byte of the return address into `p`, warning
      when `s` becomes 0. `ReturnFromEmpty` and `ReturnToEmpty` cover the two values of `s`
      this lemma leaves out, where an increment wraps 255 to 0. */
  lemma ReturnSpec(m: Machine)
    requires SingleMemory(m) && -256 < m.regs.s < 254
    ensures var n := Return(m); var r := m.regs;
            && n.ok && n.m.halted == m.halted && n.m.devices == m.devices
            && n.m.regs == r.(s := r.s + 2, p := Rem(Cells(m)[r.s + 2 + 0xFF00] * 256 + Cells(m)[r.s + 1 + 0xFF00], 65536))
            && n.events == (if r.s + 1 == 0 then [StackOverflow] else []) + (if r.s + 2 == 0 then [StackOverflow] else [])
  {
    var m1 := With(m, S, m.regs.s + 1);
    SingleRead(m1, StackAddress(m1.regs));
    var m2 := With(m1, S, m1.regs.s + 1);
    SingleRead(m2, StackAddress(m2.regs));
  }

  /** `RET` from the empty stack (`s` is 255, as the constructor leaves it): the first
      increment wraps `s` to 0 with a warning, and the bytes come from `0xFF00` and `0xFF01`. */
  lemma ReturnFromEmpty(m: Machine)
    requires SingleMemory(m) && m.regs.s == 255
    ensures var n := Return(m);
            && n.ok && n.m.halted == m.halted && n.m.devices == m.devices
            && n.m.regs == m.regs.(s := 1, p := Rem(Cells(m)[0xFF01] * 256 + Cells(m)[0xFF00], 65536))
            && n.events == [StackOverflow]
  {
    var below := m.(regs := m.regs.(s := -1));
    StackBump(m.regs.s);
    assert With(m, S, m.regs.s + 1) == With(below, S, below.regs.s + 1);
    assert Return(m) == Return(below);
    ReturnSpec(below);
  }

  /** `RET` with one byte on the stack (`s` is 254): the second increment wraps `s` to 0
      with a warning, and the bytes come from `0xFFFF` and `0xFF00`. */
  lemma ReturnToEmpty(m: Machine)
    requires SingleMemory(m) && m.regs.s == 254
    ensures var n := Return(m);
            && n.ok && n.m.halted == m.halted && n.m.devices == m.devices
            && n.m.regs == m.regs.(s := 0, p := Rem(Cells(m)[0xFF00] * 256 + Cells(m)[0xFFFF], 65536))
            && n.events == [StackOverflow]
  {
    var m1 := With(m, S, m.regs.s + 1);
    StackBump(m.regs.s);
    SingleRead(m1, StackAddress(m1.regs));
    var m2 := With(m1, S, m1.regs.s + 1);
    StackBump(m1.regs.s);
    SingleRead(m2, StackAddress(m2.regs));
  }

  /** An increment of `s` in the range a register can hold wraps only at 255. */
  lemma StackBump(s: int)
    requires -256 < s < 256
    ensures Rem(s + 1, 256) == if s == 255 then 0 else s + 1
  {}

  /** `SUBR` followed by `RET` restores every register, `p` included, so execution resumes
      after the call. */
  lemma CallReturn(m: Machine)
    requires SingleMemory(m) && 0 <= m.regs.p < 65536 && -254 < m.regs.s < 256
    ensures var call := Call(m); var ret := Return(call.m);
            && call.ok && call.events == [] && ret.ok
            && ret.m.regs == m.regs && ret.m.halted == m.halted
  {
    var r := m.regs;
    CallSpec(m);
    var c := Call(m).m;
    ReturnSpec(c);
    DivMod(r.p, 256);
    assert Cells(c)[c.regs.s + 2 + 0xFF00] == r.p / 256;
    assert Cells(c)[c.regs.s + 1 + 0xFF00] == r.p % 256;
  }

  /** The stack pointer never reads 255 right after a decrement of an in-range `s`, so the
      underflow warnings of `PSH` and `SUBR` are never issued; `s` goes negative instead. */
  lemma NoUnderflowWarning(m: Machine)
    requires -256 < m.regs.s < 256
    ensures StackUnderflow !in Push(m).events
    ensures StackUnderflow !in Call(m).events
  {
    var w := WriteDevices(m, StackAddress(m.regs), m.regs.a);
    assert StackUnderflow !in w.events;
    var w1 := WriteDevices(m, StackAddress(m.regs), m.regs.p / 256);
    var m1 := With(w1.m, S, w1.m.regs.s - 1);
    var w2 := WriteDevices(m1, StackAddress(m1.regs), Rem(m1.regs.p, 256));
    assert StackUnderflow !in w1.events && StackUnderflow !in w2.events;
  }

  /** From `s == 0` a push leaves `s == -1` rather than 255. */
  lemma PushBelowZero(m: Machine)
    requires m.regs.s == 0
    ensures Push(m).m.regs.s == -1
  {
  }

  // ---------------------------------------------------------------------------
  // What every step preserves
  // ---------------------------------------------------------------------------

  /** Every register lies strictly between minus and plus its modulus, and every device on
      the bus is valid. */
  predicate Sound(m: Machine)
  {
    InRange(m.regs) && AllValid(m.devices)
  }

  /** A step from `m` that leaves a sound machine with as many devices as `m` had. */
  predicate SoundStep(m: Machine, n: Machine)
  {
    Sound(n) && |n.devices| == |m.devices|
  }

  /** Setting a register keeps the machine sound. */
  lemma WithSound(m: Machine, r: Reg, value: int)
    requires Sound(m)
    ensures Sound(With(m, r, value)) && With(m, r, value).devices == m.devices
  {
    SetSpec(m.regs, r, value);
  }

  /** A read of the bus changes neither registers nor devices. */
  lemma ReadSound(m: Machine, address: int)
    requires Sound(m)
    ensures Sound(ReadDevices(m, address).m) && ReadDevices(m, address).m.devices == m.devices
  {
  }

  /** A write keeps the devices valid and their number. */
  lemma WriteSound(m: Machine, address: int, value: int)
    requires Sound(m)
    ensures SoundStep(m, WriteDevices(m, address, value).m)
  {
    BusWriteSpec(m.devices, address, value);
  }

  /** A fetch at `p` keeps the machine sound. */
  lemma PullSound(m: Machine)
    requires Sound(m)
    ensures Sound(Pull(m).m) && Pull(m).m.devices == m.devices
  {
    ReadSound(m, m.regs.p);
    WithSound(ReadDevices(m, m.regs.p).m, P, m.regs.p + 1);
  }

  /** Loading what a sound fetch read keeps the machine sound. */
  lemma LoadSound(f: Fetch, r: Reg)
    requires Sound(f.m)
    ensures Sound(Load(f, r).m) && Load(f, r).m.devices == f.m.devices
  {
    WithSound(f.m, r, f.value);
  }

  lemma LoadAddressSound(m: Machine)
    requires Sound(m)
    ensures SoundStep(m, LoadAddress(m).m)
  {
    var hi := Pull(m);
    PullSound(m);
    var lo := Pull(hi.m);
    PullSound(hi.m);
    WithSound(lo.m, H, hi.value);
    WithSound(With(lo.m, H, hi.value), L, lo.value);
  }

  lemma PushSound(m: Machine)
    requires Sound(m)
    ensures SoundStep(m, Push(m).m)
  {
    var w := WriteDevices(m, StackAddress(m.regs), m.regs.a);
    WriteSound(m, StackAddress(m.regs), m.regs.a);
    WithSound(w.m, S, w.m.regs.s - 1);
  }

  /** Moving `s` up and reading the byte it then points at keeps the machine sound. */
  lemma RaiseAndReadSound(m: Machine)
    requires Sound(m)
    ensures var m1 := With(m, S, m.regs.s + 1);
            Sound(ReadDevices(m1, StackAddress(m1.regs)).m) && ReadDevices(m1, StackAddress(m1.regs)).m.devices == m.devices
  {
    var m1 := With(m, S, m.regs.s + 1);
    WithSound(m, S, m.regs.s + 1);
    ReadSound(m1, StackAddress(m1.regs));
  }

  lemma PopSound(m: Machine)
    requires Sound(m)
    ensures SoundStep(m, Pop(m).m)
  {
    var m1 := With(m, S, m.regs.s + 1);
    RaiseAndReadSound(m);
    LoadSound(ReadDevices(m1, StackAddress(m1.regs)), A);
  }

  lemma CallSound(m: Machine)
    requires Sound(m)
    ensures SoundStep(m, Call(m).m)
  {
    var w1 := WriteDevices(m, StackAddress(m.regs), m.regs.p / 256);
    WriteSound(m, StackAddress(m.regs), m.regs.p / 256);
    var m1 := With(w1.m, S, w1.m.regs.s - 1);
    WithSound(w1.m, S, w1.m.regs.s - 1);
    var w2 := WriteDevices(m1, StackAddress(m1.regs), Rem(m1.regs.p, 256));
    WriteSound(m1, StackAddress(m1.regs), Rem(m1.regs.p, 256));
    var m2 := With(w2.m, S, w2.m.regs.s - 1);
    WithSound(w2.m, S, w2.m.regs.s - 1);
    WithSound(m2, P, AddressPair(m2.regs));
  }

  lemma ReturnSound(m: Machine)
    requires Sound(m)
    ensures SoundStep(m, Return(m).m)
  {
    var m1 := With(m, S, m.regs.s + 1);
    var lo := ReadDevices(m1, StackAddress(m1.regs));
    RaiseAndReadSound(m);
    var m2 := With(lo.m, S, lo.m.regs.s + 1);
    var hi := ReadDevices(m2, StackAddress(m2.regs));
    RaiseAndReadSound(lo.m);
    WithSound(hi.m, P, hi.value * 256 + lo.value);
  }

  /** Halting touches neither registers nor devices. */
  lemma HaltSound(m: Machine)
    requires Sound(m)
    ensures SoundStep(m, m.(halted := true))
  {
    assert m.(halted := true).regs == m.regs;
  }

  /** A result stored with its carry keeps the machine sound. */
  lemma CarrySound(m: Machine, result: int)
    requires Sound(m)
    ensures Sound(WithCarry(m, result)) && WithCarry(m, result).devices == m.devices
  {
    WithSound(m, A, result);
    WithSound(With(m, A, result), C, if result > 255 then 1 else 0);
  }

  lemma SumSound(m: Machine, carry: bool)
    requires Sound(m)
    ensures SoundStep(m, Sum(m, carry).m)
  {
    CarrySound(m, m.regs.a + m.regs.b + (if carry then m.regs.c else 0));
  }

  lemma DifferenceSound(m: Machine, carry: bool)
    requires Sound(m)
    ensures SoundStep(m, Difference(m, carry).m)
  {
    CarrySound(m, m.regs.a + BitXor(m.regs.b, 0xFF) + 1 + (if carry then m.regs.c else 0));
  }

  lemma ShiftUpSound(m: Machine, carry: bool)
    requires Sound(m)
    ensures SoundStep(m, ShiftUp(m, carry).m)
  {
    CarrySound(m, ShiftLeft(m.regs.a, 1 + (if carry then m.regs.c else 0)));
  }

  lemma ShiftDownSound(m: Machine, carry: bool)
    requires Sound(m)
    ensures SoundStep(m, ShiftDown(m, carry).m)
  {
    CarrySound(m, ShiftRight(m.regs.a, 1 + (if carry then m.regs.c * 128 else 0)));
  }

  lemma LogicSound(m: Machine, op: BitOp, complement: bool)
    requires Sound(m)
    ensures SoundStep(m, Logic(m, op, complement).m)
  {
    var x := Bits(op, m.regs.a, m.regs.b);
    WithSound(m, A, if complement then BitXor(x, 0xFF) else x);
  }

  lemma ChecksumSound(m: Machine, carry: bool)
    requires Sound(m)
    ensures SoundStep(m, Checksum(m, carry).m)
  {
    WithSound(m, C, Rem(BitSum(m.regs.a, 8) + (if carry then m.regs.c else 0), 2));
  }

  lemma MoveSound(m: Machine, from: Reg, to: Reg)
    requires Sound(m)
    ensures SoundStep(m, Move(m, from, to).m)
  {
    WithSound(m, to, Get(m.regs, from));
  }

  lemma SwapSound(m: Machine)
    requires Sound(m)
    ensures SoundStep(m, Swap(m).m)
  {
    WithSound(m, A, m.regs.b);
    WithSound(With(m, A, m.regs.b), B, m.regs.a);
  }

  lemma CountSound(m: Machine, delta: int)
    requires Sound(m)
    ensures SoundStep(m, Count(m, delta).m)
  {
    WithSound(m, Q, m.regs.q + delta);
  }

  lemma JumpSound(m: Machine, taken: bool)
    requires Sound(m)
    ensures SoundStep(m, JumpIf(m, taken).m)
  {
    WithSound(m, P, AddressPair(m.regs));
  }

  /** Every instruction keeps the machine sound and the number of devices unchanged:
      registers never leave the range their modulus allows. */
  lemma RunSound(m: Machine, o: Opcode)
    requires Sound(m)
    ensures SoundStep(m, Run(m, o).m)
  {
    var r := m.regs;
    match o
    case HLT => HaltSound(m);
    case NOP =>
    case ADR => LoadAddressSound(m);
    case LDA => ReadSound(m, AddressPair(r)); LoadSound(ReadDevices(m, AddressPair(r)), A);
    case STA => WriteSound(m, AddressPair(r), r.a);
    case LDB => MoveSound(m, A, B);
    case SWP => SwapSound(m);
    case LDH => MoveSound(m, A, H);
    case LDL => MoveSound(m, A, L);
    case STH => MoveSound(m, H, A);
    case STL => MoveSound(m, L, A);
    case LDQ => MoveSound(m, A, Q);
    case STQ => MoveSound(m, Q, A);
    case CLA => PullSound(m); LoadSound(Pull(m), A);
    case CLB => PullSound(m); LoadSound(Pull(m), B);
    case CLQ => PullSound(m); LoadSound(Pull(m), Q);
    case ADD => SumSound(m, false);
    case ADDC => SumSound(m, true);
    case SUB => DifferenceSound(m, false);
    case SUBC => DifferenceSound(m, true);
    case SHL => ShiftUpSound(m, false);
    case SHLC => ShiftUpSound(m, true);
    case SHR => ShiftDownSound(m, false);
    case SHRC => ShiftDownSound(m, true);
    case AND => LogicSound(m, AndOp, false);
    case OR => LogicSound(m, OrOp, false);
    case XOR => LogicSound(m, XorOp, false);
    case NAND => LogicSound(m, AndOp, true);
    case NOR => LogicSound(m, OrOp, true);
    case XNOR => LogicSound(m, XorOp, true);
    case CKSM => ChecksumSound(m, false);
    case CKSMC => ChecksumSound(m, true);
    case INCR => CountSound(m, 1);
    case DECR => CountSound(m, -1);
    case JMP => JumpSound(m, true);
    case JMPC => JumpSound(m, r.c == 1);
    case JMPZ => JumpSound(m, ZeroFlag(r) == 1);
    case JMPQ => JumpSound(m, ZeroFlag(r) == 0);
    case PSH => PushSound(m);
    case POP => PopSound(m);
    case SUBR => CallSound(m);
    case RET => ReturnSound(m);
  }

  /** A clock keeps the machine sound, whatever it fetches. */
  lemma ClockSound(m: Machine)
    requires Sound(m)
    ensures SoundStep(m, Clock(m).m)
  {
    if !m.halted {
      var f := Pull(m);
      PullSound(m);
      if f.ok {
        match Decode(f.value)
        case None =>
        case Some(o) => RunSound(f.m, o);
      }
    }
  }

  /** `ms` is a run of the emulator: each machine is what `clock` makes of the one before. */
  predicate IsRun(ms: seq<Machine>)
  {
    forall i :: 0 < i < |ms| ==> ms[i] == Clock(ms[i - 1]).m
  }

  /** A freshly constructed SMPU is sound and running. */
  lemma InitialSound()
    ensures Sound(Initial) && !Initial.halted && Initial.devices == []
  {
  }

  /** Two steps that keep a machine sound make one. */
  lemma SoundSteps(m: Machine, n: Machine, o: Machine)
    requires SoundStep(m, n) && SoundStep(n, o)
    ensures SoundStep(m, o)
  {
  }

  /** A run that starts sound stays sound, with the same number of devices; with
      `InitialSound` this covers every run of a freshly constructed SMPU. */
  lemma {:induction false} RunStaysSound(ms: seq<Machine>, k: nat)
    requires IsRun(ms) && k < |ms| && Sound(ms[0])
    ensures SoundStep(ms[0], ms[k])
    decreases k
  {
    if k > 0 {
      RunStaysSound(ms, k - 1);
      ClockSound(ms[k - 1]);
      SoundSteps(ms[0], ms[k - 1], ms[k]);
    }
  }

  /** Once halted, a machine never changes again, however often it is clocked. */
  lemma {:induction false} RunStaysHalted(ms: seq<Machine>, k: nat)
    requires IsRun(ms) && k < |ms| && ms[0].halted
    ensures ms[k] == ms[0]
    decreases k
  {
    if k > 0 {
      RunStaysHalted(ms, k - 1);
    }
  }
}
