/** The I2C bus with one sensor's register file behind it. The model keeps
    the register file in memory and records every transfer the driver
    issues, so that the order and kind of bus traffic can be specified. */
module Bus {

  /** A value that `bytes([...])` accepts. */
  type byte = x: nat | x < 256

  /** Size of the 8-bit register address space. */
  const REGISTER_SPACE: nat := 256

  /** One bus transaction: `readfrom_mem(address, register, length)` or
      `writeto_mem(address, register, data)`. */
  datatype Transfer =
    | ReadFrom(address: nat, register: nat, length: nat)
    | WriteTo(address: nat, register: nat, data: seq<byte>)

  class I2C {
    /** The device's registers, indexed by register address. */
    const mem: array<byte>
    /** Every transfer issued so far, oldest first. */
    ghost var log: seq<Transfer>

    ghost predicate Valid()
    {
      mem.Length == REGISTER_SPACE
    }

    constructor (contents: seq<byte>)
      requires |contents| == REGISTER_SPACE
      ensures Valid() && fresh(mem)
      ensures mem[..] == contents && log == []
    {
      mem := new byte[REGISTER_SPACE](i => if 0 <= i < |contents| then contents[i] else 0);
      log := [];
    }

    /** `readfrom_mem`: a burst read of `length` consecutive registers. */
    method ReadFromMem(address: nat, register: nat, length: nat) returns (data: seq<byte>)
      requires Valid() && register + length <= REGISTER_SPACE
      modifies this
      ensures data == mem[register..register + length]
      ensures log == old(log) + [ReadFrom(address, register, length)]
    {
      data := mem[register..register + length];
      log := log + [ReadFrom(address, register, length)];
    }

    /** `writeto_mem` of a single byte. */
    method WriteToMem(address: nat, register: nat, value: byte)
      requires Valid() && register < REGISTER_SPACE
      modifies this, mem
      ensures mem[..] == old(mem[..])[register := value]
      ensures log == old(log) + [WriteTo(address, register, [value])]
    {
      mem[register] := value;
      log := log + [WriteTo(address, register, [value])];
    }
  }

  /** The registers written by a sequence of transfers, in order. */
  function WrittenRegisters(log: seq<Transfer>): (regs: seq<nat>)
    ensures |regs| <= |log|
  {
    if log == [] then []
    else (if log[0].WriteTo? then [log[0].register] else []) + WrittenRegisters(log[1..])
  }

  lemma {:induction false} WrittenRegistersAppend(a: seq<Transfer>, b: seq<Transfer>)
    ensures WrittenRegisters(a + b) == WrittenRegisters(a) + WrittenRegisters(b)
    decreases |a|
  {
    if a == [] {
      assert a + b == b;
    } else {
      assert (a + b)[0] == a[0];
      assert (a + b)[1..] == a[1..] + b;
      WrittenRegistersAppend(a[1..], b);
    }
  }
}
