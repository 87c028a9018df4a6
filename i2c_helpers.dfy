/** The two register accessors of the driver: `CBits`, a read-modify-write
    of a bit field inside one 8-bit register, and `RegisterStruct`, a
    register read (or written) under a `struct` layout. */
module I2CHelpers {
  import opened BitOps
  import opened Bus

  // =====================================================================
  // CBits

  /** `CBits(num_bits, register_address, start_bit)`. */
  datatype CBits = CBits(numBits: nat, register: nat, startBit: nat)
  {
    /** The field lies inside one byte of the register space. */
    predicate Valid()
    {
      numBits + startBit <= 8 && register < REGISTER_SPACE
    }

    /** `bit_mask`, computed in `__init__` as `((1 << num_bits) - 1) << start_bit`. */
    function BitMask(): nat
    {
      Shl(Pow2(numBits) - 1, startBit)
    }

    /** Bit position i belongs to the field. */
    predicate Covers(i: nat)
    {
      startBit <= i < startBit + numBits
    }
  }

  /** Two fields share at least one bit position. */
  predicate Overlap(d1: CBits, d2: CBits)
  {
    d1.numBits > 0 && d2.numBits > 0 &&
    d1.startBit < d2.startBit + d2.numBits && d2.startBit < d1.startBit + d1.numBits
  }

  lemma MaskBit(d: CBits, i: nat)
    ensures Bit(d.BitMask(), i) == d.Covers(i)
  {
    ShlBit(Pow2(d.numBits) - 1, d.startBit, i);
    if d.startBit <= i {
      LowOnesBit(d.numBits, i - d.startBit);
    }
  }

  /** The mask has exactly the field's `numBits` consecutive bits from
      `startBit` set, and fits in a byte. */
  lemma MaskShape(d: CBits)
    requires d.Valid()
    ensures forall i: nat :: Bit(d.BitMask(), i) == d.Covers(i)
    ensures d.BitMask() < 256
  {
    forall i: nat
      ensures Bit(d.BitMask(), i) == d.Covers(i)
    {
      MaskBit(d, i);
    }
    ByteBits(d.BitMask());
  }

  /** Two masks share a bit exactly when the fields overlap. */
  lemma MasksOverlap(d1: CBits, d2: CBits)
    ensures And(d1.BitMask(), d2.BitMask()) != 0 <==> Overlap(d1, d2)
  {
    var both := And(d1.BitMask(), d2.BitMask());
    if Overlap(d1, d2) {
      var i := if d1.startBit < d2.startBit then d2.startBit else d1.startBit;
      AndBit(d1.BitMask(), d2.BitMask(), i);
      MaskBit(d1, i);
      MaskBit(d2, i);
      ZeroHasNoBits(i);
    } else {
      forall i: nat
        ensures Bit(both, i) == Bit(0, i)
      {
        AndBit(d1.BitMask(), d2.BitMask(), i);
        MaskBit(d1, i);
        MaskBit(d2, i);
        ZeroHasNoBits(i);
      }
      BitsDetermine(both, 0);
    }
  }

  lemma RawFieldBit(d: CBits, reg: nat, i: nat)
    ensures Bit(Shr(And(reg, d.BitMask()), d.startBit), i) == (i < d.numBits && Bit(reg, i + d.startBit))
  {
    ShrBit(And(reg, d.BitMask()), d.startBit, i);
    AndBit(reg, d.BitMask(), i + d.startBit);
    MaskBit(d, i + d.startBit);
  }

  lemma FieldBelow(d: CBits, reg: nat)
    ensures Shr(And(reg, d.BitMask()), d.startBit) < Pow2(d.numBits)
  {
    var v := Shr(And(reg, d.BitMask()), d.startBit);
    forall i: nat | d.numBits <= i
      ensures !Bit(v, i)
    {
      RawFieldBit(d, reg, i);
    }
    BelowPow2(v, d.numBits);
  }

  lemma FieldArithBit(d: CBits, reg: nat, i: nat)
    ensures Bit(Shr(And(reg, d.BitMask()), d.startBit), i) == Bit(Shr(reg, d.startBit) % Pow2(d.numBits), i)
  {
    RawFieldBit(d, reg, i);
    ModBit(Shr(reg, d.startBit), d.numBits, i);
    ShrBit(reg, d.startBit, i);
  }

  lemma FieldArith(d: CBits, reg: nat)
    ensures Shr(And(reg, d.BitMask()), d.startBit) == (reg / Pow2(d.startBit)) % Pow2(d.numBits)
  {
    var v := Shr(And(reg, d.BitMask()), d.startBit);
    var a := Shr(reg, d.startBit) % Pow2(d.numBits);
    forall i: nat
      ensures Bit(v, i) == Bit(a, i)
    {
      FieldArithBit(d, reg, i);
    }
    BitsDetermine(v, a);
  }

  lemma ExtractFacts(d: CBits, reg: nat)
    ensures forall i: nat :: Bit(Shr(And(reg, d.BitMask()), d.startBit), i) ==
                             (i < d.numBits && Bit(reg, i + d.startBit))
    ensures Shr(And(reg, d.BitMask()), d.startBit) < Pow2(d.numBits)
    ensures Shr(And(reg, d.BitMask()), d.startBit) == (reg / Pow2(d.startBit)) % Pow2(d.numBits)
  {
    forall i: nat
      ensures Bit(Shr(And(reg, d.BitMask()), d.startBit), i) == (i < d.numBits && Bit(reg, i + d.startBit))
    {
      RawFieldBit(d, reg, i);
    }
    FieldBelow(d, reg);
    FieldArith(d, reg);
  }

  /** `__get__` after the register read: `(reg & bit_mask) >> start_bit`.
      The result is the field's unsigned value, below `1 << num_bits`. */
  function Extract(d: CBits, reg: nat): (v: nat)
    ensures v < Pow2(d.numBits)
    ensures v == (reg / Pow2(d.startBit)) % Pow2(d.numBits)
  {
    ExtractFacts(d, reg);
    Shr(And(reg, d.BitMask()), d.startBit)
  }

  lemma ExtractBit(d: CBits, reg: nat, i: nat)
    ensures Bit(Extract(d, reg), i) == (i < d.numBits && Bit(reg, i + d.startBit))
  {
    ExtractFacts(d, reg);
  }

  /** `__set__` after the register read: `(reg & ~bit_mask) | (value << start_bit)`.
      The value is not checked against the field's width. */
  function Insert(d: CBits, reg: nat, value: nat): nat
  {
    Or(AndNot(reg, d.BitMask()), Shl(value, d.startBit))
  }

  /** Bit i of the written byte: the old bit outside the field, or'ed with
      the shifted value (which reaches above the field when it is too wide). */
  lemma InsertBit(d: CBits, reg: nat, value: nat, i: nat)
    ensures Bit(Insert(d, reg, value), i) ==
            ((Bit(reg, i) && !d.Covers(i)) || (d.startBit <= i && Bit(value, i - d.startBit)))
  {
    OrBit(AndNot(reg, d.BitMask()), Shl(value, d.startBit), i);
    AndNotBit(reg, d.BitMask(), i);
    MaskBit(d, i);
    ShlBit(value, d.startBit, i);
  }

  /** The written byte is a byte (so `bytes([...])` succeeds) exactly when
      `value << start_bit` is. */
  lemma InsertFitsByte(d: CBits, reg: nat, value: nat)
    requires reg < 256
    ensures Insert(d, reg, value) < 256 <==> Shl(value, d.startBit) < 256
  {
    var r, s := Insert(d, reg, value), Shl(value, d.startBit);
    ByteBits(reg);
    ByteBits(r);
    ByteBits(s);
    forall i: nat
      ensures Bit(r, i) == ((Bit(reg, i) && !d.Covers(i)) || Bit(s, i))
    {
      InsertBit(d, reg, value, i);
      ShlBit(value, d.startBit, i);
    }
  }

  /** Writing an in-width value and reading the field back returns it. */
  lemma {:induction false} ExtractInsert(d: CBits, reg: nat, value: nat)
    requires value < Pow2(d.numBits)
    ensures Extract(d, Insert(d, reg, value)) == value
  {
    var r := Extract(d, Insert(d, reg, value));
    forall i: nat
      ensures Bit(r, i) == Bit(value, i)
    {
      ExtractBit(d, Insert(d, reg, value), i);
      InsertBit(d, reg, value, i + d.startBit);
      if i >= d.numBits {
        NoBitsAbove(value, d.numBits, i);
      }
    }
    BitsDetermine(r, value);
  }

  /** An in-width write leaves every bit outside the mask as it was. */
  lemma {:induction false} InsertKeepsOutside(d: CBits, reg: nat, value: nat)
    requires value < Pow2(d.numBits)
    ensures forall i: nat :: !d.Covers(i) ==> Bit(Insert(d, reg, value), i) == Bit(reg, i)
    ensures AndNot(Insert(d, reg, value), d.BitMask()) == AndNot(reg, d.BitMask())
  {
    var r := Insert(d, reg, value);
    forall i: nat | !d.Covers(i)
      ensures Bit(r, i) == Bit(reg, i)
    {
      InsertBit(d, reg, value, i);
      if d.startBit <= i {
        NoBitsAbove(value, d.numBits, i - d.startBit);
      }
    }
    forall i: nat
      ensures Bit(AndNot(r, d.BitMask()), i) == Bit(AndNot(reg, d.BitMask()), i)
    {
      AndNotBit(r, d.BitMask(), i);
      AndNotBit(reg, d.BitMask(), i);
      MaskBit(d, i);
    }
    BitsDetermine(AndNot(r, d.BitMask()), AndNot(reg, d.BitMask()));
  }

  /** Writing back the value a field already holds leaves the byte unchanged. */
  lemma {:induction false} InsertExtract(d: CBits, reg: nat)
    ensures Insert(d, reg, Extract(d, reg)) == reg
  {
    var r := Insert(d, reg, Extract(d, reg));
    forall i: nat
      ensures Bit(r, i) == Bit(reg, i)
    {
      InsertBit(d, reg, Extract(d, reg), i);
      if d.startBit <= i {
        ExtractBit(d, reg, i - d.startBit);
      }
    }
    BitsDetermine(r, reg);
  }

  /** A second write of a field replaces the first one (whatever the second value). */
  lemma {:induction false} InsertInsert(d: CBits, reg: nat, v1: nat, v2: nat)
    requires v1 < Pow2(d.numBits)
    ensures Insert(d, Insert(d, reg, v1), v2) == Insert(d, reg, v2)
  {
    var once := Insert(d, reg, v1);
    forall i: nat
      ensures Bit(Insert(d, once, v2), i) == Bit(Insert(d, reg, v2), i)
    {
      InsertBit(d, once, v2, i);
      InsertBit(d, reg, v2, i);
      InsertKeepsOutside(d, reg, v1);
    }
    BitsDetermine(Insert(d, once, v2), Insert(d, reg, v2));
  }

  /** Writing a field leaves a non-overlapping field of the same byte as it was. */
  lemma {:induction false} ExtractOther(d1: CBits, d2: CBits, reg: nat, value: nat)
    requires !Overlap(d1, d2) && value < Pow2(d1.numBits)
    ensures Extract(d2, Insert(d1, reg, value)) == Extract(d2, reg)
  {
    var r := Insert(d1, reg, value);
    InsertKeepsOutside(d1, reg, value);
    forall i: nat
      ensures Bit(Extract(d2, r), i) == Bit(Extract(d2, reg), i)
    {
      ExtractBit(d2, r, i);
      ExtractBit(d2, reg, i);
    }
    BitsDetermine(Extract(d2, r), Extract(d2, reg));
  }

  /** In-width writes of two non-overlapping fields commute. */
  lemma {:induction false} InsertCommute(d1: CBits, d2: CBits, reg: nat, v1: nat, v2: nat)
    requires !Overlap(d1, d2) && v1 < Pow2(d1.numBits) && v2 < Pow2(d2.numBits)
    ensures Insert(d2, Insert(d1, reg, v1), v2) == Insert(d1, Insert(d2, reg, v2), v1)
  {
    var a, b := Insert(d2, Insert(d1, reg, v1), v2), Insert(d1, Insert(d2, reg, v2), v1);
    forall i: nat
      ensures Bit(a, i) == Bit(b, i)
    {
      InsertBit(d2, Insert(d1, reg, v1), v2, i);
      InsertBit(d1, reg, v1, i);
      InsertBit(d1, Insert(d2, reg, v2), v1, i);
      InsertBit(d2, reg, v2, i);
      if d1.startBit <= i && !d1.Covers(i) {
        NoBitsAbove(v1, d1.numBits, i - d1.startBit);
      }
      if d2.startBit <= i && !d2.Covers(i) {
        NoBitsAbove(v2, d2.numBits, i - d2.startBit);
      }
    }
    BitsDetermine(a, b);
  }

  // ---------------------------------------------------------------------
  // Fields of the whole register file

  /** The value of field d in register file m. */
  function ReadBits(m: seq<byte>, d: CBits): nat
    requires d.Valid() && |m| == REGISTER_SPACE
  {
    Extract(d, m[d.register])
  }

  /** The register file after writing `value` into field d. */
  function WriteBits(m: seq<byte>, d: CBits, value: nat): (r: seq<byte>)
    requires d.Valid() && |m| == REGISTER_SPACE && Shl(value, d.startBit) < 256
    ensures |r| == REGISTER_SPACE
  {
    InsertFitsByte(d, m[d.register], value);
    m[d.register := Insert(d, m[d.register], value)]
  }

  /** A field write changes the field's register to the inserted byte and no other register. */
  lemma WriteBitsEffect(m: seq<byte>, d: CBits, value: nat)
    requires d.Valid() && |m| == REGISTER_SPACE && Shl(value, d.startBit) < 256
    ensures WriteBits(m, d, value)[d.register] == Insert(d, m[d.register], value)
    ensures forall r :: 0 <= r < REGISTER_SPACE && r != d.register ==> WriteBits(m, d, value)[r] == m[r]
  {
  }

  /** Any in-width value, shifted into place, fits in the byte. */
  lemma InWidthFits(d: CBits, value: nat)
    requires d.Valid() && value < Pow2(d.numBits)
    ensures Shl(value, d.startBit) < 256
  {
    var sh := Shl(value, d.startBit);
    forall i: nat | 8 <= i
      ensures !Bit(sh, i)
    {
      ShlBit(value, d.startBit, i);
      NoBitsAbove(value, d.numBits, i - d.startBit);
    }
    ByteBits(sh);
  }

  /** Writing an in-width value into a field, then reading the field, returns
      the value; every other register keeps its byte. */
  lemma WriteThenRead(m: seq<byte>, d: CBits, value: nat)
    requires d.Valid() && |m| == REGISTER_SPACE && value < Pow2(d.numBits)
    ensures Shl(value, d.startBit) < 256
    ensures ReadBits(WriteBits(m, d, value), d) == value
    ensures forall r :: 0 <= r < REGISTER_SPACE && r != d.register ==> WriteBits(m, d, value)[r] == m[r]
  {
    InWidthFits(d, value);
    ExtractInsert(d, m[d.register], value);
  }

  /** An in-width write of one field leaves every field of another register,
      and every non-overlapping field of the same register, as it was. */
  lemma WriteKeepsOtherField(m: seq<byte>, d1: CBits, d2: CBits, value: nat)
    requires d1.Valid() && d2.Valid() && |m| == REGISTER_SPACE && value < Pow2(d1.numBits)
    requires d1.register != d2.register || !Overlap(d1, d2)
    ensures Shl(value, d1.startBit) < 256
    ensures ReadBits(WriteBits(m, d1, value), d2) == ReadBits(m, d2)
  {
    InWidthFits(d1, value);
    if d1.register == d2.register {
      ExtractOther(d1, d2, m[d1.register], value);
    }
  }

  /** Writing a field with the value it holds leaves the register file unchanged. */
  lemma RewriteCurrentValue(m: seq<byte>, d: CBits)
    requires d.Valid() && |m| == REGISTER_SPACE
    ensures Shl(ReadBits(m, d), d.startBit) < 256
    ensures WriteBits(m, d, ReadBits(m, d)) == m
  {
    InsertExtract(d, m[d.register]);
    InsertFitsByte(d, m[d.register], ReadBits(m, d));
  }

  /** `CBits.__get__`: one 1-byte read of the register, then mask and shift. */
  method GetBits(d: CBits, i2c: I2C, address: nat) returns (value: nat)
    requires d.Valid() && i2c.Valid()
    modifies i2c
    ensures value == ReadBits(i2c.mem[..], d)
    ensures i2c.log == old(i2c.log) + [ReadFrom(address, d.register, 1)]
  {
    var data := i2c.ReadFromMem(address, d.register, 1);
    var reg: nat := data[0];
    reg := Shr(And(reg, d.BitMask()), d.startBit);
    value := reg;
  }

  /** `CBits.__set__`: one 1-byte read of the register, clear the mask,
      or in the shifted value, one 1-byte write of the result. */
  method SetBits(d: CBits, i2c: I2C, address: nat, value: nat)
    requires d.Valid() && i2c.Valid() && Shl(value, d.startBit) < 256
    modifies i2c, i2c.mem
    ensures i2c.mem[..] == WriteBits(old(i2c.mem[..]), d, value)
    ensures i2c.log == old(i2c.log) + [ReadFrom(address, d.register, 1),
                                       WriteTo(address, d.register, [i2c.mem[d.register]])]
  {
    var data := i2c.ReadFromMem(address, d.register, 1);
    var memoryValue: nat := data[0];
    memoryValue := AndNot(memoryValue, d.BitMask());
    var shifted := Shl(value, d.startBit);
    memoryValue := Or(memoryValue, shifted);
    InsertFitsByte(d, data[0], value);
    i2c.WriteToMem(address, d.register, memoryValue);
  }

  // =====================================================================
  // RegisterStruct

  /** The two `struct` layouts the driver declares: `"B"` and `"<hhh"`. */
  datatype Format = UnsignedByte | LittleEndianShorts3

  /** `struct.calcsize(form)`. */
  function CalcSize(form: Format): nat
  {
    match form
    case UnsignedByte => 1
    case LittleEndianShorts3 => 6
  }

  /** `RegisterStruct(register_address, form)`; its length is the layout's size. */
  datatype RegisterStruct = RegisterStruct(register: nat, form: Format)
  {
    function Length(): nat
    {
      CalcSize(form)
    }

    predicate Valid()
    {
      register + Length() <= REGISTER_SPACE
    }
  }

  /** What `__get__` returns: the raw byte, or the three unpacked integers. */
  datatype StructValue = Scalar(value: byte) | Triple(x: int, y: int, z: int)

  /** One little-endian signed 16-bit integer (`struct` code `"<h"`):
      the two's-complement reading of `lo + 256 * hi`. */
  function UnpackShort(lo: byte, hi: byte): (v: int)
    ensures -32768 <= v < 32768
    ensures (lo + 256 * hi - v) % 65536 == 0
  {
    var u := lo + 256 * hi;
    if u >= 32768 then u - 65536 else u
  }

  /** `struct.pack("<h", v)`, the inverse of UnpackShort. */
  function PackShort(v: int): (bs: seq<byte>)
    requires -32768 <= v < 32768
    ensures |bs| == 2 && UnpackShort(bs[0], bs[1]) == v
  {
    var u := v % 65536;
    [u % 256, u / 256]
  }

  lemma PackUnpackShort(lo: byte, hi: byte)
    ensures PackShort(UnpackShort(lo, hi)) == [lo, hi]
  {
  }

  /** Boundary cases of the signed decode. */
  lemma UnpackShortExamples()
    ensures UnpackShort(0xFF, 0x7F) == 32767 && UnpackShort(0x00, 0x80) == -32768
    ensures UnpackShort(0xFF, 0xFF) == -1 && UnpackShort(0x00, 0x00) == 0
    ensures UnpackShorts3([0x00, 0x40, 0x00, 0x00, 0x00, 0xC0]) == Triple(16384, 0, -16384)
  {
  }

  /** `struct.unpack("<hhh", data)`. */
  function UnpackShorts3(data: seq<byte>): (v: StructValue)
    requires |data| == 6
    ensures v.Triple?
    ensures -32768 <= v.x < 32768 && -32768 <= v.y < 32768 && -32768 <= v.z < 32768
  {
    Triple(UnpackShort(data[0], data[1]), UnpackShort(data[2], data[3]), UnpackShort(data[4], data[5]))
  }

  /** `__get__` after the read: a 1-byte register is returned raw (the
      layout is not consulted), a longer one is unpacked. */
  function Decode(rs: RegisterStruct, data: seq<byte>): StructValue
    requires |data| == rs.Length()
  {
    if rs.Length() == 1 then Scalar(data[0]) else UnpackShorts3(data)
  }

  /** The value `__get__` reads from register file m. */
  function ReadStruct(m: seq<byte>, rs: RegisterStruct): StructValue
    requires rs.Valid() && |m| == REGISTER_SPACE
  {
    Decode(rs, m[rs.register..rs.register + rs.Length()])
  }

  /** The burst read of a `"<hhh"` register decodes little-endian pairs
      starting at the register address; a `"B"` read is the raw, unsigned byte. */
  lemma ReadStructLayouts(m: seq<byte>, rs: RegisterStruct)
    requires rs.Valid() && |m| == REGISTER_SPACE
    ensures rs.form.UnsignedByte? ==> rs.Length() == 1 && ReadStruct(m, rs) == Scalar(m[rs.register])
    ensures rs.form.LittleEndianShorts3? ==>
      rs.Length() == 6 &&
      ReadStruct(m, rs) == Triple(UnpackShort(m[rs.register], m[rs.register + 1]),
                                  UnpackShort(m[rs.register + 2], m[rs.register + 3]),
                                  UnpackShort(m[rs.register + 4], m[rs.register + 5]))
  {
  }

  /** `RegisterStruct.__get__`: one read of `Length()` bytes, then decode. */
  method GetStruct(rs: RegisterStruct, i2c: I2C, address: nat) returns (value: StructValue)
    requires rs.Valid() && i2c.Valid()
    modifies i2c
    ensures value == ReadStruct(i2c.mem[..], rs)
    ensures i2c.log == old(i2c.log) + [ReadFrom(address, rs.register, rs.Length())]
  {
    var data := i2c.ReadFromMem(address, rs.register, rs.Length());
    if rs.Length() == 1 {
      value := Scalar(data[0]);
    } else {
      value := UnpackShorts3(data);
    }
  }

  /** `RegisterStruct.__set__` for the `"B"` layout: one 1-byte write. */
  method SetStruct(rs: RegisterStruct, i2c: I2C, address: nat, value: byte)
    requires rs.Valid() && rs.form.UnsignedByte? && i2c.Valid()
    modifies i2c, i2c.mem
    ensures i2c.mem[..] == old(i2c.mem[..])[rs.register := value]
    ensures ReadStruct(i2c.mem[..], rs) == Scalar(value)
    ensures i2c.log == old(i2c.log) + [WriteTo(address, rs.register, [value])]
  {
    i2c.WriteToMem(address, rs.register, value);
  }
}
