/** The LIS3DH accelerometer driver: its register map and field table, the
    construction sequence (identity check, reboot, default configuration),
    the pass-through configuration properties and the acceleration read. */
module LIS3DH {
  import opened BitOps
  import opened Bus
  import opened I2CHelpers

  // ---------------------------------------------------------------------
  // Register map

  const REG_WHOAMI: nat := 0x0F
  const REG_TEMPCFG: nat := 0x1F
  const REG_CTRL1: nat := 0x20
  const REG_CTRL3: nat := 0x22
  const REG_CTRL4: nat := 0x23
  const REG_CTRL5: nat := 0x24
  const REG_OUT_X_L: nat := 0x28

  /** The identity register's expected content. */
  const WHOAMI_VALUE: byte := 0x33
  const DEFAULT_ADDRESS: nat := 0x18

  // Data rate codes (4 bits). 1344 Hz and low-power 5 kHz share a code.
  const DATARATE_1344: nat := 0x9
  const DATARATE_400: nat := 0x7
  const DATARATE_200: nat := 0x6
  const DATARATE_100: nat := 0x5
  const DATARATE_50: nat := 0x4
  const DATARATE_25: nat := 0x3
  const DATARATE_10: nat := 0x2
  const DATARATE_1: nat := 0x1
  const DATARATE_POWERDOWN: nat := 0x0
  const DATARATE_LOWPOWER_1K6HZ: nat := 0x8
  const DATARATE_LOWPOWER_5KHZ: nat := 0x9

  // Full-scale range codes (2 bits).
  const DATARANGE_2: nat := 0
  const DATARANGE_4: nat := 1
  const DATARANGE_8: nat := 2
  const DATARANGE_16: nat := 3

  // Axis-enable masks (3 bits).
  const AXES_X: nat := 1
  const AXES_Y: nat := 2
  const AXES_X_Y: nat := 3
  const AXES_Z: nat := 4
  const AXES_Z_X: nat := 5
  const AXES_Z_Y: nat := 6
  const AXES_Z_Y_X: nat := 7

  // Whole registers.
  const DEVICE_ID := RegisterStruct(REG_WHOAMI, UnsignedByte)
  const DEVICE_CONTROL := RegisterStruct(REG_CTRL1, UnsignedByte)
  const REBOOT_REGISTER := RegisterStruct(REG_CTRL5, UnsignedByte)
  const CTRL4_REGISTER := RegisterStruct(REG_CTRL4, UnsignedByte)
  /** The six output registers OUT_X_L .. OUT_Z_H, read in one burst. */
  const REG_XL := RegisterStruct(REG_OUT_X_L, LittleEndianShorts3)
  const TEMP_COMP := RegisterStruct(REG_TEMPCFG, UnsignedByte)

  // Fields. AXES_ENABLED sits at bits 3-5 of CTRL1 and so shares bits 4-5
  // with DATA_RATE (bits 4-7).
  const AXES_ENABLED := CBits(3, REG_CTRL1, 3)
  const DATA_RATE := CBits(4, REG_CTRL1, 4)
  const ADC_PD := CBits(1, REG_TEMPCFG, 7)
  const TEMP_EN := CBits(1, REG_TEMPCFG, 6)
  const RANGE := CBits(2, REG_CTRL4, 4)
  const HIGH_RESOLUTION := CBits(1, REG_CTRL4, 3)
  const BLOCK_DATA := CBits(1, REG_CTRL4, 7)
  const REBOOT := CBits(1, REG_CTRL5, 7)

  /** Counts per g for each range code. */
  const ACCELERATION_SCALE: map<nat, nat> := map[0 := 16380, 1 := 8190, 2 := 4096, 3 := 1365]
  const STANDARD_GRAVITY: real := 9.806

  // ---------------------------------------------------------------------
  // Construction, as a function of the register file

  /** The register files after each of the six field writes of `__init__`. */
  function InitStates(m: seq<byte>): (states: seq<seq<byte>>)
    requires |m| == REGISTER_SPACE
    ensures |states| == 7 && states[0] == m
    ensures forall k :: 0 <= k < 7 ==> |states[k]| == REGISTER_SPACE
  {
    assert Pow2(3) == 8 && Pow2(4) == 16 && Pow2(7) == 128;
    var m1 := WriteBits(m, REBOOT, 1);
    var m2 := WriteBits(m1, AXES_ENABLED, AXES_Z_Y_X);
    var m3 := WriteBits(m2, DATA_RATE, DATARATE_400);
    var m4 := WriteBits(m3, HIGH_RESOLUTION, 1);
    var m5 := WriteBits(m4, BLOCK_DATA, 1);
    var m6 := WriteBits(m5, ADC_PD, 1);
    [m, m1, m2, m3, m4, m5, m6]
  }

  /** The register file after a successful construction. */
  function AfterInit(m: seq<byte>): (r: seq<byte>)
    requires |m| == REGISTER_SPACE
    ensures |r| == REGISTER_SPACE
  {
    InitStates(m)[6]
  }

  /** The transfers of one `CBits.__set__` on register file m. */
  function SetBitsTrace(address: nat, m: seq<byte>, d: CBits, value: nat): seq<Transfer>
    requires d.Valid() && |m| == REGISTER_SPACE && Shl(value, d.startBit) < 256
  {
    [ReadFrom(address, d.register, 1), WriteTo(address, d.register, [WriteBits(m, d, value)[d.register]])]
  }

  /** The transfers of a successful construction: the identity read, then a
      read and a write per configured field. */
  function InitTrace(address: nat, m: seq<byte>): seq<Transfer>
    requires |m| == REGISTER_SPACE
  {
    assert Pow2(3) == 8 && Pow2(4) == 16 && Pow2(7) == 128;
    var s := InitStates(m);
    [ReadFrom(address, REG_WHOAMI, 1)]
    + SetBitsTrace(address, s[0], REBOOT, 1)
    + SetBitsTrace(address, s[1], AXES_ENABLED, AXES_Z_Y_X)
    + SetBitsTrace(address, s[2], DATA_RATE, DATARATE_400)
    + SetBitsTrace(address, s[3], HIGH_RESOLUTION, 1)
    + SetBitsTrace(address, s[4], BLOCK_DATA, 1)
    + SetBitsTrace(address, s[5], ADC_PD, 1)
  }

  // ---------------------------------------------------------------------
  // Acceleration, as a function of the register file

  /** The divisor `acceleration` picks: the entry for the live range code. */
  function Divisor(m: seq<byte>): (divisor: nat)
    requires |m| == REGISTER_SPACE
    ensures divisor in ACCELERATION_SCALE.Values
    ensures divisor > 0
  {
    assert Pow2(2) == 4;
    ACCELERATION_SCALE[ReadBits(m, RANGE)]
  }

  /** `(raw / factor) * 9.806`, over the reals. */
  function ToMs2(raw: int, factor: nat): (a: real)
    requires factor > 0
    ensures a > 0.0 <==> raw > 0
    ensures a < 0.0 <==> raw < 0
  {
    (raw as real / factor as real) * STANDARD_GRAVITY
  }

  /** The triple `acceleration` returns for register file m. */
  function AccelerationOf(m: seq<byte>): (real, real, real)
    requires |m| == REGISTER_SPACE
  {
    assert REG_XL.Valid();
    var raw := ReadStruct(m, REG_XL);
    var factor := Divisor(m);
    (ToMs2(raw.x, factor), ToMs2(raw.y, factor), ToMs2(raw.z, factor))
  }

  // ---------------------------------------------------------------------
  // Properties of construction

  /** The construction states unfolded one field write at a time. */
  lemma InitStateSteps(m: seq<byte>)
    requires |m| == REGISTER_SPACE
    ensures Pow2(3) == 8 && Pow2(4) == 16 && Pow2(7) == 128
    ensures InitStates(m)[1] == WriteBits(InitStates(m)[0], REBOOT, 1)
    ensures InitStates(m)[2] == WriteBits(InitStates(m)[1], AXES_ENABLED, AXES_Z_Y_X)
    ensures InitStates(m)[3] == WriteBits(InitStates(m)[2], DATA_RATE, DATARATE_400)
    ensures InitStates(m)[4] == WriteBits(InitStates(m)[3], HIGH_RESOLUTION, 1)
    ensures InitStates(m)[5] == WriteBits(InitStates(m)[4], BLOCK_DATA, 1)
    ensures InitStates(m)[6] == WriteBits(InitStates(m)[5], ADC_PD, 1)
    ensures AfterInit(m) == InitStates(m)[6]
  {
    assert Pow2(3) == 8 && Pow2(4) == 16 && Pow2(7) == 128;
  }

  /** The construction trace unfolded one field write at a time. */
  lemma InitTraceSteps(address: nat, m: seq<byte>)
    requires |m| == REGISTER_SPACE
    ensures Pow2(3) == 8 && Pow2(4) == 16 && Pow2(7) == 128
    ensures InitTrace(address, m) ==
      [ReadFrom(address, REG_WHOAMI, 1)]
      + SetBitsTrace(address, InitStates(m)[0], REBOOT, 1)
      + SetBitsTrace(address, InitStates(m)[1], AXES_ENABLED, AXES_Z_Y_X)
      + SetBitsTrace(address, InitStates(m)[2], DATA_RATE, DATARATE_400)
      + SetBitsTrace(address, InitStates(m)[3], HIGH_RESOLUTION, 1)
      + SetBitsTrace(address, InitStates(m)[4], BLOCK_DATA, 1)
      + SetBitsTrace(address, InitStates(m)[5], ADC_PD, 1)
  {
    assert Pow2(3) == 8 && Pow2(4) == 16 && Pow2(7) == 128;
  }

  /** The four registers construction rewrites, byte by byte; the others keep theirs. */
  lemma InitRegisters(m: seq<byte>)
    requires |m| == REGISTER_SPACE
    ensures AfterInit(m)[REG_CTRL5] == Insert(REBOOT, m[REG_CTRL5], 1)
    ensures AfterInit(m)[REG_CTRL1] == Insert(DATA_RATE, Insert(AXES_ENABLED, m[REG_CTRL1], AXES_Z_Y_X), DATARATE_400)
    ensures AfterInit(m)[REG_CTRL4] == Insert(BLOCK_DATA, Insert(HIGH_RESOLUTION, m[REG_CTRL4], 1), 1)
    ensures AfterInit(m)[REG_TEMPCFG] == Insert(ADC_PD, m[REG_TEMPCFG], 1)
    ensures forall r :: 0 <= r < REGISTER_SPACE && r !in {REG_CTRL1, REG_CTRL4, REG_CTRL5, REG_TEMPCFG} ==>
              AfterInit(m)[r] == m[r]
  {
    InitStateSteps(m);
    var s := InitStates(m);
    WriteBitsEffect(s[0], REBOOT, 1);
    WriteBitsEffect(s[1], AXES_ENABLED, AXES_Z_Y_X);
    WriteBitsEffect(s[2], DATA_RATE, DATARATE_400);
    WriteBitsEffect(s[3], HIGH_RESOLUTION, 1);
    WriteBitsEffect(s[4], BLOCK_DATA, 1);
    WriteBitsEffect(s[5], ADC_PD, 1);
  }

  /** Bit i of CTRL1 after the axes and data-rate writes of `__init__`. */
  lemma Ctrl1WrittenBit(c: byte, i: nat)
    ensures Bit(Insert(DATA_RATE, Insert(AXES_ENABLED, c, AXES_Z_Y_X), DATARATE_400), i) ==
            ((i < 3 && Bit(c, i)) || 3 <= i < 7)
  {
    var x := Insert(AXES_ENABLED, c, 7);
    InsertBit(DATA_RATE, x, 7, i);
    InsertBit(AXES_ENABLED, c, 7, i);
    assert Pow2(3) - 1 == 7;
    if i >= 3 {
      LowOnesBit(3, i - 3);
    }
    if i >= 4 {
      LowOnesBit(3, i - 4);
    }
    if i >= 8 {
      ByteBits(c);
    }
  }

  /** Bit i of `c % 8 + 0x78`. */
  lemma Ctrl1ExpectedBit(c: byte, i: nat)
    ensures Bit(c % 8 + 0x78, i) == ((i < 3 && Bit(c, i)) || 3 <= i < 7)
  {
    assert Pow2(3) == 8 && Pow2(4) - 1 == 15;
    assert c % 8 + 0x78 == c % Pow2(3) + Shl(Pow2(4) - 1, 3);
    SplitBit(c % Pow2(3), Pow2(4) - 1, 3, i);
    ModBit(c, 3, i);
    if i >= 3 {
      LowOnesBit(4, i - 3);
    }
  }

  /** CTRL1 after the axes and data-rate writes of `__init__`: bits 3-6 set,
      bit 7 clear, bits 0-2 as they were. */
  lemma {:induction false} Ctrl1AfterInit(c: byte)
    ensures Insert(DATA_RATE, Insert(AXES_ENABLED, c, AXES_Z_Y_X), DATARATE_400) == c % 8 + 0x78
  {
    var y := Insert(DATA_RATE, Insert(AXES_ENABLED, c, 7), 7);
    forall i: nat
      ensures Bit(y, i) == Bit(c % 8 + 0x78, i)
    {
      Ctrl1WrittenBit(c, i);
      Ctrl1ExpectedBit(c, i);
    }
    BitsDetermine(y, c % 8 + 0x78);
  }

  lemma Ctrl1DefaultFields(c: byte)
    ensures Extract(AXES_ENABLED, c % 8 + 0x78) == AXES_Z_Y_X
    ensures Extract(DATA_RATE, c % 8 + 0x78) == DATARATE_400
  {
    var b := c % 8 + 0x78;
    assert Pow2(3) == 8 && Pow2(4) == 16;
    assert b / 8 == 15 && b / 16 == 7;
  }

  /** After a successful construction the default configuration reads back,
      whatever the registers held before. */
  lemma InitDefaults(m: seq<byte>)
    requires |m| == REGISTER_SPACE
    ensures ReadBits(AfterInit(m), REBOOT) == 1
    ensures ReadBits(AfterInit(m), AXES_ENABLED) == AXES_Z_Y_X
    ensures ReadBits(AfterInit(m), DATA_RATE) == DATARATE_400
    ensures ReadBits(AfterInit(m), HIGH_RESOLUTION) == 1
    ensures ReadBits(AfterInit(m), BLOCK_DATA) == 1
    ensures ReadBits(AfterInit(m), ADC_PD) == 1
  {
    assert Pow2(1) == 2;
    InitRegisters(m);
    ExtractInsert(REBOOT, m[REG_CTRL5], 1);
    Ctrl1AfterInit(m[REG_CTRL1]);
    Ctrl1DefaultFields(m[REG_CTRL1]);
    ExtractOther(BLOCK_DATA, HIGH_RESOLUTION, Insert(HIGH_RESOLUTION, m[REG_CTRL4], 1), 1);
    ExtractInsert(HIGH_RESOLUTION, m[REG_CTRL4], 1);
    ExtractInsert(BLOCK_DATA, Insert(HIGH_RESOLUTION, m[REG_CTRL4], 1), 1);
    ExtractInsert(ADC_PD, m[REG_TEMPCFG], 1);
  }

  /** Construction leaves the range and temperature-enable fields, CTRL1's
      bits 0-2 and every register other than CTRL1, CTRL4, CTRL5 and
      TEMP_CFG as they were. */
  lemma InitPreserves(m: seq<byte>)
    requires |m| == REGISTER_SPACE
    ensures ReadBits(AfterInit(m), RANGE) == ReadBits(m, RANGE)
    ensures ReadBits(AfterInit(m), TEMP_EN) == ReadBits(m, TEMP_EN)
    ensures AfterInit(m)[REG_CTRL1] == m[REG_CTRL1] % 8 + 0x78
    ensures forall r :: 0 <= r < REGISTER_SPACE && r !in {REG_CTRL1, REG_CTRL4, REG_CTRL5, REG_TEMPCFG} ==>
              AfterInit(m)[r] == m[r]
  {
    assert Pow2(1) == 2;
    InitRegisters(m);
    Ctrl1AfterInit(m[REG_CTRL1]);
    ExtractOther(HIGH_RESOLUTION, RANGE, m[REG_CTRL4], 1);
    ExtractOther(BLOCK_DATA, RANGE, Insert(HIGH_RESOLUTION, m[REG_CTRL4], 1), 1);
    ExtractOther(ADC_PD, TEMP_EN, m[REG_TEMPCFG], 1);
  }

  lemma SetBitsTraceWrites(address: nat, m: seq<byte>, d: CBits, value: nat)
    requires d.Valid() && |m| == REGISTER_SPACE && Shl(value, d.startBit) < 256
    ensures WrittenRegisters(SetBitsTrace(address, m, d, value)) == [d.register]
  {
    var t := SetBitsTrace(address, m, d, value);
    assert t[1..][1..] == [];
    assert WrittenRegisters(t[1..]) == [d.register];
  }

  /** A successful construction writes CTRL5 (reboot), CTRL1 twice (axes,
      data rate), CTRL4 twice (high resolution, block data update) and
      TEMP_CFG, in that order. */
  lemma InitWriteOrder(address: nat, m: seq<byte>)
    requires |m| == REGISTER_SPACE
    ensures WrittenRegisters(InitTrace(address, m)) ==
            [REG_CTRL5, REG_CTRL1, REG_CTRL1, REG_CTRL4, REG_CTRL4, REG_TEMPCFG]
  {
    assert Pow2(3) == 8 && Pow2(4) == 16 && Pow2(7) == 128;
    var s := InitStates(m);
    var t0 := [ReadFrom(address, REG_WHOAMI, 1)];
    var t1 := SetBitsTrace(address, s[0], REBOOT, 1);
    var t2 := SetBitsTrace(address, s[1], AXES_ENABLED, AXES_Z_Y_X);
    var t3 := SetBitsTrace(address, s[2], DATA_RATE, DATARATE_400);
    var t4 := SetBitsTrace(address, s[3], HIGH_RESOLUTION, 1);
    var t5 := SetBitsTrace(address, s[4], BLOCK_DATA, 1);
    var t6 := SetBitsTrace(address, s[5], ADC_PD, 1);
    assert InitTrace(address, m) == t0 + t1 + t2 + t3 + t4 + t5 + t6;
    assert t0[1..] == [];
    SetBitsTraceWrites(address, s[0], REBOOT, 1);
    SetBitsTraceWrites(address, s[1], AXES_ENABLED, AXES_Z_Y_X);
    SetBitsTraceWrites(address, s[2], DATA_RATE, DATARATE_400);
    SetBitsTraceWrites(address, s[3], HIGH_RESOLUTION, 1);
    SetBitsTraceWrites(address, s[4], BLOCK_DATA, 1);
    SetBitsTraceWrites(address, s[5], ADC_PD, 1);
    WrittenRegistersAppend(t0, t1);
    WrittenRegistersAppend(t0 + t1, t2);
    WrittenRegistersAppend(t0 + t1 + t2, t3);
    WrittenRegistersAppend(t0 + t1 + t2 + t3, t4);
    WrittenRegistersAppend(t0 + t1 + t2 + t3 + t4, t5);
    WrittenRegistersAppend(t0 + t1 + t2 + t3 + t4 + t5, t6);
  }

  // ---------------------------------------------------------------------
  // Independence of the fields

  /** AXES_ENABLED (bits 3-5) and DATA_RATE (bits 4-7) overlap in CTRL1:
      writing a data rate v makes the axes field read bit 3 of the old byte
      followed by the two low bits of v. */
  lemma {:induction false} DataRateWriteChangesAxes(c: nat, v: nat)
    ensures Overlap(AXES_ENABLED, DATA_RATE)
    ensures And(AXES_ENABLED.BitMask(), DATA_RATE.BitMask()) != 0
    ensures Extract(AXES_ENABLED, Insert(DATA_RATE, c, v)) == Extract(AXES_ENABLED, c) % 2 + 2 * (v % 4)
  {
    MasksOverlap(AXES_ENABLED, DATA_RATE);
    var r := Extract(AXES_ENABLED, Insert(DATA_RATE, c, v));
    var e := Extract(AXES_ENABLED, c);
    assert Pow2(1) == 2 && Pow2(2) == 4;
    assert e % 2 + 2 * (v % 4) == e % Pow2(1) + Shl(v % Pow2(2), 1);
    forall i: nat
      ensures Bit(r, i) == Bit(e % 2 + 2 * (v % 4), i)
    {
      ExtractBit(AXES_ENABLED, Insert(DATA_RATE, c, v), i);
      InsertBit(DATA_RATE, c, v, i + 3);
      SplitBit(e % Pow2(1), v % Pow2(2), 1, i);
      ModBit(e, 1, i);
      ExtractBit(AXES_ENABLED, c, i);
      if i >= 1 {
        ModBit(v, 2, i - 1);
      }
    }
    BitsDetermine(r, e % 2 + 2 * (v % 4));
  }

  lemma AxesWriteDataRateBit(c: nat, v: nat, i: nat)
    requires v < 8
    ensures Bit(Extract(DATA_RATE, Insert(AXES_ENABLED, c, v)), i) ==
            if i < 2 then Bit(v, i + 1) else i < 4 && Bit(c, i + 4)
  {
    ExtractBit(DATA_RATE, Insert(AXES_ENABLED, c, v), i);
    InsertBit(AXES_ENABLED, c, v, i + 4);
    assert Pow2(3) == 8;
    if i + 1 >= 3 {
      NoBitsAbove(v, 3, i + 1);
    }
  }

  /** Conversely, writing an axes mask v (below 8) makes the data-rate field
      read bits 1-2 of v followed by its own two high bits. */
  lemma {:induction false} AxesWriteChangesDataRate(c: nat, v: nat)
    requires v < 8
    ensures Extract(DATA_RATE, Insert(AXES_ENABLED, c, v)) == v / 2 + 4 * (Extract(DATA_RATE, c) / 4)
  {
    var r := Extract(DATA_RATE, Insert(AXES_ENABLED, c, v));
    var e := Extract(DATA_RATE, c);
    var low, high := Shr(v, 1), Shr(e, 2);
    assert Pow2(1) == 2 && Pow2(2) == 4;
    assert low == v / 2 && high == e / 4;
    assert low < Pow2(2);
    var t := low + Shl(high, 2);
    assert t == v / 2 + 4 * (e / 4);
    forall i: nat
      ensures Bit(r, i) == Bit(t, i)
    {
      AxesWriteDataRateBit(c, v, i);
      SplitBit(low, high, 2, i);
      ShrBit(v, 1, i);
      if i >= 2 {
        ShrBit(e, 2, i - 2);
        ExtractBit(DATA_RATE, c, i);
      }
    }
    BitsDetermine(r, t);
  }

  /** The three CTRL4 fields (range, high resolution, block data update) are
      disjoint: an in-width write of one keeps the other two. */
  lemma Ctrl4FieldsIndependent(c: nat, v: nat)
    ensures !Overlap(RANGE, HIGH_RESOLUTION) && !Overlap(RANGE, BLOCK_DATA) && !Overlap(HIGH_RESOLUTION, BLOCK_DATA)
    ensures v < 4 ==> Extract(HIGH_RESOLUTION, Insert(RANGE, c, v)) == Extract(HIGH_RESOLUTION, c) &&
                      Extract(BLOCK_DATA, Insert(RANGE, c, v)) == Extract(BLOCK_DATA, c)
    ensures v < 2 ==> Extract(RANGE, Insert(HIGH_RESOLUTION, c, v)) == Extract(RANGE, c) &&
                      Extract(BLOCK_DATA, Insert(HIGH_RESOLUTION, c, v)) == Extract(BLOCK_DATA, c)
    ensures v < 2 ==> Extract(RANGE, Insert(BLOCK_DATA, c, v)) == Extract(RANGE, c) &&
                      Extract(HIGH_RESOLUTION, Insert(BLOCK_DATA, c, v)) == Extract(HIGH_RESOLUTION, c)
  {
    assert Pow2(1) == 2 && Pow2(2) == 4;
    if v < 4 {
      ExtractOther(RANGE, HIGH_RESOLUTION, c, v);
      ExtractOther(RANGE, BLOCK_DATA, c, v);
    }
    if v < 2 {
      ExtractOther(HIGH_RESOLUTION, RANGE, c, v);
      ExtractOther(HIGH_RESOLUTION, BLOCK_DATA, c, v);
      ExtractOther(BLOCK_DATA, RANGE, c, v);
      ExtractOther(BLOCK_DATA, HIGH_RESOLUTION, c, v);
    }
  }

  /** The two TEMP_CFG fields (ADC power-down, temperature enable) are disjoint. */
  lemma TempCfgFieldsIndependent(c: nat, v: nat)
    ensures !Overlap(ADC_PD, TEMP_EN)
    ensures v < 2 ==> Extract(TEMP_EN, Insert(ADC_PD, c, v)) == Extract(TEMP_EN, c) &&
                      Extract(ADC_PD, Insert(TEMP_EN, c, v)) == Extract(ADC_PD, c)
  {
    assert Pow2(1) == 2;
    if v < 2 {
      ExtractOther(ADC_PD, TEMP_EN, c, v);
      ExtractOther(TEMP_EN, ADC_PD, c, v);
    }
  }

  /** The range setter does not validate its argument: code 8 reads back as
      range 0 and sets the block-data-update bit. */
  lemma {:induction false} DataRangeIsNotValidated(c: nat)
    ensures Extract(RANGE, Insert(RANGE, c, 8)) == 0
    ensures Extract(BLOCK_DATA, Insert(RANGE, c, 8)) == 1
  {
    var y := Insert(RANGE, c, 8);
    forall i: nat
      ensures Bit(Extract(RANGE, y), i) == Bit(0, i)
    {
      OversizedRangeBit(c, i);
      ZeroHasNoBits(i);
    }
    BitsDetermine(Extract(RANGE, y), 0);
    assert Pow2(1) == 2;
    ExtractBit(BLOCK_DATA, y, 0);
    InsertBit(RANGE, c, 8, 7);
    assert Bit(8, 3);
  }

  lemma OversizedRangeBit(c: nat, i: nat)
    ensures !Bit(Extract(RANGE, Insert(RANGE, c, 8)), i)
  {
    ExtractBit(RANGE, Insert(RANGE, c, 8), i);
    InsertBit(RANGE, c, 8, i + 4);
    if i < 2 {
      assert !Bit(8, i);
    }
  }

  /** The three configuration properties pass values straight through to
      their fields: an in-width code written by a setter reads back from the
      getter, and no other register changes. */
  lemma SettersRoundTrip(m: seq<byte>, v: nat)
    requires |m| == REGISTER_SPACE
    ensures v < 8 ==> Shl(v, 3) < 256 && ReadBits(WriteBits(m, AXES_ENABLED, v), AXES_ENABLED) == v &&
                      forall r :: 0 <= r < REGISTER_SPACE && r != REG_CTRL1 ==> WriteBits(m, AXES_ENABLED, v)[r] == m[r]
    ensures v < 16 ==> Shl(v, 4) < 256 && ReadBits(WriteBits(m, DATA_RATE, v), DATA_RATE) == v &&
                       forall r :: 0 <= r < REGISTER_SPACE && r != REG_CTRL1 ==> WriteBits(m, DATA_RATE, v)[r] == m[r]
    ensures v < 4 ==> Shl(v, 4) < 256 && ReadBits(WriteBits(m, RANGE, v), RANGE) == v &&
                      forall r :: 0 <= r < REGISTER_SPACE && r != REG_CTRL4 ==> WriteBits(m, RANGE, v)[r] == m[r]
  {
    assert Pow2(2) == 4 && Pow2(3) == 8 && Pow2(4) == 16;
    if v < 8 {
      WriteThenRead(m, AXES_ENABLED, v);
    }
    if v < 16 {
      WriteThenRead(m, DATA_RATE, v);
    }
    if v < 4 {
      WriteThenRead(m, RANGE, v);
    }
  }

  // ---------------------------------------------------------------------
  // Properties of the acceleration read

  /** The scale table is total over the 2-bit range codes, so the lookup in
      `acceleration` never misses; a higher range has fewer counts per g. */
  lemma ScaleTableTotal(m: seq<byte>)
    requires |m| == REGISTER_SPACE
    ensures ACCELERATION_SCALE.Keys == {0, 1, 2, 3}
    ensures ReadBits(m, RANGE) in ACCELERATION_SCALE
    ensures Divisor(m) == [16380, 8190, 4096, 1365][ReadBits(m, RANGE)]
    ensures forall a, b :: 0 <= a < b < 4 ==> ACCELERATION_SCALE[a] > ACCELERATION_SCALE[b]
  {
    assert Pow2(2) == 4;
  }

  /** The unit conversion keeps the sign, maps 0 to 0, is odd, and maps one
      g's worth of counts to 9.806. */
  lemma ToMs2Facts(raw: int, factor: nat)
    requires factor > 0
    ensures ToMs2(0, factor) == 0.0
    ensures ToMs2(-raw, factor) == -ToMs2(raw, factor)
    ensures ToMs2(factor, factor) == STANDARD_GRAVITY
  {
  }

  /** Raw counts (16380, 0, -16380) at range code 0 read as (9.806, 0, -9.806) m/s^2. */
  lemma AccelerationExample(m: seq<byte>)
    requires |m| == REGISTER_SPACE
    requires m[REG_OUT_X_L..REG_OUT_X_L + 6] == [0xFC, 0x3F, 0x00, 0x00, 0x04, 0xC0]
    requires ReadBits(m, RANGE) == DATARANGE_2
    ensures AccelerationOf(m) == (9.806, 0.0, -9.806)
  {
    var bs := m[REG_OUT_X_L..REG_OUT_X_L + REG_XL.Length()];
    assert bs == [0xFC, 0x3F, 0x00, 0x00, 0x04, 0xC0];
    assert UnpackShort(0xFC, 0x3F) == 16380 && UnpackShort(0, 0) == 0 && UnpackShort(0x04, 0xC0) == -16380;
    assert ReadStruct(m, REG_XL) == Triple(16380, 0, -16380);
    assert Divisor(m) == 16380;
    assert ToMs2(16380, 16380) == 9.806 && ToMs2(0, 16380) == 0.0 && ToMs2(-16380, 16380) == -9.806;
  }

  // ---------------------------------------------------------------------
  // The driver object

  datatype Construction = Ready(sensor: LIS3DH) | DeviceNotFound

  class LIS3DH {
    const i2c: I2C
    const address: nat

    ghost predicate Valid()
    {
      i2c.Valid()
    }

    /** Stores the bus and the device address (the first two lines of `__init__`). */
    constructor Attach(i2c: I2C, address: nat)
      requires i2c.Valid()
      ensures Valid() && this.i2c == i2c && this.address == address
    {
      this.i2c := i2c;
      this.address := address;
    }

    /** `LIS3DH(i2c, address)`: fails with no write when WHOAMI is not 0x33,
        otherwise reboots and writes the default configuration. */
    static method Create(i2c: I2C, address: nat := DEFAULT_ADDRESS) returns (r: Construction)
      requires i2c.Valid()
      modifies i2c, i2c.mem
      ensures r.DeviceNotFound? <==> old(i2c.mem[REG_WHOAMI]) != WHOAMI_VALUE
      ensures r.DeviceNotFound? ==>
        i2c.mem[..] == old(i2c.mem[..]) &&
        i2c.log == old(i2c.log) + [ReadFrom(address, REG_WHOAMI, 1)]
      ensures r.Ready? ==>
        fresh(r.sensor) && r.sensor.Valid() && r.sensor.i2c == i2c && r.sensor.address == address &&
        i2c.mem[..] == AfterInit(old(i2c.mem[..])) &&
        i2c.log == old(i2c.log) + InitTrace(address, old(i2c.mem[..]))
      ensures r.DeviceNotFound? ==> WrittenRegisters(i2c.log[|old(i2c.log)|..]) == []
      ensures r.Ready? ==> WrittenRegisters(i2c.log[|old(i2c.log)|..]) ==
                           [REG_CTRL5, REG_CTRL1, REG_CTRL1, REG_CTRL4, REG_CTRL4, REG_TEMPCFG]
    {
      var sensor := new LIS3DH.Attach(i2c, address);
      ghost var m := i2c.mem[..];
      ghost var s := InitStates(m);
      ghost var log0 := i2c.log;
      var id := GetStruct(DEVICE_ID, i2c, address);
      if id != Scalar(WHOAMI_VALUE) {
        assert i2c.log[|log0|..] == [ReadFrom(address, REG_WHOAMI, 1)];
        assert i2c.log[|log0|..][1..] == [];
        return DeviceNotFound;
      }
      InitStateSteps(m);
      InitTraceSteps(address, m);
      ghost var t := [ReadFrom(address, REG_WHOAMI, 1)];
      SetBits(REBOOT, i2c, address, 1);
      t := t + SetBitsTrace(address, s[0], REBOOT, 1);
      assert i2c.mem[..] == s[1] && i2c.log == log0 + t;
      // The 10 ms settling delay after the reboot request is not modelled.
      SetBits(AXES_ENABLED, i2c, address, AXES_Z_Y_X);
      t := t + SetBitsTrace(address, s[1], AXES_ENABLED, AXES_Z_Y_X);
      assert i2c.mem[..] == s[2] && i2c.log == log0 + t;
      SetBits(DATA_RATE, i2c, address, DATARATE_400);
      t := t + SetBitsTrace(address, s[2], DATA_RATE, DATARATE_400);
      assert i2c.mem[..] == s[3] && i2c.log == log0 + t;
      SetBits(HIGH_RESOLUTION, i2c, address, 1);
      t := t + SetBitsTrace(address, s[3], HIGH_RESOLUTION, 1);
      assert i2c.mem[..] == s[4] && i2c.log == log0 + t;
      SetBits(BLOCK_DATA, i2c, address, 1);
      t := t + SetBitsTrace(address, s[4], BLOCK_DATA, 1);
      assert i2c.mem[..] == s[5] && i2c.log == log0 + t;
      SetBits(ADC_PD, i2c, address, 1);
      t := t + SetBitsTrace(address, s[5], ADC_PD, 1);
      assert i2c.mem[..] == s[6] && i2c.log == log0 + t;
      assert i2c.log[|log0|..] == t;
      InitWriteOrder(address, m);
      return Ready(sensor);
    }

    /** The `axes_enabled` getter. */
    method AxesEnabled() returns (value: nat)
      requires Valid()
      modifies i2c
      ensures value == ReadBits(i2c.mem[..], AXES_ENABLED)
      ensures i2c.log == old(i2c.log) + [ReadFrom(address, REG_CTRL1, 1)]
    {
      value := GetBits(AXES_ENABLED, i2c, address);
    }

    /** The `axes_enabled` setter; any value whose shifted form fits the byte is written through. */
    method SetAxesEnabled(value: nat)
      requires Valid() && value < 32
      modifies i2c, i2c.mem
      ensures i2c.mem[..] == WriteBits(old(i2c.mem[..]), AXES_ENABLED, value)
      ensures value < 8 ==> ReadBits(i2c.mem[..], AXES_ENABLED) == value
      ensures i2c.log == old(i2c.log) + [ReadFrom(address, REG_CTRL1, 1),
                                         WriteTo(address, REG_CTRL1, [i2c.mem[REG_CTRL1]])]
    {
      assert Pow2(3) == 8;
      ghost var m := i2c.mem[..];
      SetBits(AXES_ENABLED, i2c, address, value);
      SettersRoundTrip(m, value);
    }

    /** The `data_rate` getter. */
    method DataRate() returns (value: nat)
      requires Valid()
      modifies i2c
      ensures value == ReadBits(i2c.mem[..], DATA_RATE)
      ensures i2c.log == old(i2c.log) + [ReadFrom(address, REG_CTRL1, 1)]
    {
      value := GetBits(DATA_RATE, i2c, address);
    }

    /** The `data_rate` setter; the code is not checked against the table of rates. */
    method SetDataRate(value: nat)
      requires Valid() && value < 16
      modifies i2c, i2c.mem
      ensures i2c.mem[..] == WriteBits(old(i2c.mem[..]), DATA_RATE, value)
      ensures ReadBits(i2c.mem[..], DATA_RATE) == value
      ensures i2c.log == old(i2c.log) + [ReadFrom(address, REG_CTRL1, 1),
                                         WriteTo(address, REG_CTRL1, [i2c.mem[REG_CTRL1]])]
    {
      assert Pow2(4) == 16;
      ghost var m := i2c.mem[..];
      SetBits(DATA_RATE, i2c, address, value);
      SettersRoundTrip(m, value);
    }

    /** The `data_range` getter. */
    method DataRange() returns (value: nat)
      requires Valid()
      modifies i2c
      ensures value == ReadBits(i2c.mem[..], RANGE)
      ensures i2c.log == old(i2c.log) + [ReadFrom(address, REG_CTRL4, 1)]
    {
      value := GetBits(RANGE, i2c, address);
    }

    /** The `data_range` setter; a value above 3 spills into BLE and BDU. */
    method SetDataRange(value: nat)
      requires Valid() && value < 16
      modifies i2c, i2c.mem
      ensures i2c.mem[..] == WriteBits(old(i2c.mem[..]), RANGE, value)
      ensures value < 4 ==> ReadBits(i2c.mem[..], RANGE) == value
      ensures i2c.log == old(i2c.log) + [ReadFrom(address, REG_CTRL4, 1),
                                         WriteTo(address, REG_CTRL4, [i2c.mem[REG_CTRL4]])]
    {
      assert Pow2(4) == 16;
      ghost var m := i2c.mem[..];
      SetBits(RANGE, i2c, address, value);
      SettersRoundTrip(m, value);
    }

    /** `acceleration`: a burst read of the three raw axes, then a read of the
        live range field, then each axis divided by that range's count per g
        and scaled to m/s^2. */
    method Acceleration() returns (x: real, y: real, z: real)
      requires Valid()
      modifies i2c
      ensures (x, y, z) == AccelerationOf(i2c.mem[..])
      ensures i2c.log == old(i2c.log) + [ReadFrom(address, REG_OUT_X_L, 6), ReadFrom(address, REG_CTRL4, 1)]
    {
      var raw := GetStruct(REG_XL, i2c, address);
      var range := DataRange();
      assert Pow2(2) == 4;
      var factor := ACCELERATION_SCALE[range];
      x, y, z := (raw.x as real / factor as real) * STANDARD_GRAVITY,
                 (raw.y as real / factor as real) * STANDARD_GRAVITY,
                 (raw.z as real / factor as real) * STANDARD_GRAVITY;
    }
  }
}
