# LIS3DH accelerometer driver — a Dafny model

This project models the MicroPython driver for the ST LIS3DH 3-axis
accelerometer. The driver has two layers:

- **Register accessors.** `CBits` is a descriptor for an N-bit field at a
  bit offset inside one 8-bit register. Reading it masks and shifts the
  register byte. Writing it is a read-modify-write of that byte.
  `RegisterStruct` reads a register under a `struct` layout: `"B"` is one
  unsigned byte, and `"<hhh"` is three little-endian signed 16-bit
  integers.
- **The sensor driver** (`LIS3DH`). It has a fixed register map and field
  table. Construction checks the identity register against 0x33, then
  reboots the device and writes a default configuration. The properties
  `axes_enabled`, `data_rate` and `data_range` pass values straight through
  to their fields. `acceleration` turns the raw output registers into m/s²,
  using a divisor chosen by the live range field.

The modules:

- `BitOps` (`bit_ops.dfy`): Python's `&`, `|`, `& ~`, `<<` and `>>` on
  non-negative integers. `&`, `|` and `& ~` are defined recursively, bit by
  bit. `<<` and `>>` multiply and divide by `Pow2`, which is the recursive
  one. A single-bit view (`Bit`) comes with an extensionality lemma. All the
  field proofs are done bit by bit.
- `Bus` (`bus.dfy`): the I2C bus with one device behind it. Class `I2C`
  holds the device's 256 registers as an `array<byte>`. It also keeps a ghost
  log of every `readfrom_mem` / `writeto_mem` transfer. The log exists only
  for the specification, so that "reads once,
  writes once", "no write on failure" and the write order can be stated.
- `I2CHelpers` (`i2c_helpers.dfy`): the `CBits` and `RegisterStruct`
  descriptors as datatypes, and their pure meaning:
  - `Extract` and `Insert` on a byte;
  - `ReadBits` and `WriteBits` on the register file;
  - the `<hhh` decode.

  `GetBits`, `SetBits`, `GetStruct` and `SetStruct` are the imperative
  accessors. Each issues its transfers on the bus and is proved against
  those functions.
- `LIS3DH` (`lis3dh.dfy`) holds the driver:
  - the constants;
  - the construction sequence as a function of the register file (`InitStates`, `AfterInit`, `InitTrace`);
  - the acceleration as a function of the register file (`AccelerationOf`);
  - class `LIS3DH`, with the `Create` factory and the property methods;
  - the lemmas about construction, field overlap and independence, and scaling.

Deliberate modelling choices:

- **Axes overlap the data rate.** `_axes_enabled` is modelled as the code
  declares it: `CBits(3, CTRL1, 3)`, i.e. bits 3–5. The comment beside it
  names the axis-enable bits 0–2. With bits 3–5, the field shares bits 4–5
  with `_data_rate` (bits 4–7). The lemmas `DataRateWriteChangesAxes` and
  `AxesWriteChangesDataRate` state exactly how a write to one changes the
  other.
- **Construction sets LPen and never touches the axis-enable bits.**
  `InitPreserves` proves that CTRL1 becomes its old bits 0–2 plus 0x78.
  So construction sets bit 3, which the register comment at
  lis3dh/lis3dh.py:103 names LPen (low-power enable). It also never writes
  Zen|Yen|Xen (bits 0–2). This is the visible effect of the field sitting
  at offset 3.
- **Construction ends with axes 0b111 whatever CTRL1 held before.**
  Together the two writes cover bits 3–7 of CTRL1. On their shared bits 4–5
  they agree, because the low two bits of 0b0111 are 11. So the result
  does not depend on the old bits 3–7 (`Ctrl1AfterInit`).
- **`data_range` after construction is the value it had before.**
  Construction never writes the range field, so the model proves it
  unchanged. It does not prove that it reads 0. The only statement in the
  source about a ±2g default is the comment on `DATARANGE_2`
  (lis3dh/lis3dh.py:47). Any reset of CTRL4 by the device would be an
  assumption about the hardware, and the model makes no such assumption.
- **Out-of-width values are accepted.** A field write accepts any value for
  which `bytes([...])` succeeds, that is, `value << start < 256`. A value
  wider than the field therefore corrupts the neighbouring bits, as in the
  driver (`DataRangeIsNotValidated`).
- **The `<hhh` decode is two's complement.** Each axis is `lo + 256*hi`,
  minus 65536 when that is at least 32768.

## Model

| member | source | states |
|---|---|---|
| I2CHelpers.MaskShape | micropython_lis3dh/i2c_helpers.py:31-32 | for a field with width + start <= 8, the mask has exactly the bits start .. start+width-1 set and is below 256 |
| I2CHelpers.MasksOverlap | micropython_lis3dh/i2c_helpers.py:32 | two fields' masks share a bit if and only if both fields are non-empty and their bit intervals intersect |
| I2CHelpers.Extract | micropython_lis3dh/i2c_helpers.py:42 | `(reg & mask) >> start` is below 2^width and equals `(reg / 2^start) mod 2^width` |
| I2CHelpers.InsertFitsByte | micropython_lis3dh/i2c_helpers.py:47-53 | for a byte register, `(reg & ~mask) \| (value << start)` is a byte exactly when `value << start` is, i.e. exactly when `bytes([...])` accepts it |
| I2CHelpers.ExtractInsert | micropython_lis3dh/i2c_helpers.py:41-53 | writing an in-width value v into a field and reading the field gives v |
| I2CHelpers.InsertKeepsOutside | micropython_lis3dh/i2c_helpers.py:47-53 | an in-width write leaves every bit outside the mask unchanged |
| I2CHelpers.InsertExtract | micropython_lis3dh/i2c_helpers.py:41-53 | writing back the value a field holds leaves the byte unchanged |
| I2CHelpers.InsertInsert | micropython_lis3dh/i2c_helpers.py:46-53 | after an in-width write, a second write to the same field gives the same byte as the second write alone |
| I2CHelpers.ExtractOther | micropython_lis3dh/i2c_helpers.py:41-53 | an in-width write to one field does not change the reading of a non-overlapping field |
| I2CHelpers.InsertCommute | micropython_lis3dh/i2c_helpers.py:46-53 | in-width writes to two non-overlapping fields of one byte commute |
| I2CHelpers.WriteThenRead | micropython_lis3dh/i2c_helpers.py:41-53 | on the register file, an in-width field write reads back, and every other register is unchanged |
| I2CHelpers.WriteKeepsOtherField | micropython_lis3dh/i2c_helpers.py:41-53 | an in-width write keeps the reading of any field in another register or not overlapping it |
| I2CHelpers.RewriteCurrentValue | micropython_lis3dh/i2c_helpers.py:41-53 | writing a field with its current value is always accepted and leaves the register file unchanged |
| I2CHelpers.GetBits | micropython_lis3dh/i2c_helpers.py:36-44 | the getter returns the field's reading of the current register file, issues exactly one 1-byte read of the field's register, and changes no register |
| I2CHelpers.SetBits | micropython_lis3dh/i2c_helpers.py:46-53 | the setter leaves the register file as `WriteBits` of the old one, after exactly one 1-byte read and then one 1-byte write of the new byte to the field's register |
| I2CHelpers.UnpackShort | micropython_lis3dh/i2c_helpers.py:74-79 | a little-endian signed 16-bit value lies in [-32768, 32768) and is congruent to lo + 256*hi modulo 65536 |
| I2CHelpers.PackShort | micropython_lis3dh/i2c_helpers.py:74-79 | the two-byte little-endian encoding of a 16-bit value decodes back to it |
| I2CHelpers.PackUnpackShort | micropython_lis3dh/i2c_helpers.py:74-79 | decoding two bytes and re-encoding returns the same two bytes, so the decode is a bijection |
| I2CHelpers.UnpackShortExamples | micropython_lis3dh/i2c_helpers.py:74-79 | [0xFF,0x7F] gives 32767, [0x00,0x80] gives -32768, [0xFF,0xFF] gives -1, and a 6-byte example decodes to (16384, 0, -16384) |
| I2CHelpers.UnpackShorts3 | micropython_lis3dh/i2c_helpers.py:74-79 | the `<hhh` decode of six bytes is a triple of values in the signed 16-bit range |
| I2CHelpers.ReadStructLayouts | micropython_lis3dh/i2c_helpers.py:61-79 | layout `B` has length 1 and reads the raw unsigned byte; layout `<hhh` has length 6 and reads the three little-endian shorts of the six registers from the base address |
| I2CHelpers.GetStruct | micropython_lis3dh/i2c_helpers.py:66-81 | the struct getter returns the decode of the current registers, issues one read of the layout's length, and changes no register |
| I2CHelpers.SetStruct | micropython_lis3dh/i2c_helpers.py:83-85 | a scalar struct write stores the byte in its register, reads back as that byte, and issues one 1-byte write |
| LIS3DH.InitRegisters | lis3dh/lis3dh.py:128-135 | after construction the four written registers hold the composed field writes, and every other register is unchanged |
| LIS3DH.Ctrl1AfterInit | lis3dh/lis3dh.py:131-132 | the axes write followed by the data-rate write leave CTRL1 as its old bits 0-2 plus 0x78, whatever it held before |
| LIS3DH.Ctrl1DefaultFields | lis3dh/lis3dh.py:104-105 | in the CTRL1 byte construction leaves, axes_enabled reads 0b111 and data_rate reads 0b0111 |
| LIS3DH.InitDefaults | lis3dh/lis3dh.py:128-135 | after construction reboot, high_resolution, block_data and adc_pd read 1, axes_enabled reads 0b111 and data_rate reads 0b0111, for any prior register contents |
| LIS3DH.InitPreserves | lis3dh/lis3dh.py:107-135 | construction keeps the range and temp_en fields, CTRL1 bits 0-2 and every register other than CTRL1, CTRL4, CTRL5 and TEMP_CFG |
| LIS3DH.InitWriteOrder | lis3dh/lis3dh.py:126-135 | the bus trace of a successful construction writes CTRL5, CTRL1, CTRL1, CTRL4, CTRL4, TEMP_CFG, in that order |
| LIS3DH.DataRateWriteChangesAxes | lis3dh/lis3dh.py:103-105 | axes_enabled and data_rate overlap (their masks share bits), and a data-rate write v makes axes read bit 3 of the old byte followed by the two low bits of v |
| LIS3DH.AxesWriteChangesDataRate | lis3dh/lis3dh.py:103-105 | an axes write v < 8 makes data_rate read bits 1-2 of v followed by its own old two high bits |
| LIS3DH.Ctrl4FieldsIndependent | lis3dh/lis3dh.py:111-114 | range, high_resolution and block_data are pairwise disjoint, and an in-width write to one keeps the other two |
| LIS3DH.TempCfgFieldsIndependent | lis3dh/lis3dh.py:107-109 | adc_pd and temp_en are disjoint, and an in-width write to one keeps the other |
| LIS3DH.DataRangeIsNotValidated | lis3dh/lis3dh.py:229-231 | the range setter does not validate: writing code 8 reads back as range 0 and sets the block-data-update bit |
| LIS3DH.SettersRoundTrip | lis3dh/lis3dh.py:162-231 | for in-width codes, the axes_enabled, data_rate and data_range setters read back through their getters, and no other register changes |
| LIS3DH.ScaleTableTotal | lis3dh/lis3dh.py:120 | the scale table is defined on exactly the codes 0-3, so the lookup on the live 2-bit range never misses; it maps 0→16380, 1→8190, 2→4096, 3→1365 and decreases with the range |
| LIS3DH.Divisor | lis3dh/lis3dh.py:242 | the divisor picked from the live range field is one of the table's values and is positive |
| LIS3DH.ToMs2 | lis3dh/lis3dh.py:244 | `(raw / factor) * 9.806` is positive exactly when raw is, and negative exactly when raw is |
| LIS3DH.ToMs2Facts | lis3dh/lis3dh.py:244 | the conversion maps 0 to 0, is odd in raw, and maps one factor's worth of counts to 9.806 |
| LIS3DH.AccelerationExample | lis3dh/lis3dh.py:240-244 | raw counts (16380, 0, -16380) at range code 0 read as (9.806, 0.0, -9.806) m/s² |
| LIS3DH.LIS3DH.Create | lis3dh/lis3dh.py:122-135 | the address defaults to 0x18. Construction fails exactly when the identity byte is not 0x33; it then changes no register, issues only the identity read and writes no register. Otherwise the registers become `AfterInit` of the old ones, the bus traffic is `InitTrace`, and the registers written are CTRL5, CTRL1, CTRL1, CTRL4, CTRL4, TEMP_CFG in that order |
| LIS3DH.LIS3DH.AxesEnabled | lis3dh/lis3dh.py:137-162 | the getter returns the CTRL1 bits 3-5 reading after one 1-byte read |
| LIS3DH.LIS3DH.SetAxesEnabled | lis3dh/lis3dh.py:164-167 | the setter is the field write of any value the byte accepts; an in-width code reads back |
| LIS3DH.LIS3DH.DataRate | lis3dh/lis3dh.py:169-201 | the getter returns the CTRL1 bits 4-7 reading after one 1-byte read |
| LIS3DH.LIS3DH.SetDataRate | lis3dh/lis3dh.py:203-206 | the setter is the field write of any 4-bit code, with no check against the rate table, and the code reads back |
| LIS3DH.LIS3DH.DataRange | lis3dh/lis3dh.py:208-227 | the getter returns the CTRL4 bits 4-5 reading after one 1-byte read |
| LIS3DH.LIS3DH.SetDataRange | lis3dh/lis3dh.py:229-231 | the setter is the field write of any value the byte accepts; an in-width code reads back |
| LIS3DH.LIS3DH.Acceleration | lis3dh/lis3dh.py:233-244 | the result is `AccelerationOf` the current registers, after a 6-byte burst read of the output registers and then a 1-byte read of CTRL4, with no register changed |

## Left out

- The I2C transport (`machine.I2C`, `readfrom_mem`, `writeto_mem`) is replaced by an in-memory file of 256 registers and a log of transfers. Bus errors and other devices on the bus are not modelled, and the address is recorded but does not select a device.
- The 0x80 auto-increment flag OR-ed into the output register address (lis3dh/lis3dh.py:100) is not modelled. The read is a burst of the six registers 0x28–0x2D.
- `time.sleep(0.01)` after the reboot request (lis3dh/lis3dh.py:129) is not modelled: there is no clock.
- Whatever the device does when the reboot bit is set is not modelled. The driver only sets CTRL5 bit 7 and sleeps (lis3dh/lis3dh.py:128-129), and so does the model. `data_range` after construction is proved unchanged because the code never writes the range field.
- LIS3DH.LIS3DH.Acceleration: the result is over Dafny `real`, an idealisation of Python's floating-point division and multiplication. Rounding is not modelled.
- The multi-byte `RegisterStruct.__set__` is left out. `struct.pack("<hhh", value)` with a single value cannot succeed, and the driver never calls it. `SetStruct` takes only the scalar `"B"` layout.
- The `ValueError` raised by `bytes([...])` and `struct.pack` for out-of-range values is left out; preconditions replace it. I2CHelpers.SetBits takes `value << start < 256`, I2CHelpers.SetStruct a byte, and all values are non-negative (`nat`). A negative value always makes `bytes([...])` fail in the driver.
- The `lenght` argument of `RegisterStruct.__init__` is ignored by the driver, which always uses `struct.calcsize`; the model has no such argument.
- The `True` passed as the length by `CBits.__get__`/`__set__` is Python's 1, and is modelled as a 1-byte read.
- Only the two layouts the driver uses, `"B"` and `"<hhh"`, are modelled, not the general `struct` format language.
- The shared code 0b1001 of `DATARATE_1344` and `DATARATE_LOWPOWER_5KHZ` is kept as two constants with no meaning attached.
- The demo scripts (data-range, data-rate and simple-test), the empty top-level `lis3dh.py` and the import path not matching the package directory are left out: they are printing and packaging, not behaviour.
- The `RuntimeError` of a failed construction is the `DeviceNotFound` result of `Create`.
