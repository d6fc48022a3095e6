# IMX273 camera driver: a verified model of its register protocol

This project models the core of the Linux V4L2 sub-device driver for the
Vision Components IMX273 MIPI camera module (`imx273.c`). The module puts an
FPGA bridge between the host and the Sony image sensor. The bridge answers
at its own address on the two-wire (I2C) bus. It holds a 166-byte hardware
descriptor ROM at register offset 0x1000, and its control registers select
the sensor mode (0x0100–0x0102), set up the external trigger (0x0103,
0x0108) and hold the trigger exposure count (0x0109–0x010C). The sensor
itself is reached at the register addresses the descriptor lists for each
semantic role. Examples are gain high/low and exposure high/middle/low; an
address of 0 means that the role does not exist on this variant.

The model has six modules, one per concern of the driver:

| module (file) | what it holds |
|---|---|
| `Bus` (`bus.dfy`) | `reg_write`, `reg_read` and the table helper, over an abstract device. Every access is appended to a log, and the device's answer is a fixed function (the *oracle*) of the access and its log position, so any failure pattern can be expressed. |
| `Descriptor` (`descriptor.dfy`) | The ROM record `struct vc_rom_table`: decoding and encoding, the `sen_reg` role lookup, `strnlen` and the colour/monochrome classification. |
| `Timing` (`timing.dfy`) | The gain clamp and its byte split, and the free-run exposure encoder (shutter count SHS for short exposures, frame length for long ones). Also the 32-bit tick count of trigger mode. All of it is written in the C types the driver uses (u32 wrap-around, a u64 dividend, shifts and masks). |
| `Modes` (`modes.dfy`) | The 12 bridge sensor modes and the mode code that `set_mode` computes, plus the status poll that follows a bridge reset. |
| `DriverSpec` (`driver_spec.dfy`) | One pure function per driver operation. Each gives the accesses the operation makes (in order), its return value and the new driver state. The lemmas beside each function state what the operation guarantees. |
| `Driver` (`driver.dfy`) | The class `Imx273`: the per-device record, with the descriptor bytes in an array, the file-scope `sensor_mode` and the bus. Its methods update the record in place. Each method is proved to make exactly the accesses, return exactly the value and leave exactly the state that its `DriverSpec` function gives. |

## Model

| member | source | states |
|---|---|---|
| Bus.Or | src/4.5_auvidea/kernel/nvidia/drivers/media/i2c/imx273.c:652-657 | OR-accumulating two statuses (each 0 or -EIO) gives 0 exactly when both are 0 |
| Bus.ReadValue | src/4.5_auvidea/kernel/nvidia/drivers/media/i2c/imx273.c:487-513 | a read gives a negative errno exactly when the transfer failed; otherwise it gives the delivered byte (0..255) |
| Bus.TableStatus | src/4.5_auvidea/kernel/nvidia/drivers/media/i2c/imx273.c:559-563 | a table application reports 0 exactly when the helper succeeded, and a non-positive errno otherwise |
| Bus.OrStatusAcked | src/4.5_auvidea/kernel/nvidia/drivers/media/i2c/imx273.c:838-850 | the OR-accumulated status of a sequence of writes is 0 exactly when every write in the sequence was acknowledged |
| Bus.OrStatusAppend | src/4.5_auvidea/kernel/nvidia/drivers/media/i2c/imx273.c:869-879 | accumulating over two consecutive groups of writes is the OR of the two groups' results |
| Bus.TxFrameRoundTrip | src/4.5_auvidea/kernel/nvidia/drivers/media/i2c/imx273.c:476-478 | the write frame carries the 16-bit address most significant byte first, then the value; its first two bytes are the read's address frame |
| Bus.TxFrameInjective | src/4.5_auvidea/kernel/nvidia/drivers/media/i2c/imx273.c:476-478 | two different (address, value) writes never go out as the same bytes |
| Bus.Bus.constructor | src/4.5_auvidea/kernel/nvidia/drivers/media/i2c/imx273.c:465-513 | a fresh bus has made no access |
| Bus.Bus.RegWrite | src/4.5_auvidea/kernel/nvidia/drivers/media/i2c/imx273.c:465-484 | one write is appended to the log; it returns 0 exactly when the adapter transferred one message, and -EIO otherwise |
| Bus.Bus.RegRead | src/4.5_auvidea/kernel/nvidia/drivers/media/i2c/imx273.c:487-513 | one read is appended to the log; it returns the device's byte or its errno |
| Bus.Bus.WriteTable | src/4.5_auvidea/kernel/nvidia/drivers/media/i2c/imx273.c:559-563 | one table application is appended to the log; it returns the helper's status |
| Descriptor.Role.Index | src/4.5_auvidea/kernel/nvidia/drivers/media/i2c/imx273.c:306-335 | each of the 28 roles has a slot below 28 in the regs table |
| Descriptor.RoleIndexInjective | src/4.5_auvidea/kernel/nvidia/drivers/media/i2c/imx273.c:306-335 | distinct roles occupy distinct slots |
| Descriptor.LoadStoreU16 | src/4.5_auvidea/kernel/nvidia/drivers/media/i2c/imx273.c:204-217 | a little-endian u16 read back from its stored bytes is the value stored |
| Descriptor.Decode | src/4.5_auvidea/kernel/nvidia/drivers/media/i2c/imx273.c:204-217 | the 166 ROM bytes read as the record give character arrays of the declared sizes (12, 32, 8, 16, 56, 16, 16) |
| Descriptor.Encode | src/4.5_auvidea/kernel/nvidia/drivers/media/i2c/imx273.c:204-217 | a well-formed record lays out to exactly 166 bytes |
| Descriptor.DecodeEncode | src/4.5_auvidea/kernel/nvidia/drivers/media/i2c/imx273.c:204-217 | reading back the bytes of a well-formed record gives the record |
| Descriptor.EncodeDecode | src/4.5_auvidea/kernel/nvidia/drivers/media/i2c/imx273.c:204-217 | laying out a decoded ROM image gives the same 166 bytes, so the layout has no gaps or overlaps |
| Descriptor.SenRegIsRegAddr | src/4.5_auvidea/kernel/nvidia/drivers/media/i2c/imx273.c:337 | `sen_reg` on the raw bytes equals the role's address in the decoded record: the little-endian u16 at regs[2r], regs[2r+1] |
| Descriptor.ExposureHighExample | src/4.5_auvidea/kernel/nvidia/drivers/media/i2c/imx273.c:337 | ROM bytes 8F 02 in the EXPOSURE_HIGH slot name sensor register 0x028F |
| Descriptor.StrnLen | src/4.5_auvidea/kernel/nvidia/drivers/media/i2c/imx273.c:2891 | the length never exceeds the bound (16) or the array |
| Descriptor.StrnLenSpec | src/4.5_auvidea/kernel/nvidia/drivers/media/i2c/imx273.c:2891 | every byte before the length is non-NUL, and when the length is below both bounds the byte at it is NUL |
| Descriptor.ClassifySpec | src/4.5_auvidea/kernel/nvidia/drivers/media/i2c/imx273.c:2888-2910 | colour exactly when the module id is 0x0273 and the non-empty sensor type ends in 'C'; monochrome exactly when it ends otherwise; no model exactly when the id differs or the type is empty |
| Descriptor.EmptyTypeIsUnknown | src/4.5_auvidea/kernel/nvidia/drivers/media/i2c/imx273.c:2889-2892 | a sensor type starting with NUL never classifies as a known model |
| Descriptor.ClassifyIgnoresMagic | src/4.5_auvidea/kernel/nvidia/drivers/media/i2c/imx273.c:2866-2916 | the magic tag plays no part in the classification, so a corrupted tag is accepted |
| Modes.ModeNumber | src/4.5_auvidea/kernel/nvidia/drivers/media/i2c/imx273.c:88-101 | a bridge mode's number is in 0..11; it is 6 or more exactly for four lanes, and its remainder mod 6 is 3 or more exactly for trigger modes |
| Modes.ModeOf | src/4.5_auvidea/kernel/nvidia/drivers/media/i2c/imx273.c:88-101 | every number 0..11 names a bridge mode (8/10/12 bit, 2/4 lanes) |
| Modes.ModeOfNumber | src/4.5_auvidea/kernel/nvidia/drivers/media/i2c/imx273.c:88-101 | numbering a mode and reading the number back gives the mode |
| Modes.NumberOfMode | src/4.5_auvidea/kernel/nvidia/drivers/media/i2c/imx273.c:88-101 | reading a number 0..11 as a mode and numbering it gives the number |
| Modes.ModeTableExamples | src/4.5_auvidea/kernel/nvidia/drivers/media/i2c/imx273.c:90-100 | 0x04 is 10 bit, 2 lanes, trigger; 0x07 is 10 bit, 4 lanes, streaming; 0x0B is 12 bit, 4 lanes, trigger |
| Modes.DepthCode | src/4.5_auvidea/kernel/nvidia/drivers/media/i2c/imx273.c:2333-2344 | exactly the six recognised pixel formats get a depth code, and it is 0, 1 or 2 |
| Modes.ModeCodeMatchesTable | src/4.5_auvidea/kernel/nvidia/drivers/media/i2c/imx273.c:2333-2366 | for a recognised format and 2 or 4 lanes, set-mode's code is the table number of exactly that (depth, lanes, trigger) mode |
| Modes.ModeCodeIgnoresPrevious | src/4.5_auvidea/kernel/nvidia/drivers/media/i2c/imx273.c:2333-2344 | for a recognised format the previous file-scope code plays no part |
| Modes.ModeCodeAccumulates | src/4.5_auvidea/kernel/nvidia/drivers/media/i2c/imx273.c:2333-2349 | an unrecognised format keeps the previous code and adds the offsets again (from 7 with four lanes it becomes 13, outside the table) |
| Modes.ExtTrigSelect | src/4.5_auvidea/kernel/nvidia/drivers/media/i2c/imx273.c:2355-2425 | the device-tree trigger setting wins when given; otherwise control values 0, 1, 2 give 0, 1, 4 and any other value keeps the previous flag |
| Modes.TriggerAgreesWithFlag | src/4.5_auvidea/kernel/nvidia/drivers/media/i2c/imx273.c:2391-2424 | for control values 0..2 the trigger offset is added exactly when the new flag is non-zero; for value 3 the offset is added while the flag is kept |
| Modes.SetupModeCode | src/4.5_auvidea/kernel/nvidia/drivers/media/i2c/imx273.c:2806-2819 | board setup's start-up code names the 10-bit mode with the given lanes, triggered exactly when the device tree asks for it |
| Modes.ErrnoReadsAsReady | src/4.5_auvidea/kernel/nvidia/drivers/media/i2c/imx273.c:1854-1857 | every errno a read can return has bit 7 set when tested with `& 0x80` |
| Modes.ReadyByte | src/4.5_auvidea/kernel/nvidia/drivers/media/i2c/imx273.c:1856 | a status byte is ready exactly when it is at least 0x80 |
| Modes.Poll | src/4.5_auvidea/kernel/nvidia/drivers/media/i2c/imx273.c:1849-1867 | the poll makes at most as many reads as there are values, and at least one when there is any |
| Modes.PollSpec | src/4.5_auvidea/kernel/nvidia/drivers/media/i2c/imx273.c:1849-1867 | the poll reads up to and including the first ready value (or all of them); it reports an error exactly when a value read before the stop had bit 0 set |
| Modes.PollStopsAt | src/4.5_auvidea/kernel/nvidia/drivers/media/i2c/imx273.c:1849-1867 | the poll makes exactly k reads when the first k-1 values are not ready and the k-th is ready or the last one |
| Modes.PollReadyFirst | src/4.5_auvidea/kernel/nvidia/drivers/media/i2c/imx273.c:1856-1857 | a first ready value ends the poll at once without an error, even with bit 0 set |
| Modes.PollErrnoFirst | src/4.5_auvidea/kernel/nvidia/drivers/media/i2c/imx273.c:1854-1857 | a failed first status read ends the poll and counts as success |
| Modes.PollQuiet | src/4.5_auvidea/kernel/nvidia/drivers/media/i2c/imx273.c:1849-1867 | with no ready value and no error bit, every read is made and the result is success (no timeout error) |
| Modes.PollErrorThenReady | src/4.5_auvidea/kernel/nvidia/drivers/media/i2c/imx273.c:1849-1867 | error bit on the first read and ready on the third: three reads and an error |
| Timing.GainFromRequest | src/4.5_auvidea/kernel/nvidia/drivers/media/i2c/imx273.c:623-628 | the stored gain never exceeds 480 |
| Timing.GainClamp | src/4.5_auvidea/kernel/nvidia/drivers/media/i2c/imx273.c:623-628 | the stored gain is min(request mod 2^32, 480): requests in 0..480 are kept, larger ones and small negative ones become 480 |
| Timing.GainIdempotent | src/4.5_auvidea/kernel/nvidia/drivers/media/i2c/imx273.c:2074 | re-applying a stored gain stores the same value |
| Timing.GainBytesRecombine | src/4.5_auvidea/kernel/nvidia/drivers/media/i2c/imx273.c:652-657 | the high and low bytes written recombine to the stored gain, and the high byte is 0 or 1 |
| Timing.ExposureFromRequest | src/4.5_auvidea/kernel/nvidia/drivers/media/i2c/imx273.c:937-946 | the stored exposure is always in [29, 15110711] us, and a request inside that range is stored unchanged |
| Timing.ClampToTiming | src/4.5_auvidea/kernel/nvidia/drivers/media/i2c/imx273.c:818-822 | the encoder's own clamp puts the exposure in [expMin0, expMax] |
| Timing.InnerClampIsIdentity | src/4.5_auvidea/kernel/nvidia/drivers/media/i2c/imx273.c:818-822 | after set-exposure's clamp, the encoder's IMX296 clamp changes nothing |
| Timing.VmaxFromReads | src/4.5_auvidea/kernel/nvidia/drivers/media/i2c/imx273.c:787-797 | the VMAX read back is a 24-bit value |
| Timing.VmaxThreeBytes | src/4.5_auvidea/kernel/nvidia/drivers/media/i2c/imx273.c:787-793 | with three non-zero bytes read back, VMAX is their big-endian value |
| Timing.VmaxZeroMiddleSkipped | src/4.5_auvidea/kernel/nvidia/drivers/media/i2c/imx273.c:789-793 | a zero middle byte is dropped rather than shifted in, so VMAX is off by a factor of 256 |
| Timing.VmaxFailedReadUsesErrnoByte | src/4.5_auvidea/kernel/nvidia/drivers/media/i2c/imx273.c:788-791 | a failed read is not detected: the low byte of -EIO (0xFB) is taken as register content |
| Timing.ShortShutter | src/4.5_auvidea/kernel/nvidia/drivers/media/i2c/imx273.c:829-832 | the short-branch shutter value is at least 14 |
| Timing.LongFrameLength | src/4.5_auvidea/kernel/nvidia/drivers/media/i2c/imx273.c:857-862 | the long-branch frame length is at least 15 |
| Timing.Field19Recombine | src/4.5_auvidea/kernel/nvidia/drivers/media/i2c/imx273.c:838-843 | the three bytes written for a frame length or shutter value carry exactly its low 19 bits |
| Timing.ShortLinesImx296 | src/4.5_auvidea/kernel/nvidia/drivers/media/i2c/imx273.c:829 | for short exposures on the IMX296 the exposure-in-lines term does not wrap and is at most 1113 |
| Timing.MultiplierIdentity | src/4.5_auvidea/kernel/nvidia/drivers/media/i2c/imx273.c:764 | at multiplier 1000 the frame-rate factor is the identity while vMax*1000 fits in 32 bits |
| Timing.ShortShutterImx296 | src/4.5_auvidea/kernel/nvidia/drivers/media/i2c/imx273.c:825-832 | when vMax covers the exposure in lines and vMax*1000 fits in 32 bits (vMax < 4294967), SHS = max(14, vMax - (e*16384 - tOffset) / h1Period) |
| Timing.ShortShutterWrapsImx296 | src/4.5_auvidea/kernel/nvidia/drivers/media/i2c/imx273.c:829-832 | when the read-back vMax is smaller than the exposure in lines, the u32 subtraction wraps and SHS lands near 2^32 instead of being raised to 14 |
| Timing.ShortShutterExample | src/4.5_auvidea/kernel/nvidia/drivers/media/i2c/imx273.c:825-832 | 10000 us with vMax 1118 gives SHS 444 |
| Timing.ShortShutterMultiplierWraps | src/4.5_auvidea/kernel/nvidia/drivers/media/i2c/imx273.c:830 | the frame-rate term is meant to vanish at 1000 per mille, but vMax*1000 wraps in u32; a vMax of 0x500000 loses lines |
| Timing.LongFrameLengthImx296 | src/4.5_auvidea/kernel/nvidia/drivers/media/i2c/imx273.c:852-862 | for long exposures on the IMX296 the frame length is exactly 15 + (e*16384 - tOffset) / h1Period, with no u64 or u32 wrap-around |
| Timing.LongFrameLengthMonotonic | src/4.5_auvidea/kernel/nvidia/drivers/media/i2c/imx273.c:852-862 | longer exposures never give shorter long-branch frame lengths |
| Timing.FrameLengthTruncatedAtMax | src/4.5_auvidea/kernel/nvidia/drivers/media/i2c/imx273.c:877-879 | the longest accepted exposure needs a frame length of 2^19 or more, which the 19-bit register write truncates |
| Timing.BytesRecombine | src/4.5_auvidea/kernel/nvidia/drivers/media/i2c/imx273.c:1006-1020 | the four tick bytes, least significant first, recombine to the 32-bit count |
| Timing.TriggerTicksExact | src/4.5_auvidea/kernel/nvidia/drivers/media/i2c/imx273.c:954 | when the product fits in 32 bits, the tick count is exposure × (clock / 10^6) |
| Timing.TriggerTicksNoWrap | src/4.5_auvidea/kernel/nvidia/drivers/media/i2c/imx273.c:954 | below a 285 MHz sensor clock, no accepted exposure makes the tick count wrap |
| Timing.TriggerTicksMonotonic | src/4.5_auvidea/kernel/nvidia/drivers/media/i2c/imx273.c:954 | the tick count grows with the exposure while the product stays within 32 bits |
| Timing.TriggerTicksWrapExample | src/4.5_auvidea/kernel/nvidia/drivers/media/i2c/imx273.c:954 | the bare u32 product wraps past 32 bits (79536432 us at 54 MHz); this exposure is above the limit, so set-exposure never computes it |
| DriverSpec.W | src/4.5_auvidea/kernel/nvidia/drivers/media/i2c/imx273.c:465 | an int passed as the u8 data parameter arrives truncated to its low byte |
| DriverSpec.RoleWrite | src/4.5_auvidea/kernel/nvidia/drivers/media/i2c/imx273.c:652-657 | a guarded role write makes at most one access |
| DriverSpec.RoleWrites | src/4.5_auvidea/kernel/nvidia/drivers/media/i2c/imx273.c:845-850 | a list of guarded role writes makes at most one access per role |
| DriverSpec.RoleWritesPair | src/4.5_auvidea/kernel/nvidia/drivers/media/i2c/imx273.c:652-657 | two guarded writes happen in the order given |
| DriverSpec.RoleWritesTriple | src/4.5_auvidea/kernel/nvidia/drivers/media/i2c/imx273.c:845-850 | three guarded writes happen in the order given |
| DriverSpec.RoleWritesNeverAddressZero | src/4.5_auvidea/kernel/nvidia/drivers/media/i2c/imx273.c:845-850 | role writes go to the sensor and never to address 0 |
| DriverSpec.RoleWritesAppend | src/4.5_auvidea/kernel/nvidia/drivers/media/i2c/imx273.c:845-850 | writing two lists of roles in turn is writing their concatenation |
| DriverSpec.RoleWritesAllPresent | src/4.5_auvidea/kernel/nvidia/drivers/media/i2c/imx273.c:869-875 | with every role present, each pair becomes exactly one write to that role's address, in order |
| DriverSpec.RoleWritesAllAbsent | src/4.5_auvidea/kernel/nvidia/drivers/media/i2c/imx273.c:869-875 | with no role present, nothing is written |
| DriverSpec.SetGainMeaning | src/4.5_auvidea/kernel/nvidia/drivers/media/i2c/imx273.c:606-723 | set-gain stores min(val mod 2^32, 480) and changes nothing else. It returns 0 exactly when every write was acknowledged, and never writes address 0. With both roles present it writes the high byte, then the low byte, which recombine to the stored gain; with neither present it writes nothing and succeeds |
| DriverSpec.FreeRunStatus | src/4.5_auvidea/kernel/nvidia/drivers/media/i2c/imx273.c:753-884 | the encoder reads VMAX high, middle, low before any write, and returns 0 exactly when all its writes were acknowledged |
| DriverSpec.FreeRunShortMeaning | src/4.5_auvidea/kernel/nvidia/drivers/media/i2c/imx273.c:818-851 | short branch: VMAX is written back (19 bits), then SHS (at least 14) goes to the present exposure roles; an exposure below 29 us is stored raised to it |
| DriverSpec.FreeRunLongMeaning | src/4.5_auvidea/kernel/nvidia/drivers/media/i2c/imx273.c:852-881 | long branch: the present exposure roles get 0x00, 0x00, 0x0e, then VMAX gets 15 + (e*16384 - tOffset) / h1Period; the state is unchanged |
| DriverSpec.FreeRunLongAllRoles | src/4.5_auvidea/kernel/nvidia/drivers/media/i2c/imx273.c:869-879 | with all three exposure roles present, the long branch writes exactly six registers after the reads, in source order |
| DriverSpec.TickWritesOrder | src/4.5_auvidea/kernel/nvidia/drivers/media/i2c/imx273.c:1006-1020 | byte k goes to bridge register 0x0109 + k, so the most significant byte is written last (it latches the count); the bytes recombine to the count |
| DriverSpec.TrigmodeMeaning | src/4.5_auvidea/kernel/nvidia/drivers/media/i2c/imx273.c:1999-2051 | trigger setup writes enable then I/O config, then the four tick bytes when a trigger is on (0 to the enable register when off); it returns 0 exactly when all writes were acknowledged |
| DriverSpec.SetExposureTriggerIgnoresErrors | src/4.5_auvidea/kernel/nvidia/drivers/media/i2c/imx273.c:952-1035 | in trigger mode set-exposure stores the clamped exposure, writes only the four tick bytes, and returns 0 whatever the device answers (the status goes to a shadowing local) |
| DriverSpec.SetExposureTriggerAllFail | src/4.5_auvidea/kernel/nvidia/drivers/media/i2c/imx273.c:957-1020 | even when every tick write fails, trigger-mode set-exposure returns 0 |
| DriverSpec.SetExposureFreeRun | src/4.5_auvidea/kernel/nvidia/drivers/media/i2c/imx273.c:1040-1066 | in free-run mode set-exposure stores a value in [29, 15110711] and returns the encoder's result; the short branch is taken exactly below 16504 us |
| DriverSpec.ResetSpec | src/4.5_auvidea/kernel/nvidia/drivers/media/i2c/imx273.c:1801-1881 | a bridge reset returns either 0 or -EIO |
| DriverSpec.ResetMeaning | src/4.5_auvidea/kernel/nvidia/drivers/media/i2c/imx273.c:1801-1881 | No bridge: -EIO and no access. Power-down (0x0100 ← 2) is always first, and its failure stops at once. A negative mode reads the status once and succeeds. Otherwise mode select (0x0102) and power-up (0x0100 ← 0) follow, and a failure of either returns -EIO; when all three were acknowledged, 1 to 5 status reads follow, ending at the first ready value, and -EIO is returned exactly when a value read before it had bit 0 set |
| DriverSpec.ResetFirstStatusReadFails | src/4.5_auvidea/kernel/nvidia/drivers/media/i2c/imx273.c:1853-1857 | a status read that fails with an errno ends the poll after one read and counts as success |
| DriverSpec.SetModeMeaning | src/4.5_auvidea/kernel/nvidia/drivers/media/i2c/imx273.c:2291-2587 | set-mode records the new code in the record and in the file-scope variable. It resets the bridge exactly when the code changed, and the mode table is always the last access. Its result is the table's status (a reset error is overwritten). Gain and streaming are untouched |
| DriverSpec.SetModeResetErrorOverwritten | src/4.5_auvidea/kernel/nvidia/drivers/media/i2c/imx273.c:2431-2485 | a mode change whose reset fails still reports success when the table applies |
| DriverSpec.SetModeRecognised | src/4.5_auvidea/kernel/nvidia/drivers/media/i2c/imx273.c:2333-2433 | with a recognised format and 2 or 4 lanes, the recorded code names that format's bit depth, the lane count and the trigger choice |
| DriverSpec.StreamOnMeaning | src/4.5_auvidea/kernel/nvidia/drivers/media/i2c/imx273.c:2088-2169 | A failed configuration write returns 0 and skips the start table with the state unchanged. Otherwise the start table is the last access, its status is the result, and `streaming` is set exactly when it applied. No other field changes, and a non-zero result changes nothing |
| DriverSpec.SetGainKeeps | src/4.5_auvidea/kernel/nvidia/drivers/media/i2c/imx273.c:2074 | re-applying a gain within limits leaves the state unchanged |
| DriverSpec.SetExposureKeeps | src/4.5_auvidea/kernel/nvidia/drivers/media/i2c/imx273.c:2075 | re-applying an exposure within limits leaves the state unchanged |
| DriverSpec.StartStreamingMeaning | src/4.5_auvidea/kernel/nvidia/drivers/media/i2c/imx273.c:2054-2186 | with the controls within limits, start-streaming changes only `streaming`, only to true and only on a 0 result; a non-zero result leaves the state as it was |
| DriverSpec.StartStreamingTriggerWrites | src/4.5_auvidea/kernel/nvidia/drivers/media/i2c/imx273.c:2091-2128 | with a trigger on, stream start writes the trigger flag, the flash output and then the four tick bytes |
| DriverSpec.StopStreamingMeaning | src/4.5_auvidea/kernel/nvidia/drivers/media/i2c/imx273.c:2189-2271 | A reset error (power-down, then the file-scope mode) is returned at once with the state unchanged. Otherwise 0x0108 and 0x0103 are cleared, the stop table is the last access, and `streaming` is cleared exactly when the table applied. Without a bridge it is -EIO with no access |
| DriverSpec.StopStreamingIgnoresTriggerDisable | src/4.5_auvidea/kernel/nvidia/drivers/media/i2c/imx273.c:2217-2244 | stop succeeds even when both trigger-disable writes fail |
| DriverSpec.FirstFailedRead | src/4.5_auvidea/kernel/nvidia/drivers/media/i2c/imx273.c:2839-2846 | the first failing ROM read lies in range, and the read there does fail |
| DriverSpec.FirstFailedReadSpec | src/4.5_auvidea/kernel/nvidia/drivers/media/i2c/imx273.c:2839-2846 | every ROM read before the first failed one succeeded |
| DriverSpec.FirstFailedReadIs | src/4.5_auvidea/kernel/nvidia/drivers/media/i2c/imx273.c:2839-2846 | reads m..i-1 succeeding and read i failing (or i at the end) make i the first failure |
| DriverSpec.ImageAfterReadsSpec | src/4.5_auvidea/kernel/nvidia/drivers/media/i2c/imx273.c:2839-2864 | after k successful reads the table holds exactly the bytes read in its first k slots and its earlier contents after them |
| DriverSpec.IdentifyClassifies | src/4.5_auvidea/kernel/nvidia/drivers/media/i2c/imx273.c:2888-2916 | the model recorded is the classification of the stored descriptor; an unknown model gives -ENODEV with no further access, and -ENODEV means the model is unknown |
| DriverSpec.BoardSetupEarlyErrors | src/4.5_auvidea/kernel/nvidia/drivers/media/i2c/imx273.c:2806-2830 | a lane count other than 2 or 4 gives -EINVAL, a missing SMBus capability -EIO, and a missing bridge -EIO, all before any access; a missing bridge leaves the file-scope mode at 1 or 7 and the record's mode as it was |
| DriverSpec.BoardSetupReachesRom | src/4.5_auvidea/kernel/nvidia/drivers/media/i2c/imx273.c:2806-2830 | with valid lanes, the capability and the bridge, setup goes on to the descriptor with the bridge marked present, starting from the 10-bit mode of those lanes |
| DriverSpec.RomSetupReadFails | src/4.5_auvidea/kernel/nvidia/drivers/media/i2c/imx273.c:2839-2846 | the first failed ROM read ends setup with -EIO right after it; every read before it succeeded, and the table holds what those reads stored |
| DriverSpec.RomSetupComplete | src/4.5_auvidea/kernel/nvidia/drivers/media/i2c/imx273.c:2839-2912 | after a full read the stored table is exactly the 166 bytes read, and the model is its classification |
| DriverSpec.RomSetupUnknownModel | src/4.5_auvidea/kernel/nvidia/drivers/media/i2c/imx273.c:2912-2916 | after a full read, -ENODEV is returned exactly when the model is unknown, and then the 166 reads are the only accesses |
| DriverSpec.RomSetupResetsBridge | src/4.5_auvidea/kernel/nvidia/drivers/media/i2c/imx273.c:2985-3016 | a known model adds the trigger offset to the start-up mode, records it in both mode fields, resets the bridge into it after the 166 reads, and returns the reset's status |
| DriverSpec.ProbeDefaults | src/4.5_auvidea/kernel/nvidia/drivers/media/i2c/imx273.c:3195-3241 | the probe defaults (gain 20, exposure 10000 us, trigger flag from the device tree or 0) satisfy the limits; the descriptor, model and mode are kept |
| DriverSpec.AllocatedBreaksInv | src/4.5_auvidea/kernel/nvidia/drivers/media/i2c/imx273.c:3143-3197 | the zero-filled record is outside the limits (exposure 0), and the probe defaults bring it inside |
| DriverSpec.InvPreservedByControls | src/4.5_auvidea/kernel/nvidia/drivers/media/i2c/imx273.c:606-1298 | set-gain and set-exposure keep the stored gain and exposure within the limits |
| DriverSpec.InvPreservedBySetMode | src/4.5_auvidea/kernel/nvidia/drivers/media/i2c/imx273.c:2291-2587 | set-mode keeps the stored gain and exposure within the limits |
| DriverSpec.InvPreservedByStreaming | src/4.5_auvidea/kernel/nvidia/drivers/media/i2c/imx273.c:2054-2271 | starting and stopping the stream keep the stored gain and exposure within the limits |
| DriverSpec.InvPreservedByBoardSetup | src/4.5_auvidea/kernel/nvidia/drivers/media/i2c/imx273.c:2728-3094 | board setup keeps the stored gain and exposure within the limits |
| Driver.Imx273.constructor | src/4.5_auvidea/kernel/nvidia/drivers/media/i2c/imx273.c:3143-3146 | the record starts zero-filled, with the file-scope mode at its initial 1 |
| Driver.Imx273.ApplyProbeDefaults | src/4.5_auvidea/kernel/nvidia/drivers/media/i2c/imx273.c:3195-3241 | probe's control defaults are applied in place, and the record then satisfies the limits |
| Driver.Imx273.WriteRole | src/4.5_auvidea/kernel/nvidia/drivers/media/i2c/imx273.c:652-654 | reads the role's address from the stored descriptor and writes only when it is non-zero |
| Driver.Imx273.WriteExposureRoles | src/4.5_auvidea/kernel/nvidia/drivers/media/i2c/imx273.c:845-850 | the three exposure roles are written in turn, and the OR of their statuses is returned |
| Driver.Imx273.WriteBaseField | src/4.5_auvidea/kernel/nvidia/drivers/media/i2c/imx273.c:838-843 | the 19-bit field goes to base+0x12, +0x11, +0x10, and the OR of the statuses is returned |
| Driver.Imx273.WriteTicks | src/4.5_auvidea/kernel/nvidia/drivers/media/i2c/imx273.c:1006-1020 | the four tick bytes go to the bridge, and the OR of the statuses is returned |
| Driver.Imx273.SetGain | src/4.5_auvidea/kernel/nvidia/drivers/media/i2c/imx273.c:606-723 | makes exactly the accesses, result and new record of SetGainSpec (see SetGainMeaning) |
| Driver.Imx273.ReadVmax | src/4.5_auvidea/kernel/nvidia/drivers/media/i2c/imx273.c:786-797 | three sensor reads (high, middle, low) whose answers rebuild VMAX, zero reads skipped |
| Driver.Imx273.WriteShortShutter | src/4.5_auvidea/kernel/nvidia/drivers/media/i2c/imx273.c:835-850 | VMAX written back, then the shutter bytes to the present exposure roles, with the OR of all statuses |
| Driver.Imx273.WriteLongShutter | src/4.5_auvidea/kernel/nvidia/drivers/media/i2c/imx273.c:869-879 | the fixed exposure-role values, then the frame length to VMAX, with the OR of all statuses |
| Driver.Imx273.WriteShutter | src/4.5_auvidea/kernel/nvidia/drivers/media/i2c/imx273.c:825-881 | the short branch below 16504 us, the long one otherwise, exactly as FreeRunWrites gives them |
| Driver.Imx273.FreeRunExposure | src/4.5_auvidea/kernel/nvidia/drivers/media/i2c/imx273.c:753-884 | makes exactly the accesses, result and new record of FreeRunSpec (see FreeRunShortMeaning, FreeRunLongMeaning) |
| Driver.Imx273.SetExposure | src/4.5_auvidea/kernel/nvidia/drivers/media/i2c/imx273.c:891-1298 | makes exactly the accesses, result and new record of SetExposureSpec (see the SetExposure lemmas) |
| Driver.Imx273.SetFrameRate | src/4.5_auvidea/kernel/nvidia/drivers/media/i2c/imx273.c:1301-1337 | the frame-rate control reports success and does nothing |
| Driver.Imx273.Reset | src/4.5_auvidea/kernel/nvidia/drivers/media/i2c/imx273.c:1801-1881 | makes exactly the accesses and returns exactly the result of ResetSpec (see ResetMeaning) |
| Driver.Imx273.PollStatus | src/4.5_auvidea/kernel/nvidia/drivers/media/i2c/imx273.c:1849-1874 | the loop makes as many status reads as Poll counts for the device's answers, and returns -EIO exactly when Poll reports an error |
| Driver.Imx273.TrigmodeWrite | src/4.5_auvidea/kernel/nvidia/drivers/media/i2c/imx273.c:1999-2051 | makes exactly the accesses and returns exactly the result of TrigmodeSpec (see TrigmodeMeaning) |
| Driver.Imx273.TriggerConfig | src/4.5_auvidea/kernel/nvidia/drivers/media/i2c/imx273.c:2091-2131 | the six stream-start configuration writes, whose summed statuses are 0 exactly when all were acknowledged |
| Driver.Imx273.PlainConfig | src/4.5_auvidea/kernel/nvidia/drivers/media/i2c/imx273.c:2132-2149 | the two stream-start configuration writes with the trigger off, whose summed statuses are 0 exactly when both were acknowledged |
| Driver.Imx273.StreamOn | src/4.5_auvidea/kernel/nvidia/drivers/media/i2c/imx273.c:2088-2169 | makes exactly the accesses, result and new record of StreamOnSpec (see StreamOnMeaning) |
| Driver.Imx273.StartStreaming | src/4.5_auvidea/kernel/nvidia/drivers/media/i2c/imx273.c:2054-2186 | makes exactly the accesses, result and new record of StartStreamingSpec (see StartStreamingMeaning) |
| Driver.Imx273.StopStreaming | src/4.5_auvidea/kernel/nvidia/drivers/media/i2c/imx273.c:2189-2271 | makes exactly the accesses, result and new record of StopStreamingSpec (see StopStreamingMeaning) |
| Driver.Imx273.SelectMode | src/4.5_auvidea/kernel/nvidia/drivers/media/i2c/imx273.c:2333-2425 | the file-scope code becomes ModeCode and the trigger flag becomes ExtTrigSelect; nothing else changes |
| Driver.Imx273.SetMode | src/4.5_auvidea/kernel/nvidia/drivers/media/i2c/imx273.c:2291-2587 | makes exactly the accesses, result and new record of SetModeSpec (see SetModeMeaning) |
| Driver.Imx273.ReadRom | src/4.5_auvidea/kernel/nvidia/drivers/media/i2c/imx273.c:2839-2864 | reads byte i from 0x1000 + i in order and stops after the first failed read; it succeeds exactly when all 166 reads did, and the table holds the bytes read over its earlier contents |
| Driver.Imx273.Identify | src/4.5_auvidea/kernel/nvidia/drivers/media/i2c/imx273.c:2888-3016 | makes exactly the accesses, result and new record of IdentifySpec (see IdentifyClassifies, RomSetupResetsBridge) |
| Driver.Imx273.SetupFromRom | src/4.5_auvidea/kernel/nvidia/drivers/media/i2c/imx273.c:2830-3016 | makes exactly the accesses, result and new record of RomSetupSpec (see the RomSetup lemmas) |
| Driver.Imx273.BoardSetup | src/4.5_auvidea/kernel/nvidia/drivers/media/i2c/imx273.c:2806-3054 | makes exactly the accesses, result and new record of BoardSetupSpec (see BoardSetupEarlyErrors, BoardSetupReachesRom) |

The model keeps three behaviours of the code that a reader might not expect:

- **Magic tag.** The code never reads the descriptor's `magic` field, so a descriptor with a corrupted tag is classified like any other (`ClassifyIgnoresMagic`).
- **Reset poll.** When five status reads show neither bit 7 nor bit 0, the reset reports success, not a timeout (`PollQuiet`).
- **Mode change.** The mode table's status overwrites a failed bridge reset, so a mode change whose reset failed still reports success when the table applies (`SetModeResetErrorOverwritten`).

## Left out

- Power sequencing is not modelled: regulators, GPIOs, the master clock, `power_on`/`power_off`/`power_get`/`power_put`, and the power-off at the end of board setup. None of it touches the state the core works with.
- Device-tree parsing is not modelled. Its results (trigger mode, flash output) are the fields of `Config`, and the lane count and probe results are the fields of `SetupEnv`.
- The `PLATFORM_QCOM` build switch is the `platformQcom` field of `Config`.
- The rest of probe and remove is left out: device matching, allocation failures, framework registration and unregistration, and the per-mode default controls. They are framework calls; the model keeps the zero-filled allocation and the control defaults (`ProbeDefaults`).
- `imx273_video_probe` is not modelled: its body is compiled out and it always returns 0.
- Switching between the trigger and free-run format tables (in board setup and set-mode) is left out, because it changes only framework data.
- The SMBus capability check and the bridge probe (`i2c_check_functionality`, `imx273_probe_vc_rom`) are inputs to board setup (`SetupEnv`).
- Unregistering the bridge client after a failed descriptor read is left out. The source does not clear the pointer, so `romPresent` stays true.
- The regmap table helper is one access whose status comes from the device. Its per-entry writes, wait markers and end marker are not modelled.
- Delays (`mdelay`, `usleep_range`) and logging are left out.
- Code compiled out by the build switches is not modelled: stop-streaming around gain or exposure changes, forced trigger mode, the trigger-mode height fix, the register dumps and the IMX252 exposure variant. The mutex is compiled out too.
- The IMX297 timing parameters are defined (`Timing.IMX297`), but no live code path uses them.
- The file-scope `sensor_mode` is the field `staticMode` of the one modelled device. The source shares it between all instances, and that sharing is not modelled.
- The file-scope counters `try` (reset poll) and `vmax` (read-back) are locals. `vmax` is set to 0 before each read-back. `try` is not set before the poll loop, but every exit from the loop runs `try=1`, so each poll starts from 1, which is the value the local starts from.
- Concurrency between control calls is not modelled.
- Driver.Imx273.TriggerConfig: states only whether the summed (`ret +=`) status is zero, not its value, because the caller only tests it against zero.
- Driver.Imx273.PlainConfig: states only whether the summed (`ret +=`) status is zero, not its value, for the same reason.
- DriverSpec.StartStreamingMeaning: assumes the stored controls are within limits (`Inv`), as they are after probe. For any other state, re-applying gain and exposure clamps them, and the lemma says nothing about that.
