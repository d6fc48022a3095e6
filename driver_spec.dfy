/**
 * What each driver operation does, as a pure function of the driver's
 * state, its configuration, the device's answers (the oracle) and the
 * log position it starts at. Each returns the accesses the operation
 * makes, in order, the value it returns and the new state. The class
 * in module Driver is proved to behave exactly as these functions say;
 * the lemmas here state what the functions guarantee.
 */
module DriverSpec {
  import opened Bus
  import opened Descriptor
  import opened Timing
  import opened Modes

  /** The ROM image as the driver keeps it: exactly one record's worth of bytes. */
  type RomImage = t: seq<u8> | |t| == ROM_SIZE witness seq(ROM_SIZE, _ => 0)

  /**
   * Settings that stay fixed while the driver runs: the device-tree
   * trigger mode (-1 when not given) and flash output, the sensor clock in
   * Hz, and whether the build targets the Qualcomm platform.
   */
  datatype Config = Config(extTrigMode: int, flashOutput: int, senClk: int, platformQcom: bool)

  /**
   * The mutable driver state: the fields of the per-device record the core
   * touches, plus the file-scope `sensor_mode` (`staticMode`).
   */
  datatype DriverState = DriverState(
    table: RomImage,
    model: Model,
    romPresent: bool,
    numLanes: int,
    digitalGain: u32,
    exposureTime: u32,
    frameRate: int,
    sensorExtTrig: int,
    sensorMode: int,
    staticMode: int,
    camMode: int,
    streaming: bool)

  /** What an operation does: its accesses in order, its return value, the state after it. */
  datatype Effect = Effect(trace: seq<Access>, ret: int, st: DriverState)

  /** What an operation that changes no driver state does. */
  datatype Outcome = Outcome(trace: seq<Access>, ret: int)

  /** A register write of an int argument, truncated to the u8 parameter. */
  function W(t: Target, addr: u16, data: int): (a: Access)
    ensures a.Write? && a.data == data % 256
  {
    Write(t, addr, data % 256)
  }

  /* ------------------------------------------------------ role writes */

  /** `if (sen_reg(priv, role)) reg_write(sen_reg(priv, role), data)`: no write for a role whose ROM address is 0. */
  function RoleWrite(table: RomImage, role: Role, data: u8): (ws: seq<Access>)
    ensures |ws| <= 1
  {
    if SenReg(table, role) != 0 then [Write(Sensor, SenReg(table, role), data)] else []
  }

  /** Writes for a list of (role, value) pairs, skipping each role whose ROM address is 0. */
  function RoleWrites(table: RomImage, rs: seq<(Role, u8)>): (ws: seq<Access>)
    ensures |ws| <= |rs|
  {
    if rs == [] then []
    else RoleWrite(table, rs[0].0, rs[0].1) + RoleWrites(table, rs[1..])
  }

  /** Two pairs: the writes of the first, then those of the second. */
  lemma RoleWritesPair(table: RomImage, a: (Role, u8), b: (Role, u8))
    ensures RoleWrites(table, [a, b]) == RoleWrite(table, a.0, a.1) + RoleWrite(table, b.0, b.1)
  {
    assert [a, b][1..] == [b];
    assert [b][1..] == [];
  }

  /** Three pairs: the writes of each in turn. */
  lemma RoleWritesTriple(table: RomImage, a: (Role, u8), b: (Role, u8), c: (Role, u8))
    ensures RoleWrites(table, [a, b, c])
         == RoleWrite(table, a.0, a.1) + RoleWrite(table, b.0, b.1) + RoleWrite(table, c.0, c.1)
  {
    assert [a, b, c][1..] == [b, c];
    RoleWritesPair(table, b, c);
  }

  /** Role writes are sensor writes, and none goes to address 0. */
  lemma {:induction false} RoleWritesNeverAddressZero(table: RomImage, rs: seq<(Role, u8)>)
    ensures forall a <- RoleWrites(table, rs) :: a.Write? && a.target == Sensor && a.addr != 0
    decreases |rs|
  {
    if rs != [] {
      RoleWritesNeverAddressZero(table, rs[1..]);
    }
  }

  lemma {:induction false} RoleWritesAppend(table: RomImage, a: seq<(Role, u8)>, b: seq<(Role, u8)>)
    ensures RoleWrites(table, a + b) == RoleWrites(table, a) + RoleWrites(table, b)
    decreases |a|
  {
    if a != [] {
      assert (a + b)[1..] == a[1..] + b;
      RoleWritesAppend(table, a[1..], b);
    } else {
      assert a + b == b;
    }
  }

  /** When every role is present, each pair becomes one write, in the given order. */
  lemma {:induction false} RoleWritesAllPresent(table: RomImage, rs: seq<(Role, u8)>)
    requires forall i :: 0 <= i < |rs| ==> SenReg(table, rs[i].0) != 0
    ensures |RoleWrites(table, rs)| == |rs|
    ensures forall i :: 0 <= i < |rs| ==> RoleWrites(table, rs)[i] == Write(Sensor, SenReg(table, rs[i].0), rs[i].1)
    decreases |rs|
  {
    if rs != [] {
      RoleWritesAllPresent(table, rs[1..]);
      forall i | 1 <= i < |rs| ensures RoleWrites(table, rs)[i] == Write(Sensor, SenReg(table, rs[i].0), rs[i].1) {
        assert rs[1..][i - 1] == rs[i];
      }
    }
  }

  /** When no role is present, nothing is written. */
  lemma {:induction false} RoleWritesAllAbsent(table: RomImage, rs: seq<(Role, u8)>)
    requires forall i :: 0 <= i < |rs| ==> SenReg(table, rs[i].0) == 0
    ensures RoleWrites(table, rs) == []
    decreases |rs|
  {
    if rs != [] {
      forall i | 0 <= i < |rs| - 1 ensures SenReg(table, rs[1..][i].0) == 0 {
        assert rs[1..][i] == rs[i + 1];
      }
      RoleWritesAllAbsent(table, rs[1..]);
    }
  }

  /* ------------------------------------------------------------- gain */

  function GainRoles(g: u32): seq<(Role, u8)>
  {
    [(GainHigh, HighByte(g)), (GainLow, LowByte(g))]
  }

  /** `imx273_set_gain`: store the clamped gain, write its two bytes to the present gain roles. */
  function SetGainSpec(s: DriverState, o: Oracle, n: nat, val: int): Effect
  {
    var g := GainFromRequest(val);
    var ws := RoleWrites(s.table, GainRoles(g));
    Effect(ws, OrStatus(o, n, ws), s.(digitalGain := g))
  }

  /**
   * Set-gain stores min(val mod 2^32, 480) and changes nothing else; with
   * both roles present it writes the high byte then the low byte, which
   * recombine to the stored gain; no write goes to address 0; and it
   * returns 0 exactly when every write it made was acknowledged.
   */
  lemma SetGainMeaning(s: DriverState, o: Oracle, n: nat, val: int)
    ensures var eff := SetGainSpec(s, o, n, val);
      && eff.st == s.(digitalGain := if val % U32_RANGE > GAIN_MAX then GAIN_MAX else val % U32_RANGE)
      && (eff.ret == 0 <==> Acked(o, n, eff.trace))
      && (forall a <- eff.trace :: a.Write? && a.target == Sensor && a.addr != 0)
      && (SenReg(s.table, GainHigh) != 0 && SenReg(s.table, GainLow) != 0 ==>
            && eff.trace == [Write(Sensor, SenReg(s.table, GainHigh), HighByte(eff.st.digitalGain)),
                             Write(Sensor, SenReg(s.table, GainLow), LowByte(eff.st.digitalGain))]
            && HighByte(eff.st.digitalGain) * 256 + LowByte(eff.st.digitalGain) == eff.st.digitalGain)
      && (SenReg(s.table, GainHigh) == 0 && SenReg(s.table, GainLow) == 0 ==> eff.trace == [] && eff.ret == 0)
  {
    var g := GainFromRequest(val);
    GainClamp(val);
    GainBytesRecombine(val);
    OrStatusAcked(o, n, RoleWrites(s.table, GainRoles(g)));
    RoleWritesNeverAddressZero(s.table, GainRoles(g));
    if SenReg(s.table, GainHigh) != 0 && SenReg(s.table, GainLow) != 0 {
      RoleWritesAllPresent(s.table, GainRoles(g));
    }
    if SenReg(s.table, GainHigh) == 0 && SenReg(s.table, GainLow) == 0 {
      RoleWritesAllAbsent(s.table, GainRoles(g));
    }
  }

  /* ------------------------------------------------ free-run exposure */

  /** The sensor's register base for the VMAX block. */
  type Base = b: int | b == 0x0200 || b == 0x3000 witness 0x0200

  /** 0x0200 for a detected IMX273 (unless built for Qualcomm), else 0x3000. */
  function ExposureBase(model: Model, platformQcom: bool): Base
  {
    if !platformQcom && (model == Monochrome || model == Color) then 0x0200 else 0x3000
  }

  /** The three VMAX reads: high, middle, low. */
  function VmaxReads(base: Base): seq<Access>
  {
    [Read(Sensor, base + 0x12), Read(Sensor, base + 0x11), Read(Sensor, base + 0x10)]
  }

  /** VMAX as rebuilt from the answers to the three reads issued from log position n. */
  function ReadBackVmax(o: Oracle, n: nat, base: Base): nat
  {
    VmaxFromReads(
      ReadValue(o, n, Read(Sensor, base + 0x12)),
      ReadValue(o, n + 1, Read(Sensor, base + 0x11)),
      ReadValue(o, n + 2, Read(Sensor, base + 0x10)))
  }

  /** A 19-bit value written to base+0x12, +0x11, +0x10 (high byte masked to 3 bits). */
  function BaseWrites(base: Base, x: nat): seq<Access>
  {
    [Write(Sensor, base + 0x12, Field19High(x)), Write(Sensor, base + 0x11, Field19Mid(x)),
     Write(Sensor, base + 0x10, Field19Low(x))]
  }

  /** SHS bytes for the three exposure roles. */
  function ShutterRoles(shs: nat): seq<(Role, u8)>
  {
    [(ExposureHigh, Field19High(shs)), (ExposureMiddle, Field19Mid(shs)), (ExposureLow, Field19Low(shs))]
  }

  /** The fixed exposure-role values of the long branch: 0x00, 0x00, 0x0e. */
  function LongRoles(): seq<(Role, u8)>
  {
    [(ExposureHigh, 0x00), (ExposureMiddle, 0x00), (ExposureLow, 0x0e)]
  }

  /** The writes of the free-run encoder after the VMAX read-back. */
  function FreeRunWrites(table: RomImage, base: Base, e: u32, vMax: nat): seq<Access>
  {
    if IsShort(IMX296, e) then
      BaseWrites(base, vMax) + RoleWrites(table, ShutterRoles(ShortShutter(IMX296, e, vMax)))
    else
      RoleWrites(table, LongRoles()) + BaseWrites(base, LongFrameLength(IMX296, e))
  }

  /** `imx_exposure_296_297` with the IMX296 parameters. */
  function FreeRunSpec(s: DriverState, cfg: Config, o: Oracle, n: nat): Effect
  {
    var base := ExposureBase(s.model, cfg.platformQcom);
    var e := ClampToTiming(IMX296, s.exposureTime);
    var ws := FreeRunWrites(s.table, base, e, ReadBackVmax(o, n, base));
    Effect(VmaxReads(base) + ws, OrStatus(o, n + 3, ws), s.(exposureTime := e))
  }

  /** The encoder reads VMAX first, then makes its writes; the result is 0 exactly when every write was acknowledged. */
  lemma FreeRunStatus(s: DriverState, cfg: Config, o: Oracle, n: nat)
    ensures var eff := FreeRunSpec(s, cfg, o, n);
      var base := ExposureBase(s.model, cfg.platformQcom);
      var ws := FreeRunWrites(s.table, base, ClampToTiming(IMX296, s.exposureTime), ReadBackVmax(o, n, base));
      && eff.trace == VmaxReads(base) + ws
      && (eff.ret == 0 <==> Acked(o, n + 3, ws))
  {
    var base := ExposureBase(s.model, cfg.platformQcom);
    OrStatusAcked(o, n + 3, FreeRunWrites(s.table, base, ClampToTiming(IMX296, s.exposureTime), ReadBackVmax(o, n, base)));
  }

  /**
   * Short branch: VMAX is read back, written back (low 19 bits), then
   * the SHS bytes go to the present exposure roles; SHS is at least 14;
   * an exposure below the 29 us minimum is stored raised to it.
   */
  lemma FreeRunShortMeaning(s: DriverState, cfg: Config, o: Oracle, n: nat)
    requires s.exposureTime < IMX296.expMin1
    ensures var eff := FreeRunSpec(s, cfg, o, n);
      var base := ExposureBase(s.model, cfg.platformQcom);
      var v := ReadBackVmax(o, n, base);
      var shs := ShortShutter(IMX296, ClampToTiming(IMX296, s.exposureTime), v);
      && shs >= 14
      && eff.trace == VmaxReads(base) + (BaseWrites(base, v) + RoleWrites(s.table, ShutterRoles(shs)))
      && eff.st == s.(exposureTime := if s.exposureTime < IMX296.expMin0 then IMX296.expMin0 else s.exposureTime)
  {
  }

  /**
   * Long branch: the present exposure roles get 0x00, 0x00, 0x0e, then
   * the frame length 15 + (e*16384 - tOffset) / h1Period goes to the VMAX
   * registers (low 19 bits); nothing is read back into the formula.
   */
  lemma FreeRunLongMeaning(s: DriverState, cfg: Config, o: Oracle, n: nat)
    requires IMX296.expMin1 <= s.exposureTime <= EXPOSURE_MAX
    ensures var eff := FreeRunSpec(s, cfg, o, n);
      var base := ExposureBase(s.model, cfg.platformQcom);
      var fl := 15 + (s.exposureTime * 16384 - IMX296.tOffset) / IMX296.h1Period;
      && eff.trace == VmaxReads(base) + (RoleWrites(s.table, LongRoles()) + BaseWrites(base, fl))
      && eff.st == s
  {
    LongFrameLengthImx296(s.exposureTime);
  }

  /** With all three exposure roles present, the long branch writes exactly six registers in this order. */
  lemma FreeRunLongAllRoles(s: DriverState, cfg: Config, o: Oracle, n: nat)
    requires IMX296.expMin1 <= s.exposureTime <= EXPOSURE_MAX
    requires SenReg(s.table, ExposureHigh) != 0 && SenReg(s.table, ExposureMiddle) != 0
    requires SenReg(s.table, ExposureLow) != 0
    ensures var eff := FreeRunSpec(s, cfg, o, n);
      var base := ExposureBase(s.model, cfg.platformQcom);
      var fl := LongFrameLength(IMX296, s.exposureTime);
      eff.trace[3..] == [
        Write(Sensor, SenReg(s.table, ExposureHigh), 0x00),
        Write(Sensor, SenReg(s.table, ExposureMiddle), 0x00),
        Write(Sensor, SenReg(s.table, ExposureLow), 0x0e),
        Write(Sensor, base + 0x12, Field19High(fl)),
        Write(Sensor, base + 0x11, Field19Mid(fl)),
        Write(Sensor, base + 0x10, Field19Low(fl))]
  {
    RoleWritesAllPresent(s.table, LongRoles());
  }

  /* --------------------------------------------------- trigger writes */

  /** The four tick bytes, least significant first, to bridge registers 0x0109..0x010C. */
  function TickWrites(t: u32): (ws: seq<Access>)
    ensures |ws| == 4
  {
    [Write(Bridge, 0x0109, ByteOf(t, 0)), Write(Bridge, 0x010A, ByteOf(t, 1)),
     Write(Bridge, 0x010B, ByteOf(t, 2)), Write(Bridge, 0x010C, ByteOf(t, 3))]
  }

  /** Byte k goes to 0x0109 + k, so the most significant byte is written last, and the bytes recombine to t. */
  lemma TickWritesOrder(t: u32)
    ensures forall k :: 0 <= k < 4 ==> TickWrites(t)[k] == Write(Bridge, 0x0109 + k, ByteOf(t, k))
    ensures TickWrites(t)[3].addr == 0x010C
    ensures var ws := TickWrites(t);
      ws[0].data + 0x100 * ws[1].data + 0x1_0000 * ws[2].data + 0x100_0000 * ws[3].data == t
  {
    BytesRecombine(t);
  }

  /**
   * The trigger-configuration writes: 0x0108 (trigger enable) and 0x0103
   * (I/O configuration), then the tick bytes when a trigger is on; with
   * the trigger off 0x0108 gets 0.
   */
  function ConfigWrites(trigger: bool, enable: int, ioConfig: int, ticks: u32): seq<Access>
  {
    if trigger then [W(Bridge, 0x0108, enable), W(Bridge, 0x0103, ioConfig)] + TickWrites(ticks)
    else [W(Bridge, 0x0108, 0), W(Bridge, 0x0103, ioConfig)]
  }

  /** `vc_mipi_common_trigmode_write`: the configuration writes, OR of their statuses. */
  function TrigmodeSpec(o: Oracle, n: nat, extTrig: u32, exposureTime: u32, ioConfig: u32, enable: u32, senClk: u32): Outcome
  {
    var ws := ConfigWrites(extTrig != 0, enable, ioConfig, TriggerTicks(exposureTime, senClk));
    Outcome(ws, OrStatus(o, n, ws))
  }

  /**
   * Trigger-mode setup writes six bridge registers (two with the trigger
   * off), in order, and returns 0 exactly when all were acknowledged.
   */
  lemma TrigmodeMeaning(o: Oracle, n: nat, extTrig: u32, exposureTime: u32, ioConfig: u32, enable: u32, senClk: u32)
    ensures var out := TrigmodeSpec(o, n, extTrig, exposureTime, ioConfig, enable, senClk);
      && (out.ret == 0 <==> Acked(o, n, out.trace))
      && |out.trace| == (if extTrig != 0 then 6 else 2)
      && out.trace[0] == Write(Bridge, 0x0108, if extTrig != 0 then enable % 256 else 0)
      && out.trace[1] == Write(Bridge, 0x0103, ioConfig % 256)
      && (extTrig != 0 ==> out.trace[2..] == TickWrites((exposureTime * (senClk / 1000000)) % U32_RANGE))
  {
    var out := TrigmodeSpec(o, n, extTrig, exposureTime, ioConfig, enable, senClk);
    OrStatusAcked(o, n, out.trace);
  }

  /* ----------------------------------------------------- set exposure */

  /**
   * `imx273_set_exposure`: store the clamped exposure; with a trigger on,
   * write the tick bytes and return 0; otherwise run the free-run encoder.
   */
  function SetExposureSpec(s: DriverState, cfg: Config, o: Oracle, n: nat, val: int): Effect
  {
    var s1 := s.(exposureTime := ExposureFromRequest(val));
    if s.sensorExtTrig != 0 then
      Effect(TickWrites(TriggerTicks(s1.exposureTime, cfg.senClk)), 0, s1)
    else
      FreeRunSpec(s1, cfg, o, n)
  }

  /**
   * In trigger mode set-exposure returns 0 whatever the device answers:
   * the status of the four tick writes is collected in an inner variable
   * that shadows the one returned.
   */
  lemma SetExposureTriggerIgnoresErrors(s: DriverState, cfg: Config, o: Oracle, n: nat, val: int)
    requires s.sensorExtTrig != 0
    ensures var eff := SetExposureSpec(s, cfg, o, n, val);
      && eff.ret == 0
      && eff.trace == TickWrites(TriggerTicks(ExposureFromRequest(val), cfg.senClk))
      && eff.st == s.(exposureTime := ExposureFromRequest(val))
  {
  }

  /** ...even when every one of the tick writes fails. */
  lemma SetExposureTriggerAllFail(s: DriverState, cfg: Config, n: nat, val: int)
    requires s.sensorExtTrig != 0
    ensures var o: Oracle := (i, a) => -EIO;
      var eff := SetExposureSpec(s, cfg, o, n, val);
      eff.ret == 0 && !Acked(o, n, eff.trace)
  {
    var o: Oracle := (i, a) => -EIO;
    var eff := SetExposureSpec(s, cfg, o, n, val);
    assert WriteStatus(o, n + 0, eff.trace[0]) != 0;
  }

  /** In free-run mode set-exposure stores a value in [29, 15110711] and returns the encoder's status. */
  lemma SetExposureFreeRun(s: DriverState, cfg: Config, o: Oracle, n: nat, val: int)
    requires s.sensorExtTrig == 0
    ensures var eff := SetExposureSpec(s, cfg, o, n, val);
      && eff.st.exposureTime == ExposureFromRequest(val)
      && EXPOSURE_MIN <= eff.st.exposureTime <= EXPOSURE_MAX
      && eff == FreeRunSpec(s.(exposureTime := ExposureFromRequest(val)), cfg, o, n)
      && (eff.st.exposureTime < IMX296.expMin1 <==> IsShort(IMX296, ClampToTiming(IMX296, ExposureFromRequest(val))))
  {
    InnerClampIsIdentity(val);
  }

  /* ------------------------------------------------------ bridge reset */

  /** k reads of the bridge status register. */
  function StatusReads(k: nat): (rs: seq<Access>)
    ensures |rs| == k
  {
    seq(k, _ => Read(Bridge, 0x0101))
  }

  /** The answers the five status reads would get, issued from log position n on. */
  function PollStatuses(o: Oracle, n: nat): (sts: seq<int>)
    ensures |sts| == POLL_TRIES
  {
    seq(POLL_TRIES, j requires 0 <= j => ReadValue(o, n + j, Read(Bridge, 0x0101)))
  }

  /**
   * `vc_mipi_reset`: power the sensor down (0x0100 <- 2); for a negative
   * mode, read the status once and report success; otherwise select the
   * mode (0x0102), power up (0x0100 <- 0) and poll the status register.
   */
  function ResetSpec(romPresent: bool, o: Oracle, n: nat, mode: int): (out: Outcome)
    ensures out.ret == 0 || out.ret == -EIO
  {
    if !romPresent then Outcome([], -EIO)
    else
      var w1 := Write(Bridge, 0x0100, 2);
      if WriteStatus(o, n, w1) != 0 then Outcome([w1], -EIO)
      else if mode < 0 then Outcome([w1, Read(Bridge, 0x0101)], 0)
      else
        var w2 := W(Bridge, 0x0102, mode);
        if WriteStatus(o, n + 1, w2) != 0 then Outcome([w1, w2], -EIO)
        else
          var w3 := Write(Bridge, 0x0100, 0);
          if WriteStatus(o, n + 2, w3) != 0 then Outcome([w1, w2, w3], -EIO)
          else
            var p := Poll(PollStatuses(o, n + 3));
            Outcome([w1, w2, w3] + StatusReads(p.0), if p.1 then -EIO else 0)
  }

  /**
   * The reset protocol: no bridge, -EIO and no access; a power-down
   * failure stops at once; a negative mode reads the status once and
   * succeeds; a failed mode-select or power-up write returns -EIO with no
   * later access; otherwise between 1 and 5 status reads follow, ending at
   * the first ready value, and -EIO is returned exactly when a status read
   * before it had bit 0 set.
   */
  lemma ResetMeaning(romPresent: bool, o: Oracle, n: nat, mode: int)
    ensures var out := ResetSpec(romPresent, o, n, mode);
      && (!romPresent ==> out == Outcome([], -EIO))
      && (romPresent ==> |out.trace| >= 1 && out.trace[0] == Write(Bridge, 0x0100, 2))
      && (romPresent && WriteStatus(o, n, Write(Bridge, 0x0100, 2)) != 0 ==> out.ret == -EIO && |out.trace| == 1)
      && (romPresent && WriteStatus(o, n, Write(Bridge, 0x0100, 2)) == 0 && mode < 0 ==>
            out == Outcome([Write(Bridge, 0x0100, 2), Read(Bridge, 0x0101)], 0))
      && (romPresent && mode >= 0 && |out.trace| >= 2 ==> out.trace[1] == Write(Bridge, 0x0102, mode % 256))
      && (romPresent && mode >= 0 && |out.trace| >= 3 ==> out.trace[2] == Write(Bridge, 0x0100, 0))
      && (romPresent && mode >= 0 && |out.trace| > 3 ==>
            && Acked(o, n, out.trace[..3])
            && 4 <= |out.trace| <= 8
            && out.trace[3..] == StatusReads(|out.trace| - 3)
            && var sts := PollStatuses(o, n + 3);
               var k := |out.trace| - 3;
               && (forall j :: 0 <= j < k - 1 ==> !Ready(sts[j]))
               && (k < POLL_TRIES ==> Ready(sts[k - 1]))
               && (out.ret == -EIO <==> exists j :: 0 <= j < k && !Ready(sts[j]) && Failed(sts[j])))
      && (romPresent && mode >= 0 && |out.trace| <= 3 ==> out.ret == -EIO)
  {
    if romPresent && mode >= 0 {
      var sts := PollStatuses(o, n + 3);
      PollSpec(sts);
      var out := ResetSpec(romPresent, o, n, mode);
      if |out.trace| > 3 {
        var w := out.trace[..3];
        assert WriteStatus(o, n + 0, w[0]) == 0 && WriteStatus(o, n + 1, w[1]) == 0 && WriteStatus(o, n + 2, w[2]) == 0;
      }
    }
  }

  /** A status read that fails with an errno ends the poll and counts as success. */
  lemma ResetFirstStatusReadFails(o: Oracle, n: nat, mode: int)
    requires mode >= 0
    requires Acked(o, n, [Write(Bridge, 0x0100, 2), W(Bridge, 0x0102, mode), Write(Bridge, 0x0100, 0)])
    requires -128 <= o(n + 3, Read(Bridge, 0x0101)) <= -1
    ensures ResetSpec(true, o, n, mode).ret == 0
    ensures |ResetSpec(true, o, n, mode).trace| == 4
  {
    var ws := [Write(Bridge, 0x0100, 2), W(Bridge, 0x0102, mode), Write(Bridge, 0x0100, 0)];
    assert WriteStatus(o, n + 0, ws[0]) == 0;
    assert WriteStatus(o, n + 1, ws[1]) == 0;
    assert WriteStatus(o, n + 2, ws[2]) == 0;
    var sts := PollStatuses(o, n + 3);
    assert sts[0] == ReadValue(o, n + 3 + 0, Read(Bridge, 0x0101));
    PollErrnoFirst(sts);
  }

  /* -------------------------------------------------------- set mode */

  /** Register tables of the driver: the mode table is empty in the active build, start and stop write 0x7000. */
  const MODE_TABLE: seq<(u16, u8)> := []
  const START_TABLE: seq<(u16, u8)> := [(0x7000, 0x01)]
  const STOP_TABLE: seq<(u16, u8)> := [(0x7000, 0x00)]

  /**
   * `imx273_set_mode`: compute the mode code and trigger flag, reset the
   * bridge into the new code only if it differs from the recorded one,
   * then apply the format table, whose status is returned.
   */
  function SetModeSpec(s: DriverState, cfg: Config, o: Oracle, log: seq<Access>, f: PixelFormat, sensorModeId: int): Effect
  {
    var code := ModeCode(s.staticMode, f, s.numLanes, TriggerOn(cfg.extTrigMode, sensorModeId));
    var reset := if s.sensorMode != code then ResetSpec(s.romPresent, o, |log|, code) else Outcome([], 0);
    var t := Table(Sensor, MODE_TABLE);
    Effect(reset.trace + [t], TableStatus(o, |log + reset.trace|, t),
      s.(staticMode := code, sensorMode := code, camMode := 0,
         sensorExtTrig := ExtTrigSelect(cfg.extTrigMode, sensorModeId, s.sensorExtTrig)))
  }

  /**
   * Set-mode resets the bridge exactly when the code changes, records the
   * code in both places first, and returns the table's status: a reset
   * error is overwritten, so the operation reports success whenever the
   * table applies.
   */
  lemma SetModeMeaning(s: DriverState, cfg: Config, o: Oracle, log: seq<Access>, f: PixelFormat, sensorModeId: int)
    ensures var eff := SetModeSpec(s, cfg, o, log, f, sensorModeId);
      var code := ModeCode(s.staticMode, f, s.numLanes, TriggerOn(cfg.extTrigMode, sensorModeId));
      && eff.st.sensorMode == code && eff.st.staticMode == code
      && (s.sensorMode == code ==> eff.trace == [Table(Sensor, MODE_TABLE)])
      && (s.sensorMode != code ==>
            eff.trace == ResetSpec(s.romPresent, o, |log|, code).trace + [Table(Sensor, MODE_TABLE)])
      && eff.trace[|eff.trace| - 1] == Table(Sensor, MODE_TABLE)
      && (eff.ret == 0 <==> o(|log| + |eff.trace| - 1, Table(Sensor, MODE_TABLE)) >= 0)
      && eff.st.streaming == s.streaming && eff.st.digitalGain == s.digitalGain
  {
  }

  /** Even with no bridge present, a mode change that fails to reset reports success once the table applies. */
  lemma SetModeResetErrorOverwritten(s: DriverState, cfg: Config, o: Oracle, log: seq<Access>, f: PixelFormat, sensorModeId: int)
    requires !s.romPresent
    requires s.sensorMode != ModeCode(s.staticMode, f, s.numLanes, TriggerOn(cfg.extTrigMode, sensorModeId))
    requires o(|log|, Table(Sensor, MODE_TABLE)) >= 0
    ensures ResetSpec(s.romPresent, o, |log|, ModeCode(s.staticMode, f, s.numLanes, TriggerOn(cfg.extTrigMode, sensorModeId))).ret == -EIO
    ensures SetModeSpec(s, cfg, o, log, f, sensorModeId).ret == 0
  {
  }

  /** With a recognised format and a two- or four-lane setup, the recorded code names that format's mode. */
  lemma SetModeRecognised(s: DriverState, cfg: Config, o: Oracle, log: seq<Access>, f: PixelFormat, sensorModeId: int)
    requires !f.OtherFormat?
    requires s.numLanes == 2 || s.numLanes == 4
    ensures var eff := SetModeSpec(s, cfg, o, log, f, sensorModeId);
      && 0 <= eff.st.sensorMode <= 11
      && ModeOf(eff.st.sensorMode) == SensorMode(BitsOf(f), s.numLanes, TriggerOn(cfg.extTrigMode, sensorModeId))
  {
    ModeCodeMatchesTable(s.staticMode, f, s.numLanes, TriggerOn(cfg.extTrigMode, sensorModeId));
  }

  /* ------------------------------------------------------- streaming */

  /**
   * The second half of `imx273_start_streaming`: write the trigger
   * configuration and, only if those writes all succeed, apply the
   * stream-on table; `streaming` becomes true when the table applies.
   */
  function StreamOnSpec(s: DriverState, cfg: Config, o: Oracle, n: nat): Effect
  {
    var cws := ConfigWrites(s.sensorExtTrig != 0, s.sensorExtTrig, cfg.flashOutput,
                            TriggerTicks(s.exposureTime, cfg.senClk));
    if OrStatus(o, n, cws) != 0 then
      Effect(cws, 0, s)
    else
      var t := Table(Sensor, START_TABLE);
      var r := TableStatus(o, n + |cws|, t);
      Effect(cws + [t], r, if r == 0 then s.(streaming := true) else s)
  }

  /** `imx273_start_streaming`: re-apply the stored gain and exposure (results ignored), then stream on. */
  function StartStreamingSpec(s: DriverState, cfg: Config, o: Oracle, log: seq<Access>): Effect
  {
    var g := SetGainSpec(s, o, |log|, s.digitalGain);
    var x := SetExposureSpec(g.st, cfg, o, |log + g.trace|, g.st.exposureTime);
    var on := StreamOnSpec(x.st, cfg, o, |log + g.trace + x.trace|);
    Effect(g.trace + x.trace + on.trace, on.ret, on.st)
  }

  /**
   * Stream-on: when a configuration write fails it returns 0, skips the
   * table and changes nothing; otherwise the table is the last access,
   * the result is its status, and `streaming` is set exactly when it
   * applied. No other field changes.
   */
  lemma StreamOnMeaning(s: DriverState, cfg: Config, o: Oracle, n: nat)
    ensures var eff := StreamOnSpec(s, cfg, o, n);
      var cws := ConfigWrites(s.sensorExtTrig != 0, s.sensorExtTrig, cfg.flashOutput,
                              TriggerTicks(s.exposureTime, cfg.senClk));
      && eff.st == s.(streaming := eff.st.streaming)
      && eff.ret <= 0
      && (!Acked(o, n, cws) ==> eff == Effect(cws, 0, s))
      && (Acked(o, n, cws) ==>
            && eff.trace == cws + [Table(Sensor, START_TABLE)]
            && (eff.ret == 0 <==> o(n + |cws|, Table(Sensor, START_TABLE)) >= 0)
            && (eff.st.streaming <==> eff.ret == 0 || s.streaming))
      && (eff.st.streaming != s.streaming || eff.ret != 0 ==>
            && |eff.trace| > 0
            && eff.trace[|eff.trace| - 1] == Table(Sensor, START_TABLE)
            && TableStatus(o, n + |eff.trace| - 1, Table(Sensor, START_TABLE)) == eff.ret)
      && (eff.st.streaming != s.streaming ==> eff.st.streaming && eff.ret == 0)
      && (eff.ret != 0 ==> eff.st == s)
  {
    var cws := ConfigWrites(s.sensorExtTrig != 0, s.sensorExtTrig, cfg.flashOutput,
                            TriggerTicks(s.exposureTime, cfg.senClk));
    OrStatusAcked(o, n, cws);
  }

  /** Re-applying a gain within limits changes no state. */
  lemma SetGainKeeps(s: DriverState, o: Oracle, n: nat)
    requires s.digitalGain <= GAIN_MAX
    ensures SetGainSpec(s, o, n, s.digitalGain).st == s
  {
    GainClamp(s.digitalGain);
  }

  /** Re-applying an exposure within limits changes no state. */
  lemma SetExposureKeeps(s: DriverState, cfg: Config, o: Oracle, n: nat)
    requires EXPOSURE_MIN <= s.exposureTime <= EXPOSURE_MAX
    ensures SetExposureSpec(s, cfg, o, n, s.exposureTime).st == s
  {
    InnerClampIsIdentity(s.exposureTime);
  }

  /**
   * Start-streaming with the controls within limits: the stored gain and
   * exposure are re-applied unchanged, only `streaming` may change, and it
   * changes only to true, on a 0 result. A nonzero result leaves the state
   * as it was. (Which access decides the result is stated by
   * StreamOnMeaning for the stream-on part that ends the operation.)
   */
  lemma StartStreamingMeaning(s: DriverState, cfg: Config, o: Oracle, log: seq<Access>)
    requires Inv(s)
    ensures var eff := StartStreamingSpec(s, cfg, o, log);
      && eff.st == s.(streaming := eff.st.streaming)
      && eff.ret <= 0
      && (eff.st.streaming != s.streaming ==> eff.st.streaming && eff.ret == 0)
      && (eff.ret != 0 ==> eff.st == s)
  {
    var g := SetGainSpec(s, o, |log|, s.digitalGain);
    SetGainKeeps(s, o, |log|);
    var x := SetExposureSpec(g.st, cfg, o, |log + g.trace|, g.st.exposureTime);
    SetExposureKeeps(s, cfg, o, |log + g.trace|);
    StreamOnMeaning(s, cfg, o, |log + g.trace + x.trace|);
  }

  /** With a trigger on, the configuration writes are trigger enable, flash output, then the four tick bytes. */
  lemma StartStreamingTriggerWrites(s: DriverState, cfg: Config)
    requires s.sensorExtTrig != 0
    ensures ConfigWrites(s.sensorExtTrig != 0, s.sensorExtTrig, cfg.flashOutput,
                         TriggerTicks(s.exposureTime, cfg.senClk))
         == [Write(Bridge, 0x0108, s.sensorExtTrig % 256), Write(Bridge, 0x0103, cfg.flashOutput % 256)]
            + TickWrites(TriggerTicks(s.exposureTime, cfg.senClk))
  {
  }

  /**
   * `imx273_stop_streaming`: reset the bridge powered down, then into the
   * file-scope mode, returning early on either error; disable the trigger
   * counter (errors ignored); apply the stream-off table, clearing
   * `streaming` when it applies.
   */
  function StopStreamingSpec(s: DriverState, cfg: Config, o: Oracle, log: seq<Access>): Effect
  {
    var r1 := ResetSpec(s.romPresent, o, |log|, -1);
    if r1.ret != 0 then Effect(r1.trace, r1.ret, s)
    else
      var r2 := ResetSpec(s.romPresent, o, |log + r1.trace|, s.staticMode);
      if r2.ret != 0 then Effect(r1.trace + r2.trace, r2.ret, s)
      else
        var cws := ConfigWrites(false, 0, 0, 0);
        var t := Table(Sensor, STOP_TABLE);
        var r := TableStatus(o, |log + r1.trace + r2.trace + cws|, t);
        Effect(r1.trace + r2.trace + cws + [t], r, if r == 0 then s.(streaming := false) else s)
  }

  /**
   * Stop-streaming: a reset error is returned at once with the state
   * unchanged; otherwise 0x0108 and 0x0103 are cleared whatever their
   * status, the stream-off table is the last access, and `streaming` is
   * cleared exactly when it applied. No field but `streaming` changes.
   */
  lemma StopStreamingMeaning(s: DriverState, cfg: Config, o: Oracle, log: seq<Access>)
    ensures var eff := StopStreamingSpec(s, cfg, o, log);
      var r1 := ResetSpec(s.romPresent, o, |log|, -1);
      var r2 := ResetSpec(s.romPresent, o, |log| + |r1.trace|, s.staticMode);
      && eff.st == s.(streaming := eff.st.streaming)
      && (r1.ret != 0 ==> eff.ret == r1.ret && eff.st == s)
      && (r1.ret == 0 && r2.ret != 0 ==> eff.ret == r2.ret && eff.st == s)
      && (r1.ret == 0 && r2.ret == 0 ==>
            && eff.trace == r1.trace + r2.trace
                 + [Write(Bridge, 0x0108, 0), Write(Bridge, 0x0103, 0), Table(Sensor, STOP_TABLE)]
            && (eff.ret == 0 ==> !eff.st.streaming)
            && (eff.ret != 0 ==> eff.st.streaming == s.streaming)
            && (eff.ret == 0 <==> o(|log| + |eff.trace| - 1, Table(Sensor, STOP_TABLE)) >= 0))
      && (!s.romPresent ==> eff == Effect([], -EIO, s))
  {
  }

  /** The stop sequence succeeds even when both trigger-disable writes fail. */
  lemma StopStreamingIgnoresTriggerDisable(s: DriverState, cfg: Config, o: Oracle, log: seq<Access>)
    requires ResetSpec(s.romPresent, o, |log|, -1).ret == 0
    requires ResetSpec(s.romPresent, o, |log| + |ResetSpec(s.romPresent, o, |log|, -1).trace|, s.staticMode).ret == 0
    requires o(|log| + |StopStreamingSpec(s, cfg, o, log).trace| - 1, Table(Sensor, STOP_TABLE)) >= 0
    ensures StopStreamingSpec(s, cfg, o, log).ret == 0
    ensures !StopStreamingSpec(s, cfg, o, log).st.streaming
  {
  }

  /* ----------------------------------------------------- board setup */

  /** The answer to the ROM read of byte i, issued at log position n + i. */
  function RomRead(o: Oracle, n: nat, i: nat): int
    requires i < ROM_SIZE
  {
    ReadValue(o, n + i, Read(Bridge, ROM_BASE + i))
  }

  /** The byte stored for ROM byte i (`(char)reg` of a successful read). */
  function RomByte(o: Oracle, n: nat, i: nat): u8
    requires i < ROM_SIZE
  {
    var r := RomRead(o, n, i);
    if r < 0 then 0 else r
  }

  /** The reads of ROM bytes 0 .. k-1, at bridge addresses 0x1000 + i. */
  function RomReads(k: nat): (rs: seq<Access>)
    requires k <= ROM_SIZE
    ensures |rs| == k
  {
    seq(k, i requires 0 <= i < k => Read(Bridge, ROM_BASE + i))
  }

  /** The reads of k + 1 bytes are those of k bytes followed by the read of byte k. */
  lemma RomReadsStep(k: nat)
    requires k < ROM_SIZE
    ensures RomReads(k + 1) == RomReads(k) + [Read(Bridge, ROM_BASE + k)]
  {
    assert RomReads(k + 1)[k] == Read(Bridge, ROM_BASE + k);
  }

  /** The index of the first ROM read, from index i on, that fails; ROM_SIZE when none does. */
  function FirstFailedRead(o: Oracle, n: nat, i: nat): (k: nat)
    requires i <= ROM_SIZE
    ensures i <= k <= ROM_SIZE
    ensures k < ROM_SIZE ==> RomRead(o, n, k) < 0
    decreases ROM_SIZE - i
  {
    if i == ROM_SIZE then ROM_SIZE
    else if RomRead(o, n, i) < 0 then i
    else FirstFailedRead(o, n, i + 1)
  }

  /** Every read before the first failed one succeeded. */
  lemma {:induction false} FirstFailedReadSpec(o: Oracle, n: nat, i: nat)
    requires i <= ROM_SIZE
    ensures forall j :: i <= j < FirstFailedRead(o, n, i) ==> RomRead(o, n, j) >= 0
    decreases ROM_SIZE - i
  {
    if i < ROM_SIZE && RomRead(o, n, i) >= 0 {
      FirstFailedReadSpec(o, n, i + 1);
    }
  }

  /** The image after k bytes were read in order: each read stores its byte over what was there before. */
  function ImageAfterReads(o: Oracle, n: nat, k: nat, prev: RomImage): (img: RomImage)
    requires k <= ROM_SIZE
    decreases k
  {
    if k == 0 then prev else ImageAfterReads(o, n, k - 1, prev)[k - 1 := RomByte(o, n, k - 1)]
  }

  /** The first failed read from m on is at i when the reads m .. i-1 succeeded and read i failed (or i is the end). */
  lemma {:induction false} FirstFailedReadIs(o: Oracle, n: nat, m: nat, i: nat)
    requires m <= i <= ROM_SIZE
    requires forall j :: m <= j < i ==> RomRead(o, n, j) >= 0
    requires i < ROM_SIZE ==> RomRead(o, n, i) < 0
    ensures FirstFailedRead(o, n, m) == i
    decreases i - m
  {
    if m < i {
      FirstFailedReadIs(o, n, m + 1, i);
    }
  }

  /** Arguments of board setup that come from outside the core: lane count, adapter capability, bridge probe. */
  datatype SetupEnv = SetupEnv(numLanes: int, smbusOk: bool, romFound: bool)

  /**
   * The end of board setup once the whole descriptor is in: classify the
   * module and, for a known one, add the trigger offset to the start-up
   * mode and reset the bridge into it.
   */
  function IdentifySpec(s: DriverState, cfg: Config, o: Oracle, n: nat): Effect
  {
    var s1 := s.(model := Classify(Decode(s.table)));
    if s1.model == NoModel then Effect([], -ENODEV, s1)
    else
      var code := s.staticMode + (if cfg.extTrigMode >= 1 then 3 else 0);
      var r := ResetSpec(s.romPresent, o, n, code);
      Effect(r.trace, r.ret, s1.(staticMode := code, sensorMode := code))
  }

  /**
   * The model recorded is the classification of the stored descriptor, and
   * an unknown model ends setup with -ENODEV and no further access.
   */
  lemma IdentifyClassifies(s: DriverState, cfg: Config, o: Oracle, n: nat)
    ensures var eff := IdentifySpec(s, cfg, o, n);
      && eff.st.table == s.table && eff.st.romPresent == s.romPresent
      && eff.st.model == Classify(Decode(s.table))
      && (eff.st.model == NoModel <==> eff.ret == -ENODEV)
      && (eff.st.model == NoModel ==> eff.trace == [])
  {
  }

  /**
   * The ROM part of `imx273_board_setup`: check the lane count, read the
   * descriptor byte by byte, classify the module, then reset the bridge
   * into the start-up mode.
   */
  function BoardSetupSpec(s: DriverState, cfg: Config, o: Oracle, log: seq<Access>, env: SetupEnv): Effect
  {
    var s0 := s.(numLanes := env.numLanes);
    if env.numLanes != 2 && env.numLanes != 4 then Effect([], -EINVAL, s0)
    else
      var s1 := s0.(staticMode := if env.numLanes == 2 then 1 else 7);
      if !env.smbusOk then Effect([], -EIO, s1)
      else if !env.romFound then Effect([], -EIO, s1.(romPresent := false))
      else RomSetupSpec(s1.(romPresent := true), cfg, o, log)
  }

  /**
   * Board setup once the bridge has answered: read the descriptor and, when
   * all of it came in, identify the module.
   */
  function RomSetupSpec(s: DriverState, cfg: Config, o: Oracle, log: seq<Access>): Effect
  {
    var k := FirstFailedRead(o, |log|, 0);
    var s1 := s.(table := ImageAfterReads(o, |log|, k, s.table));
    if k < ROM_SIZE then Effect(RomReads(k + 1), -EIO, s1)
    else
      var id := IdentifySpec(s1, cfg, o, |log + RomReads(k)|);
      Effect(RomReads(k) + id.trace, id.ret, id.st)
  }

  /**
   * A lane count other than 2 or 4 gives -EINVAL before any access; a
   * missing adapter capability gives -EIO; a missing bridge gives -EIO
   * with no access, leaving the file-scope mode at 1 or 7 and the
   * per-device mode as it was.
   */
  lemma BoardSetupEarlyErrors(s: DriverState, cfg: Config, o: Oracle, log: seq<Access>, env: SetupEnv)
    ensures var eff := BoardSetupSpec(s, cfg, o, log, env);
      && eff.st.numLanes == env.numLanes
      && (env.numLanes != 2 && env.numLanes != 4 ==> eff.ret == -EINVAL && eff.trace == [])
      && (env.numLanes in {2, 4} && !env.smbusOk ==> eff.ret == -EIO && eff.trace == [])
      && (env.numLanes in {2, 4} && env.smbusOk && !env.romFound ==>
            && eff.ret == -EIO && eff.trace == [] && !eff.st.romPresent
            && eff.st.staticMode == (if env.numLanes == 2 then 1 else 7)
            && eff.st.sensorMode == s.sensorMode)
  {
  }

  /**
   * With 2 or 4 lanes, the adapter capable and the bridge present, setup
   * goes on to the ROM with the bridge marked present and the file-scope
   * mode at 1 (two lanes) or 7 (four lanes).
   */
  lemma BoardSetupReachesRom(s: DriverState, cfg: Config, o: Oracle, log: seq<Access>, env: SetupEnv)
    requires env.numLanes in {2, 4} && env.smbusOk && env.romFound
    ensures var s1 := s.(numLanes := env.numLanes, staticMode := if env.numLanes == 2 then 1 else 7, romPresent := true);
      && BoardSetupSpec(s, cfg, o, log, env) == RomSetupSpec(s1, cfg, o, log)
      && s1.staticMode + (if cfg.extTrigMode >= 1 then 3 else 0) == SetupModeCode(env.numLanes, cfg.extTrigMode)
  {
  }

  /**
   * The ROM is read byte by byte from 0x1000 + i in order; the first
   * failed read ends setup with -EIO, after the reads before it all
   * succeeded, and the table holds the image those reads left (see
   * ImageAfterReadsSpec).
   */
  lemma RomSetupReadFails(s: DriverState, cfg: Config, o: Oracle, log: seq<Access>)
    requires FirstFailedRead(o, |log|, 0) < ROM_SIZE
    ensures var eff := RomSetupSpec(s, cfg, o, log);
      var k := FirstFailedRead(o, |log|, 0);
      && eff.ret == -EIO
      && eff.trace == RomReads(k + 1)
      && RomRead(o, |log|, k) < 0
      && (forall j :: 0 <= j < k ==> RomRead(o, |log|, j) >= 0)
      && eff.st == s.(table := ImageAfterReads(o, |log|, k, s.table))
  {
    FirstFailedReadSpec(o, |log|, 0);
  }

  /** The image after k successful reads holds the bytes read, then the earlier contents. */
  lemma {:induction false} ImageAfterReadsSpec(o: Oracle, n: nat, k: nat, prev: RomImage)
    requires k <= ROM_SIZE
    requires forall j :: 0 <= j < k ==> RomRead(o, n, j) >= 0
    ensures var img := ImageAfterReads(o, n, k, prev);
      && (forall j :: 0 <= j < k ==> img[j] == RomRead(o, n, j))
      && img[k..] == prev[k..]
    decreases k
  {
    if k > 0 {
      ImageAfterReadsSpec(o, n, k - 1, prev);
      var before := ImageAfterReads(o, n, k - 1, prev);
      var img := ImageAfterReads(o, n, k, prev);
      forall j | 0 <= j < k ensures img[j] == RomRead(o, n, j) {
        if j < k - 1 {
          assert img[j] == before[j];
        }
      }
      assert img[k..] == before[k..];
    }
  }

  /**
   * After a full read the stored image is exactly the bytes read and the
   * model is its classification.
   */
  lemma RomSetupComplete(s: DriverState, cfg: Config, o: Oracle, log: seq<Access>)
    requires FirstFailedRead(o, |log|, 0) == ROM_SIZE
    ensures var eff := RomSetupSpec(s, cfg, o, log);
      && eff.st.romPresent == s.romPresent
      && (forall j :: 0 <= j < ROM_SIZE ==> eff.st.table[j] == RomRead(o, |log|, j))
      && eff.st.model == Classify(Decode(eff.st.table))
  {
    var img := ImageAfterReads(o, |log|, ROM_SIZE, s.table);
    FirstFailedReadSpec(o, |log|, 0);
    ImageAfterReadsSpec(o, |log|, ROM_SIZE, s.table);
    IdentifyClassifies(s.(table := img), cfg, o, |log + RomReads(ROM_SIZE)|);
  }

  /** An unknown model ends setup with -ENODEV right after the 166 reads; a known one never does. */
  lemma RomSetupUnknownModel(s: DriverState, cfg: Config, o: Oracle, log: seq<Access>)
    requires FirstFailedRead(o, |log|, 0) == ROM_SIZE
    ensures var eff := RomSetupSpec(s, cfg, o, log);
      && (eff.st.model == NoModel <==> eff.ret == -ENODEV)
      && (eff.st.model == NoModel ==> eff.trace == RomReads(ROM_SIZE))
  {
    var img := ImageAfterReads(o, |log|, ROM_SIZE, s.table);
    IdentifyClassifies(s.(table := img), cfg, o, |log + RomReads(ROM_SIZE)|);
  }

  /**
   * A known model adds the trigger offset to the file-scope mode, resets
   * the bridge into that mode after the 166 reads, records it in both mode
   * fields, and returns the reset's status.
   */
  lemma RomSetupResetsBridge(s: DriverState, cfg: Config, o: Oracle, log: seq<Access>)
    requires FirstFailedRead(o, |log|, 0) == ROM_SIZE
    requires RomSetupSpec(s, cfg, o, log).st.model != NoModel
    ensures var eff := RomSetupSpec(s, cfg, o, log);
      var code := s.staticMode + (if cfg.extTrigMode >= 1 then 3 else 0);
      && eff.st.sensorMode == code && eff.st.staticMode == code
      && eff.trace == RomReads(ROM_SIZE) + ResetSpec(s.romPresent, o, |log| + ROM_SIZE, code).trace
      && eff.ret == ResetSpec(s.romPresent, o, |log| + ROM_SIZE, code).ret
  {
  }

  /* ----------------------------------------------------------- probe */

  const FRAME_RATE_DEFAULT: int := 30000000
  /** The only resolution mode, `IMX273_MODE_1440X1080`. */
  const MODE_1440X1080: int := 0

  /**
   * The record as probe allocates it (zero-filled), beside the file-scope
   * mode code, which starts at 1.
   */
  const ALLOCATED: DriverState :=
    DriverState(seq(ROM_SIZE, _ => 0), NoModel, false, 0, 0, 0, 0, 0, 0, 1, 0, false)

  /**
   * The controls probe sets once board setup has succeeded: gain 20,
   * exposure 10000 us, 30 fps, the device-tree trigger flag (0 when not
   * given), and resolution mode 0 for a detected model.
   */
  function ProbeDefaults(s: DriverState, cfg: Config): (s': DriverState)
    ensures Inv(s') && s'.sensorExtTrig >= 0
    ensures s'.table == s.table && s'.model == s.model && s'.sensorMode == s.sensorMode
  {
    s.(digitalGain := GAIN_DEFAULT, exposureTime := EXPOSURE_DEFAULT, frameRate := FRAME_RATE_DEFAULT,
       sensorExtTrig := if cfg.extTrigMode >= 0 then cfg.extTrigMode else 0,
       camMode := if s.model != NoModel then MODE_1440X1080 else s.camMode)
  }

  /** The zero-filled record breaks the limits: its exposure 0 is below the minimum of 29 us. */
  lemma AllocatedBreaksInv()
    ensures !Inv(ALLOCATED)
    ensures Inv(ProbeDefaults(ALLOCATED, Config(-1, 0, 0, false)))
  {
  }

  /* ------------------------------------------------------- invariant */

  /** The stored controls are always within the driver's limits. */
  ghost predicate Inv(s: DriverState)
  {
    s.digitalGain <= GAIN_MAX && EXPOSURE_MIN <= s.exposureTime <= EXPOSURE_MAX
  }

  /** Every control operation keeps the stored gain and exposure within limits. */
  lemma InvPreservedByControls(s: DriverState, cfg: Config, o: Oracle, n: nat, val: int)
    requires Inv(s)
    ensures Inv(SetGainSpec(s, o, n, val).st)
    ensures Inv(SetExposureSpec(s, cfg, o, n, val).st)
  {
    InnerClampIsIdentity(val);
  }

  /** Mode changes never touch the stored gain and exposure. */
  lemma InvPreservedBySetMode(s: DriverState, cfg: Config, o: Oracle, log: seq<Access>, f: PixelFormat, id: int)
    requires Inv(s)
    ensures Inv(SetModeSpec(s, cfg, o, log, f, id).st)
  {
  }

  /** Starting and stopping the stream keep the stored gain and exposure within limits. */
  lemma InvPreservedByStreaming(s: DriverState, cfg: Config, o: Oracle, log: seq<Access>)
    requires Inv(s)
    ensures Inv(StartStreamingSpec(s, cfg, o, log).st)
    ensures Inv(StopStreamingSpec(s, cfg, o, log).st)
  {
    StartStreamingMeaning(s, cfg, o, log);
  }

  /** Board setup never touches the stored gain and exposure. */
  lemma InvPreservedByBoardSetup(s: DriverState, cfg: Config, o: Oracle, log: seq<Access>, env: SetupEnv)
    requires Inv(s)
    ensures Inv(BoardSetupSpec(s, cfg, o, log, env).st)
  {
  }
}
