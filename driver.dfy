/**
 * The driver itself: one camera's per-device record, the file-scope mode
 * code and the bus the sensor and the bridge sit on. Every operation
 * updates the record in place and talks to the device through the bus;
 * each is proved to make exactly the accesses, return exactly the value
 * and leave exactly the state that its function in DriverSpec describes.
 */
module Driver {
  import opened Bus
  import opened Descriptor
  import opened Timing
  import opened Modes
  import opened DriverSpec

  class Imx273 {
    /** The bus both clients are reached over: the sensor and the bridge with its ROM. */
    const bus: Bus
    /** Settings fixed at probe: device-tree trigger mode, flash output, sensor clock, platform. */
    const cfg: Config
    /** `rom_table`: the descriptor bytes as last read from the bridge. */
    const romTable: array<u8>

    var model: Model
    /** Whether the bridge answered at probe (`priv->rom != NULL`). */
    var romPresent: bool
    var numLanes: int
    var digitalGain: u32
    var exposureTime: u32
    var frameRate: int
    var sensorExtTrig: int
    /** The mode code the bridge was last reset into, as the record keeps it. */
    var sensorMode: int
    /** The file-scope `sensor_mode`, shared by every call that reads or writes it. */
    var staticMode: int
    var camMode: int
    var streaming: bool

    ghost predicate Valid()
    {
      romTable.Length == ROM_SIZE
    }

    /** The record as the functions of DriverSpec see it. */
    function State(): DriverState
      reads this, romTable
      requires Valid()
    {
      DriverState(romTable[..], model, romPresent, numLanes, digitalGain, exposureTime, frameRate,
                  sensorExtTrig, sensorMode, staticMode, camMode, streaming)
    }

    /** The zero-filled allocation of probe. */
    constructor (bus: Bus, cfg: Config)
      ensures Valid() && fresh(romTable)
      ensures this.bus == bus && this.cfg == cfg
      ensures State() == ALLOCATED
    {
      this.bus := bus;
      this.cfg := cfg;
      romTable := new u8[ROM_SIZE](_ => 0);
      model := NoModel;
      romPresent := false;
      numLanes := 0;
      digitalGain := 0;
      exposureTime := 0;
      frameRate := 0;
      sensorExtTrig := 0;
      sensorMode := 0;
      staticMode := 1;
      camMode := 0;
      streaming := false;
      new;
      assert romTable[..] == seq(ROM_SIZE, _ => 0);
    }

    /** The control defaults probe applies after board setup; they satisfy the limits. */
    method ApplyProbeDefaults()
      requires Valid()
      modifies this
      ensures Valid() && State() == ProbeDefaults(old(State()), cfg)
      ensures Inv(State())
    {
      digitalGain := GAIN_DEFAULT;
      exposureTime := EXPOSURE_DEFAULT;
      frameRate := FRAME_RATE_DEFAULT;
      if cfg.extTrigMode >= 0 {
        sensorExtTrig := cfg.extTrigMode;
      } else {
        sensorExtTrig := 0;
      }
      if model == Monochrome || model == Color {
        camMode := MODE_1440X1080;
      }
    }

    /* ------------------------------------------------------ role writes */

    /** `if (sen_reg(priv, role)) ret |= reg_write(...)`: a role whose ROM address is 0 is skipped. */
    method WriteRole(role: Role, data: u8) returns (r: Status)
      requires Valid()
      modifies bus
      ensures bus.log == old(bus.log) + RoleWrite(romTable[..], role, data)
      ensures r == OrStatus(bus.oracle, |old(bus.log)|, RoleWrite(romTable[..], role, data))
    {
      var at := REGS_AT + 2 * role.Index();
      var addr: int := romTable[at] as int + 256 * romTable[at + 1] as int;
      assert addr == SenReg(romTable[..], role);
      if addr != 0 {
        r := bus.RegWrite(Sensor, addr, data);
      } else {
        r := 0;
      }
    }

    /** The three exposure roles in turn: high, middle, low. */
    method WriteExposureRoles(high: u8, middle: u8, low: u8) returns (r: Status)
      requires Valid()
      modifies bus
      ensures var rs := [(ExposureHigh, high), (ExposureMiddle, middle), (ExposureLow, low)];
        bus.log == old(bus.log) + RoleWrites(romTable[..], rs)
        && r == OrStatus(bus.oracle, |old(bus.log)|, RoleWrites(romTable[..], rs))
    {
      ghost var t := romTable[..];
      ghost var o := bus.oracle;
      ghost var n := |bus.log|;
      ghost var a := RoleWrite(t, ExposureHigh, high);
      ghost var b := RoleWrite(t, ExposureMiddle, middle);
      ghost var c := RoleWrite(t, ExposureLow, low);
      var r1 := WriteRole(ExposureHigh, high);
      var r2 := WriteRole(ExposureMiddle, middle);
      var r3 := WriteRole(ExposureLow, low);
      r := Or(Or(r1, r2), r3);
      RoleWritesTriple(t, (ExposureHigh, high), (ExposureMiddle, middle), (ExposureLow, low));
      OrStatusAppend(o, n, a, b);
      OrStatusAppend(o, n, a + b, c);
    }

    /** A 19-bit value to base+0x12, +0x11, +0x10 (high byte masked to 3 bits). */
    method WriteBaseField(base: Base, x: nat) returns (r: Status)
      modifies bus
      ensures bus.log == old(bus.log) + BaseWrites(base, x)
      ensures r == OrStatus(bus.oracle, |old(bus.log)|, BaseWrites(base, x))
    {
      ghost var o := bus.oracle;
      ghost var n := |bus.log|;
      ghost var ws := BaseWrites(base, x);
      var r1 := bus.RegWrite(Sensor, base as int + 0x12, Field19High(x));
      var r2 := bus.RegWrite(Sensor, base as int + 0x11, Field19Mid(x));
      var r3 := bus.RegWrite(Sensor, base as int + 0x10, Field19Low(x));
      r := Or(Or(r1, r2), r3);
      assert OrStatus(o, n + 2, [ws[2]]) == r3;
      assert OrStatus(o, n + 1, [ws[1], ws[2]]) == Or(r2, r3);
      assert ws == [ws[0], ws[1], ws[2]];
    }

    /** The four tick bytes, least significant first. */
    method WriteTicks(ticks: u32) returns (r: Status)
      modifies bus
      ensures bus.log == old(bus.log) + TickWrites(ticks)
      ensures r == OrStatus(bus.oracle, |old(bus.log)|, TickWrites(ticks))
    {
      ghost var o := bus.oracle;
      ghost var n := |bus.log|;
      ghost var ws := TickWrites(ticks);
      r := 0;
      var w := bus.RegWrite(Bridge, 0x0109, ByteOf(ticks, 0));
      r := Or(r, w);
      w := bus.RegWrite(Bridge, 0x010A, ByteOf(ticks, 1));
      r := Or(r, w);
      w := bus.RegWrite(Bridge, 0x010B, ByteOf(ticks, 2));
      r := Or(r, w);
      w := bus.RegWrite(Bridge, 0x010C, ByteOf(ticks, 3));
      r := Or(r, w);
      assert OrStatus(o, n + 3, [ws[3]]) == WriteStatus(o, n + 3, ws[3]);
      assert OrStatus(o, n + 2, [ws[2], ws[3]]) == Or(WriteStatus(o, n + 2, ws[2]), WriteStatus(o, n + 3, ws[3]));
      assert OrStatus(o, n + 1, [ws[1], ws[2], ws[3]]) == Or(WriteStatus(o, n + 1, ws[1]), OrStatus(o, n + 2, [ws[2], ws[3]]));
      assert ws == [ws[0], ws[1], ws[2], ws[3]];
    }

    /* ------------------------------------------------------------- gain */

    /** `imx273_set_gain` */
    method SetGain(val: int) returns (r: int)
      requires Valid()
      modifies this, bus
      ensures Valid()
      ensures var eff := SetGainSpec(old(State()), bus.oracle, |old(bus.log)|, val);
        State() == eff.st && bus.log == old(bus.log) + eff.trace && r == eff.ret
    {
      digitalGain := GainFromRequest(val);
      ghost var t := romTable[..];
      ghost var n := |bus.log|;
      var r1 := WriteRole(GainHigh, HighByte(digitalGain));
      var r2 := WriteRole(GainLow, LowByte(digitalGain));
      r := Or(r1, r2);
      RoleWritesPair(t, (GainHigh, HighByte(digitalGain)), (GainLow, LowByte(digitalGain)));
      OrStatusAppend(bus.oracle, n, RoleWrite(t, GainHigh, HighByte(digitalGain)), RoleWrite(t, GainLow, LowByte(digitalGain)));
    }

    /* ------------------------------------------------ free-run exposure */

    /** The VMAX read-back: high, middle, low; a read that returns 0 is skipped. */
    method ReadVmax(base: Base) returns (vMax: nat)
      modifies bus
      ensures bus.log == old(bus.log) + VmaxReads(base)
      ensures vMax == ReadBackVmax(bus.oracle, |old(bus.log)|, base)
    {
      vMax := 0;
      var reg := bus.RegRead(Sensor, base as int + 0x12);
      if reg != 0 { vMax := reg % 256; }
      reg := bus.RegRead(Sensor, base as int + 0x11);
      if reg != 0 { vMax := vMax * 256 + reg % 256; }
      reg := bus.RegRead(Sensor, base as int + 0x10);
      if reg != 0 { vMax := vMax * 256 + reg % 256; }
    }

    /** Short branch: VMAX written back, then the SHS bytes to the exposure roles. */
    method WriteShortShutter(base: Base, vMax: nat, shs: nat) returns (r: Status)
      requires Valid()
      modifies bus
      ensures var ws := BaseWrites(base, vMax) + RoleWrites(romTable[..], ShutterRoles(shs));
        bus.log == old(bus.log) + ws && r == OrStatus(bus.oracle, |old(bus.log)|, ws)
    {
      ghost var o := bus.oracle;
      ghost var n := |bus.log|;
      var r1 := WriteBaseField(base, vMax);
      var r2 := WriteExposureRoles(Field19High(shs), Field19Mid(shs), Field19Low(shs));
      r := Or(r1, r2);
      OrStatusAppend(o, n, BaseWrites(base, vMax), RoleWrites(romTable[..], ShutterRoles(shs)));
    }

    /** Long branch: the fixed exposure-role values, then the frame length to the VMAX block. */
    method WriteLongShutter(base: Base, frameLength: nat) returns (r: Status)
      requires Valid()
      modifies bus
      ensures var ws := RoleWrites(romTable[..], LongRoles()) + BaseWrites(base, frameLength);
        bus.log == old(bus.log) + ws && r == OrStatus(bus.oracle, |old(bus.log)|, ws)
    {
      ghost var o := bus.oracle;
      ghost var n := |bus.log|;
      var r1 := WriteExposureRoles(0x00, 0x00, 0x0e);
      var r2 := WriteBaseField(base, frameLength);
      r := Or(r1, r2);
      OrStatusAppend(o, n, RoleWrites(romTable[..], LongRoles()), BaseWrites(base, frameLength));
    }

    /** The register writes of the free-run encoder for the (clamped) stored exposure and the VMAX read back. */
    method WriteShutter(base: Base, vMax: nat) returns (r: Status)
      requires Valid()
      modifies bus
      ensures var ws := FreeRunWrites(romTable[..], base, exposureTime, vMax);
        bus.log == old(bus.log) + ws && r == OrStatus(bus.oracle, |old(bus.log)|, ws)
    {
      if exposureTime < IMX296.expMin1 {
        r := WriteShortShutter(base, vMax, ShortShutter(IMX296, exposureTime, vMax));
      } else {
        r := WriteLongShutter(base, LongFrameLength(IMX296, exposureTime));
      }
    }

    /** `imx_exposure_296`: read VMAX back, clamp, then the short or the long branch. */
    method FreeRunExposure() returns (r: int)
      requires Valid()
      modifies this, bus
      ensures Valid()
      ensures var eff := FreeRunSpec(old(State()), cfg, bus.oracle, |old(bus.log)|);
        State() == eff.st && bus.log == old(bus.log) + eff.trace && r == eff.ret
    {
      var base := ExposureBase(model, cfg.platformQcom);
      var vMax := ReadVmax(base);
      exposureTime := ClampToTiming(IMX296, exposureTime);
      r := WriteShutter(base, vMax);
      AppendAssoc(old(bus.log), VmaxReads(base), FreeRunWrites(romTable[..], base, exposureTime, vMax));
    }

    /* ----------------------------------------------------- set exposure */

    /** `imx273_set_exposure` */
    method SetExposure(val: int) returns (r: int)
      requires Valid()
      modifies this, bus
      ensures Valid()
      ensures var eff := SetExposureSpec(old(State()), cfg, bus.oracle, |old(bus.log)|, val);
        State() == eff.st && bus.log == old(bus.log) + eff.trace && r == eff.ret
    {
      exposureTime := ExposureFromRequest(val);
      if sensorExtTrig != 0 {
        // the tick writes' status lands in an inner variable and is dropped
        var inner := WriteTicks(TriggerTicks(exposureTime, cfg.senClk));
        r := 0;
      } else {
        r := FreeRunExposure();
      }
    }

    /** `imx273_set_frame_rate`: its body is disabled; it changes nothing and reports success. */
    method SetFrameRate(val: int) returns (r: int)
      ensures r == 0
    {
      r := 0;
    }

    /* ------------------------------------------------------ bridge reset */

    /** `vc_mipi_reset` */
    method Reset(mode: int) returns (r: int)
      requires Valid()
      modifies bus
      ensures var out := ResetSpec(romPresent, bus.oracle, |old(bus.log)|, mode);
        bus.log == old(bus.log) + out.trace && r == out.ret
    {
      if !romPresent {
        return -EIO;
      }
      var st := bus.RegWrite(Bridge, 0x0100, 2);
      if st != 0 {
        return -EIO;
      }
      if mode < 0 {
        var status := bus.RegRead(Bridge, 0x0101);
        return 0;
      }
      st := bus.RegWrite(Bridge, 0x0102, mode % 256);
      if st != 0 {
        return -EIO;
      }
      st := bus.RegWrite(Bridge, 0x0100, 0);
      if st != 0 {
        return -EIO;
      }
      r := PollStatus();
    }

    /**
     * The status poll after a mode reset: up to five reads of bridge
     * register 0x0101, stopping at the first with bit 7 set; -EIO when a
     * value read before that had bit 0 set.
     */
    method PollStatus() returns (r: int)
      modifies bus
      ensures var p := Poll(PollStatuses(bus.oracle, |old(bus.log)|));
        && bus.log == old(bus.log) + StatusReads(p.0)
        && r == (if p.1 then -EIO else 0)
    {
      ghost var start := bus.log;
      ghost var sts := PollStatuses(bus.oracle, |start|);
      var err := 0;
      var tries := 1;
      while true
        invariant 1 <= tries <= POLL_TRIES
        invariant bus.log == start + StatusReads(tries - 1)
        invariant forall j :: 0 <= j < tries - 1 ==> !Ready(sts[j])
        invariant err == 0 || err == -EIO
        invariant err == -EIO <==> exists j :: 0 <= j < tries - 1 && !Ready(sts[j]) && Failed(sts[j])
        decreases POLL_TRIES - tries
      {
        var status := bus.RegRead(Bridge, 0x0101);
        assert status == sts[tries - 1];
        assert bus.log == start + StatusReads(tries);
        if Ready(status) {
          PollStopsAt(sts, tries);
          assert (exists j :: 0 <= j < tries && !Ready(sts[j]) && Failed(sts[j]))
             <==> (exists j :: 0 <= j < tries - 1 && !Ready(sts[j]) && Failed(sts[j]));
          r := err;
          return;
        }
        if Failed(status) {
          err := -EIO;
        }
        assert err == -EIO <==> exists j :: 0 <= j < tries && !Ready(sts[j]) && Failed(sts[j]);
        if tries > 4 {
          PollStopsAt(sts, tries);
          r := err;
          return;
        }
        tries := tries + 1;
      }
    }

    /* --------------------------------------------------- trigger writes */

    /** `vc_mipi_common_trigmode_write` */
    method TrigmodeWrite(extTrig: u32, exposureTime: u32, ioConfig: u32, enable: u32, senClk: u32) returns (r: Status)
      modifies bus
      ensures var out := TrigmodeSpec(bus.oracle, |old(bus.log)|, extTrig, exposureTime, ioConfig, enable, senClk);
        bus.log == old(bus.log) + out.trace && r == out.ret
    {
      ghost var n := |bus.log|;
      if extTrig != 0 {
        var ticks := TriggerTicks(exposureTime, senClk);
        r := bus.RegWrite(Bridge, 0x0108, enable % 256);
        var w := bus.RegWrite(Bridge, 0x0103, ioConfig % 256);
        r := Or(r, w);
        ghost var head := [W(Bridge, 0x0108, enable), W(Bridge, 0x0103, ioConfig)];
        assert OrStatus(bus.oracle, n + 1, [head[1]]) == WriteStatus(bus.oracle, n + 1, head[1]);
        assert head == [head[0], head[1]];
        w := WriteTicks(ticks);
        OrStatusAppend(bus.oracle, n, head, TickWrites(ticks));
        r := Or(r, w);
      } else {
        r := bus.RegWrite(Bridge, 0x0108, 0);
        var w := bus.RegWrite(Bridge, 0x0103, ioConfig % 256);
        r := Or(r, w);
        ghost var ws := [W(Bridge, 0x0108, 0), W(Bridge, 0x0103, ioConfig)];
        assert OrStatus(bus.oracle, n + 1, [ws[1]]) == WriteStatus(bus.oracle, n + 1, ws[1]);
      }
    }

    /* ------------------------------------------------------- streaming */

    /** The six configuration writes with a trigger on: enable, I/O configuration, four tick bytes. */
    method TriggerConfig(enable: int, ioConfig: int, ticks: u32) returns (sum: int)
      modifies bus
      ensures var cws := ConfigWrites(true, enable, ioConfig, ticks);
        bus.log == old(bus.log) + cws && (sum == 0 <==> Acked(bus.oracle, |old(bus.log)|, cws))
    {
      ghost var o := bus.oracle;
      ghost var n := |bus.log|;
      ghost var cws := ConfigWrites(true, enable, ioConfig, ticks);
      var w0 := bus.RegWrite(Bridge, 0x0108, enable % 256);
      sum := w0;
      var w1 := bus.RegWrite(Bridge, 0x0103, ioConfig % 256);
      sum := sum + w1;
      var w2 := bus.RegWrite(Bridge, 0x0109, ByteOf(ticks, 0));
      sum := sum + w2;
      var w3 := bus.RegWrite(Bridge, 0x010A, ByteOf(ticks, 1));
      sum := sum + w3;
      var w4 := bus.RegWrite(Bridge, 0x010B, ByteOf(ticks, 2));
      sum := sum + w4;
      var w5 := bus.RegWrite(Bridge, 0x010C, ByteOf(ticks, 3));
      sum := sum + w5;
      assert w0 == WriteStatus(o, n + 0, cws[0]) && w1 == WriteStatus(o, n + 1, cws[1]);
      assert w2 == WriteStatus(o, n + 2, cws[2]) && w3 == WriteStatus(o, n + 3, cws[3]);
      assert w4 == WriteStatus(o, n + 4, cws[4]) && w5 == WriteStatus(o, n + 5, cws[5]);
    }

    /** The two configuration writes with the trigger off: 0 to the enable register, then the I/O configuration. */
    method PlainConfig(ioConfig: int) returns (sum: int)
      modifies bus
      ensures var cws := ConfigWrites(false, 0, ioConfig, 0);
        bus.log == old(bus.log) + cws && (sum == 0 <==> Acked(bus.oracle, |old(bus.log)|, cws))
    {
      ghost var o := bus.oracle;
      ghost var n := |bus.log|;
      ghost var cws := ConfigWrites(false, 0, ioConfig, 0);
      var w0 := bus.RegWrite(Bridge, 0x0108, 0);
      sum := w0;
      var w1 := bus.RegWrite(Bridge, 0x0103, ioConfig % 256);
      sum := sum + w1;
      assert w0 == WriteStatus(o, n + 0, cws[0]) && w1 == WriteStatus(o, n + 1, cws[1]);
    }

    /**
     * The second half of start-streaming: the configuration writes, whose
     * statuses are added up (`ret += ...`), then the stream-on table.
     */
    method StreamOn() returns (r: int)
      requires Valid()
      modifies this, bus
      ensures Valid()
      ensures var eff := StreamOnSpec(old(State()), cfg, bus.oracle, |old(bus.log)|);
        State() == eff.st && bus.log == old(bus.log) + eff.trace && r == eff.ret
    {
      ghost var o := bus.oracle;
      ghost var n := |bus.log|;
      ghost var cws := ConfigWrites(sensorExtTrig != 0, sensorExtTrig, cfg.flashOutput,
                                    TriggerTicks(exposureTime, cfg.senClk));
      var ret;
      if sensorExtTrig != 0 {
        ret := TriggerConfig(sensorExtTrig, cfg.flashOutput, TriggerTicks(exposureTime, cfg.senClk));
      } else {
        ret := PlainConfig(cfg.flashOutput);
      }
      OrStatusAcked(o, n, cws);
      if ret != 0 {
        return 0;
      }
      r := bus.WriteTable(Sensor, START_TABLE);
      if r == 0 {
        streaming := true;
      }
    }

    /** `imx273_start_streaming` */
    method StartStreaming() returns (r: int)
      requires Valid()
      modifies this, bus
      ensures Valid()
      ensures var eff := StartStreamingSpec(old(State()), cfg, bus.oracle, old(bus.log));
        State() == eff.st && bus.log == old(bus.log) + eff.trace && r == eff.ret
    {
      ghost var s0 := State();
      ghost var l0 := bus.log;
      var gainStatus := SetGain(digitalGain);
      ghost var s1 := State();
      ghost var l1 := bus.log;
      var exposureStatus := SetExposure(exposureTime);
      ghost var s2 := State();
      ghost var l2 := bus.log;
      var rateStatus := SetFrameRate(frameRate);
      r := StreamOn();
      ghost var g := SetGainSpec(s0, bus.oracle, |l0|, s0.digitalGain);
      ghost var x := SetExposureSpec(s1, cfg, bus.oracle, |l1|, s1.exposureTime);
      ghost var on := StreamOnSpec(s2, cfg, bus.oracle, |l2|);
      AppendAssoc(l0 + g.trace, x.trace, on.trace);
      AppendAssoc(l0, g.trace, x.trace + on.trace);
      AppendAssoc(g.trace, x.trace, on.trace);
    }

    /** `imx273_stop_streaming` */
    method StopStreaming() returns (r: int)
      requires Valid()
      modifies this, bus
      ensures Valid()
      ensures var eff := StopStreamingSpec(old(State()), cfg, bus.oracle, old(bus.log));
        State() == eff.st && bus.log == old(bus.log) + eff.trace && r == eff.ret
    {
      r := Reset(-1);
      if r != 0 {
        return;
      }
      r := Reset(staticMode);
      if r != 0 {
        return;
      }
      // disable the trigger counter; its status is not looked at
      var disabled := TrigmodeWrite(0, 0, 0, 0, 0);
      r := bus.WriteTable(Sensor, STOP_TABLE);
      if r == 0 {
        streaming := false;
      }
    }

    /* -------------------------------------------------------- set mode */

    /** The first half of set-mode: the new file-scope mode code and trigger flag. */
    method SelectMode(f: PixelFormat, sensorModeId: int)
      requires Valid()
      modifies this
      ensures Valid()
      ensures State() == old(State()).(
        staticMode := ModeCode(old(staticMode), f, numLanes, TriggerOn(cfg.extTrigMode, sensorModeId)),
        sensorExtTrig := ExtTrigSelect(cfg.extTrigMode, sensorModeId, old(sensorExtTrig)))
    {
      match DepthCode(f) {
        case Some(d) => staticMode := d;
        case None =>
      }
      if numLanes == 4 {
        staticMode := staticMode + 6;
      }
      if cfg.extTrigMode >= 0 {
        if cfg.extTrigMode > 0 {
          staticMode := staticMode + 3;
        }
        sensorExtTrig := cfg.extTrigMode;
      } else {
        if sensorModeId != 0 {
          staticMode := staticMode + 3;
        }
        if sensorModeId == 0 {
          sensorExtTrig := 0;
        } else if sensorModeId == 1 {
          sensorExtTrig := 1;
        } else if sensorModeId == 2 {
          sensorExtTrig := 4;
        }
      }
    }

    /** `imx273_set_mode` for pixel format f and sensor-mode control value sensorModeId. */
    method SetMode(f: PixelFormat, sensorModeId: int) returns (r: int)
      requires Valid()
      modifies this, bus
      ensures Valid()
      ensures var eff := SetModeSpec(old(State()), cfg, bus.oracle, old(bus.log), f, sensorModeId);
        State() == eff.st && bus.log == old(bus.log) + eff.trace && r == eff.ret
    {
      SelectMode(f, sensorModeId);
      if sensorMode != staticMode {
        sensorMode := staticMode;
        // a reset error is overwritten by the table status below
        var resetStatus := Reset(staticMode);
      }
      camMode := MODE_1440X1080;
      r := bus.WriteTable(Sensor, MODE_TABLE);
    }

    /* ----------------------------------------------------- board setup */

    /**
     * The descriptor read: byte i from bridge address 0x1000 + i, in order,
     * stopping at the first failed read; the bytes read so far stay in the table.
     */
    method ReadRom() returns (ok: bool)
      requires Valid()
      modifies bus, romTable
      ensures var k := FirstFailedRead(bus.oracle, |old(bus.log)|, 0);
        && ok == (k == ROM_SIZE)
        && romTable[..] == ImageAfterReads(bus.oracle, |old(bus.log)|, k, old(romTable[..]))
        && bus.log == old(bus.log) + RomReads(if ok then ROM_SIZE else k + 1)
    {
      ghost var o := bus.oracle;
      ghost var n := |bus.log|;
      ghost var prev := romTable[..];
      var i := 0;
      while i < ROM_SIZE
        invariant 0 <= i <= ROM_SIZE
        invariant forall j :: 0 <= j < i ==> RomRead(o, n, j) >= 0
        invariant romTable[..] == ImageAfterReads(o, n, i, prev)
        invariant bus.log == old(bus.log) + RomReads(i)
        modifies bus, romTable
      {
        var reg := bus.RegRead(Bridge, ROM_BASE + i);
        RomReadsStep(i);
        AppendAssoc(old(bus.log), RomReads(i), [Read(Bridge, ROM_BASE + i)]);
        if reg < 0 {
          FirstFailedReadIs(o, n, 0, i);
          return false;
        }
        romTable[i] := reg;
        i := i + 1;
      }
      FirstFailedReadIs(o, n, 0, ROM_SIZE);
      ok := true;
    }

    /** The end of `imx273_board_setup`: the model check and the first bridge reset. */
    method Identify() returns (r: int)
      requires Valid()
      modifies this, bus
      ensures Valid()
      ensures var eff := IdentifySpec(old(State()), cfg, bus.oracle, |old(bus.log)|);
        State() == eff.st && bus.log == old(bus.log) + eff.trace && r == eff.ret
    {
      model := Classify(Decode(romTable[..]));
      if model == NoModel {
        return -ENODEV;
      }
      if cfg.extTrigMode >= 1 {
        staticMode := staticMode + 3;
      }
      sensorMode := staticMode;
      r := Reset(staticMode);
    }

    /** Board setup once the bridge has answered: the descriptor read, then the model check and first reset. */
    method SetupFromRom() returns (r: int)
      requires Valid()
      modifies this, bus, romTable
      ensures Valid()
      ensures var eff := RomSetupSpec(old(State()), cfg, bus.oracle, old(bus.log));
        State() == eff.st && bus.log == old(bus.log) + eff.trace && r == eff.ret
    {
      ghost var l0 := bus.log;
      var ok := ReadRom();
      if !ok {
        return -EIO;
      }
      ghost var s1 := State();
      ghost var l1 := bus.log;
      r := Identify();
      AppendAssoc(l0, RomReads(ROM_SIZE), IdentifySpec(s1, cfg, bus.oracle, |l1|).trace);
    }

    /** The ROM part of `imx273_board_setup`. */
    method BoardSetup(env: SetupEnv) returns (r: int)
      requires Valid()
      modifies this, bus, romTable
      ensures Valid()
      ensures var eff := BoardSetupSpec(old(State()), cfg, bus.oracle, old(bus.log), env);
        State() == eff.st && bus.log == old(bus.log) + eff.trace && r == eff.ret
    {
      numLanes := env.numLanes;
      if numLanes == 2 {
        staticMode := 1;
      } else if numLanes == 4 {
        staticMode := 7;
      } else {
        return -EINVAL;
      }
      if !env.smbusOk {
        return -EIO;
      }
      romPresent := env.romFound;
      if !romPresent {
        return -EIO;
      }
      r := SetupFromRom();
    }
  }
}
