/**
 * Sensor-mode numbering of the bridge and the two pieces of pure logic
 * around it: the mode code chosen from pixel format, lane count and
 * trigger setting, and the status poll that follows a mode reset.
 */
module Modes {
  import opened Bus

  /* ----------------------------------------------------------- mode codes */

  /** Pixel formats the driver recognises; anything else is carried as its fourcc. */
  datatype PixelFormat = Grey | Srggb8 | Y10 | Srggb10 | Y12 | Srggb12 | OtherFormat(fourcc: int)

  /** The bridge's notion of a sensor mode: bit depth, lane count, trigger. */
  datatype SensorMode = SensorMode(bits: int, lanes: int, trigger: bool)

  /** The modes the bridge offers: 8/10/12 bit, 2 or 4 lanes, streaming or external trigger. */
  predicate IsBridgeMode(m: SensorMode)
  {
    (m.bits == 8 || m.bits == 10 || m.bits == 12) && (m.lanes == 2 || m.lanes == 4)
  }

  /** The numbering of the mode table: depth 0/1/2, plus 3 for trigger, plus 6 for four lanes. */
  function ModeNumber(m: SensorMode): (code: int)
    requires IsBridgeMode(m)
    ensures 0 <= code <= 11
    ensures (code / 6 == 1) <==> m.lanes == 4
    ensures (code % 6 >= 3) <==> m.trigger
  {
    (m.bits - 8) / 2 + (if m.trigger then 3 else 0) + (if m.lanes == 4 then 6 else 0)
  }

  /** Reads a mode number back as the mode it names. */
  function ModeOf(code: int): (m: SensorMode)
    requires 0 <= code <= 11
    ensures IsBridgeMode(m)
  {
    SensorMode(8 + 2 * (code % 3), if code >= 6 then 4 else 2, code % 6 >= 3)
  }

  lemma ModeOfNumber(m: SensorMode)
    requires IsBridgeMode(m)
    ensures ModeOf(ModeNumber(m)) == m
  {
  }

  lemma NumberOfMode(code: int)
    requires 0 <= code <= 11
    ensures ModeNumber(ModeOf(code)) == code
  {
  }

  /** Two table entries, as listed beside the mode numbers. */
  lemma ModeTableExamples()
    ensures ModeOf(4) == SensorMode(10, 2, true)
    ensures ModeOf(0x0B) == SensorMode(12, 4, true)
    ensures ModeOf(7) == SensorMode(10, 4, false)
  {
  }

  /** The depth code of a recognised format: 0, 1 or 2 for 8, 10 or 12 bits. */
  function DepthCode(f: PixelFormat): (d: Option<int>)
    ensures d.Some? <==> !f.OtherFormat?
    ensures d.Some? ==> 0 <= d.value <= 2
  {
    match f
    case Grey => Some(0)
    case Srggb8 => Some(0)
    case Y10 => Some(1)
    case Srggb10 => Some(1)
    case Y12 => Some(2)
    case Srggb12 => Some(2)
    case OtherFormat(_) => None
  }

  function BitsOf(f: PixelFormat): int
    requires !f.OtherFormat?
  {
    8 + 2 * DepthCode(f).value
  }

  /**
   * Whether set-mode selects a trigger mode: the device-tree setting when
   * it is given (non-negative), otherwise the sensor-mode control's value.
   */
  function TriggerOn(extTrigMode: int, sensorModeId: int): bool
  {
    if extTrigMode >= 0 then extTrigMode > 0 else sensorModeId != 0
  }

  /**
   * The mode code set-mode computes. The code lives in a file-scope
   * variable: a recognised format overwrites it with the depth code, an
   * unrecognised one leaves the previous code in place, and the lane and
   * trigger offsets are added in either case.
   */
  function ModeCode(prev: int, f: PixelFormat, numLanes: int, trigger: bool): int
  {
    var base := match DepthCode(f) case Some(d) => d case None => prev;
    base + (if numLanes == 4 then 6 else 0) + (if trigger then 3 else 0)
  }

  /** For a recognised format and 2 or 4 lanes the code is the table's number for that mode. */
  lemma ModeCodeMatchesTable(prev: int, f: PixelFormat, numLanes: int, trigger: bool)
    requires !f.OtherFormat?
    requires numLanes == 2 || numLanes == 4
    ensures ModeCode(prev, f, numLanes, trigger) == ModeNumber(SensorMode(BitsOf(f), numLanes, trigger))
    ensures 0 <= ModeCode(prev, f, numLanes, trigger) <= 11
    ensures ModeOf(ModeCode(prev, f, numLanes, trigger)) == SensorMode(BitsOf(f), numLanes, trigger)
  {
  }

  /** For a recognised format the previous code plays no part. */
  lemma ModeCodeIgnoresPrevious(p1: int, p2: int, f: PixelFormat, numLanes: int, trigger: bool)
    requires !f.OtherFormat?
    ensures ModeCode(p1, f, numLanes, trigger) == ModeCode(p2, f, numLanes, trigger)
  {
  }

  /**
   * An unrecognised format keeps the previous code and adds the offsets
   * again, so repeated calls drift outside the table: from the four-lane
   * 10-bit default 7 the code becomes 13.
   */
  lemma ModeCodeAccumulates(prev: int, fourcc: int, numLanes: int, trigger: bool)
    ensures ModeCode(prev, OtherFormat(fourcc), numLanes, trigger)
         == prev + (if numLanes == 4 then 6 else 0) + (if trigger then 3 else 0)
    ensures ModeCode(7, OtherFormat(fourcc), 4, false) == 13
  {
  }

  /**
   * The new `sensor_ext_trig`: the device-tree setting when given, else 0,
   * 1 or 4 for sensor-mode control values 0, 1 or 2; any other control
   * value leaves the flag as it was.
   */
  function ExtTrigSelect(extTrigMode: int, sensorModeId: int, prev: int): (t: int)
    ensures extTrigMode >= 0 ==> t == extTrigMode
    ensures extTrigMode < 0 && 0 <= sensorModeId <= 2 ==> t == [0, 1, 4][sensorModeId]
    ensures extTrigMode < 0 && !(0 <= sensorModeId <= 2) ==> t == prev
  {
    if extTrigMode >= 0 then extTrigMode
    else if sensorModeId == 0 then 0
    else if sensorModeId == 1 then 1
    else if sensorModeId == 2 then 4
    else prev
  }

  /**
   * Outside the device-tree case, the mode code's trigger offset and the
   * new trigger flag agree for control values 0..2; for other non-zero
   * values the offset is added while the flag keeps its previous value.
   */
  lemma TriggerAgreesWithFlag(sensorModeId: int, prev: int)
    ensures 0 <= sensorModeId <= 2 ==>
      (TriggerOn(-1, sensorModeId) <==> ExtTrigSelect(-1, sensorModeId, prev) != 0)
    ensures TriggerOn(-1, 3) && ExtTrigSelect(-1, 3, prev) == prev
  {
  }

  /** The mode the bridge is first reset into at board setup: 1 for two lanes, 7 for four, plus 3 with a device-tree trigger. */
  function SetupModeCode(numLanes: int, extTrigMode: int): (code: int)
    requires numLanes == 2 || numLanes == 4
    ensures 0 <= code <= 11 && ModeOf(code) == SensorMode(10, numLanes, extTrigMode >= 1)
  {
    (if numLanes == 2 then 1 else 7) + (if extTrigMode >= 1 then 3 else 0)
  }

  /* ---------------------------------------------------------- status poll */

  /** `reg & 0x80` on the int the read returned (two's complement for an errno). */
  predicate Ready(r: int)
  {
    (r % 256) / 128 == 1
  }

  /** `reg & 0x01`. */
  predicate Failed(r: int)
  {
    r % 2 == 1
  }

  /** Every errno a read can return (-1 .. -128) has bit 7 set, so a failed read ends the poll. */
  lemma ErrnoReadsAsReady(r: int)
    requires -128 <= r <= -1
    ensures Ready(r)
  {
  }

  /** A byte has bit 7 set exactly when it is at least 0x80. */
  lemma ReadyByte(r: u8)
    ensures Ready(r) <==> r >= 0x80
  {
  }

  /**
   * The poll over the status values read in turn: it stops after the first
   * value with bit 7 set (that read counted), or when the values run out.
   * The result is the number of reads made and whether a value read before
   * the stop had bit 0 set.
   */
  function Poll(sts: seq<int>): (res: (nat, bool))
    ensures res.0 <= |sts|
    ensures sts != [] ==> res.0 >= 1
  {
    if sts == [] then (0, false)
    else if Ready(sts[0]) then (1, false)
    else
      var rest := Poll(sts[1..]);
      (rest.0 + 1, Failed(sts[0]) || rest.1)
  }

  /** The number of bridge status reads after a mode reset. */
  const POLL_TRIES: nat := 5

  /**
   * What the poll means: it reads up to and including the first ready
   * value (or everything), and reports an error exactly when some value
   * read before that had bit 0 set.
   */
  lemma {:induction false} PollSpec(sts: seq<int>)
    ensures var (k, err) := Poll(sts);
      && k <= |sts|
      && (forall j :: 0 <= j < k - 1 ==> !Ready(sts[j]))
      && (k < |sts| ==> k >= 1 && Ready(sts[k - 1]))
      && (k == |sts| && sts != [] && !Ready(sts[k - 1]) ==> forall j :: 0 <= j < |sts| ==> !Ready(sts[j]))
      && (err <==> exists j :: 0 <= j < k && !Ready(sts[j]) && Failed(sts[j]))
  {
    if sts != [] && !Ready(sts[0]) {
      PollSpec(sts[1..]);
      var (k, err) := Poll(sts[1..]);
      forall j | 1 <= j < k + 1 ensures sts[j] == sts[1..][j - 1] {
      }
      if Failed(sts[0]) {
        assert !Ready(sts[0]) && Failed(sts[0]);
      }
      if err {
        var j :| 0 <= j < k && !Ready(sts[1..][j]) && Failed(sts[1..][j]);
        assert !Ready(sts[j + 1]) && Failed(sts[j + 1]);
      }
    }
  }

  /**
   * The poll read k values exactly when the first k-1 were not ready and
   * the k-th was ready or the last one; it then reports an error exactly
   * when one of the non-ready values read had bit 0 set.
   */
  lemma PollStopsAt(sts: seq<int>, k: nat)
    requires 1 <= k <= |sts|
    requires forall j :: 0 <= j < k - 1 ==> !Ready(sts[j])
    requires Ready(sts[k - 1]) || k == |sts|
    ensures Poll(sts) == (k, exists j :: 0 <= j < k && !Ready(sts[j]) && Failed(sts[j]))
  {
    PollSpec(sts);
    var (m, err) := Poll(sts);
    if m < k {
      assert false;
    }
    if k < m {
      assert false;
    }
  }

  /** A first value with bit 7 set ends the poll at once, even with bit 0 set too. */
  lemma PollReadyFirst(sts: seq<int>)
    requires sts != [] && Ready(sts[0])
    ensures Poll(sts) == (1, false)
  {
  }

  /** A failed first read (an errno) ends the poll without an error being reported. */
  lemma PollErrnoFirst(sts: seq<int>)
    requires sts != [] && -128 <= sts[0] <= -1
    ensures Poll(sts) == (1, false)
  {
    ErrnoReadsAsReady(sts[0]);
  }

  /** With no ready value and no error bit, all five reads happen and the poll reports success. */
  lemma {:induction false} PollQuiet(sts: seq<int>)
    requires forall j :: 0 <= j < |sts| ==> !Ready(sts[j]) && !Failed(sts[j])
    ensures Poll(sts) == (|sts|, false)
    decreases |sts|
  {
    if sts != [] {
      PollQuiet(sts[1..]);
    }
  }

  /** Scenario: bit 0 on the first read, ready on the third: three reads and an error. */
  lemma PollErrorThenReady()
    ensures Poll([0x01, 0x00, 0x80, 0x00, 0x00]) == (3, true)
  {
  }

  datatype Option<T> = None | Some(value: T)
}
