/**
 * The two-wire register bus as the driver sees it: 16-bit register
 * addresses, 8-bit values, single-register reads and writes, and the
 * table-apply helper of the host camera framework.
 *
 * The device behind the bus is abstract. Every access is appended to a
 * log, and the device's answer to an access is a fixed function (the
 * oracle) of the access and of its position in that log. This makes
 * every write order and every failure pattern expressible.
 */
module Bus {

  type u8 = x: int | 0 <= x < 0x100
  type u16 = x: int | 0 <= x < 0x1_0000
  type u32 = x: int | 0 <= x < 0x1_0000_0000

  const U32_RANGE: int := 0x1_0000_0000
  const U64_RANGE: int := 0x1_0000_0000_0000_0000

  /** Linux error numbers used by the driver (returned negated). */
  const EIO: int := 5
  const ENODEV: int := 19
  const EINVAL: int := 22

  /** The value of a single register write: 0 on success, -EIO on failure. */
  type Status = s: int | s == 0 || s == -EIO

  /** Bitwise OR restricted to {0, -EIO}: the driver's `ret |= ...` idiom. */
  function Or(a: Status, b: Status): (r: Status)
    ensures r == 0 <==> a == 0 && b == 0
  {
    if a == 0 then b else a
  }

  /** Which client on the bus is addressed: the FPGA bridge (with its ROM) or the image sensor. */
  datatype Target = Bridge | Sensor

  datatype Access =
    | Write(target: Target, addr: u16, data: u8)
    | Read(target: Target, addr: u16)
      /** One application of a register table; its internals are not modelled. */
    | Table(target: Target, entries: seq<(u16, u8)>)

  /**
   * The device's answer to the access at a given log position:
   * for a Write, the number of messages the adapter transferred or a negative errno;
   * for a Read, a negative errno or the byte delivered into the one-byte buffer;
   * for a Table, the table helper's status (negative errno on failure).
   */
  type Oracle = (nat, Access) -> int

  /** `reg_write`: success only when exactly one message was transferred. */
  function WriteStatus(o: Oracle, n: nat, a: Access): Status
  {
    if o(n, a) == 1 then 0 else -EIO
  }

  /** `reg_read`: the errno when the transfer failed, otherwise the byte read. */
  function ReadValue(o: Oracle, n: nat, a: Access): (r: int)
    ensures r <= 255
    ensures r >= 0 ==> r == o(n, a) % 256
    ensures r < 0 <==> o(n, a) < 0
    ensures r < 0 ==> r == o(n, a)
  {
    if o(n, a) < 0 then o(n, a) else o(n, a) % 256
  }

  /** The table-apply helper: 0 on success, a negative errno on failure. */
  function TableStatus(o: Oracle, n: nat, a: Access): (r: int)
    ensures r <= 0
    ensures r == 0 <==> o(n, a) >= 0
  {
    if o(n, a) < 0 then o(n, a) else 0
  }

  /** Every write of `ws`, issued from log position n0 on, is acknowledged. */
  ghost predicate Acked(o: Oracle, n0: nat, ws: seq<Access>)
  {
    forall j :: 0 <= j < |ws| ==> WriteStatus(o, n0 + j, ws[j]) == 0
  }

  /** `ret = w0; ret |= w1; ...`: the OR of the statuses of the writes `ws` issued from log position n0. */
  function OrStatus(o: Oracle, n0: nat, ws: seq<Access>): (r: Status)
    decreases |ws|
  {
    if ws == [] then 0 else Or(WriteStatus(o, n0, ws[0]), OrStatus(o, n0 + 1, ws[1..]))
  }

  /** The accumulated status is 0 exactly when every write was acknowledged. */
  lemma {:induction false} OrStatusAcked(o: Oracle, n0: nat, ws: seq<Access>)
    ensures OrStatus(o, n0, ws) == 0 <==> Acked(o, n0, ws)
    decreases |ws|
  {
    if ws != [] {
      OrStatusAcked(o, n0 + 1, ws[1..]);
      if Acked(o, n0 + 1, ws[1..]) && WriteStatus(o, n0, ws[0]) == 0 {
        forall j | 0 <= j < |ws| ensures WriteStatus(o, n0 + j, ws[j]) == 0 {
          if j > 0 {
            assert ws[j] == ws[1..][j - 1];
          }
        }
      }
      if Acked(o, n0, ws) {
        forall j | 0 <= j < |ws| - 1 ensures WriteStatus(o, n0 + 1 + j, ws[1..][j]) == 0 {
          assert ws[1..][j] == ws[j + 1];
        }
      }
    }
  }

  /** Writing `a` and then `b` accumulates the OR of the two parts. */
  lemma {:induction false} OrStatusAppend(o: Oracle, n0: nat, a: seq<Access>, b: seq<Access>)
    ensures OrStatus(o, n0, a + b) == Or(OrStatus(o, n0, a), OrStatus(o, n0 + |a|, b))
    decreases |a|
  {
    if a != [] {
      assert (a + b)[1..] == a[1..] + b;
      OrStatusAppend(o, n0 + 1, a[1..], b);
    } else {
      assert a + b == b;
    }
  }

  /** Logs are extended piecewise; the pieces may be grouped either way. */
  lemma AppendAssoc(a: seq<Access>, b: seq<Access>, c: seq<Access>)
    ensures a + b + c == a + (b + c)
  {
  }

  /** Bytes sent for a register write: big-endian 16-bit address, then the value. */
  function TxFrame(addr: u16, data: u8): (f: seq<u8>)
    ensures |f| == 3
  {
    [addr / 256, addr % 256, data]
  }

  /** Bytes sent to address a register before reading it back. */
  function AddrFrame(addr: u16): (f: seq<u8>)
    ensures |f| == 2
  {
    [addr / 256, addr % 256]
  }

  /** Reads the 16-bit register address back out of a frame. */
  function FrameAddr(f: seq<u8>): u16
    requires |f| >= 2
  {
    f[0] as int * 256 + f[1] as int
  }

  /** A write frame carries the address most significant byte first, then the value. */
  lemma TxFrameRoundTrip(addr: u16, data: u8)
    ensures FrameAddr(TxFrame(addr, data)) == addr
    ensures TxFrame(addr, data)[2] == data
    ensures TxFrame(addr, data)[..2] == AddrFrame(addr)
  {
  }

  /** Two different register writes are never sent as the same bytes. */
  lemma TxFrameInjective(a1: u16, d1: u8, a2: u16, d2: u8)
    requires TxFrame(a1, d1) == TxFrame(a2, d2)
    ensures a1 == a2 && d1 == d2
  {
    TxFrameRoundTrip(a1, d1);
    TxFrameRoundTrip(a2, d2);
  }

  class Bus {
    /** Every access so far, oldest first. */
    var log: seq<Access>
    const oracle: Oracle

    constructor (oracle: Oracle)
      ensures log == [] && this.oracle == oracle
    {
      log := [];
      this.oracle := oracle;
    }

    /** `reg_write`: one register write, answered 0 or -EIO. */
    method RegWrite(t: Target, addr: u16, data: u8) returns (r: Status)
      modifies this
      ensures log == old(log) + [Write(t, addr, data)]
      ensures r == WriteStatus(oracle, |old(log)|, Write(t, addr, data))
    {
      r := WriteStatus(oracle, |log|, Write(t, addr, data));
      log := log + [Write(t, addr, data)];
    }

    /** `reg_read`: one register read, answered with a byte or a negative errno. */
    method RegRead(t: Target, addr: u16) returns (r: int)
      modifies this
      ensures log == old(log) + [Read(t, addr)]
      ensures r == ReadValue(oracle, |old(log)|, Read(t, addr))
    {
      r := ReadValue(oracle, |log|, Read(t, addr));
      log := log + [Read(t, addr)];
    }

    /** `imx273_write_table`: one table application, answered 0 or a negative errno. */
    method WriteTable(t: Target, entries: seq<(u16, u8)>) returns (r: int)
      modifies this
      ensures log == old(log) + [Table(t, entries)]
      ensures r == TableStatus(oracle, |old(log)|, Table(t, entries))
    {
      r := TableStatus(oracle, |log|, Table(t, entries));
      log := log + [Table(t, entries)];
    }
  }
}
