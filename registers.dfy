/** The register buffer `tab_reg`, what a read stores in it and what `fetchData` shows of it. */
module Registers {

  /** A holding register's value: C's `uint16_t`. */
  newtype uint16 = x: int | 0 <= x < 0x1_0000

  /** `tab_reg` is declared with 65535 slots (not 65536). */
  const REGISTER_SLOTS: nat := 65535

  /** One line of the receive view: a register address and the value held for it. */
  datatype Reading = Reading(address: int, value: uint16)

  /** What one `fetchData` call appends to the receive view: "no data", or one line per address. */
  datatype Display = NoData | Lines(lines: seq<Reading>)

  /** What `modbus_read_registers` hands back: an error, or the registers it read, in address order. */
  datatype ReadResult = ReadFailed | ReadOk(values: seq<uint16>)

  /** The count the read returns, `rdNum`: -1 on error, otherwise how many registers it read. */
  function ReadCount(r: ReadResult): (n: int)
    ensures n == -1 <==> r.ReadFailed?
    ensures r.ReadOk? ==> n == |r.values|
  {
    if r.ReadOk? then |r.values| else -1
  }

  /** The buffer after a read into `tab_reg`: the registers read are stored from slot 0 on,
      `tab_reg[0 .. count)`, whatever start address was asked for; every other slot keeps
      its value, and a failed read stores nothing. */
  function Stored(regs: seq<uint16>, r: ReadResult): (s: seq<uint16>)
    requires r.ReadOk? ==> |r.values| <= |regs|
    ensures |s| == |regs|
    ensures r.ReadOk? ==> forall k :: 0 <= k < |r.values| ==> s[k] == r.values[k]
    ensures forall k :: (if r.ReadOk? then |r.values| else 0) <= k < |regs| ==> s[k] == regs[k]
  {
    if r.ReadOk? then r.values + regs[|r.values|..] else regs
  }

  /** Every read in `rs` fits in a buffer of `size` slots. */
  predicate AllFit(size: nat, rs: seq<ReadResult>)
  {
    forall j :: 0 <= j < |rs| ==> (rs[j].ReadOk? ==> |rs[j].values| <= size)
  }

  /** The buffer after the reads `rs`, one after the other. */
  function StoredAll(regs: seq<uint16>, rs: seq<ReadResult>): (s: seq<uint16>)
    requires AllFit(|regs|, rs)
    ensures |s| == |regs|
    ensures rs == [] ==> s == regs
    decreases |rs|
  {
    if rs == [] then regs else Stored(StoredAll(regs, rs[..|rs| - 1]), rs[|rs| - 1])
  }

  /** The success test of `fetchData`: a positive count that is at least the start address.
      The count returned by the read is compared with the start ADDRESS, not the requested length. */
  predicate Succeeded(rdNum: int, start: int)
  {
    rdNum > 0 && rdNum >= start
  }

  /** The display loop indexes `tab_reg[start .. start + length)`; it stays inside the
      buffer when the range is empty or lies within the 65535 slots. */
  predicate InBuffer(start: int, length: int)
  {
    length <= 0 || (0 <= start && start + length <= REGISTER_SLOTS)
  }

  /** How many times the display loop runs: `start + length - start`, or none for a non-positive length. */
  function LineCount(length: int): nat
  {
    if length > 0 then length else 0
  }

  /** `out` is what `fetchData(start, length)` shows when the read returned `rdNum` and the
      buffer holds `regs`: no data unless the success test holds, and otherwise exactly the
      addresses `start, start + 1, ..., start + length - 1`, in order, each with its slot's value. */
  ghost predicate IsDisplayOf(regs: seq<uint16>, start: int, length: int, rdNum: int, out: Display)
  {
    (out.Lines? <==> Succeeded(rdNum, start)) &&
    (out.Lines? ==>
      |out.lines| == LineCount(length) &&
      forall j :: 0 <= j < |out.lines| ==>
        0 <= start + j < |regs| && out.lines[j] == Reading(start + j, regs[start + j]))
  }

  /** The display and the read disagree on where a register lives. The read stores the
      register of address `start + j` in slot `j`; the line for address `start + j` shows slot
      `start + j`, which holds the register the read returned at offset `start + j` (if it
      returned that many) or the slot's old value. Only for `start == 0` do the two agree. */
  lemma DisplayIsOffset(regs: seq<uint16>, start: int, length: int, r: ReadResult, out: Display, j: int)
    requires r.ReadOk? && |r.values| <= |regs|
    requires IsDisplayOf(Stored(regs, r), start, length, ReadCount(r), out)
    requires out.Lines? && 0 <= j < |out.lines|
    ensures out.lines[j].address == start + j
    ensures out.lines[j].value == if start + j < |r.values| then r.values[start + j] else regs[start + j]
  {
  }

  /** A concrete case: reading one register from address 1 returns 7, the read stores it in
      slot 0, and the display shows address 1 with slot 1's old value 0. */
  lemma ReadRegisterShownAtWrongAddress(regs: seq<uint16>, out: Display)
    requires |regs| == REGISTER_SLOTS && regs[1] == 0
    requires IsDisplayOf(Stored(regs, ReadOk([7])), 1, 1, ReadCount(ReadOk([7])), out)
    ensures out == Lines([Reading(1, 0)])
  {
  }

  /** The success test ignores how many registers were asked for. A read that returns every
      requested register is reported as "no data" when the start address exceeds the length;
      a short read whose count reaches the start address is shown as a full range of lines,
      including the addresses the read did not return. */
  lemma CountComparedWithAddress(regs: seq<uint16>, start: int, length: int, rdNum: int, out: Display)
    requires IsDisplayOf(regs, start, length, rdNum, out)
    ensures 0 < length < start && rdNum == length ==> out == NoData
    ensures 0 < rdNum < length && start <= rdNum ==> out.Lines? && |out.lines| == length
  {
  }
}
