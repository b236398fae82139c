/** Looking up rows: the row that covers an address, and the address of a line. */
module LineTable {
  import opened LineProgram
  import opened Wrappers

  const LONG_MAX: int := 0x7FFF_FFFF_FFFF_FFFF

  /** The distance from a row down to which it lies, or LONG_MAX if it lies above `addr`. */
  function AddrDist(rowAddr: int, addr: int): int {
    if rowAddr - addr <= 0 then addr - rowAddr else LONG_MAX
  }

  /** The row at or below `addr` with the greatest address, the last one of several; -1 if every
      row lies above. */
  method GetNearestState(rows: seq<Sm>, addr: int, base: int) returns (best: int)
    requires forall k :: 0 <= k < |rows| ==> addr - (base + rows[k].address) < LONG_MAX
    ensures -1 <= best < |rows|
    ensures best == -1 <==> forall k :: 0 <= k < |rows| ==> base + rows[k].address > addr
    ensures best != -1 ==> base + rows[best].address <= addr
    ensures best != -1 ==>
              forall k :: 0 <= k < |rows| && base + rows[k].address <= addr ==> rows[k].address <= rows[best].address
    ensures best != -1 ==>
              forall k :: best < k < |rows| && base + rows[k].address <= addr ==> rows[k].address < rows[best].address
  {
    var dist := LONG_MAX;
    best := -1;
    var i := 0;
    while i < |rows|
      invariant 0 <= i <= |rows| && -1 <= best < i
      invariant best == -1 ==> dist == LONG_MAX && forall k :: 0 <= k < i ==> base + rows[k].address > addr
      invariant best != -1 ==> base + rows[best].address <= addr && dist == addr - (base + rows[best].address)
      invariant best != -1 ==>
                  forall k :: 0 <= k < i && base + rows[k].address <= addr ==> rows[k].address <= rows[best].address
      invariant best != -1 ==>
                  forall k :: best < k < i && base + rows[k].address <= addr ==> rows[k].address < rows[best].address
    {
      var d := AddrDist(base + rows[i].address, addr);
      if d != LONG_MAX && d <= dist {
        dist := d;
        best := i;
      }
      i := i + 1;
    }
  }

  /** Where the first row of a line is in the process, or None, which throws DWARFException. */
  method GetLineAddress(rows: seq<Sm>, line: nat, base: int) returns (addr: Option<int>)
    ensures addr.None? <==> forall k :: 0 <= k < |rows| ==> rows[k].line != line
    ensures addr.Some? ==>
              exists k :: 0 <= k < |rows| && rows[k].line == line && addr.value == base + rows[k].address
                          && forall j :: 0 <= j < k ==> rows[j].line != line
  {
    for i := 0 to |rows|
      invariant forall k :: 0 <= k < i ==> rows[k].line != line
    {
      if rows[i].line == line { return Some(base + rows[i].address); }
    }
    return None;
  }
}
