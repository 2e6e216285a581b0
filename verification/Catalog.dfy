/** Loading a message catalog and looking messages up in it: the part of
    __open_catalog that works on the file in memory, and catgets.

    `mem` is the memory from the start of the mapped file on; what lies beyond
    the file is arbitrary.  size_t has 64 bits. */
module Catalog {
  import opened Basics
  import opened Bits
  import opened Words
  import opened CatalogTable

  type Memory = nat -> byte

  const SIZE_RANGE: nat := 0x1_0000_0000_0000_0000

  const MAGIC: word := 0x960408de

  /** sizeof (struct catalog_obj): three words before the tables. */
  const HEADER: nat := 12

  function Bytes(mem: Memory, a: nat, n: nat): (s: seq<byte>)
    ensures |s| == n
  {
    seq(n, i requires 0 <= i => mem(a + i))
  }

  function WordAt(host: Order, mem: Memory, a: nat): word {
    Load(host, Bytes(mem, a, 4))
  }

  function CellAt(host: Order, mem: Memory, base: nat, i: nat): Cell {
    Cell(WordAt(host, mem, base + 12 * i), WordAt(host, mem, base + 12 * i + 4), WordAt(host, mem, base + 12 * i + 8))
  }

  function Cells(host: Order, mem: Memory, base: nat, n: nat): (s: seq<Cell>)
    ensures |s| == n
  {
    seq(n, i requires 0 <= i => CellAt(host, mem, base, i))
  }

  // ---- The loader, as a function of memory ----------------------------------

  /** The SWAP macro. */
  function Swapped(swapping: bool, w: word): word {
    if swapping then Swap32(w) else w
  }

  /** Is the file a catalog, and does it need swapping? */
  function Swapping(host: Order, mem: Memory): Option<bool> {
    var magic := WordAt(host, mem, 0);
    if magic == MAGIC then Some(false)
    else if magic == Swap32(MAGIC) then Some(true)
    else None
  }

  /** What a successful load leaves in struct catalog_info; the pointers are
      offsets into memory. */
  datatype Info = Info(planeSize: nat, planeDepth: nat, namePtr: nat, strings: nat)

  function InfoOf(host: Order, mem: Memory, swapping: bool): Info {
    var size: nat := Swapped(swapping, WordAt(host, mem, 4));
    var depth: nat := Swapped(swapping, WordAt(host, mem, 8));
    Info(size, depth,
         if host == Little then HEADER else HEADER + 4 * TableWords(size, depth),
         HEADER + 4 * BothTables(size, depth))
  }

  /** `plane_size * plane_depth * 3` in size_t. */
  function TableWords(size: nat, depth: nat): nat {
    Area(size, depth) * 3 % SIZE_RANGE
  }

  /** `plane_size * plane_depth * 3 * 2` in size_t. */
  function BothTables(size: nat, depth: nat): nat {
    Area(size, depth) * 3 * 2 % SIZE_RANGE
  }

  /** The three-term sums of the size check, in size_t. */
  function Sum(a: nat, tab: nat, max: nat): nat {
    (a + 2 * tab + max) % SIZE_RANGE
  }

  function Max(x: nat, y: nat): nat {
    if x > y then x else y
  }

  /** The largest string offset among the first `n` cells. */
  function MaxOffset(host: Order, mem: Memory, base: nat, n: nat): nat {
    if n == 0 then 0
    else Max(MaxOffset(host, mem, base, n - 1), CellAt(host, mem, base, n - 1).offset)
  }

  /** Does the scan from `p` meet a zero byte before the count runs out? */
  predicate ZeroFound(mem: Memory, p: nat, left: nat)
    decreases if left == 0 then SIZE_RANGE else left
  {
    || mem(p) == 0
    || (var l := if left == 0 then SIZE_RANGE - 1 else left - 1;
        l != 0 && ZeroFound(mem, p + 1, l))
  }

  predicate Accepts(host: Order, mem: Memory, size: nat) {
    && HEADER <= size
    && Swapping(host, mem).Some?
    && var info := InfoOf(host, mem, Swapping(host, mem).value);
       var tab := TableWords(info.planeSize, info.planeDepth);
       var max := MaxOffset(host, mem, info.namePtr, tab / 3);
    && size > Sum(HEADER, tab, max)
    && ZeroFound(mem, info.strings + max, Sum(size - HEADER, tab, max))
  }

  // ---- The imperative code ------------------------------------------------------

  class CatalogInfo {
    var planeSize: nat
    var planeDepth: nat
    var namePtr: nat
    var strings: nat

    ghost function State(): Info
      reads this
    {
      Info(planeSize, planeDepth, namePtr, strings)
    }

    constructor ()
    {
      planeSize, planeDepth, namePtr, strings := 0, 0, 0, 0;
    }

    /** __open_catalog from the magic number on; -1 for an unusable file. */
    method Open(host: Order, mem: Memory, size: nat) returns (result: int)
      modifies this
      ensures result == if Accepts(host, mem, size) then 0 else -1
      ensures result == 0 ==> State() == InfoOf(host, mem, Swapping(host, mem).value)
    {
      hide Swap32;
      hide WordAt;
      hide TableWords;
      hide BothTables;
      hide Sum;
      hide ZeroFound;
      hide MaxOffset;
      if size < HEADER { return -1; }
      var swapping: bool;
      var magic := WordAt(host, mem, 0);
      if magic == MAGIC {
        swapping := false;
      } else if magic == Swap32(MAGIC) {
        swapping := true;
      } else {
        return -1;
      }
      planeSize := Swapped(swapping, WordAt(host, mem, 4));
      planeDepth := Swapped(swapping, WordAt(host, mem, 8));
      if host == Little {
        namePtr := HEADER;
      } else {
        namePtr := HEADER + 4 * TableWords(planeSize, planeDepth);
      }
      strings := HEADER + 4 * BothTables(planeSize, planeDepth);
      var tabSize := TableWords(planeSize, planeDepth);
      var maxOffset := LargestOffset(host, mem, namePtr, tabSize);
      if size <= Sum(HEADER, tabSize, maxOffset) { return -1; }
      var ok := FindZero(mem, strings + maxOffset, Sum(size - HEADER, tabSize, maxOffset));
      result := if ok then 0 else -1;
    }

    /** The loop over every third word of the table. */
    static method LargestOffset(host: Order, mem: Memory, base: nat, tabSize: nat) returns (maxOffset: nat)
      ensures maxOffset == MaxOffset(host, mem, base, tabSize / 3)
    {
      hide WordAt;
      maxOffset := 0;
      var cnt := 2;
      ghost var k := 0;
      while cnt < tabSize
        invariant cnt == 3 * k + 2 && k <= tabSize / 3
        invariant maxOffset == MaxOffset(host, mem, base, k)
      {
        var w := WordAt(host, mem, base + 4 * cnt);
        assert base + 4 * cnt == base + 12 * k + 8;
        if w > maxOffset { maxOffset := w; }
        cnt := cnt + 3;
        k := k + 1;
      }
    }

    /** The loop that looks for the end of the last string. */
    static method FindZero(mem: Memory, start: nat, count: nat) returns (ok: bool)
      ensures ok == ZeroFound(mem, start, count)
    {
      var lastp: nat, left: nat := start, count;
      while mem(lastp) != 0
        invariant ZeroFound(mem, lastp, left) == ZeroFound(mem, start, count)
        decreases if left == 0 then SIZE_RANGE else left
      {
        left := if left == 0 then SIZE_RANGE - 1 else left - 1;
        if left == 0 { return false; }
        lastp := lastp + 1;
      }
      return true;
    }

    /** catgets: the address of the message, or None for the default string.
        The do loop looks at one plane even if the catalog claims none. */
    method Catgets(host: Order, mem: Memory, set0: int, message: int) returns (r: Option<nat>)
      requires planeSize > 0 && set0 < INT_MAX
      requires 0 < set0 + 1 && 0 <= message ==> (set0 + 1) * message <= INT_MAX
      ensures r == Lookup(host, mem, State(), set0, message)
    {
      hide WordAt;
      hide ColumnFind;
      hide Hash;
      var set_ := set0 + 1;
      if set_ <= 0 || message < 0 { return None; }
      ghost var depth := Max(planeDepth, 1);
      ghost var cells := Cells(host, mem, namePtr, Area(planeSize, depth));
      var h := set_ * message % planeSize;
      HashExactly(set_, message, planeSize);
      HashInRange(set_, message, planeSize, depth);
      var idx := h * 3;
      var cnt := 0;
      ghost var i := h;
      while true
        invariant idx == 3 * i && i % planeSize == h && i / planeSize == cnt < depth && i < |cells|
        invariant ColumnFind(cells, planeSize, i, set_, message) == ColumnFind(cells, planeSize, h, set_, message)
        decreases depth - cnt
      {
        ColumnStep(cells, planeSize, depth, i, set_, message);
        assert namePtr + 4 * idx == namePtr + 12 * i;
        if WordAt(host, mem, namePtr + 4 * (idx + 0)) == set_ && WordAt(host, mem, namePtr + 4 * (idx + 1)) == message {
          return Some(strings + WordAt(host, mem, namePtr + 4 * (idx + 2)));
        }
        idx := idx + planeSize * 3;
        i := i + planeSize;
        cnt := cnt + 1;
        if cnt >= planeDepth { break; }
      }
      return None;
    }
  }

  lemma HashInRange(set_: nat, message: nat, size: nat, depth: nat)
    requires size > 0 && depth > 0
    ensures var h := Hash(set_, message, size); h % size == h && h / size == 0 && h < Area(size, depth)
  {
    var h := Hash(set_, message, size);
    DivModUnique(h, size, 0, h);
    PlaneBound(h, size, depth);
  }

  /** One step down a column. */
  lemma ColumnStep(cells: seq<Cell>, size: nat, depth: nat, i: nat, set_: nat, message: nat)
    requires size > 0 && |cells| == Area(size, depth) && i < |cells|
    ensures var r := ColumnFind(cells, size, i, set_, message);
            if Matches(cells[i], set_, message) then r == Some(cells[i])
            else r == if i / size + 1 < depth then ColumnFind(cells, size, i + size, set_, message) else None
    ensures (i + size) / size == i / size + 1 && (i + size) % size == i % size
    ensures i / size + 1 < depth ==> i + size < |cells|
  {
    NextPlane(i, size);
    PlaneBound(i + size, size, depth);
  }

  /** The meaning of a catgets call: the first match in the column of the key. */
  function Lookup(host: Order, mem: Memory, info: Info, set0: int, message: int): Option<nat>
    requires info.planeSize > 0
  {
    if set0 + 1 <= 0 || message < 0 then None
    else
      var cells := Cells(host, mem, info.namePtr, Area(info.planeSize, Max(info.planeDepth, 1)));
      match ColumnFind(cells, info.planeSize, Hash(set0 + 1, message, info.planeSize), set0 + 1, message)
      case Some(c) => Some(info.strings + c.offset)
      case None => None
  }
}
