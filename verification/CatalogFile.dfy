/** Catalog files as gencat writes them, and the proof that every host reads
    back what was written, whatever the byte order of writer and reader. */
module CatalogFile {
  import opened Basics
  import opened Bits
  import opened Words
  import opened CatalogTable
  import opened Catalog

  // ---- The file gencat writes ----------------------------------------------------

  function CellBytes(o: Order, c: Cell): (s: seq<byte>)
    ensures |s| == 12
  {
    Store(o, c.set_) + Store(o, c.message) + Store(o, c.offset)
  }

  function TableBytes(o: Order, cells: seq<Cell>): (s: seq<byte>)
    ensures |s| == 12 * |cells|
  {
    if cells == [] then [] else TableBytes(o, cells[..|cells| - 1]) + CellBytes(o, cells[|cells| - 1])
  }

  /** SWAPU32 on every word of a cell: how array2 is made from array1. */
  function SwapCell(c: Cell): Cell {
    Cell(Swap32(c.set_), Swap32(c.message), Swap32(c.offset))
  }

  function SwapCells(cells: seq<Cell>): (r: seq<Cell>)
    ensures |r| == |cells|
  {
    seq(|cells|, i requires 0 <= i < |cells| => SwapCell(cells[i]))
  }

  /** A writer stores both tables in its own byte order, the one that is little
      endian in effect first. */
  function BothTableBytes(writer: Order, cells: seq<Cell>): seq<byte> {
    if writer == Little then TableBytes(Little, cells) + TableBytes(Little, SwapCells(cells))
    else TableBytes(Big, SwapCells(cells)) + TableBytes(Big, cells)
  }

  function File(writer: Order, size: word, depth: word, cells: seq<Cell>, pool: seq<byte>): seq<byte> {
    Store(writer, MAGIC) + Store(writer, size) + Store(writer, depth) + BothTableBytes(writer, cells) + pool
  }

  /** A logical catalog with table dimensions that hold it. */
  ghost predicate WellFormed(ms: seq<Message>, size: nat, depth: nat) {
    && 0 < size <= 0xffff_ffff && 0 < depth <= 0xffff_ffff
    && Storable(ms) && DistinctKeys(ms) && Deep(ms, size, depth)
    && HEADER + 24 * Area(size, depth) + |Pool(ms)| < 0x4000_0000_0000_0000
  }

  /** The file gencat writes for the catalog. */
  ghost function Written(writer: Order, ms: seq<Message>, size: nat, depth: nat): seq<byte>
    requires WellFormed(ms, size, depth)
  {
    FillSucceeds(ms, size, depth);
    File(writer, size, depth, Fill(ms, size, depth).value, Pool(ms))
  }

  /** `mem` starts with the file of this catalog. */
  ghost predicate Contains(mem: Memory, writer: Order, ms: seq<Message>, size: nat, depth: nat)
    requires WellFormed(ms, size, depth)
  {
    var file := Written(writer, ms, size, depth);
    Bytes(mem, 0, |file|) == file
  }

  /** Memory that starts with `file` and is filled with `rest` behind it. */
  function Image(file: seq<byte>, rest: byte): Memory {
    a => if 0 <= a < |file| then file[a] else rest
  }

  /** Every well-formed catalog has a file, and some memory holds it. */
  lemma SomeMemory(writer: Order, ms: seq<Message>, size: nat, depth: nat, rest: byte) returns (mem: Memory)
    requires WellFormed(ms, size, depth)
    ensures Contains(mem, writer, ms, size, depth)
    ensures forall a: nat :: a >= |Written(writer, ms, size, depth)| ==> mem(a) == rest
  {
    var file := Written(writer, ms, size, depth);
    mem := Image(file, rest);
    assert Bytes(mem, 0, |file|) == file;
  }

  ghost function FileSize(ms: seq<Message>, size: nat, depth: nat): nat {
    HEADER + 24 * Area(size, depth) + |Pool(ms)|
  }

  // ---- Reading pieces of it --------------------------------------------------------

  lemma {:induction false} SwappedTable(o: Order, cells: seq<Cell>)
    ensures TableBytes(o, SwapCells(cells)) == TableBytes(Other(o), cells)
    decreases |cells|
  {
    hide Store;
    hide Swap32;
    if cells != [] {
      var n := |cells| - 1;
      var c := cells[n];
      SwappedTable(o, cells[..n]);
      assert SwapCells(cells)[..n] == SwapCells(cells[..n]);
      StoreSwapped(o, c.set_);
      StoreSwapped(o, c.message);
      StoreSwapped(o, c.offset);
    }
  }

  /** Whoever writes, the file holds a little-endian and a big-endian table. */
  lemma BothTables(writer: Order, cells: seq<Cell>)
    ensures BothTableBytes(writer, cells) == TableBytes(Little, cells) + TableBytes(Big, cells)
  {
    SwappedTable(writer, cells);
  }

  lemma {:induction false} TableSlice(o: Order, cells: seq<Cell>, i: nat)
    requires i < |cells|
    ensures TableBytes(o, cells)[12 * i..12 * i + 12] == CellBytes(o, cells[i])
    decreases |cells|
  {
    hide CellBytes;
    var n := |cells| - 1;
    if i < n {
      TableSlice(o, cells[..n], i);
      assert TableBytes(o, cells)[12 * i..12 * i + 12] == TableBytes(o, cells[..n])[12 * i..12 * i + 12];
    }
  }

  /** A piece of the file is found at its place in memory. */
  lemma PieceAt(mem: Memory, pre: seq<byte>, piece: seq<byte>, post: seq<byte>)
    requires Bytes(mem, 0, |pre + piece + post|) == pre + piece + post
    ensures Bytes(mem, |pre|, |piece|) == piece
  {
    var file := pre + piece + post;
    forall i | 0 <= i < |piece| ensures mem(|pre| + i) == piece[i] {
      assert Bytes(mem, 0, |file|)[|pre| + i] == file[|pre| + i];
    }
  }

  lemma SubPiece(mem: Memory, a: nat, piece: seq<byte>, i: nat, n: nat)
    requires Bytes(mem, a, |piece|) == piece && i + n <= |piece|
    ensures Bytes(mem, a + i, n) == piece[i..i + n]
  {
    var got, want := Bytes(mem, a + i, n), piece[i..i + n];
    forall k | 0 <= k < n ensures got[k] == want[k] {
      assert Bytes(mem, a, |piece|)[i + k] == piece[i + k];
    }
  }

  lemma StoredWord(host: Order, mem: Memory, a: nat, w: word)
    requires Bytes(mem, a, 4) == Store(host, w)
    ensures WordAt(host, mem, a) == w
  {
    LoadStore(host, w);
  }

  lemma CellParts(o: Order, c: Cell)
    ensures var s := CellBytes(o, c);
            s[0..4] == Store(o, c.set_) && s[4..8] == Store(o, c.message) && s[8..12] == Store(o, c.offset)
  {
    hide Store;
  }

  lemma CellBack(host: Order, mem: Memory, base: nat, cells: seq<Cell>, i: nat)
    requires Bytes(mem, base, 12 * |cells|) == TableBytes(host, cells) && i < |cells|
    ensures CellAt(host, mem, base, i) == cells[i]
  {
    hide Store;
    hide WordAt;
    hide Bytes;
    hide CellBytes;
    hide TableBytes;
    var c := cells[i];
    TableSlice(host, cells, i);
    SubPiece(mem, base, TableBytes(host, cells), 12 * i, 12);
    var s := CellBytes(host, c);
    CellParts(host, c);
    SubPiece(mem, base + 12 * i, s, 0, 4);
    SubPiece(mem, base + 12 * i, s, 4, 4);
    SubPiece(mem, base + 12 * i, s, 8, 4);
    StoredWord(host, mem, base + 12 * i, c.set_);
    StoredWord(host, mem, base + 12 * i + 4, c.message);
    StoredWord(host, mem, base + 12 * i + 8, c.offset);
  }

  /** Where the loader on `host` finds the table and the strings. */
  function Base(host: Order, n: nat): nat {
    if host == Little then HEADER else HEADER + 12 * n
  }

  /** Header, native table and pool as seen on any host. */
  lemma Located(mem: Memory, writer: Order, host: Order, size: word, depth: word, cells: seq<Cell>, pool: seq<byte>)
    requires var file := File(writer, size, depth, cells, pool); Bytes(mem, 0, |file|) == file
    ensures Bytes(mem, 0, 4) == Store(writer, MAGIC) && Bytes(mem, 4, 4) == Store(writer, size)
    ensures Bytes(mem, 8, 4) == Store(writer, depth)
    ensures Bytes(mem, Base(host, |cells|), 12 * |cells|) == TableBytes(host, cells)
    ensures Bytes(mem, HEADER + 24 * |cells|, |pool|) == pool
  {
    hide Store;
    hide TableBytes;
    hide BothTableBytes;
    hide Bytes;
    var m, s, d := Store(writer, MAGIC), Store(writer, size), Store(writer, depth);
    var little, big := TableBytes(Little, cells), TableBytes(Big, cells);
    BothTables(writer, cells);
    var file := File(writer, size, depth, cells, pool);
    assert file == [] + m + (s + d + little + big + pool);
    PieceAt(mem, [], m, s + d + little + big + pool);
    assert file == m + s + (d + little + big + pool);
    PieceAt(mem, m, s, d + little + big + pool);
    assert file == (m + s) + d + (little + big + pool);
    PieceAt(mem, m + s, d, little + big + pool);
    assert file == (m + s + d) + little + (big + pool);
    PieceAt(mem, m + s + d, little, big + pool);
    assert file == (m + s + d + little) + big + pool;
    PieceAt(mem, m + s + d + little, big, pool);
    assert file == (m + s + d + little + big) + pool + [];
    PieceAt(mem, m + s + d + little + big, pool, []);
  }

  /** The header tells every host whether to swap, and the dimensions come out
      right. */
  lemma HeaderBack(mem: Memory, writer: Order, host: Order, size: word, depth: word)
    requires Bytes(mem, 0, 4) == Store(writer, MAGIC) && Bytes(mem, 4, 4) == Store(writer, size)
    requires Bytes(mem, 8, 4) == Store(writer, depth)
    ensures Swapping(host, mem) == Some(host != writer)
    ensures var info := InfoOf(host, mem, host != writer); info.planeSize == size && info.planeDepth == depth
  {
    hide Store;
    hide Swap32;
    hide Load;
    if host == writer {
      StoredWord(host, mem, 0, MAGIC);
      StoredWord(host, mem, 4, size);
      StoredWord(host, mem, 8, depth);
    } else {
      assert host == Other(writer);
      SwapMeetsOrder(writer, MAGIC);
      SwapMeetsOrder(writer, size);
      SwapMeetsOrder(writer, depth);
      MagicIsOriented();
    }
  }

  lemma MagicIsOriented()
    ensures Swap32(MAGIC) != MAGIC
  {
    Swap32Reverses(0xde, 0x08, 0x04, 0x96);
  }

  // ---- Acceptance -------------------------------------------------------------------

  lemma {:induction false} MaxIsOne(host: Order, mem: Memory, base: nat, cells: seq<Cell>, n: nat)
    requires n <= |cells| && forall i :: 0 <= i < n ==> CellAt(host, mem, base, i) == cells[i]
    ensures var max := MaxOffset(host, mem, base, n);
            max == 0 || exists i :: 0 <= i < n && cells[i].offset == max
  {
    hide CellAt;
    if n > 0 {
      MaxIsOne(host, mem, base, cells, n - 1);
      assert CellAt(host, mem, base, n - 1) == cells[n - 1];
    }
  }

  lemma {:induction false} ZeroNear(mem: Memory, p: nat, left: nat, d: nat)
    requires mem(p + d) == 0 && d < left
    ensures ZeroFound(mem, p, left)
    decreases d
  {
    if d > 0 { ZeroNear(mem, p + 1, left - 1, d - 1); }
  }

  lemma {:induction false} NoZeroNear(mem: Memory, p: nat, left: nat)
    requires left > 0 && forall a :: p <= a < p + left ==> mem(a) != 0
    ensures !ZeroFound(mem, p, left)
    decreases left
  {
    assert mem(p) != 0;
    if left > 1 { NoZeroNear(mem, p + 1, left - 1); }
  }

  lemma Sizes(size: nat, depth: nat)
    requires HEADER + 24 * Area(size, depth) < 0x4000_0000_0000_0000
    ensures TableWords(size, depth) == 3 * Area(size, depth) && Catalog.BothTables(size, depth) == 6 * Area(size, depth)
  {
    hide Area;
  }

  /** Everything the loader reads out of a written catalog. */
  ghost predicate Loaded(host: Order, mem: Memory, ms: seq<Message>, size: nat, depth: nat, cells: seq<Cell>) {
    && |cells| == Area(size, depth) && Holds(cells, ms)
    && Swapping(host, mem).Some?
    && InfoOf(host, mem, Swapping(host, mem).value)
       == Info(size, depth, Base(host, Area(size, depth)), HEADER + 24 * Area(size, depth))
    && (forall i :: 0 <= i < |cells| ==> CellAt(host, mem, Base(host, Area(size, depth)), i) == cells[i])
    && Bytes(mem, HEADER + 24 * Area(size, depth), |Pool(ms)|) == Pool(ms)
  }

  lemma FileIsLoaded(mem: Memory, writer: Order, host: Order, ms: seq<Message>, size: nat, depth: nat)
    requires WellFormed(ms, size, depth) && Contains(mem, writer, ms, size, depth)
    ensures Fill(ms, size, depth).Some? && Loaded(host, mem, ms, size, depth, Fill(ms, size, depth).value)
  {
    hide Area;
    hide Holds;
    hide CellAt;
    hide Swapping;
    hide Fill;
    hide Pool;
    hide TableBytes;
    hide Store;
    hide File;
    hide Deep;
    hide TableWords;
    hide Catalog.BothTables;
    FillSucceeds(ms, size, depth);
    var cells := Fill(ms, size, depth).value;
    Located(mem, writer, host, size, depth, cells, Pool(ms));
    HeaderBack(mem, writer, host, size, depth);
    Sizes(size, depth);
    forall i | 0 <= i < |cells| ensures CellAt(host, mem, Base(host, Area(size, depth)), i) == cells[i] {
      CellBack(host, mem, Base(host, Area(size, depth)), cells, i);
    }
  }

  /** The largest offset is the start of some message's text. */
  lemma LargestIsMessage(host: Order, mem: Memory, ms: seq<Message>, size: nat, depth: nat, cells: seq<Cell>)
    returns (j: nat)
    requires WellFormed(ms, size, depth) && Loaded(host, mem, ms, size, depth, cells) && ms != []
    ensures j < |ms| && MaxOffset(host, mem, Base(host, Area(size, depth)), Area(size, depth)) == |Pool(ms[..j])|
  {
    hide Area;
    hide CellAt;
    hide Pool;
    hide Deep;
    hide Storable;
    hide MaxOffset;
    hide Base;
    hide Swapping;
    hide InfoOf;
    hide DistinctKeys;
    var n := Area(size, depth);
    MaxIsOne(host, mem, Base(host, n), cells, n);
    var max := MaxOffset(host, mem, Base(host, n), n);
    if max == 0 {
      j := 0;
      EmptyPool(ms);
    } else {
      var i :| 0 <= i < n && cells[i].offset == max;
      assert cells[i].set_ != 0;
      j :| 0 <= j < |ms| && cells[i] == CellOf(ms, j);
    }
  }

  lemma EmptyPool(ms: seq<Message>)
    ensures |Pool(ms[..0])| == 0
  {
  }

  /** The size checks, for a table of `n` cells and a pool of `pool` bytes. */
  lemma Checks(host: Order, mem: Memory, size: nat, depth: nat, n: nat, max: nat, pool: nat)
    requires n == Area(size, depth) && n > 0 && HEADER + 24 * n + pool < 0x4000_0000_0000_0000 && max <= pool
    requires Swapping(host, mem).Some?
    requires InfoOf(host, mem, Swapping(host, mem).value) == Info(size, depth, Base(host, n), HEADER + 24 * n)
    requires MaxOffset(host, mem, Base(host, n), n) == max
    ensures Accepts(host, mem, HEADER + 24 * n + pool) <==> ZeroFound(mem, HEADER + 24 * n + max, 30 * n + pool + max)
  {
    hide Area;
    hide Swapping;
    hide InfoOf;
    hide MaxOffset;
    hide ZeroFound;
    hide TableWords;
    hide Base;
    Sizes(size, depth);
    assert 3 * n / 3 == n;
    assert Sum(HEADER, 3 * n, max) == HEADER + 6 * n + max;
    assert Sum(24 * n + pool, 3 * n, max) == 30 * n + pool + max;
  }

  /** A file is taken for a catalog exactly if it starts with the magic number in
      one byte order or the other, and is swapped exactly if it is not the host's. */
  lemma MagicExactly(host: Order, mem: Memory)
    ensures Swapping(host, mem)
            == if Bytes(mem, 0, 4) == Store(host, MAGIC) then Some(false)
               else if Bytes(mem, 0, 4) == Store(Other(host), MAGIC) then Some(true)
               else None
  {
    hide Swap32;
    hide Store;
    hide Load;
    var s := Bytes(mem, 0, 4);
    StoreLoad(host, s);
    LoadStore(host, MAGIC);
    StoreSwapped(host, MAGIC);
    LoadStore(host, Swap32(MAGIC));
    MagicIsOriented();
  }

  /** `max` is the largest offset of the first `n` cells, or 0 if there are none. */
  ghost predicate IsLargest(host: Order, mem: Memory, base: nat, n: nat, max: nat) {
    && (forall i: nat :: i < n ==> CellAt(host, mem, base, i).offset <= max)
    && (max == 0 || exists i: nat :: i < n && CellAt(host, mem, base, i).offset == max)
  }

  lemma {:induction false} MaxOffsetIsLargest(host: Order, mem: Memory, base: nat, n: nat)
    ensures IsLargest(host, mem, base, n, MaxOffset(host, mem, base, n))
  {
    hide CellAt;
    if n > 0 { MaxOffsetIsLargest(host, mem, base, n - 1); }
  }

  lemma OneLargest(host: Order, mem: Memory, base: nat, n: nat, x: nat, y: nat)
    requires IsLargest(host, mem, base, n, x) && IsLargest(host, mem, base, n, y)
    ensures x == y
  {
    hide CellAt;
  }

  /** What the loader checks, for any file and any memory behind it: beyond the
      magic number, that the file is longer than its header, one byte for each word
      of the tables, and the largest offset; and that a zero byte follows the start
      of that string within a distance that counts the tables once more. */
  lemma AcceptsExactly(host: Order, mem: Memory, size: nat, n: nat, max: nat)
    requires Swapping(host, mem).Some?
    requires var info := InfoOf(host, mem, Swapping(host, mem).value);
             n == info.planeSize * info.planeDepth && HEADER + 24 * n < 0x4000_0000_0000_0000
    requires size < 0x4000_0000_0000_0000 && IsLargest(host, mem, Base(host, n), n, max) && max <= 0xffff_ffff
    ensures Accepts(host, mem, size)
            <==> && size > 12 + 6 * n + max
                 && exists a :: 12 + 24 * n + max <= a < 12 + 24 * n + max + (size - 12 + 6 * n + max) && mem(a) == 0
  {
    hide Swapping;
    hide MaxOffset;
    hide ZeroFound;
    hide TableWords;
    hide Catalog.BothTables;
    hide WordAt;
    hide Swapped;
    hide IsLargest;
    var info := InfoOf(host, mem, Swapping(host, mem).value);
    assert Area(info.planeSize, info.planeDepth) == n;
    hide Area;
    Sizes(info.planeSize, info.planeDepth);
    MaxOffsetIsLargest(host, mem, Base(host, n), n);
    OneLargest(host, mem, Base(host, n), n, max, MaxOffset(host, mem, Base(host, n), n));
    assert 3 * n / 3 == n;
    assert info.namePtr == Base(host, n) && info.strings == 12 + 24 * n;
    assert Sum(HEADER, 3 * n, max) == 12 + 6 * n + max;
    if size > 12 + 6 * n + max {
      var left := size - 12 + 6 * n + max;
      assert Sum(size - HEADER, 3 * n, max) == left;
      ZeroExactly(mem, 12 + 24 * n + max, left);
    }
  }

  lemma ZeroExactly(mem: Memory, p: nat, left: nat)
    requires left > 0
    ensures ZeroFound(mem, p, left) <==> exists a :: p <= a < p + left && mem(a) == 0
  {
    hide ZeroFound;
    if exists a :: p <= a < p + left && mem(a) == 0 {
      var a :| p <= a < p + left && mem(a) == 0;
      ZeroNear(mem, p, left, a - p);
    } else {
      NoZeroNear(mem, p, left);
    }
  }

  lemma SomeCells(ms: seq<Message>, size: nat, depth: nat)
    requires WellFormed(ms, size, depth)
    ensures Area(size, depth) > 0
  {
    MulMonotone(size, 1, depth);
  }

  /** A catalog with at least one message is accepted on every host, whatever
      the memory behind the file holds. */
  lemma Accepted(mem: Memory, writer: Order, host: Order, ms: seq<Message>, size: nat, depth: nat)
    requires WellFormed(ms, size, depth) && Contains(mem, writer, ms, size, depth) && ms != []
    ensures Accepts(host, mem, FileSize(ms, size, depth))
  {
    hide Area;
    hide Accepts;
    hide Holds;
    hide Fill;
    hide Pool;
    hide CellAt;
    hide Swapping;
    hide InfoOf;
    hide MaxOffset;
    hide ZeroFound;
    hide Contains;
    FileIsLoaded(mem, writer, host, ms, size, depth);
    SomeCells(ms, size, depth);
    var n := Area(size, depth);
    var j := LargestIsMessage(host, mem, ms, size, depth, Fill(ms, size, depth).value);
    var max, d := |Pool(ms[..j])|, |ms[j].text|;
    PoolGrows(ms, j);
    Checks(host, mem, size, depth, n, max, |Pool(ms)|);
    var p := HEADER + 24 * n + max;
    assert mem(p + d) == 0 by {
      assert Bytes(mem, HEADER + 24 * n, |Pool(ms)|)[max + d] == Pool(ms)[max + d];
    }
    ZeroNear(mem, p, 30 * n + |Pool(ms)| + max, d);
  }

  lemma NoOffsets(host: Order, mem: Memory, size: nat, depth: nat, cells: seq<Cell>)
    requires Loaded(host, mem, [], size, depth, cells)
    ensures MaxOffset(host, mem, Base(host, Area(size, depth)), Area(size, depth)) == 0
  {
    hide Area;
    hide CellAt;
    MaxIsOne(host, mem, Base(host, Area(size, depth)), cells, Area(size, depth));
  }

  /** An empty catalog has no string behind its tables, so the loader looks for
      the terminating zero in the memory after the file: it accepts exactly if
      one of the next 30 bytes per table cell is zero. */
  lemma EmptyCatalog(mem: Memory, writer: Order, host: Order, size: nat, depth: nat)
    requires WellFormed([], size, depth) && Contains(mem, writer, [], size, depth)
    ensures var total := FileSize([], size, depth);
            Accepts(host, mem, total) <==> exists a :: total <= a < total + 30 * Area(size, depth) && mem(a) == 0
  {
    hide Area;
    hide Accepts;
    hide Holds;
    hide Fill;
    hide CellAt;
    hide Swapping;
    hide InfoOf;
    hide MaxOffset;
    hide ZeroFound;
    hide Contains;
    FileIsLoaded(mem, writer, host, [], size, depth);
    SomeCells([], size, depth);
    var n, total := Area(size, depth), FileSize([], size, depth);
    NoOffsets(host, mem, size, depth, Fill([], size, depth).value);
    assert |Pool([])| == 0;
    Checks(host, mem, size, depth, n, 0, 0);
    if exists a :: total <= a < total + 30 * n && mem(a) == 0 {
      var a :| total <= a < total + 30 * n && mem(a) == 0;
      ZeroNear(mem, total, 30 * n, a - total);
    } else {
      NoZeroNear(mem, total, 30 * n);
    }
  }

  // ---- Lookup ------------------------------------------------------------------------

  /** A catalog that gencat writes and no host accepts: without messages, in
      memory that holds no zero byte behind the file. */
  lemma EmptyRefused(writer: Order) returns (mem: Memory)
    ensures WellFormed([], 1, 1) && Contains(mem, writer, [], 1, 1)
    ensures forall host :: !Accepts(host, mem, FileSize([], 1, 1))
  {
    assert Area(1, 1) == 1;
    mem := SomeMemory(writer, [], 1, 1, 1);
    WrittenSize(writer, [], 1, 1);
    forall host ensures !Accepts(host, mem, FileSize([], 1, 1)) {
      hide Accepts;
      EmptyCatalog(mem, writer, host, 1, 1);
    }
  }

  lemma WrittenSize(writer: Order, ms: seq<Message>, size: nat, depth: nat)
    requires WellFormed(ms, size, depth)
    ensures |Written(writer, ms, size, depth)| == FileSize(ms, size, depth)
  {
    hide Area;
    hide Fill;
    FillSucceeds(ms, size, depth);
  }

  /** Byte-order independence: on every host, catgets on a loaded catalog finds
      the text of the message with the given numbers, and nothing for numbers
      that no message has. */
  lemma MessageReadBack(mem: Memory, writer: Order, host: Order, ms: seq<Message>, size: nat, depth: nat,
                        set0: int, number: int)
    requires WellFormed(ms, size, depth) && Contains(mem, writer, ms, size, depth)
    ensures Swapping(host, mem).Some?
    ensures var info := InfoOf(host, mem, Swapping(host, mem).value);
            && info.planeSize > 0
            && match Lookup(host, mem, info, set0, number)
               case Some(a) =>
                 exists j :: 0 <= j < |ms| && ms[j].set_ == set0 + 1 && ms[j].number == number
                             && Bytes(mem, a, |ms[j].text| + 1) == ms[j].text + [0]
               case None => forall j :: 0 <= j < |ms| ==> ms[j].set_ != set0 + 1 || ms[j].number != number
  {
    hide Area;
    hide CellAt;
    hide Holds;
    hide Fill;
    hide Pool;
    hide Swapping;
    hide InfoOf;
    hide ColumnFind;
    hide Deep;
    hide Hash;
    hide Contains;
    hide DistinctKeys;
    hide Storable;
    FileIsLoaded(mem, writer, host, ms, size, depth);
    var cells := Fill(ms, size, depth).value;
    var n := Area(size, depth);
    if set0 + 1 <= 0 || number < 0 {
      NoSuchNumbers(ms, set0 + 1, number);
    } else {
      assert Cells(host, mem, Base(host, n), n) == cells;
      FilledTableAnswers(ms, size, depth, set0 + 1, number);
      match ColumnFind(cells, size, Hash(set0 + 1, number, size), set0 + 1, number)
      case None =>
      case Some(c) =>
        var j :| 0 <= j < |ms| && ms[j].set_ == set0 + 1 && ms[j].number == number && c == CellOf(ms, j);
        OffsetOf(ms, j);
        TextInPool(ms, j);
        SubPiece(mem, HEADER + 24 * n, Pool(ms), c.offset, |ms[j].text| + 1);
    }
  }

  lemma NoSuchNumbers(ms: seq<Message>, set_: int, number: int)
    requires Storable(ms) && (set_ <= 0 || number < 0)
    ensures forall j :: 0 <= j < |ms| ==> ms[j].set_ != set_ || ms[j].number != number
  {
    forall j | 0 <= j < |ms| ensures ms[j].set_ != set_ || ms[j].number != number { assert ms[j] in ms; }
  }

  lemma OffsetOf(ms: seq<Message>, j: nat)
    requires Storable(ms) && j < |ms|
    ensures CellOf(ms, j).offset == |Pool(ms[..j])|
  {
    hide Pool;
    assert ms[j] in ms;
    PoolGrows(ms, j);
  }

  lemma TextInPool(ms: seq<Message>, j: nat)
    requires j < |ms|
    ensures var w := |Pool(ms[..j])|;
            && w + |ms[j].text| + 1 <= |Pool(ms)|
            && Pool(ms)[w..w + |ms[j].text| + 1] == ms[j].text + [0]
  {
    hide Pool;
    PoolGrows(ms, j);
    var w, t := |Pool(ms[..j])|, ms[j].text;
    assert Pool(ms)[w..w + |t| + 1] == Pool(ms)[w..w + |t|] + [Pool(ms)[w + |t|]];
  }
}
