/** The hashed message table: how gencat fills it and how catgets searches it.
    Cell `i` lies in column `i % size` and plane `i / size`; a set number of 0
    marks an empty cell. */
module CatalogTable {
  import opened Basics
  import opened Bits
  import opened Words

  datatype Cell = Cell(set_: word, message: word, offset: word)

  const EMPTY := Cell(0, 0, 0)

  /** `set * message % plane_size`; C demands that the product fits in int. */
  function Hash(set_: nat, message: nat, size: nat): nat
    requires size > 0
  {
    set_ * message % size
  }

  /** The column that gencat and catgets both compute. */
  lemma HashExactly(set_: nat, message: nat, size: nat)
    requires size > 0
    ensures Hash(set_, message, size) == set_ * message % size
  {
  }

  predicate Matches(c: Cell, set_: nat, message: nat) {
    c.set_ == set_ && c.message == message
  }

  /** The first match on the way down one column: the loop of catgets. */
  function ColumnFind(cells: seq<Cell>, size: nat, i: nat, set_: nat, message: nat): Option<Cell>
    requires size > 0
    decreases |cells| - i
  {
    if i >= |cells| then None
    else if Matches(cells[i], set_, message) then Some(cells[i])
    else ColumnFind(cells, size, i + size, set_, message)
  }

  /** The first match in the whole table. */
  function ScanFrom(cells: seq<Cell>, i: nat, set_: nat, message: nat): Option<Cell>
    requires i <= |cells|
    decreases |cells| - i
  {
    if i == |cells| then None
    else if Matches(cells[i], set_, message) then Some(cells[i])
    else ScanFrom(cells, i + 1, set_, message)
  }

  predicate WellHashed(cells: seq<Cell>, size: nat)
    requires size > 0
  {
    forall i :: 0 <= i < |cells| && cells[i].set_ != 0 ==> i % size == Hash(cells[i].set_, cells[i].message, size)
  }

  /** The number of cells. */
  function Area(size: nat, depth: nat): nat {
    size * depth
  }

  // ---- Column arithmetic -----------------------------------------------------

  lemma NextPlane(i: nat, size: nat)
    requires size > 0
    ensures (i + size) / size == i / size + 1 && (i + size) % size == i % size
  {
    assert i + size == size * (i / size + 1) + i % size;
    DivModUnique(i + size, size, i / size + 1, i % size);
  }

  lemma PlaneBound(i: nat, size: nat, depth: nat)
    requires size > 0
    ensures i < size * depth <==> i / size < depth
  {
    var q, r := i / size, i % size;
    assert i == size * q + r;
    if q < depth {
      MulMonotone(size, q + 1, depth);
      assert size * (q + 1) == size * q + size;
    } else {
      MulMonotone(size, depth, q);
    }
  }

  /** Indices between two in the same column belong to other columns. */
  lemma BetweenPlanes(i: nat, j: nat, size: nat)
    requires size > 0 && i < j < i + size
    ensures j % size != i % size
  {
    var q, q' := i / size, j / size;
    assert i == size * q + i % size && j == size * q' + j % size;
    if j % size == i % size {
      var d := q' - q;
      assert size * d == j - i by { assert size * d == size * q' - size * q; }
      if d >= 1 { MulMonotone(size, 1, d); } else { MulMonotone(size, 0, -d); }
      assert false;
    }
  }

  // ---- Hashing agrees with scanning --------------------------------------------

  lemma {:induction false} SkipOtherColumns(cells: seq<Cell>, size: nat, i: nat, j: nat, set_: nat, message: nat)
    requires size > 0 && WellHashed(cells, size) && set_ != 0
    requires i < |cells| && i % size == Hash(set_, message, size) && i < j <= i + size
    ensures ScanFrom(cells, if j <= |cells| then j else |cells|, set_, message)
            == ScanFrom(cells, if i + size <= |cells| then i + size else |cells|, set_, message)
    decreases i + size - j
  {
    if j < i + size && j < |cells| {
      BetweenPlanes(i, j, size);
      SkipOtherColumns(cells, size, i, j + 1, set_, message);
    }
  }

  lemma {:induction false} ColumnIsScan(cells: seq<Cell>, size: nat, i: nat, set_: nat, message: nat)
    requires size > 0 && WellHashed(cells, size) && set_ != 0
    requires i <= |cells| && i % size == Hash(set_, message, size)
    ensures ColumnFind(cells, size, i, set_, message) == ScanFrom(cells, i, set_, message)
    decreases |cells| - i
  {
    if i < |cells| && !Matches(cells[i], set_, message) {
      SkipOtherColumns(cells, size, i, i + 1, set_, message);
      NextPlane(i, size);
      if i + size <= |cells| {
        ColumnIsScan(cells, size, i + size, set_, message);
      }
    }
  }

  lemma {:induction false} BeforeColumn(cells: seq<Cell>, size: nat, i: nat, set_: nat, message: nat)
    requires size > 0 && WellHashed(cells, size) && set_ != 0
    requires i <= Hash(set_, message, size) < |cells|
    ensures ScanFrom(cells, i, set_, message) == ScanFrom(cells, Hash(set_, message, size), set_, message)
    decreases Hash(set_, message, size) - i
  {
    var h := Hash(set_, message, size);
    if i < h {
      assert i % size == i by { DivModUnique(i, size, 0, i); }
      BeforeColumn(cells, size, i + 1, set_, message);
    }
  }

  /** Following one column gives the answer of a scan of the whole table, for
      every key with a set number other than 0; an empty cell never matches. */
  lemma HashAgreesWithScan(cells: seq<Cell>, size: nat, set_: nat, message: nat)
    requires size > 0 && size <= |cells| && WellHashed(cells, size) && set_ != 0
    ensures var r := ColumnFind(cells, size, Hash(set_, message, size), set_, message);
            && r == ScanFrom(cells, 0, set_, message)
            && (r.Some? ==> r.value.set_ != 0)
  {
    var h := Hash(set_, message, size);
    assert h % size == h by { DivModUnique(h, size, 0, h); }
    ColumnIsScan(cells, size, h, set_, message);
    BeforeColumn(cells, size, 0, set_, message);
    ScanMeaning(cells, 0, set_, message);
  }

  lemma {:induction false} ScanMeaning(cells: seq<Cell>, i: nat, set_: nat, message: nat)
    requires i <= |cells|
    ensures match ScanFrom(cells, i, set_, message)
            case Some(c) => c in cells[i..] && Matches(c, set_, message)
            case None => forall k :: i <= k < |cells| ==> !Matches(cells[k], set_, message)
    decreases |cells| - i
  {
    if i < |cells| && !Matches(cells[i], set_, message) {
      ScanMeaning(cells, i + 1, set_, message);
      assert cells[i + 1..] == cells[i..][1..];
    }
  }

  // ---- Filling the table --------------------------------------------------------

  /** A message under the numbers stored in the table (set numbers are one more
      than the caller's). */
  datatype Message = Message(set_: nat, number: nat, text: seq<byte>)

  const INT_MAX: nat := 0x7fff_ffff

  predicate GoodMessage(m: Message) {
    && 1 <= m.set_ <= INT_MAX && m.number <= INT_MAX && m.set_ * m.number <= INT_MAX
    && 0 !in m.text
  }

  predicate DistinctKeys(ms: seq<Message>) {
    forall i, j :: 0 <= i < j < |ms| ==> ms[i].set_ != ms[j].set_ || ms[i].number != ms[j].number
  }

  /** The string pool: every text with its terminating zero. */
  function Pool(ms: seq<Message>): seq<byte> {
    if ms == [] then [] else Pool(ms[..|ms| - 1]) + ms[|ms| - 1].text + [0]
  }

  /** How many messages hash to column `c`. */
  function Used(ms: seq<Message>, size: nat, c: nat): nat
    requires size > 0
  {
    if ms == [] then 0
    else
      var m := ms[|ms| - 1];
      Used(ms[..|ms| - 1], size, c) + if Hash(m.set_, m.number, size) == c then 1 else 0
  }

  /** The first free cell from `i` down its column. */
  function FreeCell(cells: seq<Cell>, size: nat, i: nat): (k: nat)
    requires size > 0
    ensures k >= i
    decreases |cells| - i
  {
    if i < |cells| && cells[i].set_ != 0 then FreeCell(cells, size, i + size) else i
  }

  predicate Storable(ms: seq<Message>) {
    && (forall m :: m in ms ==> GoodMessage(m))
    && |Pool(ms)| <= 0xffff_ffff
  }

  lemma StorablePrefix(ms: seq<Message>)
    requires Storable(ms) && ms != []
    ensures Storable(ms[..|ms| - 1])
  {
    forall m | m in ms[..|ms| - 1] ensures GoodMessage(m) { assert m in ms; }
  }

  /** The table after all messages are entered, or None if a column overflows. */
  function Fill(ms: seq<Message>, size: nat, depth: nat): (r: Option<seq<Cell>>)
    requires size > 0 && Storable(ms)
    decreases |ms|
  {
    if ms == [] then Some(seq(Area(size, depth), i => EMPTY))
    else
      StorablePrefix(ms);
      var m := ms[|ms| - 1];
      match Fill(ms[..|ms| - 1], size, depth)
      case None => None
      case Some(cells) =>
        var k := FreeCell(cells, size, Hash(m.set_, m.number, size));
        if k >= |cells| then None
        else
          assert m in ms;
          Some(cells[k := Cell(m.set_, m.number, |Pool(ms[..|ms| - 1])|)])
  }

  /** Columns are filled from the top without gaps. */
  predicate Packed(cells: seq<Cell>, ms: seq<Message>, size: nat)
    requires size > 0
  {
    forall i :: 0 <= i < |cells| ==> (cells[i].set_ != 0 <==> i / size < Used(ms, size, i % size))
  }

  /** The occupied cells are exactly the messages, each pointing to its text;
      the rest is zero. */
  ghost predicate Holds(cells: seq<Cell>, ms: seq<Message>) {
    && (forall i :: 0 <= i < |cells| && cells[i].set_ == 0 ==> cells[i] == EMPTY)
    && (forall i :: 0 <= i < |cells| && cells[i].set_ != 0 ==>
          exists j :: 0 <= j < |ms| && cells[i] == CellOf(ms, j))
    && (forall j :: 0 <= j < |ms| ==> CellOf(ms, j) in cells)
  }

  ghost function CellOf(ms: seq<Message>, j: nat): Cell
    requires j < |ms|
  {
    var w := |Pool(ms[..j])|;
    if GoodMessage(ms[j]) && w < 0x1_0000_0000 then Cell(ms[j].set_, ms[j].number, w) else EMPTY
  }

  lemma {:induction false} FreeCellIsNext(cells: seq<Cell>, ms: seq<Message>, size: nat, i: nat)
    requires size > 0 && Packed(cells, ms, size) && i / size <= Used(ms, size, i % size)
    ensures var k := FreeCell(cells, size, i);
            && k % size == i % size
            && (k < |cells| ==> cells[k].set_ == 0 && k / size == Used(ms, size, i % size))
            && (k >= |cells| ==> k / size <= Used(ms, size, i % size))
    decreases |cells| - i
  {
    if i < |cells| && cells[i].set_ != 0 {
      NextPlane(i, size);
      FreeCellIsNext(cells, ms, size, i + size);
    }
  }

  /** No column holds more messages than there are planes. */
  ghost predicate Deep(ms: seq<Message>, size: nat, depth: nat)
    requires size > 0
  {
    forall c :: 0 <= c < size ==> Used(ms, size, c) <= depth
  }

  lemma DeepPrefix(ms: seq<Message>, size: nat, depth: nat)
    requires size > 0 && Deep(ms, size, depth) && ms != []
    ensures Deep(ms[..|ms| - 1], size, depth)
  {
    var pre := ms[..|ms| - 1];
    forall c | 0 <= c < size ensures Used(pre, size, c) <= depth {
      assert Used(ms, size, c) <= depth;
    }
  }

  /** If every column is deep enough, the table is filled, hashed, packed and
      holds every message. */
  lemma {:induction false} FillSucceeds(ms: seq<Message>, size: nat, depth: nat)
    requires size > 0 && Storable(ms) && Deep(ms, size, depth)
    ensures match Fill(ms, size, depth)
            case None => false
            case Some(cells) =>
              |cells| == Area(size, depth) && WellHashed(cells, size) && Packed(cells, ms, size) && Holds(cells, ms)
    decreases |ms|
  {
    if ms == [] {
      EmptyTable(size, depth);
    } else {
      hide Hash;
      hide Pool;
      hide Deep;
      hide Used;
      hide Packed;
      hide Holds;
      hide WellHashed;
      hide FreeCell;
      var n := |ms| - 1;
      var pre, m := ms[..n], ms[n];
      assert m in ms;
      StorablePrefix(ms);
      DeepPrefix(ms, size, depth);
      FillSucceeds(pre, size, depth);
      var cells := Fill(pre, size, depth).value;
      var k := PlaceFor(cells, ms, size, depth);
      var cells' := cells[k := Cell(m.set_, m.number, |Pool(pre)|)];
      EnterPacked(cells, cells', k, ms, size);
      EnterHashed(cells, cells', k, m, size);
      EnterHolds(cells, cells', k, ms);
    }
  }

  lemma EmptyTable(size: nat, depth: nat)
    requires size > 0
    ensures var cells := seq(Area(size, depth), i => EMPTY);
            WellHashed(cells, size) && Packed(cells, [], size) && Holds(cells, [])
  {
    hide Area;
    hide Hash;
    var cells := seq(Area(size, depth), i => EMPTY);
    forall i | 0 <= i < |cells| ensures cells[i].set_ != 0 <==> i / size < Used([], size, i % size) {
      NoneUsed(i, size);
    }
  }

  lemma NoneUsed(i: nat, size: nat)
    requires size > 0
    ensures Used([], size, i % size) == 0 <= i / size
  {
  }

  /** The cell the next message goes to. */
  lemma PlaceFor(cells: seq<Cell>, ms: seq<Message>, size: nat, depth: nat) returns (k: nat)
    requires size > 0 && ms != [] && Deep(ms, size, depth)
    requires |cells| == Area(size, depth) && Packed(cells, ms[..|ms| - 1], size)
    ensures var m := ms[|ms| - 1];
            var h := Hash(m.set_, m.number, size);
            && k == FreeCell(cells, size, h) && k < |cells| && cells[k].set_ == 0
            && k % size == h && k / size == Used(ms[..|ms| - 1], size, h)
  {
    var pre, m := ms[..|ms| - 1], ms[|ms| - 1];
    var h := Hash(m.set_, m.number, size);
    DivModUnique(h, size, 0, h);
    FreeCellIsNext(cells, pre, size, h);
    k := FreeCell(cells, size, h);
    assert Used(ms, size, h) == Used(pre, size, h) + 1 <= depth;
    PlaneBound(k, size, depth);
  }

  lemma EnterHashed(cells: seq<Cell>, cells': seq<Cell>, k: nat, m: Message, size: nat)
    requires size > 0 && k < |cells| && |cells'| == |cells| && WellHashed(cells, size)
    requires cells'[k].set_ == m.set_ && cells'[k].message == m.number && k % size == Hash(m.set_, m.number, size)
    requires forall i :: 0 <= i < |cells| && i != k ==> cells'[i] == cells[i]
    ensures WellHashed(cells', size)
  {
    hide Hash;
  }

  lemma EnterPacked(cells: seq<Cell>, cells': seq<Cell>, k: nat, ms: seq<Message>, size: nat)
    requires size > 0 && ms != [] && k < |cells| && |cells'| == |cells|
    requires var m := ms[|ms| - 1];
             && cells'[k].set_ != 0 && k % size == Hash(m.set_, m.number, size)
             && k / size == Used(ms[..|ms| - 1], size, k % size)
    requires forall i :: 0 <= i < |cells| && i != k ==> cells'[i] == cells[i]
    requires Packed(cells, ms[..|ms| - 1], size)
    ensures Packed(cells', ms, size)
  {
    hide Hash;
    forall i | 0 <= i < |cells'|
      ensures cells'[i].set_ != 0 <==> i / size < Used(ms, size, i % size)
    {
      SameCell(i, k, size);
    }
  }

  lemma SameCell(i: nat, k: nat, size: nat)
    requires size > 0
    ensures i / size == k / size && i % size == k % size ==> i == k
  {
    assert i == size * (i / size) + i % size && k == size * (k / size) + k % size;
  }

  lemma EnterHolds(cells: seq<Cell>, cells': seq<Cell>, k: nat, ms: seq<Message>)
    requires ms != [] && k < |cells| && |cells'| == |cells| && cells[k].set_ == 0
    requires GoodMessage(ms[|ms| - 1]) && |Pool(ms[..|ms| - 1])| < 0x1_0000_0000
    requires cells'[k] == Cell(ms[|ms| - 1].set_, ms[|ms| - 1].number, |Pool(ms[..|ms| - 1])|)
    requires forall i :: 0 <= i < |cells| && i != k ==> cells'[i] == cells[i]
    requires Holds(cells, ms[..|ms| - 1]) && (forall m :: m in ms ==> GoodMessage(m)) && |Pool(ms)| <= 0xffff_ffff
    ensures Holds(cells', ms)
  {
    var n := |ms| - 1;
    var pre := ms[..n];
    forall j | 0 <= j < n ensures CellOf(ms, j) == CellOf(pre, j) {
      assert pre[..j] == ms[..j];
    }
    forall i | 0 <= i < |cells'| && cells'[i].set_ != 0
      ensures exists j :: 0 <= j < |ms| && cells'[i] == CellOf(ms, j)
    {
      if i == k {
        assert cells'[i] == CellOf(ms, n);
      } else {
        var j :| 0 <= j < n && cells[i] == CellOf(pre, j);
        assert cells'[i] == CellOf(ms, j);
      }
    }
    forall j | 0 <= j < |ms| ensures CellOf(ms, j) in cells' {
      if j == n {
        assert cells'[k] == CellOf(ms, n);
      } else {
        assert CellOf(pre, j) in cells;
        var i :| 0 <= i < |cells| && cells[i] == CellOf(pre, j);
        PoolGrows(ms, j);
        assert ms[j] in ms;
        assert CellOf(pre, j).set_ != 0;
        assert i != k && cells'[i] == CellOf(ms, j);
      }
    }
  }

  lemma {:induction false} PoolGrows(ms: seq<Message>, j: nat)
    requires j < |ms|
    ensures |Pool(ms[..j])| + |ms[j].text| + 1 <= |Pool(ms)|
    ensures var w := |Pool(ms[..j])|;
            Pool(ms)[w..w + |ms[j].text|] == ms[j].text && Pool(ms)[w + |ms[j].text|] == 0
    decreases |ms|
  {
    var n := |ms| - 1;
    if j < n {
      assert ms[..n][..j] == ms[..j];
      PoolGrows(ms[..n], j);
      var w, t := |Pool(ms[..j])|, ms[j].text;
      assert Pool(ms)[w..w + |t|] == Pool(ms[..n])[w..w + |t|];
    }
  }

  /** A filled table answers every key with the message that has it. */
  lemma FilledTableAnswers(ms: seq<Message>, size: nat, depth: nat, set_: nat, number: nat)
    requires size > 0 && depth > 0 && Storable(ms) && DistinctKeys(ms) && Deep(ms, size, depth) && set_ > 0
    ensures Fill(ms, size, depth).Some?
    ensures var cells := Fill(ms, size, depth).value;
            match ColumnFind(cells, size, Hash(set_, number, size), set_, number)
            case Some(c) =>
              exists j :: 0 <= j < |ms| && ms[j].set_ == set_ && ms[j].number == number && c == CellOf(ms, j)
            case None => forall j :: 0 <= j < |ms| ==> ms[j].set_ != set_ || ms[j].number != number
  {
    hide Fill;
    hide ScanFrom;
    hide ColumnFind;
    hide Hash;
    hide Deep;
    hide Packed;
    hide Pool;
    FillSucceeds(ms, size, depth);
    var cells := Fill(ms, size, depth).value;
    MulMonotone(size, 1, depth);
    HashAgreesWithScan(cells, size, set_, number);
    ScanMeaning(cells, 0, set_, number);
    assert cells[0..] == cells;
    hide WellHashed;
    match ScanFrom(cells, 0, set_, number)
    case Some(c) =>
      var i :| 0 <= i < |cells| && cells[i] == c;
      var j :| 0 <= j < |ms| && cells[i] == CellOf(ms, j);
    case None =>
      forall j | 0 <= j < |ms| ensures ms[j].set_ != set_ || ms[j].number != number {
        assert ms[j] in ms;
        PoolGrows(ms, j);
        assert CellOf(ms, j) in cells;
        var i :| 0 <= i < |cells| && cells[i] == CellOf(ms, j);
        assert !Matches(cells[i], set_, number);
      }
  }
}
