/** Bytes, 32-bit words in either byte order, and the byte-swapping macro. */
module Words {
  import opened Bits

  type byte = b: int | 0 <= b < 0x100

  type word = w: int | 0 <= w < 0x1_0000_0000

  datatype Order = Little | Big

  function Other(o: Order): Order {
    if o == Little then Big else Little
  }

  /** The word with the given bytes, least significant first. */
  function FromBytes(b0: byte, b1: byte, b2: byte, b3: byte): (w: word) {
    var x0: int, x1: int, x2: int, x3: int := b0, b1, b2, b3;
    x0 + 0x100 * x1 + 0x1_0000 * x2 + 0x100_0000 * x3
  }

  /** The value a host with byte order `o` sees in four bytes of memory. */
  function Load(o: Order, s: seq<byte>): (w: word)
    requires |s| == 4
  {
    if o == Little then FromBytes(s[0], s[1], s[2], s[3]) else FromBytes(s[3], s[2], s[1], s[0])
  }

  /** The four bytes a host with byte order `o` writes for `w`. */
  function Store(o: Order, w: word): (s: seq<byte>)
    ensures |s| == 4
  {
    var w1 := w / 0x100;
    var w2 := w1 / 0x100;
    var w3 := w2 / 0x100;
    if o == Little then [w % 0x100, w1 % 0x100, w2 % 0x100, w3] else [w3, w2 % 0x100, w1 % 0x100, w % 0x100]
  }

  lemma LoadStore(o: Order, w: word)
    ensures Load(o, Store(o, w)) == w
  {
  }

  /** The mask-and-shift expression of `__bswap_constant_32`; left shifts are
      truncated to 32 bits. */
  function SwapExpression(x: word): nat {
    Merge(And(x, 0xff00_0000), And(x, 0x00ff_0000), And(x, 0x0000_ff00), And(x, 0x0000_00ff))
  }

  function Merge(m3: nat, m2: nat, m1: nat, m0: nat): nat {
    Or(Or(Or(m3 / 0x100_0000, m2 / 0x100), m1 * 0x100 % 0x1_0000_0000), m0 * 0x100_0000 % 0x1_0000_0000)
  }

  lemma MaskAt(x: word, b: nat, p: nat, mask: nat)
    requires Pow2(8) == 0x100 && Pow2(b) == p && mask == 0xff * p
    ensures And(x, mask) == x / p % 0x100 * p
  {
    AndMask(x, 8, b);
  }

  lemma {:induction false} OrCommutes(x: nat, y: nat)
    ensures Or(x, y) == Or(y, x)
  {
    if x != 0 && y != 0 { OrCommutes(x / 2, y / 2); }
  }

  lemma OrSwapped(low: nat, q: nat, k: nat, p: nat)
    requires Pow2(k) == p && low < p
    ensures Or(low, q * p) == q * p + low
  {
    OrCommutes(low, q * p);
    OrDisjoint(q, low, k);
  }

  lemma ByteFields(b0: byte, b1: byte, b2: byte, b3: byte)
    ensures var x := FromBytes(b0, b1, b2, b3);
            x / 0x100_0000 % 0x100 == b3 && x / 0x1_0000 % 0x100 == b2 && x / 0x100 % 0x100 == b1 && x % 0x100 == b0
  {
    var x0: int, x1: int, x2: int, x3: int := b0, b1, b2, b3;
    var x: int := FromBytes(b0, b1, b2, b3);
    DivModUnique(x, 0x100, x1 + 0x100 * x2 + 0x1_0000 * x3, x0);
    DivModUnique(x, 0x1_0000, x2 + 0x100 * x3, x0 + 0x100 * x1);
    DivModUnique(x, 0x100_0000, x3, x0 + 0x100 * x1 + 0x1_0000 * x2);
  }

  /** The macro reverses the bytes of its argument. */
  lemma ExpressionReverses(b0: byte, b1: byte, b2: byte, b3: byte)
    ensures SwapExpression(FromBytes(b0, b1, b2, b3)) == FromBytes(b3, b2, b1, b0)
  {
    hide And;
    hide Or;
    hide Pow2;
    var x := FromBytes(b0, b1, b2, b3);
    ByteFields(b0, b1, b2, b3);
    BytePowers();
    MaskAt(x, 24, 0x100_0000, 0xff00_0000);
    MaskAt(x, 16, 0x1_0000, 0x00ff_0000);
    MaskAt(x, 8, 0x100, 0x0000_ff00);
    MaskAt(x, 0, 1, 0x0000_00ff);
    MergeBytes(b0, b1, b2, b3);
  }

  lemma MergeBytes(b0: byte, b1: byte, b2: byte, b3: byte)
    ensures Merge(b3 as int * 0x100_0000, b2 as int * 0x1_0000, b1 as int * 0x100, b0) == FromBytes(b3, b2, b1, b0)
  {
    hide Or;
    var x0: int, x1: int, x2: int, x3: int := b0, b1, b2, b3;
    assert x3 * 0x100_0000 / 0x100_0000 == x3 && x2 * 0x1_0000 / 0x100 == x2 * 0x100;
    assert x1 * 0x100 * 0x100 % 0x1_0000_0000 == x1 * 0x1_0000;
    assert x0 * 0x100_0000 % 0x1_0000_0000 == x0 * 0x100_0000;
    OrBytes(x0, x1, x2, x3);
  }

  lemma OrBytes(x0: int, x1: int, x2: int, x3: int)
    requires 0 <= x0 < 0x100 && 0 <= x1 < 0x100 && 0 <= x2 < 0x100 && 0 <= x3 < 0x100
    ensures Or(Or(Or(x3, x2 * 0x100), x1 * 0x1_0000), x0 * 0x100_0000)
            == x3 + 0x100 * x2 + 0x1_0000 * x1 + 0x100_0000 * x0
  {
    hide Or;
    hide Pow2;
    BytePowers();
    OrSwapped(x3, x2, 8, 0x100);
    OrSwapped(x3 + 0x100 * x2, x1, 16, 0x1_0000);
    OrSwapped(x3 + 0x100 * x2 + 0x1_0000 * x1, x0, 24, 0x100_0000);
  }

  /** bswap_32 */
  function Swap32(x: word): word {
    var s := Store(Little, x);
    LoadStore(Little, x);
    ExpressionReverses(s[0], s[1], s[2], s[3]);
    SwapExpression(x)
  }

  lemma Swap32Reverses(b0: byte, b1: byte, b2: byte, b3: byte)
    ensures Swap32(FromBytes(b0, b1, b2, b3)) == FromBytes(b3, b2, b1, b0)
  {
    hide SwapExpression;
    hide FromBytes;
    ExpressionReverses(b0, b1, b2, b3);
  }

  /** Reading a word with the wrong byte order yields the swapped word, and
      swapping that gives back what the writer stored. */
  lemma SwapMeetsOrder(o: Order, w: word)
    ensures var seen := Load(Other(o), Store(o, w)); Swap32(seen) == w && Swap32(w) == seen
  {
    hide Swap32;
    hide FromBytes;
    var s := Store(o, w);
    Swap32Reverses(s[0], s[1], s[2], s[3]);
    Swap32Reverses(s[3], s[2], s[1], s[0]);
    LoadStore(o, w);
  }

  lemma StoreLoad(o: Order, s: seq<byte>)
    requires |s| == 4
    ensures Store(o, Load(o, s)) == s
  {
    if o == Little {
      StoreFromBytes(s[0], s[1], s[2], s[3]);
    } else {
      StoreFromBytes(s[3], s[2], s[1], s[0]);
    }
  }

  lemma StoreFromBytes(b0: byte, b1: byte, b2: byte, b3: byte)
    ensures Store(Little, FromBytes(b0, b1, b2, b3)) == [b0, b1, b2, b3]
    ensures Store(Big, FromBytes(b0, b1, b2, b3)) == [b3, b2, b1, b0]
  {
    var x0: int, x1: int, x2: int, x3: int := b0, b1, b2, b3;
    DivModUnique(FromBytes(b0, b1, b2, b3), 0x100, x1 + 0x100 * x2 + 0x1_0000 * x3, x0);
    DivModUnique(x1 + 0x100 * x2 + 0x1_0000 * x3, 0x100, x2 + 0x100 * x3, x1);
    DivModUnique(x2 + 0x100 * x3, 0x100, x3, x2);
  }

  /** Storing a swapped word in one order writes the bytes of the word in the
      other. */
  lemma StoreSwapped(o: Order, w: word)
    ensures Store(o, Swap32(w)) == Store(Other(o), w)
  {
    hide Swap32;
    hide Store;
    hide Load;
    SwapMeetsOrder(Other(o), w);
    StoreLoad(o, Store(Other(o), w));
  }
}
