/** Ancillary data objects in a socket control buffer: the alignment macros and
    the header walk of <bits/socket.h> (sections 5.1 to 5.3 of RFC 3542).
    Every size_t computation is reduced modulo the size_t range. */
module Cmsg {
  import opened Basics
  import opened Bits
  import opened Words

  datatype Platform = ILP32 | LP64

  /** sizeof (struct cmsghdr): a socklen_t and two ints of 32 bits each. */
  const HEADER: nat := 12

  const SOCKLEN_RANGE: nat := 0x1_0000_0000

  /** sizeof (size_t) */
  function SizeT(p: Platform): nat {
    if p == ILP32 then 4 else 8
  }

  function SizeRange(p: Platform): nat {
    if p == ILP32 then 0x1_0000_0000 else 0x1_0000_0000_0000_0000
  }

  /** Conversion to size_t. */
  function Wrap(p: Platform, x: nat): (r: nat)
    ensures x < SizeRange(p) ==> r == x
  {
    if p == ILP32 then x % 0x1_0000_0000 else x % 0x1_0000_0000_0000_0000
  }

  /** `~(sizeof (size_t) - 1)` */
  function HighMask(p: Platform): nat {
    if p == ILP32 then 0xffff_fffc else 0xffff_ffff_ffff_fff8
  }

  /** CMSG_ALIGN: `(len + W - 1) & ~(W - 1)`. */
  function Align(p: Platform, len: nat): nat {
    And(Wrap(p, len + SizeT(p) - 1), HighMask(p))
  }

  /** CMSG_SPACE */
  function Space(p: Platform, len: nat): nat {
    Wrap(p, Align(p, len) + Align(p, HEADER))
  }

  /** CMSG_LEN */
  function Len(p: Platform, len: nat): nat {
    Wrap(p, Align(p, HEADER) + len)
  }

  /** __CMSG_PADDING: `(W - (len & (W - 1))) & (W - 1)`. */
  function Padding(p: Platform, len: nat): nat {
    And(SizeT(p) - And(len, SizeT(p) - 1), SizeT(p) - 1)
  }

  // ---- What the masks compute ------------------------------------------

  /** How far `x` is past the last word boundary. */
  function Past(p: Platform, x: nat): (r: nat)
    ensures r < SizeT(p)
  {
    if p == ILP32 then x % 4 else x % 8
  }

  lemma Powers()
    ensures Pow2(2) == 4 && Pow2(3) == 8 && Pow2(30) == 0x4000_0000 && Pow2(61) == 0x2000_0000_0000_0000
  {
    assert Pow2(10) == 0x400;
    assert Pow2(20) == 0x10_0000;
    Pow2Add(10, 20);
    assert Pow2(1) == 2;
    Pow2Add(30, 30);
    Pow2Add(60, 1);
  }

  lemma AndHigh(y: nat, a: nat, b: nat, w: nat, range: nat)
    requires Pow2(b) == w && Pow2(a) * w == range && y < range
    ensures And(y, range - w) == y - y % w
  {
    hide And;
    hide Pow2;
    var q, n := y / w, Pow2(a);
    assert y == q * w + y % w;
    assert q < n by {
      if q >= n { MulMonotone(w, n, q); }
    }
    assert (n - 1) * w == range - w by { MulMinusOne(n, w); }
    AndMask(y, a, b);
    SmallMod(q, n);
  }

  lemma MulMinusOne(n: int, w: int)
    ensures (n - 1) * w == n * w - w
  {
  }

  lemma SmallMod(q: nat, n: nat)
    requires q < n
    ensures q % n == q
  {
  }

  /** CMSG_ALIGN rounds up to a multiple of the word size whenever the rounding
      itself does not overflow size_t. */
  lemma AlignRoundsUp(p: Platform, len: nat)
    requires len + SizeT(p) - 1 < SizeRange(p)
    ensures Past(p, Align(p, len)) == 0
    ensures len <= Align(p, len) < len + SizeT(p)
  {
    hide And;
    hide Pow2;
    hide Wrap;
    var y := len + SizeT(p) - 1;
    Powers();
    if p == ILP32 {
      AndHigh(y, 30, 2, 4, 0x1_0000_0000);
      assert Align(p, len) == y - y % 4;
      DivModUnique(y - y % 4, 4, y / 4, 0);
    } else {
      AndHigh(y, 61, 3, 8, 0x1_0000_0000_0000_0000);
      assert Align(p, len) == y - y % 8;
      DivModUnique(y - y % 8, 8, y / 8, 0);
    }
  }

  lemma PaddingFills(p: Platform, len: nat)
    ensures Padding(p, len) < SizeT(p)
    ensures Past(p, len + Padding(p, len)) == 0
  {
    hide And;
    hide Pow2;
    Powers();
    if p == ILP32 {
      AndLow(len, 2);
      AndLow(4 - len % 4, 2);
      if len % 4 != 0 { DivModUnique(len + 4 - len % 4, 4, len / 4 + 1, 0); }
    } else {
      AndLow(len, 3);
      AndLow(8 - len % 8, 3);
      if len % 8 != 0 { DivModUnique(len + 8 - len % 8, 8, len / 8 + 1, 0); }
    }
  }

  /** The relation the header promises: `len + __CMSG_PADDING (len)` is
      `CMSG_ALIGN (len)`. */
  lemma PaddingCompletesAlign(p: Platform, len: nat)
    requires len + SizeT(p) - 1 < SizeRange(p)
    ensures len + Padding(p, len) == Align(p, len)
  {
    hide And;
    PaddingFills(p, len);
    AlignRoundsUp(p, len);
    SameBoundary(p, len, len + Padding(p, len), Align(p, len));
  }

  lemma SameBoundary(p: Platform, len: nat, x: nat, y: nat)
    requires Past(p, x) == Past(p, y) == 0
    requires len <= x < len + SizeT(p) && len <= y < len + SizeT(p)
    ensures x == y
  {
    if p == ILP32 {
      OneQuotient(4, x / 4, y / 4, len);
    } else {
      OneQuotient(8, x / 8, y / 8, len);
    }
  }

  /** At most one multiple of `w` lies among `w` consecutive numbers. */
  lemma OneQuotient(w: nat, q: int, r: int, len: nat)
    requires (w == 4 || w == 8) && len <= w * q < len + w && len <= w * r < len + w
    ensures q == r
  {
  }

  // ---- Walking a control buffer ----------------------------------------

  /** The 32-bit field at offset `at`, as a host with order `o` reads it. */
  function Field(o: Order, buf: seq<byte>, at: nat): word
    requires at + 4 <= |buf|
  {
    Load(o, buf[at..at + 4])
  }

  /** CMSG_FIRSTHDR, as an offset into the buffer. */
  function First(buf: seq<byte>): Option<nat> {
    if |buf| >= HEADER then Some(0) else None
  }

  /** __cmsg_nxthdr, as an offset into the buffer. */
  function Next(p: Platform, o: Order, buf: seq<byte>, at: nat): Option<nat>
    requires at + HEADER <= |buf|
  {
    var len := Field(o, buf, at);
    var needed := Wrap(p, HEADER + Padding(p, len));
    var left := |buf| - at;
    if len < HEADER then None
    else if left < needed || left - needed < len then None
    else Some(at + Align(p, len))
  }

  /** The next header is returned exactly when the current object is at least a
      header long and, rounded up, leaves room for one more full header; it
      then lies right behind the rounded object. */
  lemma NextExact(p: Platform, o: Order, buf: seq<byte>, at: nat)
    requires |buf| < SOCKLEN_RANGE && at + HEADER <= |buf|
    ensures var len := Field(o, buf, at);
            var end := at + len + Padding(p, len);
            match Next(p, o, buf, at)
            case None => len < HEADER || end + HEADER > |buf|
            case Some(n) => HEADER <= len && n == end && n + HEADER <= |buf| && Past(p, n) == Past(p, at)
  {
    hide And;
    hide Load;
    var len := Field(o, buf, at);
    PaddingFills(p, len);
    if Next(p, o, buf, at).Some? {
      PaddingCompletesAlign(p, len);
      PastAdds(p, at, Align(p, len));
    }
  }

  lemma PastAdds(p: Platform, x: nat, y: nat)
    requires Past(p, y) == 0
    ensures Past(p, x + y) == Past(p, x)
  {
    if p == ILP32 {
      DivModUnique(x + y, 4, x / 4 + y / 4, x % 4);
    } else {
      DivModUnique(x + y, 8, x / 8 + y / 8, x % 8);
    }
  }

  /** The offsets visited from a header on by following CMSG_NXTHDR. */
  function Walk(p: Platform, o: Order, buf: seq<byte>, at: nat): seq<nat>
    requires |buf| < SOCKLEN_RANGE && at + HEADER <= |buf|
    decreases |buf| - at
  {
    NextExact(p, o, buf, at);
    match Next(p, o, buf, at)
    case None => [at]
    case Some(n) => [at] + Walk(p, o, buf, n)
  }

  function WalkAll(p: Platform, o: Order, buf: seq<byte>): seq<nat>
    requires |buf| < SOCKLEN_RANGE
  {
    match First(buf)
    case None => []
    case Some(at) => Walk(p, o, buf, at)
  }

  /** Whatever the length fields hold, the walk ends, every header it visits
      lies wholly inside the buffer, and each object ends before the next one
      starts, on the alignment of the first. */
  lemma {:induction false} WalkIsSafe(p: Platform, o: Order, buf: seq<byte>, at: nat)
    requires |buf| < SOCKLEN_RANGE && at + HEADER <= |buf|
    ensures var w := Walk(p, o, buf, at);
            && |w| >= 1 && w[0] == at
            && (forall i :: 0 <= i < |w| ==> w[i] + HEADER <= |buf| && Past(p, w[i]) == Past(p, at))
            && (forall i :: 0 <= i < |w| - 1 ==>
                  HEADER <= Field(o, buf, w[i]) && w[i] + Field(o, buf, w[i]) <= w[i + 1])
    decreases |buf| - at
  {
    hide Next;
    hide Walk;
    hide Field;
    hide Padding;
    hide Past;
    NextExact(p, o, buf, at);
    WalkFrom(p, o, buf, at);
    match Next(p, o, buf, at)
    case None =>
    case Some(n) => WalkIsSafe(p, o, buf, n);
  }

  lemma WalkFrom(p: Platform, o: Order, buf: seq<byte>, at: nat)
    requires |buf| < SOCKLEN_RANGE && at + HEADER <= |buf|
    ensures match Next(p, o, buf, at)
            case None => Walk(p, o, buf, at) == [at]
            case Some(n) => n + HEADER <= |buf| && Walk(p, o, buf, at) == [at] + Walk(p, o, buf, n)
  {
    hide Next;
    hide Field;
    hide Padding;
    hide Past;
    NextExact(p, o, buf, at);
  }

  // ---- Writing objects and reading them back ---------------------------

  datatype Object = Object(level: word, kind: word, data: seq<byte>)

  /** The largest data length of an object that fits in a control buffer, whose
      length is a socklen_t. */
  function MaxData(p: Platform): nat {
    if p == ILP32 then 0xffff_fff0 else 0xffff_ffe8
  }

  lemma MaxDataExact(p: Platform, d: nat)
    requires d + SizeT(p) - 1 < SizeRange(p)
    ensures d <= MaxData(p) <==> Align(p, HEADER) + Align(p, d) < SOCKLEN_RANGE
  {
    hide Align;
    HeaderAligned(p);
    AlignRoundsUp(p, d);
  }

  lemma HeaderAligned(p: Platform)
    ensures Align(p, HEADER) == Len(p, 0) == if p == ILP32 then 12 else 16
  {
    hide And;
    AlignRoundsUp(p, HEADER);
  }

  lemma DataSizes(p: Platform, d: nat)
    requires d <= MaxData(p)
    ensures Len(p, d) == Align(p, HEADER) + d < SOCKLEN_RANGE
    ensures d <= Align(p, d) && Space(p, d) == Align(p, HEADER) + Align(p, d)
    ensures Len(p, d) + Padding(p, Len(p, d)) == Space(p, d)
  {
    hide And;
    HeaderAligned(p);
    AlignRoundsUp(p, d);
    var len := Align(p, HEADER) + d;
    PaddingFills(p, len);
    PastAdds(p, Align(p, HEADER), Align(p, d));
    SameBoundary(p, len, len + Padding(p, len), Align(p, HEADER) + Align(p, d));
  }

  /** One object as a sender lays it out: cmsg_len is CMSG_LEN, the data starts
      at the offset CMSG_LEN counts from, which is CMSG_ALIGN of the header size,
      and the object takes CMSG_SPACE bytes.  (CMSG_DATA is right behind the
      header; on LP64 that is four bytes earlier.) */
  function Encode(p: Platform, o: Order, x: Object): (s: seq<byte>)
    requires |x.data| <= MaxData(p)
    ensures |s| == Space(p, |x.data|)
  {
    HeaderAligned(p);
    DataSizes(p, |x.data|);
    Store(o, Len(p, |x.data|)) + Store(o, x.level) + Store(o, x.kind)
    + Repeat<byte>(0, Align(p, HEADER) - HEADER)
    + x.data + Repeat<byte>(0, Align(p, |x.data|) - |x.data|)
  }

  function Layout(p: Platform, o: Order, xs: seq<Object>): seq<byte>
    requires forall x :: x in xs ==> |x.data| <= MaxData(p)
  {
    if xs == [] then [] else Encode(p, o, xs[0]) + Layout(p, o, xs[1..])
  }

  /** The object a receiver sees at a header: `len - CMSG_LEN (0)` bytes of data. */
  function ObjectAt(p: Platform, o: Order, buf: seq<byte>, at: nat): Option<Object>
    requires at + HEADER <= |buf|
  {
    var len := Field(o, buf, at);
    if Len(p, 0) <= len && at + len <= |buf| then
      Some(Object(Field(o, buf, at + 4), Field(o, buf, at + 8), buf[at + Len(p, 0)..at + len]))
    else None
  }

  lemma EncodedFields(p: Platform, o: Order, pre: seq<byte>, x: Object, post: seq<byte>)
    requires |x.data| <= MaxData(p)
    ensures var buf := pre + Encode(p, o, x) + post;
            var at := |pre|;
            && at + HEADER <= |buf|
            && Field(o, buf, at) == Len(p, |x.data|)
            && ObjectAt(p, o, buf, at) == Some(x)
  {
    hide And;
    hide Load;
    hide Encode;
    hide Align;
    hide Len;
    var at, len := |pre|, Len(p, |x.data|);
    var s := Encode(p, o, x);
    var buf := pre + s + post;
    EncodedParts(p, o, x);
    FieldInside(o, pre, s, post, 0, len);
    FieldInside(o, pre, s, post, 4, x.level);
    FieldInside(o, pre, s, post, 8, x.kind);
    assert buf[at + Len(p, 0)..at + len] == s[Len(p, 0)..len];
  }

  lemma EncodedParts(p: Platform, o: Order, x: Object)
    requires |x.data| <= MaxData(p)
    ensures var s := Encode(p, o, x);
            && Len(p, 0) <= Len(p, |x.data|) <= |s| && Len(p, |x.data|) < SOCKLEN_RANGE && HEADER <= |s|
            && s[0..4] == Store(o, Len(p, |x.data|)) && s[4..8] == Store(o, x.level) && s[8..12] == Store(o, x.kind)
            && s[Len(p, 0)..Len(p, |x.data|)] == x.data
  {
    hide And;
    hide Store;
    hide Align;
    hide Len;
    hide Space;
    HeaderAligned(p);
    DataSizes(p, |x.data|);
    Pieces(Store(o, Len(p, |x.data|)), Store(o, x.level), Store(o, x.kind),
           Repeat<byte>(0, Align(p, HEADER) - HEADER), x.data, Repeat<byte>(0, Align(p, |x.data|) - |x.data|));
  }

  lemma Pieces(a: seq<byte>, b: seq<byte>, c: seq<byte>, gap: seq<byte>, data: seq<byte>, rest: seq<byte>)
    requires |a| == |b| == |c| == 4
    ensures var s := a + b + c + gap + data + rest;
            && s[0..4] == a && s[4..8] == b && s[8..12] == c
            && s[12 + |gap|..12 + |gap| + |data|] == data
  {
  }

  lemma FieldInside(o: Order, pre: seq<byte>, s: seq<byte>, post: seq<byte>, i: nat, w: word)
    requires i + 4 <= |s| && s[i..i + 4] == Store(o, w)
    ensures Field(o, pre + s + post, |pre| + i) == w
  {
    hide Load;
    hide Store;
    assert (pre + s + post)[|pre| + i..|pre| + i + 4] == s[i..i + 4];
    LoadStore(o, w);
  }

  lemma {:induction false} LayoutWalk(p: Platform, o: Order, pre: seq<byte>, xs: seq<Object>)
    requires forall x :: x in xs ==> |x.data| <= MaxData(p)
    requires xs != [] && |pre + Layout(p, o, xs)| < SOCKLEN_RANGE
    ensures var buf := pre + Layout(p, o, xs);
            && |pre| + HEADER <= |buf|
            && var w := Walk(p, o, buf, |pre|);
            && |w| == |xs|
            && forall i :: 0 <= i < |w| ==> w[i] + HEADER <= |buf| && ObjectAt(p, o, buf, w[i]) == Some(xs[i])
    decreases |xs|
  {
    hide And;
    hide Load;
    hide Align;
    hide Padding;
    hide ObjectAt;
    hide Encode;
    hide Len;
    hide Space;
    hide Field;
    hide Next;
    hide Walk;
    hide Past;
    var x, rest := xs[0], Layout(p, o, xs[1..]);
    var buf := pre + Layout(p, o, xs);
    assert buf == pre + Encode(p, o, x) + rest;
    EncodedFields(p, o, pre, x, rest);
    HeaderAligned(p);
    DataSizes(p, |x.data|);
    NextExact(p, o, buf, |pre|);
    WalkFrom(p, o, buf, |pre|);
    if xs[1..] == [] {
    } else {
      var pre' := pre + Encode(p, o, x);
      assert buf == pre' + rest;
      LayoutWalk(p, o, pre', xs[1..]);
      assert Walk(p, o, buf, |pre|) == [|pre|] + Walk(p, o, buf, |pre'|);
    }
  }

  /** Round trip: a buffer laid out with CMSG_SPACE and CMSG_LEN is walked back
      to exactly the objects written, in order. */
  lemma RoundTrip(p: Platform, o: Order, xs: seq<Object>)
    requires forall x :: x in xs ==> |x.data| <= MaxData(p)
    requires |Layout(p, o, xs)| < SOCKLEN_RANGE
    ensures var buf := Layout(p, o, xs);
            var w := WalkAll(p, o, buf);
            && |w| == |xs|
            && forall i :: 0 <= i < |w| ==> w[i] + HEADER <= |buf| && ObjectAt(p, o, buf, w[i]) == Some(xs[i])
  {
    if xs != [] {
      assert [] + Layout(p, o, xs) == Layout(p, o, xs);
      LayoutWalk(p, o, [], xs);
    }
  }
}
