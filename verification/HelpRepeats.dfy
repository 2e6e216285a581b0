/** Exactly when the walk of hol_help prints a cluster's header twice. */
module HelpRepeats {
  import opened Basics
  import opened Argp
  import opened HelpList
  import opened HelpOrder
  import opened HelpClusters

  /** The header of `c` is printed for entry `i`. */
  predicate HeaderAt(letters: seq<int>, es: seq<Entry>, i: nat, c: Cluster) {
    && Enters(letters, es, i) && es[i].cluster == Some(c) && HasHeader(Some(c))
    && ActionOf(letters, es[i]) == Lines
  }

  ghost predicate Twice(hs: seq<Cluster>, c: Cluster) {
    exists a, b :: 0 <= a < b < |hs| && hs[a] == c && hs[b] == c
  }

  ghost predicate Once(letters: seq<int>, es: seq<Entry>, n: nat, c: Cluster) {
    exists i: nat :: i < n && HeaderAt(letters, es, i, c)
  }

  ghost predicate Again(letters: seq<int>, es: seq<Entry>, n: nat, c: Cluster) {
    exists i: nat, k: nat :: i < k < n && HeaderAt(letters, es, i, c) && HeaderAt(letters, es, k, c)
  }

  lemma OneMoreEntry(letters: seq<int>, es: seq<Entry>, n: nat, c: Cluster)
    ensures Once(letters, es, n + 1, c) <==> Once(letters, es, n, c) || HeaderAt(letters, es, n, c)
    ensures Again(letters, es, n + 1, c)
            <==> Again(letters, es, n, c) || (Once(letters, es, n, c) && HeaderAt(letters, es, n, c))
  {
    hide HeaderAt;
  }

  /** Header lines and the entries they are printed for. */
  lemma {:induction false} HeaderLines(letters: seq<int>, es: seq<Entry>, n: nat, c: Cluster)
    requires n <= |es| && forall i :: 0 <= i < |es| ==> es[i].opts != []
    ensures c in Entered(letters, es, n) <==> Once(letters, es, n, c)
    ensures Twice(Entered(letters, es, n), c) <==> Again(letters, es, n, c)
  {
    hide ActionOf;
    hide Enters;
    if n > 0 {
      HeaderLines(letters, es, n - 1, c);
      OneMoreEntry(letters, es, n - 1, c);
      var hs, was := Entered(letters, es, n), Entered(letters, es, n - 1);
      hide Once;
      hide Again;
      if hs != was {
        TwiceSnoc(was, es[n - 1].cluster.value, c);
        assert es[n - 1].cluster.value == c <==> HeaderAt(letters, es, n - 1, c);
      } else {
        assert !HeaderAt(letters, es, n - 1, c);
      }
    }
  }

  lemma TwiceSnoc(hs: seq<Cluster>, d: Cluster, c: Cluster)
    ensures Twice(hs + [d], c) <==> Twice(hs, c) || (d == c && c in hs)
    ensures c in hs + [d] <==> c in hs || d == c
  {
    var hs' := hs + [d];
    if Twice(hs, c) {
      var a, b :| 0 <= a < b < |hs| && hs[a] == c && hs[b] == c;
      assert hs'[a] == c && hs'[b] == c;
    }
    if d == c && c in hs {
      var a :| 0 <= a < |hs| && hs[a] == c;
      assert hs'[a] == c && hs'[|hs|] == c;
    }
    if Twice(hs', c) {
      var a, b :| 0 <= a < b < |hs'| && hs'[a] == c && hs'[b] == c;
      assert hs[a] == c;
      assert b < |hs| ==> hs[b] == c;
    }
  }

  // ---- What stands between two entries of a cluster ---------------------------------------------------

  lemma SortedKeys(letters: seq<int>, es: seq<Entry>, i: nat, j: nat)
    requires Sorted(letters, es) && i < j < |es|
    ensures Comparable(es[i]) && Comparable(es[j]) && Lex(Key(letters, es[i]), Key(letters, es[j])) <= 0
  {
    EntryIsLex(letters, es[i], es[j]);
  }

  /** Entries of clusters inside `c` come after those right in it. */
  lemma InsideComesLater(letters: seq<int>, es: seq<Entry>, c: Cluster, p: nat, k: nat)
    requires Sorted(letters, es) && p < k < |es| && es[k].cluster == Some(c) && IsChild(es[p].cluster, c)
    ensures es[p].cluster == Some(c)
  {
    SortedKeys(letters, es, p, k);
    hide Sorted;
    hide Key;
    if es[p].cluster != Some(c) {
      var d := es[p].cluster.value;
      ChildHasPath(Some(d), c);
      ChildHasPath(d.parent, c);
      DeeperKeyIsGreater(letters, es[p], es[k], c, d);
      assert false;
    }
  }

  /** A cluster with the same path is not inside. */
  lemma TwinIsOutside(c: Cluster, d: Cluster)
    requires WellFormed(c) && WellFormed(d) && c != d && Path(c) == Path(d)
    ensures !IsChild(Some(d), c)
  {
    PathLength(c);
    PathLength(d);
    if IsChild(Some(d), c) {
      ChildHasPath(d.parent, c);
      assert false;
    }
  }

  lemma {:induction false} SamePathBetween(letters: seq<int>, es: seq<Entry>, c: Cluster, i: nat, j: nat, k: nat)
    requires Sorted(letters, es) && i < j < k < |es| && es[i].cluster == Some(c) && es[k].cluster == Some(c)
    ensures es[j].cluster.Some? && Path(es[j].cluster.value) == Path(c)
  {
    SortedKeys(letters, es, i, j);
    SortedKeys(letters, es, j, k);
    hide Sorted;
    hide Path;
    var start := KeyStart(c) + [0];
    StartsDirect(letters, es[i], c);
    StartsDirect(letters, es[k], c);
    PrefixBetween(start, Key(letters, es[i]), Key(letters, es[j]), Key(letters, es[k]));
    if es[j].cluster.Some? {
      var d := es[j].cluster.value;
      var tail := KeyOf(letters, es[j], d);
      hide Key;
      MarkedPaths(c, d, tail);
    }
  }

  lemma StartsDirect(letters: seq<int>, e: Entry, c: Cluster)
    requires e.opts != [] && e.cluster == Some(c)
    ensures KeyStart(c) + [0] <= Key(letters, e)
  {
    hide Path;
    var tail := KeyOf(letters, e, c);
    hide Key;
    assert Path(c) + [0] <= Path(c) + tail;
    assert KeyStart(c) + [0] == [Neg(Base(c).group), Base(c).group, 1] + (Path(c) + [0]);
  }

  lemma MarkedPaths(c: Cluster, d: Cluster, tail: seq<int>)
    requires WellFormed(c) && WellFormed(d) && tail != [] && tail[0] == 0
    requires KeyStart(c) + [0] <= [Neg(Base(d).group), Base(d).group, 1] + (Path(d) + tail)
    ensures Path(d) == Path(c)
  {
    hide Path;
    var key := Path(d) + tail;
    var front, front' := [Neg(Base(c).group), Base(c).group, 1], [Neg(Base(d).group), Base(d).group, 1];
    assert KeyStart(c) + [0] == front + (Path(c) + [0]);
    DropFront(front, Path(c) + [0], front', key);
    MarkedEqual(c, d, tail);
  }

  lemma MarkedEqual(c: Cluster, d: Cluster, tail: seq<int>)
    requires WellFormed(c) && WellFormed(d) && tail != [] && tail[0] == 0 && Path(c) + [0] <= Path(d) + tail
    ensures Path(d) == Path(c)
  {
    hide Path;
    PathLength(c);
    PathLength(d);
    MarkAt(Path(c), Path(d), tail);
    if d.depth > c.depth {
      StepStarts(d, c.depth);
    } else if d.depth < c.depth {
      StepStarts(c, d.depth);
    }
  }

  lemma DropFront(a: seq<int>, x: seq<int>, b: seq<int>, y: seq<int>)
    requires |a| == |b| && a + x <= b + y
    ensures x <= y
  {
    var s, t := a + x, b + y;
    assert x == s[|a|..] && y == t[|a|..] && s == t[..|s|];
    assert s[|a|..] == t[|a|..][..|x|];
  }

  /** A path followed by the mark 0, in front of another path followed by it. */
  lemma MarkAt(p: seq<int>, q: seq<int>, tail: seq<int>)
    requires tail != [] && tail[0] == 0 && p + [0] <= q + tail
    ensures |q| == |p| ==> q == p
    ensures |q| > |p| ==> q[|p|] == 0
    ensures |q| < |p| ==> p[|q|] == 0
  {
    var s, t := p + [0], q + tail;
    assert forall i :: 0 <= i < |s| ==> s[i] == t[i];
    if |q| > |p| {
      assert s[|p|] == 0 && t[|p|] == q[|p|];
    } else if |q| < |p| {
      assert s[|q|] == p[|q|] && t[|q|] == 0;
    } else {
      assert forall i :: 0 <= i < |p| ==> p[i] == s[i] && q[i] == t[i];
    }
  }

  // ---- The exact condition ----------------------------------------------------------------------------

  /** Something printed between two printed entries of `c` is in another cluster
      with the same path. */
  ghost predicate Interleaved(letters: seq<int>, es: seq<Entry>, c: Cluster) {
    exists i: nat, j: nat, k: nat ::
      && i < j < k && Seen(letters, es, i) && Seen(letters, es, j) && Seen(letters, es, k)
      && es[i].cluster == Some(c) && es[k].cluster == Some(c)
      && es[j].cluster.Some? && es[j].cluster.value != c && Path(es[j].cluster.value) == Path(c)
  }

  /** All printed entries right in `c` have option lines. */
  ghost predicate HasLines(letters: seq<int>, es: seq<Entry>, c: Cluster) {
    forall i: nat :: Seen(letters, es, i) && es[i].cluster == Some(c) ==> ActionOf(letters, es[i]) == Lines
  }

  lemma TwiceInterleaves(letters: seq<int>, es: seq<Entry>, c: Cluster, i: nat, k: nat)
    requires Sorted(letters, es) && i < k && HeaderAt(letters, es, i, c) && HeaderAt(letters, es, k, c)
    ensures Interleaved(letters, es, c)
  {
    hide ActionOf;
    hide Sorted;
    hide Path;
    var j := LastOf(letters, es, i, k);
    SelfIsChild(c);
    assert !IsChild(es[j].cluster, c);
    assert j != i;
    SamePathBetween(letters, es, c, i, j, k);
  }

  /** The first printed entry of `c` from `m` on enters it if nothing of `c` is
      printed right before. */
  lemma FirstFrom(letters: seq<int>, es: seq<Entry>, c: Cluster, m: nat, k: nat) returns (i: nat)
    requires Sorted(letters, es) && m <= k < |es| && Seen(letters, es, k) && es[k].cluster == Some(c)
    requires m == 0 || (Seen(letters, es, m - 1) && !IsChild(es[m - 1].cluster, c))
    ensures m <= i <= k && es[i].cluster == Some(c) && Enters(letters, es, i)
  {
    hide ActionOf;
    hide Sorted;
    i := m;
    while !(Seen(letters, es, i) && es[i].cluster == Some(c))
      invariant m <= i <= k && forall p: nat :: m <= p < i ==> !(Seen(letters, es, p) && es[p].cluster == Some(c))
      decreases k - i
    {
      i := i + 1;
    }
    forall j: nat | j < i && LastSeen(letters, es, j, i) ensures !IsChild(es[j].cluster, c) {
      if IsChild(es[j].cluster, c) { InsideComesLater(letters, es, c, j, i); }
    }
  }

  /** In a sorted list, a cluster header is printed twice if and only if printed
      entries of another cluster with the same path stand between those of the
      cluster. */
  lemma RepeatsExactly(letters: seq<int>, es: seq<Entry>, c: Cluster)
    requires Sorted(letters, es) && HasHeader(Some(c)) && HasLines(letters, es, c)
    ensures forall i :: 0 <= i < |es| ==> es[i].opts != []
    ensures Twice(Entered(letters, es, |es|), c) <==> Interleaved(letters, es, c)
  {
    SortedHasOptions(letters, es);
    HeaderLines(letters, es, |es|, c);
    hide Entered;
    hide Sorted;
    hide Interleaved;
    hide HasLines;
    hide HeaderAt;
    if Again(letters, es, |es|, c) {
      var i: nat, k: nat :| i < k < |es| && HeaderAt(letters, es, i, c) && HeaderAt(letters, es, k, c);
      TwiceInterleaves(letters, es, c, i, k);
    }
    if Interleaved(letters, es, c) {
      var a, b := InterleavesTwice(letters, es, c);
    }
  }

  lemma InterleavesTwice(letters: seq<int>, es: seq<Entry>, c: Cluster) returns (a: nat, b: nat)
    requires Sorted(letters, es) && HasHeader(Some(c)) && HasLines(letters, es, c) && Interleaved(letters, es, c)
    ensures a < b < |es| && HeaderAt(letters, es, a, c) && HeaderAt(letters, es, b, c)
  {
    hide ActionOf;
    hide Path;
    hide HasHeader;
    hide Sorted;
    hide Enters;
    var i: nat, j: nat, k: nat :|
      && i < j < k && Seen(letters, es, i) && Seen(letters, es, j) && Seen(letters, es, k)
      && es[i].cluster == Some(c) && es[k].cluster == Some(c)
      && es[j].cluster.Some? && es[j].cluster.value != c && Path(es[j].cluster.value) == Path(c);
    assert es[k].cluster == Some(c);
    SortedClusters(letters, es, i);
    SortedClusters(letters, es, j);
    hide IsChild;
    TwinIsOutside(c, es[j].cluster.value);
    a := FirstFrom(letters, es, c, 0, i);
    b := FirstFrom(letters, es, c, j + 1, k);
    EnteringIsSeen(letters, es, a);
    EnteringIsSeen(letters, es, b);
  }

  lemma EnteringIsSeen(letters: seq<int>, es: seq<Entry>, i: nat)
    requires Enters(letters, es, i)
    ensures Seen(letters, es, i)
  {
    hide ActionOf;
  }

  lemma SortedClusters(letters: seq<int>, es: seq<Entry>, i: nat)
    requires Sorted(letters, es) && i < |es| && es[i].cluster.Some?
    ensures WellFormed(es[i].cluster.value)
  {
    assert Comparable(es[i]);
  }
}
