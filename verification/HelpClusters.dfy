/** What sorting by hol_entry_cmp does to clusters, and the header lines that
    hol_help prints on its walk through the sorted entries. */
module HelpClusters {
  import opened Basics
  import opened Argp
  import opened ArgpTree
  import opened HelpList
  import opened HelpOrder

  /** hol_cluster_is_child: `c1` is `c2` or lies below it. */
  predicate IsChild(c1: Option<Cluster>, c2: Cluster)
    decreases c1
  {
    c1.Some? && (c1.value == c2 || IsChild(c1.value.parent, c2))
  }

  /** `all` holds every cluster in play, with the clusters above it, and no two
      of them with the same parent share both group and index. */
  ghost predicate Unambiguous(all: set<Cluster>) {
    && (forall c :: c in all ==> WellFormed(c) && (c.parent.Some? ==> c.parent.value in all))
    && forall c, d ::
         c in all && d in all && c.parent == d.parent && c.group == d.group && c.index == d.index ==> c == d
  }

  /** The result of qsort with hol_entry_qcmp. */
  ghost predicate Sorted(letters: seq<int>, es: seq<Entry>) {
    && (forall i :: 0 <= i < |es| ==> Comparable(es[i]))
    && forall i, j :: 0 <= i < j < |es| ==> EntryCmp(letters, es[i], es[j]) <= 0
  }

  ghost predicate From(es: seq<Entry>, all: set<Cluster>) {
    forall i :: 0 <= i < |es| && es[i].cluster.Some? ==> es[i].cluster.value in all
  }

  // ---- Paths identify clusters ---------------------------------------------------------------

  lemma {:induction false} SamePathSameCluster(all: set<Cluster>, c: Cluster, d: Cluster)
    requires Unambiguous(all) && c in all && d in all && Path(c) == Path(d)
    ensures c == d
    decreases c
  {
    PathLength(c);
    PathLength(d);
    var n := |Path(c)| - 4;
    assert Path(c)[n..] == Step(c) && Path(d)[n..] == Step(d);
    assert Step(c)[2] == Step(d)[2] && Step(c)[3] == Step(d)[3];
    if c.parent.Some? {
      assert Path(c)[..n] == Path(c.parent.value) && Path(d)[..n] == Path(d.parent.value);
      SamePathSameCluster(all, c.parent.value, d.parent.value);
    }
  }

  lemma {:induction false} AncestorIn(all: set<Cluster>, c: Cluster, depth: nat)
    requires Unambiguous(all) && c in all && depth <= c.depth
    ensures Ancestor(c, depth) in all && IsChild(Some(c), Ancestor(c, depth))
    decreases c
  {
    if c.depth > depth { AncestorIn(all, c.parent.value, depth); }
  }

  lemma {:induction false} ChildHasPath(c: Option<Cluster>, d: Cluster)
    requires IsChild(c, d) && WellFormed(c.value)
    ensures WellFormed(d) && d.depth <= c.value.depth && Path(d) <= Path(c.value) && Base(c.value) == Base(d)
    decreases c
  {
    if c.value != d { ChildHasPath(c.value.parent, d); }
  }

  /** Being below a cluster is having its path as a prefix. */
  lemma ChildIsPrefix(all: set<Cluster>, c: Cluster, d: Cluster)
    requires Unambiguous(all) && c in all && d in all
    ensures IsChild(Some(c), d) <==> Path(d) <= Path(c)
  {
    if IsChild(Some(c), d) { ChildHasPath(Some(c), d); }
    if Path(d) <= Path(c) {
      PathLength(c);
      PathLength(d);
      var rest := AncestorPath(c, d.depth);
      AncestorIn(all, c, d.depth);
      PathLength(Ancestor(c, d.depth));
      assert Path(Ancestor(c, d.depth)) == Path(c)[..|Path(d)|] == Path(d);
      SamePathSameCluster(all, Ancestor(c, d.depth), d);
    }
  }

  // ---- Contiguity --------------------------------------------------------------------------------

  lemma {:induction false} PrefixBetween(p: seq<int>, a: seq<int>, b: seq<int>, c: seq<int>)
    requires p <= a && p <= c && Lex(a, b) <= 0 && Lex(b, c) <= 0
    ensures p <= b
    decreases |p|
  {
    if p != [] {
      assert p[1..] <= a[1..] && p[1..] <= c[1..];
      PrefixBetween(p[1..], a[1..], b[1..], c[1..]);
      assert p == [p[0]] + p[1..] && b == [b[0]] + b[1..];
    }
  }

  /** What all keys below a cluster start with. */
  function KeyStart(c: Cluster): seq<int> {
    [Neg(Base(c).group), Base(c).group] + [1] + Path(c)
  }

  lemma KeyOf(letters: seq<int>, e: Entry, d: Cluster) returns (tail: seq<int>)
    requires e.opts != [] && e.cluster == Some(d)
    ensures tail != [] && tail[0] == 0
    ensures Key(letters, e) == [Neg(Base(d).group), Base(d).group, 1] + (Path(d) + tail)
  {
    hide Path;
    hide InnerKey;
    tail := [0] + InnerKey(letters, e);
  }

  lemma BelowHasStart(all: set<Cluster>, letters: seq<int>, e: Entry, c: Cluster)
    requires Unambiguous(all) && c in all && Comparable(e) && (e.cluster.Some? ==> e.cluster.value in all)
    ensures IsChild(e.cluster, c) <==> KeyStart(c) <= Key(letters, e)
  {
    hide Path;
    hide IsChild;
    if e.cluster.Some? {
      hide Key;
      var d := e.cluster.value;
      var tail := KeyOf(letters, e, d);
      ChildIsPrefix(all, d, c);
      StartInKey(c, d, tail);
      if IsChild(Some(d), c) { ChildHasPath(Some(d), c); }
    } else {
      NoneIsNoChild(c);
      assert Key(letters, e)[2] == 0 && KeyStart(c)[2] == 1;
    }
  }

  /** A key below the same base starts with a path exactly if the cluster's own
      path does. */
  lemma StartInKey(c: Cluster, d: Cluster, tail: seq<int>)
    requires WellFormed(c) && WellFormed(d) && tail != [] && tail[0] == 0
    ensures var key := [Neg(Base(d).group), Base(d).group, 1] + (Path(d) + tail);
            && (KeyStart(c) <= key ==> Path(c) <= Path(d))
            && (Path(c) <= Path(d) && Base(c) == Base(d) ==> KeyStart(c) <= key)
  {
    hide Path;
    var key := [Neg(Base(d).group), Base(d).group, 1] + (Path(d) + tail);
    assert key[3..] == Path(d) + tail && KeyStart(c)[3..] == Path(c);
    if KeyStart(c) <= key {
      assert Path(c) <= Path(d) + tail;
      ShortPrefix(c, d, tail);
    }
  }

  lemma NoneIsNoChild(c: Cluster)
    ensures !IsChild(None, c)
  {
  }

  /** A path that is a prefix of a marked path is a prefix of the path. */
  lemma ShortPrefix(c: Cluster, d: Cluster, tail: seq<int>)
    requires WellFormed(c) && WellFormed(d) && tail != [] && tail[0] == 0 && Path(c) <= Path(d) + tail
    ensures Path(c) <= Path(d)
  {
    hide Path;
    assert (Path(d) + tail)[|Path(d)|] == 0;
    PathLength(c);
    PathLength(d);
    if |Path(c)| > |Path(d)| { StepStarts(c, d.depth); }
  }

  /** After sorting, the entries below any cluster stand together. */
  lemma ClustersAreContiguous(all: set<Cluster>, letters: seq<int>, es: seq<Entry>, c: Cluster, i: nat, j: nat, k: nat)
    requires Unambiguous(all) && c in all && Sorted(letters, es) && From(es, all)
    requires i < j < k < |es| && IsChild(es[i].cluster, c) && IsChild(es[k].cluster, c)
    ensures IsChild(es[j].cluster, c)
  {
    hide Key;
    hide Lex;
    hide IsChild;
    hide EntryCmp;
    hide KeyStart;
    BelowHasStart(all, letters, es[i], c);
    BelowHasStart(all, letters, es[j], c);
    BelowHasStart(all, letters, es[k], c);
    EntryIsLex(letters, es[i], es[j]);
    EntryIsLex(letters, es[j], es[k]);
    PrefixBetween(KeyStart(c), Key(letters, es[i]), Key(letters, es[j]), Key(letters, es[k]));
  }

  /** Entries right in a cluster come before those in clusters below it. */
  lemma DirectEntriesFirst(all: set<Cluster>, letters: seq<int>, es: seq<Entry>, c: Cluster, i: nat, j: nat)
    requires Unambiguous(all) && c in all && Sorted(letters, es) && From(es, all)
    requires i < j < |es| && IsChild(es[i].cluster, c) && es[j].cluster == Some(c)
    ensures es[i].cluster == Some(c)
  {
    hide Lex;
    hide Key;
    hide EntryCmp;
    hide Path;
    var d := es[i].cluster.value;
    EntryIsLex(letters, es[i], es[j]);
    ChildHasPath(Some(d), c);
    PathLength(c);
    PathLength(d);
    if d.depth == c.depth {
      SamePathSameCluster(all, c, d);
    } else {
      DeeperKeyIsGreater(letters, es[i], es[j], c, d);
    }
  }

  lemma DeeperKeyIsGreater(letters: seq<int>, e1: Entry, e2: Entry, c: Cluster, d: Cluster)
    requires Comparable(e1) && Comparable(e2) && e1.cluster == Some(d) && e2.cluster == Some(c)
    requires Path(c) <= Path(d) && c.depth < d.depth && Base(c) == Base(d)
    ensures Lex(Key(letters, e1), Key(letters, e2)) == 1
  {
    hide Lex;
    hide InnerKey;
    hide Path;
    DeeperIsGreater(c, d, InnerKey(letters, e1), InnerKey(letters, e2), Base(c).group);
  }

  lemma DeeperIsGreater(c: Cluster, d: Cluster, x: seq<int>, y: seq<int>, g: int)
    requires WellFormed(c) && WellFormed(d) && Path(c) <= Path(d) && c.depth < d.depth
    ensures Lex([Neg(g), g] + [1] + (Path(d) + [0] + x), [Neg(g), g] + [1] + (Path(c) + [0] + y)) == 1
  {
    hide Lex;
    hide Path;
    var head := [Neg(g), g] + [1];
    PathsMarked(c, d);
    LexSameLength(head, Path(d) + [0] + x, head, Path(c) + [0] + y);
    LexReflexive(head);
    LexMarked(Path(d), x, Path(c), y);
    PathLength(c);
    PathLength(d);
    LexSameLength(Path(c), Path(d)[|Path(c)|..], Path(c), []);
    LexReflexive(Path(c));
    assert Path(c) + Path(d)[|Path(c)|..] == Path(d) && Path(c) + [] == Path(c);
    LexOne(Path(d)[|Path(c)|..]);
  }

  lemma LexOne(a: seq<int>)
    requires a != []
    ensures Lex(a, []) == 1
  {
  }

  // ---- Header lines --------------------------------------------------------------------------------

  /** What hol_entry_help does with an entry: print option lines, print it as a
      group header, or print nothing because everything is hidden or shadowed. */
  datatype Action = Lines | GroupHeader | Nothing

  function ActionOf(letters: seq<int>, e: Entry): Action
    requires e.opts != []
  {
    if exists k ::
         0 <= k < |e.opts| && !e.opts[k].hidden && (e.opts[k].name.Some? || Decode(letters, e.so, e.opts)[k])
    then Lines
    else if !IsShort(e.opts[0]) && e.opts[0].name.None? then GroupHeader
    else Nothing
  }

  /** Is anything printed for entry `i`? */
  predicate Seen(letters: seq<int>, es: seq<Entry>, i: nat) {
    i < |es| && es[i].opts != [] && ActionOf(letters, es[i]) != Nothing
  }

  /** Entry `i` is the first one printed of those right in its cluster. */
  predicate Opens(letters: seq<int>, es: seq<Entry>, i: nat) {
    && Seen(letters, es, i) && es[i].cluster.Some?
    && forall j: nat :: j < i && Seen(letters, es, j) ==> es[j].cluster != es[i].cluster
  }

  predicate HasHeader(c: Option<Cluster>) {
    c.Some? && c.value.header.Some? && c.value.header.value != ""
  }

  /** The clusters with a header whose first printed entry, among the first `n`
      entries, has option lines. */
  function Headers(letters: seq<int>, es: seq<Entry>, n: nat): seq<Cluster>
    requires n <= |es| && forall i :: 0 <= i < |es| ==> es[i].opts != []
  {
    if n == 0 then []
    else
      var e := es[n - 1];
      Headers(letters, es, n - 1)
      + if ActionOf(letters, e) == Lines && HasHeader(e.cluster) && Opens(letters, es, n - 1) then [e.cluster.value]
        else []
  }

  lemma {:induction false} HeadersOnce(letters: seq<int>, es: seq<Entry>, n: nat)
    requires n <= |es| && forall i :: 0 <= i < |es| ==> es[i].opts != []
    ensures var hs := Headers(letters, es, n);
            && (forall i, j :: 0 <= i < j < |hs| ==> hs[i] != hs[j])
            && forall h :: h in hs ==> exists j: nat :: j < n && Seen(letters, es, j) && es[j].cluster == Some(h)
  {
    hide ActionOf;
    if n > 0 { HeadersOnce(letters, es, n - 1); }
  }

  /** Entry `i` is printed right after something outside its cluster, or first. */
  predicate Enters(letters: seq<int>, es: seq<Entry>, i: nat) {
    && Seen(letters, es, i) && es[i].cluster.Some?
    && forall j: nat :: j < i && LastSeen(letters, es, j, i) ==> !IsChild(es[j].cluster, es[i].cluster.value)
  }

  /** Entry `j` is the last one printed before entry `i`. */
  predicate LastSeen(letters: seq<int>, es: seq<Entry>, j: nat, i: nat) {
    j < i && Seen(letters, es, j) && forall k: nat :: j < k < i ==> !Seen(letters, es, k)
  }

  /** The header lines for the first `n` entries: one for every entry with option
      lines that enters a cluster with a header. */
  function Entered(letters: seq<int>, es: seq<Entry>, n: nat): seq<Cluster>
    requires n <= |es| && forall i :: 0 <= i < |es| ==> es[i].opts != []
  {
    if n == 0 then []
    else
      var e := es[n - 1];
      Entered(letters, es, n - 1)
      + if ActionOf(letters, e) == Lines && HasHeader(e.cluster) && Enters(letters, es, n - 1) then [e.cluster.value]
        else []
  }

  /** Only headers with text are printed, and only for entries with option lines. */
  lemma {:induction false} HeadersHaveText(letters: seq<int>, es: seq<Entry>, n: nat)
    requires n <= |es| && forall i :: 0 <= i < |es| ==> es[i].opts != []
    ensures forall h :: h in Entered(letters, es, n) ==> h.header.Some? && |h.header.value| > 0
  {
    hide ActionOf;
    hide Enters;
    if n > 0 { HeadersHaveText(letters, es, n - 1); }
  }

  /** An entry of a help list has option lines exactly if one of its options is not
      hidden and has a name, or a letter that no option before it claims. */
  lemma LinesExactly(h: Hol, i: nat)
    requires Segmented(h) && i < |h.entries| && h.entries[i].opts != []
    ensures var e := h.entries[i];
            ActionOf(h.letters, e) == Lines
            <==> exists k :: 0 <= k < |e.opts| && !e.opts[k].hidden && (e.opts[k].name.Some? || Claims(h, i, k))
    ensures var e := h.entries[i];
            ActionOf(h.letters, e) == GroupHeader
            <==> && !IsShort(e.opts[0]) && e.opts[0].name.None?
                 && forall k :: 0 <= k < |e.opts| ==> e.opts[k].hidden || (e.opts[k].name.None? && !Claims(h, i, k))
  {
    var e := h.entries[i];
    hide Segmented;
    hide Claims;
    forall k | 0 <= k < |e.opts| ensures Decode(h.letters, e.so, e.opts)[k] <==> Claims(h, i, k) {
      ClaimsDecoded(h, i, k);
    }
  }

  /** Option `k` of entry `i` has a letter that no option before it has. */
  ghost predicate Claims(h: Hol, i: int, k: int) {
    && 0 <= i < |h.entries| && 0 <= k < |h.entries[i].opts|
    && Unshadowed(AllOptions(h.entries[..i]) + Options(h.entries[i])[..k], Options(h.entries[i])[k])
  }

  lemma ClaimsDecoded(h: Hol, i: nat, k: nat)
    requires Segmented(h) && i < |h.entries| && k < |h.entries[i].opts|
    ensures Decode(h.letters, h.entries[i].so, h.entries[i].opts)[k] <==> Claims(h, i, k)
  {
    hide Segmented;
    DecodesUnshadowed(h, i, k);
  }

  /** A group header counts as printed: right behind one in the same cluster, no
      cluster header is printed. */
  lemma GroupHeaderSuppresses(letters: seq<int>, es: seq<Entry>, i: nat, j: nat)
    requires i < j < |es| && es[i].cluster == es[j].cluster && es[i].opts != []
    requires ActionOf(letters, es[i]) != Nothing
    requires forall k :: i < k < j ==> es[k].opts != [] && ActionOf(letters, es[k]) == Nothing
    ensures !Enters(letters, es, j)
  {
    hide ActionOf;
    assert LastSeen(letters, es, i, j);
    if es[j].cluster.Some? { SelfIsChild(es[j].cluster.value); }
  }

  /** In a sorted list without ambiguous clusters, a cluster is entered exactly by
      its first printed entry. */
  lemma EntersOnce(all: set<Cluster>, letters: seq<int>, es: seq<Entry>, i: nat)
    requires Unambiguous(all) && Sorted(letters, es) && From(es, all) && i < |es|
    ensures Enters(letters, es, i) <==> Opens(letters, es, i)
  {
    hide ActionOf;
    hide Sorted;
    hide Seen;
    if Seen(letters, es, i) && es[i].cluster.Some? {
      var c := es[i].cluster.value;
      assert c in all;
      if Opens(letters, es, i) {
        forall j: nat | j < i && LastSeen(letters, es, j, i) ensures !IsChild(es[j].cluster, c) {
          if IsChild(es[j].cluster, c) { DirectEntriesFirst(all, letters, es, c, j, i); }
        }
      }
      if Enters(letters, es, i) {
        forall j: nat | j < i && Seen(letters, es, j) ensures es[j].cluster != es[i].cluster {
          if es[j].cluster == es[i].cluster {
            var p := LastOf(letters, es, j, i);
            SelfIsChild(c);
            if j < p { ClustersAreContiguous(all, letters, es, c, j, p, i); }
          }
        }
      }
    }
  }

  /** If entry `j` is printed, some entry from `j` on is the last one before `i`. */
  lemma {:induction false} LastOf(letters: seq<int>, es: seq<Entry>, j: nat, i: nat) returns (p: nat)
    requires j < i && Seen(letters, es, j)
    ensures j <= p < i && LastSeen(letters, es, p, i)
  {
    hide ActionOf;
    p := i - 1;
    while !Seen(letters, es, p)
      invariant j <= p < i && forall k: nat :: p < k < i ==> !Seen(letters, es, k)
      decreases p
    {
      p := p - 1;
    }
  }

  /** Then the header lines are those of the clusters that open with option lines,
      and none is printed twice. */
  lemma {:induction false} HeadersWithoutRepeat(all: set<Cluster>, letters: seq<int>, es: seq<Entry>, n: nat)
    requires Unambiguous(all) && Sorted(letters, es) && From(es, all) && n <= |es|
    ensures forall i :: 0 <= i < |es| ==> es[i].opts != []
    ensures Entered(letters, es, n) == Headers(letters, es, n)
    ensures var hs := Entered(letters, es, n); forall i, j :: 0 <= i < j < |hs| ==> hs[i] != hs[j]
  {
    hide ActionOf;
    hide Sorted;
    hide Unambiguous;
    hide From;
    hide Enters;
    hide Opens;
    SortedHasOptions(letters, es);
    if n > 0 {
      HeadersWithoutRepeat(all, letters, es, n - 1);
      EntersOnce(all, letters, es, n - 1);
    }
    HeadersOnce(letters, es, n);
  }

  lemma SortedHasOptions(letters: seq<int>, es: seq<Entry>)
    requires Sorted(letters, es)
    ensures forall i :: 0 <= i < |es| ==> es[i].opts != []
  {
  }

  /** `prev` is the last entry before `i` for which anything was printed. */
  ghost predicate PrevSeen(letters: seq<int>, es: seq<Entry>, prev: Option<nat>, i: nat) {
    && (prev.Some? ==> LastSeen(letters, es, prev.value, i))
    && forall j: nat :: j < i && Seen(letters, es, j) ==> prev.Some? && j <= prev.value
  }

  lemma NoneSeen(letters: seq<int>, es: seq<Entry>)
    ensures PrevSeen(letters, es, None, 0)
  {
  }

  lemma SeenStep(letters: seq<int>, es: seq<Entry>, prev: Option<nat>, i: nat)
    requires i < |es| && es[i].opts != [] && PrevSeen(letters, es, prev, i)
    ensures PrevSeen(letters, es, if ActionOf(letters, es[i]) != Nothing then Some(i) else prev, i + 1)
    ensures prev.Some? ==> prev.value < i
  {
    hide ActionOf;
  }

  /** What comma looks at decides whether the entry enters its cluster. */
  lemma CommaFindsEntry(letters: seq<int>, es: seq<Entry>, prev: Option<nat>, i: nat)
    requires Seen(letters, es, i) && PrevSeen(letters, es, prev, i) && es[i].cluster.Some?
    ensures prev.Some? ==> prev.value < i
    ensures var c := es[i].cluster;
            prev.None? || (es[prev.value].cluster != c && !IsChild(es[prev.value].cluster, c.value))
            <==> Enters(letters, es, i)
  {
    hide ActionOf;
    SelfIsChild(es[i].cluster.value);
    if prev.Some? {
      assert LastSeen(letters, es, prev.value, i);
    }
  }

  /** The walk of hol_help, for any list: the clusters whose header comma prints
      are those entered by entries with option lines. */
  method PrintedHeaders(es: seq<Entry>, letters: seq<int>) returns (headers: seq<Cluster>)
    requires forall i :: 0 <= i < |es| ==> es[i].opts != []
    ensures headers == Entered(letters, es, |es|)
  {
    hide ActionOf;
    hide PrevSeen;
    headers := [];
    var prev: Option<nat> := None;
    NoneSeen(letters, es);
    for i := 0 to |es|
      invariant PrevSeen(letters, es, prev, i) && headers == Entered(letters, es, i)
    {
      hide IsChild;
      hide Enters;
      hide HasHeader;
      SeenStep(letters, es, prev, i);
      var action, cl := ActionOf(letters, es[i]), es[i].cluster;
      if action != Nothing {
        if cl.Some? { CommaFindsEntry(letters, es, prev, i); }
        if action == Lines && HasHeader(cl)
           && (prev.None? || (es[prev.value].cluster != cl && !IsChild(es[prev.value].cluster, cl.value))) {
          headers := headers + [cl.value];
        }
        prev := Some(i);
      }
    }
  }

  lemma SelfIsChild(c: Cluster)
    ensures IsChild(Some(c), c)
  {
  }
}
