/** What hol_entry_cmp promises, case by case: which of two entries comes first, in
    terms of their groups, clusters, letters and names. */
module HelpOrderCases {
  import opened Basics
  import opened Argp
  import opened HelpList
  import opened HelpOrder
  import opened HelpClusters

  // ---- Groups and clusters ------------------------------------------------------------------

  /** Group 0 and up in ascending order, then the negative ones, -1 last. */
  predicate GroupBefore(g: int, h: int) {
    (0 <= g < h) || (g < h < 0) || (h < 0 <= g)
  }

  lemma GroupOrder(g: int, h: int)
    ensures GroupCmp(g, h) < 0 <==> GroupBefore(g, h)
    ensures GroupCmp(g, h) == 0 <==> g == h
  {
  }

  /** The outermost cluster around `c`. */
  lemma {:induction false} BaseIsOutermost(c: Cluster)
    ensures IsChild(Some(c), Base(c)) && Base(c).parent.None?
    decreases c
  {
    if c.parent.Some? { BaseIsOutermost(c.parent.value); }
  }

  /** The group that counts first: that of the outermost cluster, or the entry's own. */
  ghost predicate OuterGroup(e: Entry, g: int) {
    match e.cluster
    case None => g == e.group
    case Some(c) => exists b :: IsChild(Some(c), b) && b.parent.None? && g == b.group
  }

  lemma {:induction false} OneOutermost(c: Cluster, b: Cluster)
    requires IsChild(Some(c), b) && b.parent.None?
    ensures b == Base(c)
    decreases c
  {
    if c != b { OneOutermost(c.parent.value, b); }
  }

  lemma OuterGroupIsTop(e: Entry, g: int)
    requires OuterGroup(e, g)
    ensures TopGroup(e) == g
  {
    if e.cluster.Some? {
      var b :| IsChild(e.cluster, b) && b.parent.None? && g == b.group;
      OneOutermost(e.cluster.value, b);
    }
  }

  /** The outermost groups decide first. */
  lemma OuterGroupsDecide(letters: seq<int>, e1: Entry, e2: Entry, g: int, h: int)
    requires Comparable(e1) && Comparable(e2) && OuterGroup(e1, g) && OuterGroup(e2, h) && GroupBefore(g, h)
    ensures EntryCmp(letters, e1, e2) < 0
  {
    OuterGroupIsTop(e1, g);
    OuterGroupIsTop(e2, h);
    GroupOrder(g, h);
  }

  /** Within them, entries outside clusters come before entries in clusters. */
  lemma OutsideFirst(letters: seq<int>, e1: Entry, e2: Entry, g: int)
    requires Comparable(e1) && Comparable(e2) && OuterGroup(e1, g) && OuterGroup(e2, g)
    requires e1.cluster.None? && e2.cluster.Some?
    ensures EntryCmp(letters, e1, e2) < 0
  {
    OuterGroupIsTop(e1, g);
    OuterGroupIsTop(e2, g);
  }

  /** A cluster's own entries come before those of the clusters inside it. */
  lemma InnerClustersLater(letters: seq<int>, e1: Entry, e2: Entry)
    requires Comparable(e1) && Comparable(e2) && e1.cluster.Some? && e2.cluster.Some?
    requires e1.cluster != e2.cluster && IsChild(e2.cluster, e1.cluster.value)
    ensures EntryCmp(letters, e1, e2) < 0
  {
    hide Key;
    hide EntryCmp;
    hide Path;
    var c, d := e1.cluster.value, e2.cluster.value;
    ChildHasPath(Some(d), c);
    ChildHasPath(d.parent, c);
    DeeperKeyIsGreater(letters, e2, e1, c, d);
    EntryIsLex(letters, e2, e1);
    EntryIsLex(letters, e1, e2);
    LexAntisymmetric(Key(letters, e2), Key(letters, e1));
  }

  /** Clusters side by side: by group, and in one group the one listed later first. */
  predicate SiblingBefore(c: Cluster, d: Cluster) {
    c.parent == d.parent && (GroupBefore(c.group, d.group) || (c.group == d.group && c.index > d.index))
  }

  /** All that is inside one of two sibling clusters comes before all that is inside
      the other. */
  lemma SiblingsDecide(letters: seq<int>, e1: Entry, e2: Entry, c: Cluster, d: Cluster)
    requires Comparable(e1) && Comparable(e2) && IsChild(e1.cluster, c) && IsChild(e2.cluster, d)
    requires SiblingBefore(c, d)
    ensures EntryCmp(letters, e1, e2) < 0
  {
    hide Path;
    hide IsChild;
    ChildSome(e1.cluster, c);
    ChildSome(e2.cluster, d);
    var x, y := e1.cluster.value, e2.cluster.value;
    ChildHasPath(Some(x), c);
    ChildHasPath(Some(y), d);
    SiblingPaths(c, d);
    LexSameLength(Path(c), Path(x)[|Path(c)|..], Path(d), Path(y)[|Path(d)|..]);
    assert Path(x) == Path(c) + Path(x)[|Path(c)|..] && Path(y) == Path(d) + Path(y)[|Path(d)|..];
    ClusterIsLex(x, y);
    SiblingBases(c, d);
  }

  lemma ChildSome(c: Option<Cluster>, d: Cluster)
    requires IsChild(c, d)
    ensures c.Some?
  {
  }

  lemma SiblingBases(c: Cluster, d: Cluster)
    requires SiblingBefore(c, d)
    ensures GroupCmp(Base(c).group, Base(d).group) <= 0
  {
  }

  lemma SiblingPaths(c: Cluster, d: Cluster)
    requires WellFormed(c) && WellFormed(d) && SiblingBefore(c, d)
    ensures |Path(c)| == |Path(d)| && Lex(Path(c), Path(d)) < 0
  {
    hide Path;
    hide Lex;
    PathLength(c);
    PathLength(d);
    ClusterIsLex(c, d);
    GroupOrder(c.group, d.group);
  }

  /** In one cluster, the entries' own groups decide. */
  lemma OwnGroupsDecide(letters: seq<int>, e1: Entry, e2: Entry)
    requires Comparable(e1) && Comparable(e2) && e1.cluster == e2.cluster && GroupBefore(e1.group, e2.group)
    ensures EntryCmp(letters, e1, e2) < 0
  {
    SameClusterIsZero(e1.cluster);
    GroupOrder(e1.group, e2.group);
  }

  lemma SameClusterIsZero(c: Option<Cluster>)
    requires c.Some? ==> WellFormed(c.value)
    ensures c.Some? ==> ClusterCmp(c.value, c.value) == 0
  {
    if c.Some? {
      ClusterIsLex(c.value, c.value);
      LexReflexive(Path(c.value));
    }
  }

  // ---- What is compared in one group of one cluster --------------------------------------------

  predicate SamePlace(e1: Entry, e2: Entry) {
    e1.cluster == e2.cluster && e1.group == e2.group
  }

  lemma NamesDecide(letters: seq<int>, e1: Entry, e2: Entry)
    requires Comparable(e1) && Comparable(e2) && SamePlace(e1, e2)
    ensures EntryCmp(letters, e1, e2) == NameCmp(ViewOf(letters, e1), ViewOf(letters, e2))
  {
    hide NameCmp;
    hide ViewOf;
    SameClusterIsZero(e1.cluster);
  }

  /** `n` is the name of the first option that has one and is not hidden. */
  ghost predicate VisibleName(opts: seq<Opt>, n: string) {
    exists i :: 0 <= i < |opts| && opts[i].name == Some(n) && !opts[i].hidden
                && forall j :: 0 <= j < i ==> opts[j].name.None? || opts[j].hidden
  }

  lemma {:induction false} FirstLongExactly(opts: seq<Opt>)
    ensures match FirstLong(opts)
            case Some(n) => VisibleName(opts, n)
            case None => forall i :: 0 <= i < |opts| ==> opts[i].name.None? || opts[i].hidden
    decreases |opts|
  {
    if opts != [] && (opts[0].name.None? || opts[0].hidden) {
      FirstLongExactly(opts[1..]);
      if FirstLong(opts[1..]).Some? {
        var n := FirstLong(opts[1..]).value;
        var i :| 0 <= i < |opts[1..]| && opts[1..][i].name == Some(n) && !opts[1..][i].hidden
                 && forall j :: 0 <= j < i ==> opts[1..][j].name.None? || opts[1..][j].hidden;
        assert opts[i + 1].name == Some(n) && !opts[i + 1].hidden;
        assert forall j :: 0 < j < i + 1 ==> opts[j] == opts[1..][j - 1];
      }
    }
  }

  lemma VisibleNameIsFirst(opts: seq<Opt>, n: string)
    requires VisibleName(opts, n)
    ensures FirstLong(opts) == Some(n)
  {
    FirstLongExactly(opts);
  }

  /** The letter that counts is the first one shown and not hidden. */
  lemma {:induction false} FirstShortExactly(letters: seq<int>, so: nat, opts: seq<Opt>)
    ensures var r, shown := FirstShort(letters, so, opts), Decode(letters, so, opts);
            if r == 0 then forall i :: 0 <= i < |opts| && shown[i] ==> opts[i].hidden
            else exists i :: 0 <= i < |opts| && shown[i] && !opts[i].hidden && opts[i].key == r
                             && forall j :: 0 <= j < i && shown[j] ==> opts[j].hidden
    decreases |opts|
  {
    if opts != [] {
      var here := IsShort(opts[0]) && so < |letters| && letters[so] == opts[0].key;
      var so' := if here then so + 1 else so;
      var r, shown := FirstShort(letters, so, opts), Decode(letters, so, opts);
      FirstShortExactly(letters, so', opts[1..]);
      var rest := Decode(letters, so', opts[1..]);
      assert shown == [here] + rest;
      if here && !opts[0].hidden {
        assert shown[0] && opts[0].key == r;
      } else {
        assert r == FirstShort(letters, so', opts[1..]);
        assert forall i :: 0 < i < |opts| ==> shown[i] == rest[i - 1] && opts[i] == opts[1..][i - 1];
        if r != 0 {
          var i :| 0 <= i < |opts[1..]| && rest[i] && !opts[1..][i].hidden && opts[1..][i].key == r
                   && forall j :: 0 <= j < i && rest[j] ==> opts[1..][j].hidden;
          assert shown[i + 1] && !opts[i + 1].hidden && opts[i + 1].key == r;
        }
      }
    }
  }

  // ---- Documentation options -------------------------------------------------------------------------

  /** Everything before `p` is white space, and `p` is not. */
  predicate SpacesTo(s: string, p: nat) {
    p <= |s| && (forall i :: 0 <= i < p ==> IsSpace(s[i])) && (p < |s| ==> !IsSpace(s[p]))
  }

  /** The first letter or digit from `p` on is at `q`, or there is none. */
  predicate AlnumFrom(s: string, p: nat, q: nat) {
    p <= q <= |s| && (forall i :: p <= i < q ==> !IsAlnum(s[i])) && (q < |s| ==> IsAlnum(s[q]))
  }

  lemma {:induction false} SkipSpacesExactly(s: string) returns (p: nat)
    ensures SpacesTo(s, p) && SkipSpaces(s) == s[p..]
    decreases |s|
  {
    p := 0;
    if s != "" && IsSpace(s[0]) {
      var p' := SkipSpacesExactly(s[1..]);
      p := p' + 1;
      assert s[1..][p'..] == s[p..];
      assert forall i :: 0 < i < |s| ==> s[i] == s[1..][i - 1];
    } else {
      assert s[0..] == s;
    }
  }

  lemma {:induction false} SkipToAlnumExactly(s: string) returns (q: nat)
    ensures AlnumFrom(s, 0, q) && SkipToAlnum(s) == s[q..]
    decreases |s|
  {
    q := 0;
    if s != "" && !IsAlnum(s[0]) {
      var q' := SkipToAlnumExactly(s[1..]);
      q := q' + 1;
      assert s[1..][q'..] == s[q..];
      assert forall i :: 0 < i < |s| ==> s[i] == s[1..][i - 1];
    } else {
      assert s[0..] == s;
    }
  }

  lemma OneSpaceEnd(s: string, p: nat, p': nat)
    requires SpacesTo(s, p) && SpacesTo(s, p')
    ensures p == p'
  {
  }

  lemma OneAlnum(s: string, p: nat, q: nat, q': nat)
    requires AlnumFrom(s, p, q) && AlnumFrom(s, p, q')
    ensures q == q'
  {
  }

  /** canon_doc_option: a name is an option exactly if its first character behind
      white space is '-', and is compared from its first letter or digit on. */
  lemma CanonDocExactly(s: string, p: nat, q: nat)
    requires SpacesTo(s, p) && AlnumFrom(s, p, q)
    ensures CanonDoc(s) == (p == |s| || s[p] != '-', s[q..])
  {
    var p' := SkipSpacesExactly(s);
    OneSpaceEnd(s, p, p');
    var q' := SkipToAlnumExactly(s[p..]);
    assert forall i :: p <= i < |s| ==> s[i] == s[p..][i - p];
    assert s[p..][q'..] == s[p + q'..];
    OneAlnum(s, p, q, p + q');
  }

  /** Documentation that does not look like an option follows all options of its
      group and cluster. */
  lemma DocsLast(letters: seq<int>, e1: Entry, e2: Entry, n: string, p: nat)
    requires Comparable(e1) && Comparable(e2) && SamePlace(e1, e2)
    requires !e1.opts[0].isDoc && e2.opts[0].isDoc && VisibleName(e2.opts, n)
    requires SpacesTo(n, p) && (p == |n| || n[p] != '-')
    ensures EntryCmp(letters, e1, e2) < 0
  {
    hide FirstShort;
    VisibleNameIsFirst(e2.opts, n);
    NamesDecide(letters, e1, e2);
    var p' := SkipSpacesExactly(n);
    OneSpaceEnd(n, p, p');
  }

  /** Documentation that looks like an option sorts exactly as an option would whose
      name is the part from the first letter or digit on. */
  lemma DashedDocSortsAsOption(letters: seq<int>, e: Entry, x: Entry, n: string, p: nat, q: nat, o: Opt)
    requires Comparable(e) && Comparable(x) && e.opts[0].isDoc && VisibleName(e.opts, n)
    requires SpacesTo(n, p) && p < |n| && n[p] == '-' && AlnumFrom(n, p, q)
    requires FirstShort(letters, e.so, e.opts) == 0
    requires o.name == Some(n[q..]) && o.key == 0 && !o.isDoc && !o.hidden
    ensures Comparable(e.(opts := [o])) && EntryCmp(letters, e, x) == EntryCmp(letters, e.(opts := [o]), x)
  {
    VisibleNameIsFirst(e.opts, n);
    CanonDocExactly(n, p, q);
    var e' := e.(opts := [o]);
    assert '\0' !in n[q..] by { NameHasNoNul(e, n); }
    assert [o][1..] == [];
    assert FirstShort(letters, e.so, [o]) == FirstShort(letters, e.so, []) == 0;
    assert ViewOf(letters, e) == ViewOf(letters, e');
  }

  lemma NameHasNoNul(e: Entry, n: string)
    requires Comparable(e) && VisibleName(e.opts, n)
    ensures '\0' !in n
  {
  }

  // ---- Letters and names -----------------------------------------------------------------------------

  /** Two characters are the same letter in different case, or the same character. */
  lemma LowerExactly(c: int, d: int)
    ensures ToLower(c) == ToLower(d) <==> c == d || (65 <= c <= 90 && d == c + 32) || (65 <= d <= 90 && c == d + 32)
  {
  }

  /** Options with letters: alphabetically, and the lower-case letter first. */
  lemma LettersDecide(letters: seq<int>, e1: Entry, e2: Entry, c: int, d: int)
    requires Comparable(e1) && Comparable(e2) && SamePlace(e1, e2) && !e1.opts[0].isDoc && !e2.opts[0].isDoc
    requires FirstShort(letters, e1.so, e1.opts) == c != 0 && FirstShort(letters, e2.so, e2.opts) == d != 0
    ensures ToLower(c) < ToLower(d) ==> EntryCmp(letters, e1, e2) < 0
    ensures 65 <= d <= 90 && c == d + 32 ==> EntryCmp(letters, e1, e2) < 0
  {
    NamesDecide(letters, e1, e2);
  }

  /** An option without a letter is placed by the first character of its name, and
      before an option whose letter is that character. */
  lemma NameAgainstLetter(letters: seq<int>, e1: Entry, e2: Entry, n: string, d: int)
    requires Comparable(e1) && Comparable(e2) && SamePlace(e1, e2) && !e1.opts[0].isDoc && !e2.opts[0].isDoc
    requires FirstShort(letters, e1.so, e1.opts) == 0 && VisibleName(e1.opts, n) && n != ""
    requires FirstShort(letters, e2.so, e2.opts) == d != 0
    ensures ToLower(n[0] as int) < ToLower(d) ==> EntryCmp(letters, e1, e2) < 0
    ensures ToLower(n[0] as int) > ToLower(d) ==> EntryCmp(letters, e1, e2) > 0
    ensures n[0] as int == d ==> EntryCmp(letters, e1, e2) < 0
  {
    VisibleNameIsFirst(e1.opts, n);
    NamesDecide(letters, e1, e2);
  }

  /** Two options without letters whose names start with the same character are in
      the order of their names, case ignored. */
  lemma LongNamesDecide(letters: seq<int>, e1: Entry, e2: Entry, m: string, n: string)
    requires Comparable(e1) && Comparable(e2) && SamePlace(e1, e2) && !e1.opts[0].isDoc && !e2.opts[0].isDoc
    requires FirstShort(letters, e1.so, e1.opts) == 0 && FirstShort(letters, e2.so, e2.opts) == 0
    requires VisibleName(e1.opts, m) && VisibleName(e2.opts, n) && m != "" && n != "" && m[0] == n[0]
    ensures Sign(EntryCmp(letters, e1, e2)) == Lex(StringKey(m), StringKey(n))
  {
    VisibleNameIsFirst(e1.opts, m);
    VisibleNameIsFirst(e2.opts, n);
    NamesDecide(letters, e1, e2);
    NameHasNoNul(e1, m);
    NameHasNoNul(e2, n);
    StringIsLex(m, n);
  }
}
