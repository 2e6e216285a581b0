/** When the clusters of a tree are unambiguous, and what the help output looks
    like when they are not. */
module HelpTree {
  import opened Basics
  import opened Argp
  import opened ArgpTree
  import opened HelpList
  import opened HelpOrder
  import opened HelpClusters

  /** The clusters argp_hol makes for the children `cs`, the first of which is
      child number `i` of an argp shown in `cl`, and for all argps below. */
  function Clusters(cs: seq<Argp>, node: Node, cl: Option<Cluster>, i: nat): set<Cluster>
    decreases cs
  {
    if cs == [] then {} else FirstClusters(cs, node, cl, i) + Clusters(cs[1..], node, cl, i + 1)
  }

  function FirstClusters(cs: seq<Argp>, node: Node, cl: Option<Cluster>, i: nat): set<Cluster>
    requires cs != []
    decreases cs, 0
  {
    var cc := ChildCluster(cs[0], node, i, cl);
    (if Headed(cs[0]) then {cc.value} else {}) + Clusters(cs[0].children, node + [i], cc, 0)
  }

  /** Group and index of the clusters made directly in the cluster of the parent:
      a child that is merged into it hands on those of its own children. */
  function Tags(cs: seq<Argp>, i: nat): seq<(int, nat)>
    decreases cs
  {
    if cs == [] then [] else FirstTags(cs, i) + Tags(cs[1..], i + 1)
  }

  function FirstTags(cs: seq<Argp>, i: nat): seq<(int, nat)>
    requires cs != []
    decreases cs, 0
  {
    if Headed(cs[0]) then [(cs[0].group, i)] else Tags(cs[0].children, 0)
  }

  predicate NoRepeat(s: seq<(int, nat)>) {
    forall i, j :: 0 <= i < j < |s| ==> s[i] != s[j]
  }

  /** The tags inside every cluster below are distinct. */
  predicate TagsApart(cs: seq<Argp>)
    decreases cs
  {
    cs == [] ||
    ((Headed(cs[0]) ==> NoRepeat(Tags(cs[0].children, 0))) && TagsApart(cs[0].children) && TagsApart(cs[1..]))
  }

  /** The check a program can make on its tree. */
  predicate TreeApart(a: Argp) {
    NoRepeat(Tags(a.children, 0)) && TagsApart(a.children)
  }

  // ---- Where clusters lie -----------------------------------------------------------------------

  function TagOf(c: Cluster): (int, nat) {
    (c.group, c.index)
  }

  ghost predicate Apart(s: set<Cluster>) {
    forall c, d :: c in s && d in s && c.parent == d.parent && TagOf(c) == TagOf(d) ==> c == d
  }

  /** The cluster belongs to child number `j` of the argp at `node`, or below. */
  predicate InBranch(c: Cluster, node: Node, j: nat) {
    |node| < |c.node| && c.node[..|node|] == node && c.node[|node|] == j
  }

  /** A cluster around the argp at `node`. */
  predicate Around(cl: Option<Cluster>, node: Node) {
    cl.Some? ==> |cl.value.node| <= |node| && WellFormed(cl.value)
  }

  /** Clusters of one branch: the parent is the one around, or in the branch. */
  ghost predicate Branch(s: set<Cluster>, node: Node, cl: Option<Cluster>, j: nat) {
    forall c :: c in s ==>
      && InBranch(c, node, j) && WellFormed(c)
      && (c.parent == cl || (c.parent.Some? && c.parent.value in s))
  }

  /** Clusters of the branches from number `i` on. */
  ghost predicate Branches(s: set<Cluster>, node: Node, cl: Option<Cluster>, i: nat) {
    forall c :: c in s ==>
      && |node| < |c.node| && c.node[..|node|] == node && c.node[|node|] >= i && WellFormed(c)
      && (c.parent == cl
          || (c.parent.Some? && c.parent.value in s && |node| < |c.parent.value.node|
              && c.parent.value.node[|node|] == c.node[|node|]))
  }

  lemma {:induction false} ClustersBranch(cs: seq<Argp>, node: Node, cl: Option<Cluster>, i: nat)
    requires Around(cl, node)
    ensures Branches(Clusters(cs, node, cl, i), node, cl, i)
    decreases cs, 1
  {
    if cs != [] {
      FirstBranch(cs, node, cl, i);
      ClustersBranch(cs[1..], node, cl, i + 1);
    }
  }

  lemma {:induction false} FirstBranch(cs: seq<Argp>, node: Node, cl: Option<Cluster>, i: nat)
    requires cs != [] && Around(cl, node)
    ensures Branch(FirstClusters(cs, node, cl, i), node, cl, i)
    decreases cs, 0
  {
    var cc := ChildCluster(cs[0], node, i, cl);
    ClustersBranch(cs[0].children, node + [i], cc, 0);
    var below := Clusters(cs[0].children, node + [i], cc, 0);
    forall c | c in below ensures InBranch(c, node, i) {
      assert c.node[..|node|] == c.node[..|node| + 1][..|node|] == (node + [i])[..|node|] == node;
      assert c.node[|node|] == c.node[..|node| + 1][|node|] == (node + [i])[|node|] == i;
    }
  }

  // ---- Tags are those of the clusters directly in the one around --------------------------------

  ghost predicate HasTag(s: set<Cluster>, cl: Option<Cluster>, tag: (int, nat)) {
    exists c :: c in s && c.parent == cl && TagOf(c) == tag
  }

  lemma {:induction false} TagsAre(cs: seq<Argp>, node: Node, cl: Option<Cluster>, i: nat, tag: (int, nat))
    requires Around(cl, node)
    ensures tag in Tags(cs, i) <==> HasTag(Clusters(cs, node, cl, i), cl, tag)
    decreases cs, 1
  {
    if cs != [] {
      FirstTagsAre(cs, node, cl, i, tag);
      TagsAre(cs[1..], node, cl, i + 1, tag);
      HasTagUnion(FirstClusters(cs, node, cl, i), Clusters(cs[1..], node, cl, i + 1), cl, tag);
    }
  }

  lemma HasTagUnion(a: set<Cluster>, b: set<Cluster>, cl: Option<Cluster>, tag: (int, nat))
    ensures HasTag(a + b, cl, tag) <==> HasTag(a, cl, tag) || HasTag(b, cl, tag)
  {
    if HasTag(a, cl, tag) {
      var c :| c in a && c.parent == cl && TagOf(c) == tag;
      assert c in a + b;
    }
    if HasTag(b, cl, tag) {
      var c :| c in b && c.parent == cl && TagOf(c) == tag;
      assert c in a + b;
    }
  }

  lemma {:induction false} FirstTagsAre(cs: seq<Argp>, node: Node, cl: Option<Cluster>, i: nat, tag: (int, nat))
    requires cs != [] && Around(cl, node)
    ensures tag in FirstTags(cs, i) <==> HasTag(FirstClusters(cs, node, cl, i), cl, tag)
    decreases cs, 0
  {
    var cc := ChildCluster(cs[0], node, i, cl);
    var below := Clusters(cs[0].children, node + [i], cc, 0);
    if Headed(cs[0]) {
      var h := cc.value;
      NoneDirect(cs[0].children, node + [i], cl, h);
      assert h in FirstClusters(cs, node, cl, i);
      assert TagOf(h) == (cs[0].group, i) && h.parent == cl;
    } else {
      TagsAre(cs[0].children, node + [i], cl, 0, tag);
      assert FirstClusters(cs, node, cl, i) == below;
    }
  }

  /** Inside a cluster of its own, nothing has the cluster around as parent. */
  lemma NoneDirect(cs: seq<Argp>, node: Node, cl: Option<Cluster>, h: Cluster)
    requires WellFormed(h) && h.node == node && h.parent == cl && node != [] && Around(cl, node[..|node| - 1])
    ensures forall c :: c in Clusters(cs, node, Some(h), 0) ==> c.parent != cl && c != h
  {
    ClustersBranch(cs, node, Some(h), 0);
  }

  // ---- The exact condition --------------------------------------------------------------------------

  /** Two sets of clusters from different branches. */
  lemma ApartUnion(a: set<Cluster>, b: set<Cluster>, node: Node, cl: Option<Cluster>, i: nat)
    requires Branch(a, node, cl, i) && Branches(b, node, cl, i + 1) && Around(cl, node)
    ensures Apart(a + b) <==> Apart(a) && Apart(b) && forall tag :: !(HasTag(a, cl, tag) && HasTag(b, cl, tag))
  {
    if Apart(a + b) {
      assert Apart(a) && Apart(b) by {
        forall c | c in a ensures c in a + b { }
        forall c | c in b ensures c in a + b { }
      }
      forall c, d | c in a && d in b && c.parent == cl && d.parent == cl ensures TagOf(c) != TagOf(d) {
        assert c in a + b && d in a + b;
      }
    }
    if Apart(a) && Apart(b) && forall tag :: !(HasTag(a, cl, tag) && HasTag(b, cl, tag)) {
      forall c, d | c in a + b && d in a + b && c.parent == d.parent && TagOf(c) == TagOf(d) ensures c == d {
        if c in a && d in b {
          ApartCross(a, b, node, cl, i, c, d);
        } else if c in b && d in a {
          ApartCross(a, b, node, cl, i, d, c);
        }
      }
    }
  }

  lemma ApartCross(a: set<Cluster>, b: set<Cluster>, node: Node, cl: Option<Cluster>, i: nat, c: Cluster, d: Cluster)
    requires Branch(a, node, cl, i) && Branches(b, node, cl, i + 1) && Around(cl, node)
    requires c in a && d in b && c.parent == d.parent && TagOf(c) == TagOf(d)
    ensures HasTag(a, cl, TagOf(c)) && HasTag(b, cl, TagOf(c))
  {
    assert c.parent != cl ==> InBranch(c.parent.value, node, i);
  }

  lemma NoRepeatUnion(a: seq<(int, nat)>, b: seq<(int, nat)>)
    ensures NoRepeat(a + b) <==> NoRepeat(a) && NoRepeat(b) && forall x :: !(x in a && x in b)
  {
    var s := a + b;
    if NoRepeat(s) {
      forall i, j | 0 <= i < j < |a| ensures a[i] != a[j] { assert s[i] != s[j]; }
      forall i, j | 0 <= i < j < |b| ensures b[i] != b[j] { assert s[|a| + i] != s[|a| + j]; }
      forall i, j | 0 <= i < |a| && 0 <= j < |b| ensures a[i] != b[j] { assert s[i] != s[|a| + j]; }
    }
    if NoRepeat(a) && NoRepeat(b) && forall x :: !(x in a && x in b) {
      forall i, j | 0 <= i < j < |s| ensures s[i] != s[j] {
        if i < |a| <= j { assert a[i] in a && b[j - |a|] in b; }
      }
    }
  }

  lemma {:induction false} ApartExactly(cs: seq<Argp>, node: Node, cl: Option<Cluster>, i: nat)
    requires Around(cl, node)
    ensures Apart(Clusters(cs, node, cl, i)) <==> NoRepeat(Tags(cs, i)) && TagsApart(cs)
    decreases cs, 1
  {
    if cs != [] {
      var a, b := FirstClusters(cs, node, cl, i), Clusters(cs[1..], node, cl, i + 1);
      hide Apart;
      hide HasTag;
      hide NoRepeat;
      FirstApart(cs, node, cl, i);
      ApartExactly(cs[1..], node, cl, i + 1);
      FirstBranch(cs, node, cl, i);
      ClustersBranch(cs[1..], node, cl, i + 1);
      ApartUnion(a, b, node, cl, i);
      NoRepeatUnion(FirstTags(cs, i), Tags(cs[1..], i + 1));
      forall tag
        ensures tag in FirstTags(cs, i) <==> HasTag(a, cl, tag)
        ensures tag in Tags(cs[1..], i + 1) <==> HasTag(b, cl, tag)
      {
        FirstTagsAre(cs, node, cl, i, tag);
        TagsAre(cs[1..], node, cl, i + 1, tag);
      }
    }
  }

  lemma {:induction false} FirstApart(cs: seq<Argp>, node: Node, cl: Option<Cluster>, i: nat)
    requires cs != [] && Around(cl, node)
    ensures Apart(FirstClusters(cs, node, cl, i))
            <==> NoRepeat(FirstTags(cs, i)) && (Headed(cs[0]) ==> NoRepeat(Tags(cs[0].children, 0)))
                 && TagsApart(cs[0].children)
    decreases cs, 0
  {
    var cc := ChildCluster(cs[0], node, i, cl);
    var below := Clusters(cs[0].children, node + [i], cc, 0);
    ApartExactly(cs[0].children, node + [i], cc, 0);
    if Headed(cs[0]) {
      NoneDirect(cs[0].children, node + [i], cl, cc.value);
      assert Apart({cc.value} + below) <==> Apart(below) by { ApartWithHead(below, cc.value); }
    } else {
      assert FirstClusters(cs, node, cl, i) == below;
    }
  }

  lemma ApartWithHead(below: set<Cluster>, h: Cluster)
    requires forall c :: c in below ==> c.parent != h.parent
    ensures Apart({h} + below) <==> Apart(below)
  {
    if Apart({h} + below) {
      forall c | c in below ensures c in {h} + below { }
    }
  }

  /** The clusters of a tree are unambiguous if and only if the tags directly
      inside the whole list, and directly inside each cluster, are distinct. */
  lemma UnambiguousExactly(a: Argp)
    ensures Unambiguous(Clusters(a.children, [], None, 0)) <==> TreeApart(a)
  {
    hide Clusters;
    hide Tags;
    hide TagsApart;
    ClustersBranch(a.children, [], None, 0);
    ApartExactly(a.children, [], None, 0);
    ApartMeans(Clusters(a.children, [], None, 0), [], None);
  }

  lemma ApartMeans(all: set<Cluster>, node: Node, cl: Option<Cluster>)
    requires Branches(all, node, cl, 0) && cl == None
    ensures Unambiguous(all) <==> Apart(all)
  {
  }

  // ---- The help list of a tree ---------------------------------------------------------------------

  lemma {:induction false} ChildIn(cs: seq<Argp>, node: Node, cl: Option<Cluster>, i: nat, j: nat)
    requires j < |cs|
    ensures var cc := ChildCluster(cs[j], node, i + j, cl);
            && (Headed(cs[j]) ==> cc.value in Clusters(cs, node, cl, i))
            && Clusters(cs[j].children, node + [i + j], cc, 0) <= Clusters(cs, node, cl, i)
    decreases cs
  {
    if j > 0 { ChildIn(cs[1..], node, cl, i + 1, j - 1); }
  }

  lemma {:induction false} ClusterAtIn(a: Argp, node: Node, cl: Option<Cluster>, path: Node)
    ensures var c := ClusterAt(a, node, cl, path);
            c == cl || (c.Some? && c.value in Clusters(a.children, node, cl, 0))
    decreases |path|
  {
    if path != [] && path[0] < |a.children| {
      var i := path[0];
      ChildIn(a.children, node, cl, 0, i);
      ClusterAtIn(a.children[i], node + [i], ChildCluster(a.children[i], node, i, cl), path[1..]);
    }
  }

  /** For every tree that passes the check, and however the list that argp_hol
      makes is sorted, no cluster header is printed twice.  The check is exact for
      ambiguity only: a tree that fails it repeats a header just if the names of
      its entries make equal clusters interleave, as in HeaderRepeats. */
  lemma HeadersOfTree(a: Argp, h: Hol, es: seq<Entry>)
    requires InPlace(h.entries, a, [], None) && multiset(es) == multiset(h.entries) && Sorted(h.letters, es)
    requires TreeApart(a)
    ensures forall i :: 0 <= i < |es| ==> es[i].opts != []
    ensures var hs := Entered(h.letters, es, |es|);
            hs == Headers(h.letters, es, |es|) && forall i, j :: 0 <= i < j < |hs| ==> hs[i] != hs[j]
  {
    hide Unambiguous;
    hide Sorted;
    hide Clusters;
    hide TreeApart;
    var all := Clusters(a.children, [], None, 0);
    UnambiguousExactly(a);
    forall i | 0 <= i < |es| && es[i].cluster.Some? ensures es[i].cluster.value in all {
      assert es[i] in multiset(es) && es[i] in h.entries;
      ClusterAtIn(a, [], None, es[i].node[0..]);
    }
    HeadersWithoutRepeat(all, h.letters, es, |es|);
  }

  // ---- A tree whose headers repeat ---------------------------------------------------------------------

  function Letter(key: int): Opt {
    Opt(None, key, false, None, 0, false, false, false, false)
  }

  function Leaf(header: string, keys: seq<int>): Argp {
    Argp(Some(seq(|keys|, i requires 0 <= i < |keys| => Letter(keys[i]))), false, None, [], 0, Some(header))
  }

  function Merged(c: Argp): Argp {
    Argp(None, false, None, [c], 0, None)
  }

  /** Two children without group and header, each with one child under a header:
      options a and c under "A", option b under "B". */
  function Twins(): Argp {
    Argp(None, false, None, [Merged(Leaf("A", [97, 99])), Merged(Leaf("B", [98]))], 0, None)
  }

  function Twin(i: nat, header: string): Cluster {
    Cluster([i, 0], Some(header), 0, 0, None, 0)
  }

  function TwinEntry(key: int, so: nat, i: nat, header: string): Entry {
    Entry([Letter(key)], so, 0, Some(Twin(i, header)), [i, 0])
  }

  /** The list argp_hol makes for it, in pre-order. */
  function TwinHol(): Hol {
    Hol([TwinEntry(97, 0, 0, "A"), TwinEntry(99, 1, 0, "A"), TwinEntry(98, 2, 1, "B")], [97, 99, 98])
  }

  function TwinOwned(key: int, i: nat): Owned {
    Owned(Letter(key), Letter(key), [i, 0])
  }

  lemma TwinGroups()
    ensures Groups(Twins(), []) == [Located(Leaf("A", [97, 99]), [0, 0]), Located(Leaf("B", [98]), [1, 0])]
  {
    var la, lb := Leaf("A", [97, 99]), Leaf("B", [98]);
    MergedGroups(la, 0);
    MergedGroups(lb, 1);
    var cs := Twins().children;
    assert cs[1..] == [Merged(lb)] && cs[1..][1..] == [];
    assert ChildGroups(cs[1..], [], 1) == Groups(Merged(lb), [] + [1]) + ChildGroups([], [], 2);
    assert [] + [0] == [0] && [] + [1] == [1];
  }

  lemma MergedGroups(c: Argp, i: nat)
    requires c.children == [] && HasGroup(c)
    ensures Groups(Merged(c), [i]) == [Located(c, [i, 0])]
  {
    var cs := [c];
    assert cs[1..] == [] && [i] + [0] == [i, 0];
    assert Groups(c, [i, 0]) == [Located(c, [i, 0])] + ChildGroups([], [i, 0], 0);
    assert ChildGroups(cs, [i], 0) == Groups(c, [i, 0]) + ChildGroups([], [i], 1);
  }

  /** One more entry with one option. */
  lemma OneMore(es: seq<Entry>, key: int, so: nat, i: nat, header: string, os: seq<Owned>, letters: seq<int>)
    requires AllOptions(es) == os && Letters(os) == letters && IsShort(Letter(key)) && key !in letters
    ensures AllOptions(es + [TwinEntry(key, so, i, header)]) == os + [TwinOwned(key, i)]
    ensures Letters(os + [TwinOwned(key, i)]) == letters + [key]
  {
    hide AllOptions;
    hide Letters;
    var e := TwinEntry(key, so, i, header);
    AllOptionsSnoc(es, e);
    assert Options(e) == [TwinOwned(key, i)];
    LettersSnoc(os, TwinOwned(key, i));
  }

  lemma TwinLetters()
    ensures var es := TwinHol().entries;
            && AllOptions(es) == [TwinOwned(97, 0), TwinOwned(99, 0), TwinOwned(98, 1)]
            && Letters(AllOptions(es)) == [97, 99, 98]
            && Start(es, 0) == 0 && Start(es, 1) == 1 && Start(es, 2) == 2
  {
    hide AllOptions;
    hide Letters;
    EmptyHol();
    var a, c, b := TwinEntry(97, 0, 0, "A"), TwinEntry(99, 1, 0, "A"), TwinEntry(98, 2, 1, "B");
    var x, z := TwinOwned(97, 0), TwinOwned(99, 0);
    OneMore([], 97, 0, 0, "A", [], []);
    assert [] + [a] == [a] && [] + [x] == [x];
    OneMore([a], 99, 1, 0, "A", [x], [97]);
    assert [a] + [c] == [a, c] && [x] + [z] == [x, z];
    OneMore([a, c], 98, 2, 1, "B", [x, z], [97, 99]);
    var es := TwinHol().entries;
    assert es == [a, c] + [b] && es[..0] == [] && es[..1] == [a] && es[..2] == [a, c];
  }

  lemma TwinDeclared()
    ensures AllDeclared(Groups(Twins(), [])) == [TwinOwned(97, 0), TwinOwned(99, 0), TwinOwned(98, 1)]
  {
    hide AllDeclared;
    hide Groups;
    var ga, gb := Located(Leaf("A", [97, 99]), [0, 0]), Located(Leaf("B", [98]), [1, 0]);
    TwinGroups();
    AllDeclaredSnoc([ga], gb);
    AllDeclaredSnoc([], ga);
    NothingDeclared();
    assert [] + [ga] == [ga] && [ga] + [gb] == [ga, gb];
    assert Declared(ga) == [TwinOwned(97, 0), TwinOwned(99, 0)];
    assert Declared(gb) == [TwinOwned(98, 1)];
  }

  lemma NothingDeclared()
    ensures AllDeclared([]) == []
  {
  }

  lemma TwinOptions()
    ensures AllOptions(TwinHol().entries) == AllDeclared(Groups(Twins(), []))
    ensures Segmented(TwinHol())
  {
    hide AllOptions;
    hide AllDeclared;
    hide Groups;
    hide Letters;
    hide Start;
    TwinDeclared();
    TwinLetters();
  }

  lemma TwinPlaces()
    ensures InPlace(TwinHol().entries, Twins(), [], None)
  {
    TwinCluster(0, "A", [97, 99]);
    TwinCluster(1, "B", [98]);
    forall e | e in TwinHol().entries ensures e.cluster == ClusterAt(Twins(), [], None, e.node[0..]) {
      assert e.node[0..] == e.node;
    }
  }

  lemma TwinCluster(i: nat, header: string, keys: seq<int>)
    requires i < 2 && Twins().children[i] == Merged(Leaf(header, keys))
    ensures ClusterAt(Twins(), [], None, [i, 0]) == Some(Twin(i, header))
  {
    var m := Merged(Leaf(header, keys));
    assert [i, 0][1..] == [0] && [0][1..] == [];
    assert [] + [i] == [i] && [i] + [0] == [i, 0];
    assert ChildCluster(m, [], i, None) == None;
    assert ChildCluster(m.children[0], [i], 0, None) == Some(Twin(i, header));
    assert ClusterAt(m, [i], None, [0]) == ClusterAt(m.children[0], [i, 0], Some(Twin(i, header)), []);
  }

  lemma TwinView(key: int, so: nat, i: nat, header: string)
    requires (key == 97 && so == 0) || (key == 99 && so == 1) || (key == 98 && so == 2)
    ensures var e := TwinEntry(key, so, i, header);
            && Comparable(e) && ViewOf([97, 99, 98], e) == View(false, key, None)
            && ActionOf([97, 99, 98], e) == Lines
  {
    var e := TwinEntry(key, so, i, header);
    assert e.opts[1..] == [];
    assert FirstLong(e.opts) == None;
    assert Decode([97, 99, 98], so, e.opts)[0];
  }

  lemma TwinOrder(i: nat, a: string, j: nat, b: string, x: int, so: nat, y: int, so': nat)
    requires (x == 97 && so == 0 && y == 98 && so' == 2) || (x == 97 && so == 0 && y == 99 && so' == 1)
             || (x == 98 && so == 2 && y == 99 && so' == 1)
    ensures Comparable(TwinEntry(x, so, i, a)) && Comparable(TwinEntry(y, so', j, b))
    ensures EntryCmp([97, 99, 98], TwinEntry(x, so, i, a), TwinEntry(y, so', j, b)) < 0
  {
    TwinView(x, so, i, a);
    TwinView(y, so', j, b);
  }

  /** The list as sorted: the clusters compare equal, so the letters decide. */
  function TwinSorted(): seq<Entry> {
    [TwinEntry(97, 0, 0, "A"), TwinEntry(98, 2, 1, "B"), TwinEntry(99, 1, 0, "A")]
  }

  lemma TwinsSorted()
    ensures Sorted([97, 99, 98], TwinSorted())
  {
    hide EntryCmp;
    hide Comparable;
    TwinOrder(0, "A", 1, "B", 97, 0, 98, 2);
    TwinOrder(0, "A", 0, "A", 97, 0, 99, 1);
    TwinOrder(1, "B", 0, "A", 98, 2, 99, 1);
  }

  lemma TwinsEnter()
    ensures forall i :: 0 <= i < 3 ==> TwinSorted()[i].opts != []
    ensures Entered([97, 99, 98], TwinSorted(), 3) == [Twin(0, "A"), Twin(1, "B"), Twin(0, "A")]
  {
    hide ActionOf;
    var letters, es := [97, 99, 98], TwinSorted();
    TwinView(97, 0, 0, "A");
    TwinView(98, 2, 1, "B");
    TwinView(99, 1, 0, "A");
    TwinsDiffer();
    assert Seen(letters, es, 0) && Seen(letters, es, 1) && Seen(letters, es, 2);
    assert Enters(letters, es, 0);
    assert Enters(letters, es, 1);
    assert Enters(letters, es, 2) by {
      assert !LastSeen(letters, es, 0, 2);
    }
    assert Entered(letters, es, 0) == [];
    assert Entered(letters, es, 1) == [Twin(0, "A")];
    assert Entered(letters, es, 2) == [Twin(0, "A"), Twin(1, "B")];
  }

  lemma TwinsDiffer()
    ensures !IsChild(Some(Twin(0, "A")), Twin(1, "B")) && !IsChild(Some(Twin(1, "B")), Twin(0, "A"))
  {
    assert Twin(0, "A").node[0] != Twin(1, "B").node[0];
    assert !IsChild(None, Twin(0, "A")) && !IsChild(None, Twin(1, "B"));
  }

  lemma TwinsFail()
    ensures !TreeApart(Twins())
  {
    var la, lb := Leaf("A", [97, 99]), Leaf("B", [98]);
    MergedTags(la);
    MergedTags(lb);
    var cs := Twins().children;
    assert cs[1..] == [Merged(lb)] && cs[1..][1..] == [];
    assert Tags(cs[1..], 1) == FirstTags(cs[1..], 1) + Tags([], 2);
    assert Tags(cs, 0) == FirstTags(cs, 0) + Tags(cs[1..], 1);
    assert Tags(cs, 0)[0] == Tags(cs, 0)[1];
  }

  lemma MergedTags(c: Argp)
    requires Headed(c)
    ensures Tags([c], 0) == [(c.group, 0)]
  {
    assert [c][1..] == [];
    assert Tags([], 1) == [];
  }

  /** The condition is needed: for this tree the list of argp_hol, sorted, prints
      the header "A" twice. */
  lemma HeaderRepeats()
    ensures AllOptions(TwinHol().entries) == AllDeclared(Groups(Twins(), [])) && Segmented(TwinHol())
    ensures InPlace(TwinHol().entries, Twins(), [], None) && !TreeApart(Twins())
    ensures multiset(TwinSorted()) == multiset(TwinHol().entries) && Sorted(TwinHol().letters, TwinSorted())
    ensures forall i :: 0 <= i < 3 ==> TwinSorted()[i].opts != []
    ensures Entered(TwinHol().letters, TwinSorted(), 3) == [Twin(0, "A"), Twin(1, "B"), Twin(0, "A")]
  {
    hide Sorted;
    hide Segmented;
    hide InPlace;
    hide TreeApart;
    hide AllOptions;
    hide AllDeclared;
    hide Groups;
    hide Entered;
    TwinOptions();
    TwinPlaces();
    TwinsSorted();
    TwinsEnter();
    TwinsFail();
  }
}
