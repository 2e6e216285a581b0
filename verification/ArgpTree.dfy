/** An argp tree read in pre-order: the order in which both the help list and the
    parser tables take its options. */
module ArgpTree {
  import opened Argp

  /** An argp of the tree and the way to it. */
  datatype Located = Located(argp: Argp, node: Node)

  /** An option, the non-alias option it stands for, and where it is declared. */
  datatype Owned = Owned(opt: Opt, base: Opt, node: Node)

  /** The parser gives an argp a group if it has options or a parser. */
  predicate HasGroup(a: Argp) {
    a.options.Some? || a.hasParser
  }

  /** The argps with a group, parents before children, siblings in order. */
  function Groups(a: Argp, node: Node): seq<Located>
    decreases a, 1
  {
    (if HasGroup(a) then [Located(a, node)] else []) + ChildGroups(a.children, node, 0)
  }

  /** The groups below the children from number `i` on. */
  function ChildGroups(cs: seq<Argp>, node: Node, i: nat): seq<Located>
    decreases cs, 0
  {
    if cs == [] then [] else Groups(cs[0], node + [i]) + ChildGroups(cs[1..], node, i + 1)
  }

  /** Every group of a tree is at its root or below, and only the first at the root. */
  lemma {:induction false} GroupsBelow(a: Argp, node: Node, k: nat)
    requires k < |Groups(a, node)|
    ensures node <= Groups(a, node)[k].node && (Groups(a, node)[k].node == node ==> k == 0)
    decreases a, 1
  {
    var own := if HasGroup(a) then 1 else 0;
    if k >= own { ChildGroupsBelow(a.children, node, 0, k - own); }
  }

  lemma {:induction false} ChildGroupsBelow(cs: seq<Argp>, node: Node, i: nat, k: nat)
    requires k < |ChildGroups(cs, node, i)|
    ensures var m := ChildGroups(cs, node, i)[k].node; node < m && i <= m[|node|]
    ensures cs != [] && k < |Groups(cs[0], node + [i])| ==> ChildGroups(cs, node, i)[k].node[|node|] == i
    decreases cs, 0
  {
    var n := |Groups(cs[0], node + [i])|;
    if k < n {
      GroupsBelow(cs[0], node + [i], k);
      var m := Groups(cs[0], node + [i])[k].node;
      assert m[..|node| + 1] == node + [i];
      assert m[..|node|] == node && m[|node|] == i;
    } else {
      ChildGroupsBelow(cs[1..], node, i + 1, k - n);
    }
  }

  /** Groups come in pre-order: a group above another comes before it, however
      many argps without a group lie between them. */
  lemma {:induction false} PreOrder(a: Argp, node: Node, i: nat, j: nat)
    requires i < |Groups(a, node)| && j < |Groups(a, node)| && Groups(a, node)[i].node < Groups(a, node)[j].node
    ensures i < j
    decreases a, 1
  {
    GroupsBelow(a, node, i);
    GroupsBelow(a, node, j);
    var own := if HasGroup(a) then 1 else 0;
    if i >= own && j >= own {
      ChildPreOrder(a.children, node, 0, i - own, j - own);
    }
  }

  lemma {:induction false} ChildPreOrder(cs: seq<Argp>, node: Node, n: nat, i: nat, j: nat)
    requires i < |ChildGroups(cs, node, n)| && j < |ChildGroups(cs, node, n)|
    requires ChildGroups(cs, node, n)[i].node < ChildGroups(cs, node, n)[j].node
    ensures i < j
    decreases cs, 0
  {
    ChildGroupsBelow(cs, node, n, i);
    ChildGroupsBelow(cs, node, n, j);
    var k := |Groups(cs[0], node + [n])|;
    if i < k && j < k {
      PreOrder(cs[0], node + [n], i, j);
    } else if i >= k && j >= k {
      ChildPreOrder(cs[1..], node, n + 1, i - k, j - k);
    } else if j < k {
      ChildGroupsBelow(cs[1..], node, n + 1, i - k);
    }
  }

  /** The most recent non-alias option up to `i`, or the first. */
  function RealAt(opts: seq<Opt>, i: nat): Opt
    requires i < |opts|
  {
    if i == 0 || !opts[i].isAlias then opts[i] else RealAt(opts, i - 1)
  }

  /** The options one argp declares. */
  function Declared(g: Located): seq<Owned> {
    var opts := Opts(g.argp);
    seq(|opts|, i requires 0 <= i < |opts| => Owned(opts[i], RealAt(opts, i), g.node))
  }

  function AllDeclared(gs: seq<Located>): seq<Owned> {
    if gs == [] then [] else AllDeclared(gs[..|gs| - 1]) + Declared(gs[|gs| - 1])
  }

  lemma Regroup<T>(a: seq<T>, b: seq<T>)
    requires b != []
    ensures a + b == (a + b[..|b| - 1]) + [b[|b| - 1]]
  {
    assert b == b[..|b| - 1] + [b[|b| - 1]];
  }

  lemma AllDeclaredSnoc(gs: seq<Located>, g: Located)
    ensures AllDeclared(gs + [g]) == AllDeclared(gs) + Declared(g)
  {
    hide Declared;
    assert (gs + [g])[..|gs|] == gs;
  }

  lemma {:induction false} AllDeclaredConcat(a: seq<Located>, b: seq<Located>)
    ensures AllDeclared(a + b) == AllDeclared(a) + AllDeclared(b)
    decreases |b|
  {
    hide Declared;
    if b == [] {
      assert a + b == a;
    } else {
      var n := |b| - 1;
      AllDeclaredConcat(a, b[..n]);
      Regroup(a, b);
      AllDeclaredSnoc(a + b[..n], b[n]);
    }
  }

  // ---- Short keys and first occurrences ---------------------------------------------

  /** Can the option be given by a single letter? */
  predicate Short(o: Owned) {
    IsShort(o.opt)
  }

  /** The short keys of some options, in order, repetitions included. */
  function Keys(os: seq<Owned>): (r: seq<int>)
    ensures forall k :: k in r <==> exists i :: 0 <= i < |os| && Short(os[i]) && os[i].opt.key == k
  {
    if os == [] then []
    else
      var n := |os| - 1;
      Keys(os[..n]) + if Short(os[n]) then [os[n].opt.key] else []
  }

  predicate Distinct(s: seq<int>) {
    forall i, j :: 0 <= i < j < |s| ==> s[i] != s[j]
  }

  /** The sequence without repetitions: every first occurrence. */
  function Dedup(s: seq<int>): (r: seq<int>)
    ensures Distinct(r)
    ensures forall k :: k in r <==> k in s
  {
    if s == [] then []
    else
      var n := |s| - 1;
      var d := Dedup(s[..n]);
      assert s == s[..n] + [s[n]];
      if s[n] in d then d else d + [s[n]]
  }

  lemma DedupSnoc(s: seq<int>, k: int)
    ensures Dedup(s + [k]) == if k in Dedup(s) then Dedup(s) else Dedup(s) + [k]
  {
    assert (s + [k])[..|s|] == s;
  }

  lemma {:induction false} DedupPrefix(s: seq<int>, t: seq<int>)
    ensures Dedup(s) <= Dedup(s + t)
    decreases |t|
  {
    if t == [] {
      assert s + t == s;
    } else {
      var n := |t| - 1;
      DedupPrefix(s, t[..n]);
      Regroup(s, t);
      DedupSnoc(s + t[..n], t[n]);
    }
  }

  lemma KeysSnoc(os: seq<Owned>, o: Owned)
    ensures Keys(os + [o]) == Keys(os) + if Short(o) then [o.opt.key] else []
  {
    assert (os + [o])[..|os|] == os;
  }

  lemma {:induction false} KeysConcat(a: seq<Owned>, b: seq<Owned>)
    ensures Keys(a + b) == Keys(a) + Keys(b)
    decreases |b|
  {
    if b == [] {
      assert a + b == a;
    } else {
      var n := |b| - 1;
      KeysConcat(a, b[..n]);
      Regroup(a, b);
      KeysSnoc(a + b[..n], b[n]);
    }
  }

  /** The letters a list of options gives valid short options for. */
  function Letters(os: seq<Owned>): seq<int> {
    Dedup(Keys(os))
  }

  lemma LettersSnoc(os: seq<Owned>, o: Owned)
    ensures Letters(os + [o])
            == if Short(o) && o.opt.key !in Letters(os) then Letters(os) + [o.opt.key] else Letters(os)
  {
    KeysSnoc(os, o);
    if Short(o) { DedupSnoc(Keys(os), o.opt.key); } else { assert Keys(os) + [] == Keys(os); }
  }

  lemma LettersPrefix(a: seq<Owned>, b: seq<Owned>)
    ensures Letters(a) <= Letters(a + b)
  {
    KeysConcat(a, b);
    DedupPrefix(Keys(a), Keys(b));
  }

  /** An option whose letter nothing before it claims. */
  predicate Unshadowed(before: seq<Owned>, o: Owned) {
    Short(o) && o.opt.key !in Letters(before)
  }
}
