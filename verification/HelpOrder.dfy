/** The order of help entries: hol_cluster_cmp and hol_entry_cmp. */
module HelpOrder {
  import opened Basics
  import opened Argp
  import opened HelpList

  // ---- Comparing clusters ---------------------------------------------------------------

  /** group_cmp */
  function GroupCmp(g1: int, g2: int): int {
    if (g1 < 0 && g2 < 0) || (g1 >= 0 && g2 >= 0) then g1 - g2 else g2 - g1
  }

  /** hol_sibling_cluster_cmp */
  function SiblingCmp(c1: Cluster, c2: Cluster): int {
    var cmp := GroupCmp(c1.group, c2.group);
    if cmp != 0 then cmp else c2.index - c1.index
  }

  /** hol_cousin_cluster_cmp: parents are compared unless they are the same. */
  function CousinCmp(c1: Cluster, c2: Cluster): int
    requires WellFormed(c1) && WellFormed(c2) && c1.depth == c2.depth
    decreases c1
  {
    if c1.parent == c2.parent then SiblingCmp(c1, c2)
    else
      var cmp := CousinCmp(c1.parent.value, c2.parent.value);
      if cmp != 0 then cmp
      else
        var cmp' := GroupCmp(c1.group, c2.group);
        if cmp' != 0 then cmp' else c2.index - c1.index
  }

  /** The ancestor at a given depth: the do loops of hol_cluster_cmp. */
  function Ancestor(c: Cluster, depth: nat): (r: Cluster)
    requires WellFormed(c) && depth <= c.depth
    ensures WellFormed(r) && r.depth == depth
    decreases c
  {
    if c.depth == depth then c else Ancestor(c.parent.value, depth)
  }

  /** hol_cluster_cmp */
  function ClusterCmp(c1: Cluster, c2: Cluster): int
    requires WellFormed(c1) && WellFormed(c2)
  {
    if c1.depth > c2.depth then
      var cmp := CousinCmp(Ancestor(c1, c2.depth), c2);
      if cmp != 0 then cmp else 1
    else if c1.depth < c2.depth then
      var cmp := CousinCmp(c1, Ancestor(c2, c1.depth));
      if cmp != 0 then cmp else -1
    else CousinCmp(c1, c2)
  }

  /** hol_cluster_base */
  function Base(c: Cluster): Cluster
    decreases c
  {
    if c.parent.Some? then Base(c.parent.value) else c
  }

  // ---- Lexicographic order -----------------------------------------------------------------

  function Sign(x: int): int {
    if x < 0 then -1 else if x > 0 then 1 else 0
  }

  /** Lexicographic comparison, a proper prefix first. */
  function Lex(a: seq<int>, b: seq<int>): (r: int)
    ensures -1 <= r <= 1
    decreases |a|
  {
    if a == [] then (if b == [] then 0 else -1)
    else if b == [] then 1
    else if a[0] != b[0] then Sign(a[0] - b[0])
    else Lex(a[1..], b[1..])
  }

  lemma LexHead(x: int, a: seq<int>, y: int, b: seq<int>)
    ensures Lex([x] + a, [y] + b) == if x != y then Sign(x - y) else Lex(a, b)
  {
    assert ([x] + a)[1..] == a && ([y] + b)[1..] == b;
  }

  lemma {:induction false} LexReflexive(a: seq<int>)
    ensures Lex(a, a) == 0
    decreases |a|
  {
    if a != [] { LexReflexive(a[1..]); }
  }

  lemma {:induction false} LexAntisymmetric(a: seq<int>, b: seq<int>)
    ensures Lex(b, a) == -Lex(a, b)
    decreases |a|
  {
    if a != [] && b != [] { LexAntisymmetric(a[1..], b[1..]); }
  }

  lemma {:induction false} LexEqual(a: seq<int>, b: seq<int>)
    requires Lex(a, b) == 0
    ensures a == b
    decreases |a|
  {
    if a != [] && b != [] {
      LexEqual(a[1..], b[1..]);
      assert a == [a[0]] + a[1..] && b == [b[0]] + b[1..];
    }
  }

  lemma {:induction false} LexTransitive(a: seq<int>, b: seq<int>, c: seq<int>)
    requires Lex(a, b) <= 0 && Lex(b, c) <= 0
    ensures Lex(a, c) <= 0 && (Lex(a, c) == 0 ==> Lex(a, b) == 0 && Lex(b, c) == 0)
    decreases |a|
  {
    if a != [] && b != [] && c != [] && a[0] == b[0] && b[0] == c[0] {
      LexTransitive(a[1..], b[1..], c[1..]);
    }
  }

  /** Sequences of the same length decide before what follows them. */
  lemma {:induction false} LexSameLength(a: seq<int>, x: seq<int>, b: seq<int>, y: seq<int>)
    requires |a| == |b|
    ensures Lex(a + x, b + y) == if Lex(a, b) != 0 then Lex(a, b) else Lex(x, y)
    decreases |a|
  {
    if a == [] {
      assert a + x == x && b + y == y;
    } else {
      LexSameLength(a[1..], x, b[1..], y);
      assert a + x == [a[0]] + (a[1..] + x) && b + y == [b[0]] + (b[1..] + y);
      LexHead(a[0], a[1..] + x, b[0], b[1..] + y);
    }
  }

  /** Whatever follows the end marker 0 matters only if the marked sequences are
      equal, provided a longer one goes on with something greater than 0. */
  predicate Marked(a: seq<int>, b: seq<int>) {
    && (|a| < |b| && a == b[..|a|] ==> b[|a|] > 0)
    && (|b| < |a| && b == a[..|b|] ==> a[|b|] > 0)
  }

  lemma {:induction false} LexMarked(a: seq<int>, x: seq<int>, b: seq<int>, y: seq<int>)
    requires Marked(a, b)
    ensures Lex(a + [0] + x, b + [0] + y) == if Lex(a, b) != 0 then Lex(a, b) else Lex(x, y)
    decreases |a|
  {
    if a == [] && b == [] {
      assert a + [0] + x == [0] + x && b + [0] + y == [0] + y;
      LexHead(0, x, 0, y);
    } else if a == [] {
      assert a + [0] + x == [0] + x && b + [0] + y == [b[0]] + (b[1..] + [0] + y);
      assert a == b[..0];
      LexHead(0, x, b[0], b[1..] + [0] + y);
    } else if b == [] {
      assert b + [0] + y == [0] + y && a + [0] + x == [a[0]] + (a[1..] + [0] + x);
      assert b == a[..0];
      LexHead(a[0], a[1..] + [0] + x, 0, y);
    } else {
      assert a + [0] + x == [a[0]] + (a[1..] + [0] + x) && b + [0] + y == [b[0]] + (b[1..] + [0] + y);
      LexHead(a[0], a[1..] + [0] + x, b[0], b[1..] + [0] + y);
      if a[0] == b[0] {
        MarkedTail(a, b);
        LexMarked(a[1..], x, b[1..], y);
      }
    }
  }

  lemma MarkedTail(a: seq<int>, b: seq<int>)
    requires Marked(a, b) && a != [] && b != [] && a[0] == b[0]
    ensures Marked(a[1..], b[1..])
  {
    if |a| < |b| && a[1..] == b[1..][..|a| - 1] {
      assert a == [a[0]] + a[1..] && b[..|a|] == [b[0]] + b[1..][..|a| - 1];
    }
    if |b| < |a| && b[1..] == a[1..][..|b| - 1] {
      assert b == [b[0]] + b[1..] && a[..|b|] == [a[0]] + a[1..][..|b| - 1];
    }
  }

  // ---- Clusters are ordered by their paths -----------------------------------------------------

  function Neg(g: int): int {
    if g < 0 then 1 else 0
  }

  /** One step of a path: groups 0, 1, ..., n come before -m, ..., -1, and within
      a group a higher index comes first. */
  function Step(c: Cluster): (r: seq<int>)
    ensures |r| == 4
  {
    [1, Neg(c.group), c.group, -(c.index as int)]
  }

  /** The path from the root to a cluster. */
  function Path(c: Cluster): seq<int>
    decreases c
  {
    (if c.parent.Some? then Path(c.parent.value) else []) + Step(c)
  }

  lemma GroupIsLex(g1: int, g2: int)
    ensures Sign(GroupCmp(g1, g2)) == Lex([Neg(g1), g1], [Neg(g2), g2])
  {
    LexHead(Neg(g1), [g1], Neg(g2), [g2]);
    LexHead(g1, [], g2, []);
    assert [Neg(g1)] + [g1] == [Neg(g1), g1] && [Neg(g2)] + [g2] == [Neg(g2), g2];
    assert [g1] + [] == [g1] && [g2] + [] == [g2];
  }

  lemma StepIsLex(c1: Cluster, c2: Cluster)
    ensures Sign(SiblingCmp(c1, c2)) == Lex(Step(c1), Step(c2))
  {
    var i1, i2 := -(c1.index as int), -(c2.index as int);
    var a, b := [Neg(c1.group), c1.group], [Neg(c2.group), c2.group];
    GroupIsLex(c1.group, c2.group);
    LexSameLength(a, [i1], b, [i2]);
    LexHead(1, a + [i1], 1, b + [i2]);
    LexHead(i1, [], i2, []);
    assert Step(c1) == [1] + (a + [i1]) && Step(c2) == [1] + (b + [i2]);
    assert [i1] + [] == [i1] && [i2] + [] == [i2];
  }

  lemma {:induction false} PathLength(c: Cluster)
    requires WellFormed(c)
    ensures |Path(c)| == 4 * (c.depth + 1)
    decreases c
  {
    if c.parent.Some? { PathLength(c.parent.value); }
  }

  lemma {:induction false} CousinIsLex(c1: Cluster, c2: Cluster)
    requires WellFormed(c1) && WellFormed(c2) && c1.depth == c2.depth
    ensures Sign(CousinCmp(c1, c2)) == Lex(Path(c1), Path(c2))
    decreases c1
  {
    hide Lex;
    hide Step;
    hide GroupCmp;
    StepIsLex(c1, c2);
    if c1.parent.None? {
      assert [] + Step(c1) == Step(c1) && [] + Step(c2) == Step(c2);
    } else {
      var p1, p2 := c1.parent.value, c2.parent.value;
      PathLength(p1);
      PathLength(p2);
      LexSameLength(Path(p1), Step(c1), Path(p2), Step(c2));
      if p1 == p2 {
        LexReflexive(Path(p1));
      } else {
        CousinIsLex(p1, p2);
      }
    }
  }

  /** The path of an ancestor is a prefix, and the rest starts a new step. */
  lemma {:induction false} AncestorPath(c: Cluster, depth: nat) returns (rest: seq<int>)
    requires WellFormed(c) && depth <= c.depth
    ensures Path(c) == Path(Ancestor(c, depth)) + rest
    ensures depth < c.depth ==> rest != [] && rest[0] == 1
    decreases c
  {
    if c.depth == depth {
      rest := [];
      assert Path(c) + [] == Path(c);
    } else {
      var r := AncestorPath(c.parent.value, depth);
      rest := r + Step(c);
      assert Path(c) == Path(Ancestor(c, depth)) + (r + Step(c));
    }
  }

  /** hol_cluster_cmp is the prefix-first lexicographic order of the paths from
      the root. */
  lemma ClusterIsLex(c1: Cluster, c2: Cluster)
    requires WellFormed(c1) && WellFormed(c2)
    ensures Sign(ClusterCmp(c1, c2)) == Lex(Path(c1), Path(c2))
  {
    if c1.depth > c2.depth {
      var a := Ancestor(c1, c2.depth);
      var rest := AncestorPath(c1, c2.depth);
      CousinIsLex(a, c2);
      PathLength(a);
      PathLength(c2);
      LexSameLength(Path(a), rest, Path(c2), []);
      assert Path(c2) + [] == Path(c2);
    } else if c1.depth < c2.depth {
      var a := Ancestor(c2, c1.depth);
      var rest := AncestorPath(c2, c1.depth);
      CousinIsLex(c1, a);
      PathLength(a);
      PathLength(c1);
      LexSameLength(Path(c1), [], Path(a), rest);
      assert Path(c1) + [] == Path(c1);
    } else {
      CousinIsLex(c1, c2);
    }
  }

  lemma PathsMarked(c1: Cluster, c2: Cluster)
    requires WellFormed(c1) && WellFormed(c2)
    ensures Marked(Path(c1), Path(c2))
  {
    PathLength(c1);
    PathLength(c2);
    if c1.depth < c2.depth { StepStarts(c2, c1.depth); }
    if c2.depth < c1.depth { StepStarts(c1, c2.depth); }
  }

  lemma StepStarts(c: Cluster, depth: nat)
    requires WellFormed(c) && depth < c.depth
    ensures 4 * (depth + 1) < |Path(c)| && Path(c)[4 * (depth + 1)] == 1
  {
    var rest := AncestorPath(c, depth);
    PathLength(Ancestor(c, depth));
  }

  // ---- Names ---------------------------------------------------------------------------------

  /** isspace and isalnum in the C locale */
  predicate IsSpace(c: char) {
    c == ' ' || '\t' <= c <= '\r'
  }

  predicate IsAlnum(c: char) {
    '0' <= c <= '9' || 'A' <= c <= 'Z' || 'a' <= c <= 'z'
  }

  function ToLower(c: int): int {
    if 65 <= c <= 90 then c + 32 else c
  }

  function SkipSpaces(s: string): string {
    if s != "" && IsSpace(s[0]) then SkipSpaces(s[1..]) else s
  }

  function SkipToAlnum(s: string): string {
    if s != "" && !IsAlnum(s[0]) then SkipToAlnum(s[1..]) else s
  }

  /** canon_doc_option: is it a non-option, and the tail used for comparisons. */
  function CanonDoc(name: string): (bool, string) {
    var s := SkipSpaces(name);
    (s == "" || s[0] != '-', SkipToAlnum(s))
  }

  /** hol_entry_first_long */
  function FirstLong(opts: seq<Opt>): Option<string>
    decreases |opts|
  {
    if opts == [] then None
    else if opts[0].name.Some? && !opts[0].hidden then opts[0].name
    else FirstLong(opts[1..])
  }

  /** hol_entry_first_short: the first visible letter the entry decodes to, or 0. */
  function FirstShort(letters: seq<int>, so: nat, opts: seq<Opt>): int
    decreases |opts|
  {
    if opts == [] then 0
    else if IsShort(opts[0]) && so < |letters| && letters[so] == opts[0].key then
      if !opts[0].hidden then opts[0].key else FirstShort(letters, so + 1, opts[1..])
    else FirstShort(letters, so, opts[1..])
  }

  /** What hol_entry_cmp looks at besides groups and clusters. */
  datatype View = View(isDoc: bool, short: int, long: Option<string>)

  function ViewOf(letters: seq<int>, e: Entry): View
    requires e.opts != []
  {
    var long := FirstLong(e.opts);
    var short := FirstShort(letters, e.so, e.opts);
    if e.opts[0].isDoc && long.Some? then View(CanonDoc(long.value).0, short, Some(CanonDoc(long.value).1))
    else View(false, short, long)
  }

  /** The first character compared: the letter, or the start of the name, or NUL. */
  function First(v: View): int {
    if v.short != 0 then v.short
    else if v.long.Some? && v.long.value != "" then v.long.value[0] as int
    else 0
  }

  /** strcasecmp */
  function Strcasecmp(s: string, t: string): int
    decreases |s|
  {
    if s == "" then (if t == "" then 0 else -ToLower(t[0] as int))
    else if t == "" then ToLower(s[0] as int)
    else if ToLower(s[0] as int) != ToLower(t[0] as int) then ToLower(s[0] as int) - ToLower(t[0] as int)
    else Strcasecmp(s[1..], t[1..])
  }

  // ---- Comparing entries --------------------------------------------------------------------------

  function B(b: bool): int {
    if b then 1 else 0
  }

  function TopGroup(e: Entry): int {
    if e.cluster.Some? then Base(e.cluster.value).group else e.group
  }

  predicate Comparable(e: Entry) {
    && e.opts != []
    && (e.cluster.Some? ==> WellFormed(e.cluster.value))
    && forall i :: 0 <= i < |e.opts| && e.opts[i].name.Some? ==> '\0' !in e.opts[i].name.value
  }

  /** hol_entry_cmp from the alphabetical comparison on. */
  function NameCmp(v1: View, v2: View): int {
    var cmp := B(v1.isDoc) - B(v2.isDoc);
    if cmp != 0 then cmp else
    var cmp := ToLower(First(v1)) - ToLower(First(v2));
    if cmp != 0 then cmp else
    var cmp := First(v2) - First(v1);
    if cmp != 0 then cmp else
    var cmp := B(v1.short != 0) - B(v2.short != 0);
    if cmp != 0 then cmp
    else if v1.short != 0 then 0
    else
      var cmp := B(v1.long.Some?) - B(v2.long.Some?);
      if cmp != 0 then cmp
      else if v1.long.None? then 0
      else Strcasecmp(v1.long.value, v2.long.value)
  }

  /** hol_entry_cmp, on the letter string the entries point into. */
  function EntryCmp(letters: seq<int>, e1: Entry, e2: Entry): int
    requires Comparable(e1) && Comparable(e2)
  {
    var cmp := GroupCmp(TopGroup(e1), TopGroup(e2));
    if cmp != 0 then cmp else
    var cmp := B(e1.cluster.Some?) - B(e2.cluster.Some?);
    if cmp != 0 then cmp else
    var cmp := if e1.cluster.Some? then ClusterCmp(e1.cluster.value, e2.cluster.value) else 0;
    if cmp != 0 then cmp else
    var cmp := GroupCmp(e1.group, e2.group);
    if cmp != 0 then cmp else NameCmp(ViewOf(letters, e1), ViewOf(letters, e2))
  }

  // ---- The order as lexicographic order of keys -------------------------------------------------------

  function StringKey(s: string): seq<int> {
    if s == "" then [] else [ToLower(s[0] as int)] + StringKey(s[1..])
  }

  function LongKey(v: View): seq<int> {
    if v.short != 0 then []
    else if v.long.None? then [0]
    else [1] + StringKey(v.long.value)
  }

  function NameKey(v: View): seq<int> {
    [B(v.isDoc), ToLower(First(v)), -First(v), B(v.short != 0)] + LongKey(v)
  }

  function InnerKey(letters: seq<int>, e: Entry): seq<int>
    requires e.opts != []
  {
    [Neg(e.group), e.group] + NameKey(ViewOf(letters, e))
  }

  /** The integer sequence an entry is sorted by. */
  function Key(letters: seq<int>, e: Entry): seq<int>
    requires e.opts != []
  {
    [Neg(TopGroup(e)), TopGroup(e)] + [B(e.cluster.Some?)]
    + (if e.cluster.Some? then Path(e.cluster.value) + [0] + InnerKey(letters, e) else InnerKey(letters, e))
  }

  predicate NoNul(s: string) {
    '\0' !in s
  }

  lemma {:induction false} StringIsLex(s: string, t: string)
    requires NoNul(s) && NoNul(t)
    ensures Sign(Strcasecmp(s, t)) == Lex(StringKey(s), StringKey(t))
    decreases |s|
  {
    if s != "" && t != "" {
      LexHead(ToLower(s[0] as int), StringKey(s[1..]), ToLower(t[0] as int), StringKey(t[1..]));
      StringIsLex(s[1..], t[1..]);
    } else if s != "" {
      assert s[0] in s;
    } else if t != "" {
      assert t[0] in t;
    }
  }

  lemma LongIsLex(v1: View, v2: View)
    requires (v1.short != 0) == (v2.short != 0)
    requires v1.long.Some? ==> NoNul(v1.long.value)
    requires v2.long.Some? ==> NoNul(v2.long.value)
    ensures Lex(LongKey(v1), LongKey(v2))
            == if v1.short != 0 then 0
               else if v1.long.Some? != v2.long.Some? then Sign(B(v1.long.Some?) - B(v2.long.Some?))
               else if v1.long.None? then 0
               else Sign(Strcasecmp(v1.long.value, v2.long.value))
  {
    if v1.short == 0 {
      var x := if v1.long.Some? then StringKey(v1.long.value) else [];
      var y := if v2.long.Some? then StringKey(v2.long.value) else [];
      LexHead(B(v1.long.Some?), x, B(v2.long.Some?), y);
      assert LongKey(v1) == [B(v1.long.Some?)] + x && LongKey(v2) == [B(v2.long.Some?)] + y;
      if v1.long.Some? && v2.long.Some? { StringIsLex(v1.long.value, v2.long.value); }
    }
  }

  lemma LexFour(a: int, b: int, c: int, d: int, x: seq<int>, a': int, b': int, c': int, d': int, y: seq<int>)
    ensures Lex([a, b, c, d] + x, [a', b', c', d'] + y)
            == if a != a' then Sign(a - a') else if b != b' then Sign(b - b')
               else if c != c' then Sign(c - c') else if d != d' then Sign(d - d') else Lex(x, y)
  {
    hide Lex;
    LexHead(a, [b, c, d] + x, a', [b', c', d'] + y);
    LexHead(b, [c, d] + x, b', [c', d'] + y);
    LexHead(c, [d] + x, c', [d'] + y);
    LexHead(d, x, d', y);
    assert [a, b, c, d] + x == [a] + ([b, c, d] + x) && [b, c, d] + x == [b] + ([c, d] + x);
    assert [c, d] + x == [c] + ([d] + x);
    assert [a', b', c', d'] + y == [a'] + ([b', c', d'] + y) && [b', c', d'] + y == [b'] + ([c', d'] + y)
        && [c', d'] + y == [c'] + ([d'] + y);
  }

  lemma NameIsLex(v1: View, v2: View)
    requires v1.long.Some? ==> NoNul(v1.long.value)
    requires v2.long.Some? ==> NoNul(v2.long.value)
    ensures Sign(NameCmp(v1, v2)) == Lex(NameKey(v1), NameKey(v2))
  {
    hide Lex;
    hide LongKey;
    LexFour(B(v1.isDoc), ToLower(First(v1)), -First(v1), B(v1.short != 0), LongKey(v1),
            B(v2.isDoc), ToLower(First(v2)), -First(v2), B(v2.short != 0), LongKey(v2));
    if (v1.short != 0) == (v2.short != 0) { LongIsLex(v1, v2); }
  }

  lemma {:induction false} NoNulTails(s: string)
    requires NoNul(s)
    ensures NoNul(SkipSpaces(s)) && NoNul(SkipToAlnum(s))
    decreases |s|
  {
    if s != "" {
      assert NoNul(s[1..]);
      NoNulTails(s[1..]);
    }
  }

  lemma {:induction false} FirstLongNoNul(opts: seq<Opt>)
    requires forall i :: 0 <= i < |opts| && opts[i].name.Some? ==> NoNul(opts[i].name.value)
    ensures FirstLong(opts).Some? ==> NoNul(FirstLong(opts).value)
    decreases |opts|
  {
    if opts != [] { FirstLongNoNul(opts[1..]); }
  }

  lemma ViewNoNul(letters: seq<int>, e: Entry)
    requires Comparable(e)
    ensures var v := ViewOf(letters, e); v.long.Some? ==> NoNul(v.long.value)
  {
    FirstLongNoNul(e.opts);
    var long := FirstLong(e.opts);
    if long.Some? {
      NoNulTails(long.value);
      NoNulTails(SkipSpaces(long.value));
    }
  }

  /** hol_entry_cmp compares entries exactly as their keys compare
      lexicographically. */
  lemma EntryIsLex(letters: seq<int>, e1: Entry, e2: Entry)
    requires Comparable(e1) && Comparable(e2)
    ensures Sign(EntryCmp(letters, e1, e2)) == Lex(Key(letters, e1), Key(letters, e2))
  {
    hide Lex;
    hide GroupCmp;
    hide NameKey;
    hide NameCmp;
    hide ViewOf;
    hide Path;
    hide ClusterCmp;
    var g1, g2 := TopGroup(e1), TopGroup(e2);
    var r1, r2 := Rest(letters, e1), Rest(letters, e2);
    var t1, t2 := [B(e1.cluster.Some?)] + r1, [B(e2.cluster.Some?)] + r2;
    assert Key(letters, e1) == [Neg(g1), g1] + t1 && Key(letters, e2) == [Neg(g2), g2] + t2;
    LexSameLength([Neg(g1), g1], t1, [Neg(g2), g2], t2);
    GroupIsLex(g1, g2);
    LexHead(B(e1.cluster.Some?), r1, B(e2.cluster.Some?), r2);
    if e1.cluster.Some? == e2.cluster.Some? { RestIsLex(letters, e1, e2); }
  }

  function Rest(letters: seq<int>, e: Entry): seq<int>
    requires e.opts != []
  {
    if e.cluster.Some? then Path(e.cluster.value) + [0] + InnerKey(letters, e) else InnerKey(letters, e)
  }

  lemma RestIsLex(letters: seq<int>, e1: Entry, e2: Entry)
    requires Comparable(e1) && Comparable(e2) && e1.cluster.Some? == e2.cluster.Some?
    ensures Lex(Rest(letters, e1), Rest(letters, e2))
            == var c := if e1.cluster.Some? then ClusterCmp(e1.cluster.value, e2.cluster.value) else 0;
               if c != 0 then Sign(c)
               else if GroupCmp(e1.group, e2.group) != 0 then Sign(GroupCmp(e1.group, e2.group))
               else Sign(NameCmp(ViewOf(letters, e1), ViewOf(letters, e2)))
  {
    hide Lex;
    hide GroupCmp;
    hide NameKey;
    hide NameCmp;
    hide ViewOf;
    hide Path;
    hide ClusterCmp;
    ViewNoNul(letters, e1);
    ViewNoNul(letters, e2);
    var k1, k2 := NameKey(ViewOf(letters, e1)), NameKey(ViewOf(letters, e2));
    NameIsLex(ViewOf(letters, e1), ViewOf(letters, e2));
    GroupIsLex(e1.group, e2.group);
    LexSameLength([Neg(e1.group), e1.group], k1, [Neg(e2.group), e2.group], k2);
    if e1.cluster.Some? {
      var c1, c2 := e1.cluster.value, e2.cluster.value;
      ClusterIsLex(c1, c2);
      PathsMarked(c1, c2);
      LexMarked(Path(c1), InnerKey(letters, e1), Path(c2), InnerKey(letters, e2));
    }
  }

  /** hol_entry_cmp is a total preorder on all entries: reflexive, antisymmetric
      in sign, and transitive in the four cases its comment lists. */
  lemma EntryCmpIsTotalPreorder(letters: seq<int>, e1: Entry, e2: Entry, e3: Entry)
    requires Comparable(e1) && Comparable(e2) && Comparable(e3)
    ensures EntryCmp(letters, e1, e1) == 0
    ensures Sign(EntryCmp(letters, e2, e1)) == -Sign(EntryCmp(letters, e1, e2))
    ensures EntryCmp(letters, e1, e2) < 0 && EntryCmp(letters, e2, e3) < 0 ==> EntryCmp(letters, e1, e3) < 0
    ensures EntryCmp(letters, e1, e2) < 0 && EntryCmp(letters, e2, e3) == 0 ==> EntryCmp(letters, e1, e3) < 0
    ensures EntryCmp(letters, e1, e2) == 0 && EntryCmp(letters, e2, e3) < 0 ==> EntryCmp(letters, e1, e3) < 0
    ensures EntryCmp(letters, e1, e2) == 0 && EntryCmp(letters, e2, e3) == 0 ==> EntryCmp(letters, e1, e3) == 0
  {
    hide EntryCmp;
    hide Lex;
    hide Key;
    EntryIsLex(letters, e1, e1);
    EntryIsLex(letters, e1, e2);
    EntryIsLex(letters, e2, e1);
    EntryIsLex(letters, e2, e3);
    EntryIsLex(letters, e1, e3);
    var k1, k2, k3 := Key(letters, e1), Key(letters, e2), Key(letters, e3);
    LexReflexive(k1);
    LexAntisymmetric(k1, k2);
    if Lex(k1, k2) <= 0 && Lex(k2, k3) <= 0 { LexTransitive(k1, k2, k3); }
    if Lex(k1, k2) == 0 { LexEqual(k1, k2); }
  }
}
