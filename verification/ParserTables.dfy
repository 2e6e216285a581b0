/** The getopt tables of the parser: convert_options, parser_convert, calc_sizes,
    find_long_option and the dispatch of parser_parse_opt. */
module ParserTables {
  import opened Basics
  import opened Bits
  import opened Argp
  import opened ArgpTree

  // ---- Table entries -------------------------------------------------------------------

  datatype HasArg = NoArgument | RequiredArgument | OptionalArgument

  /** struct option */
  datatype LongOpt = LongOpt(name: string, hasArg: HasArg, val: int)

  /** struct group, as convert_options fills it in; pointers are indices. */
  datatype Group = Group(argp: Argp, node: Node, shortEnd: nat, parent: Option<nat>, parentIndex: nat, childInputs: nat)

  const COLON: int := 58
  const MINUS: int := 45
  const PLUS: int := 43

  /** Does the parser accept the option? */
  predicate Listed(o: Owned) {
    !o.base.isDoc
  }

  /** What an option adds to the short-option string. */
  function ShortText(o: Owned): (r: seq<int>)
    ensures |r| <= 3
  {
    if !Listed(o) || !Short(o) then []
    else if !o.base.hasArg then [o.opt.key]
    else if !o.base.argOptional then [o.opt.key, COLON]
    else [o.opt.key, COLON, COLON]
  }

  function TextOf(os: seq<Owned>): seq<int> {
    if os == [] then [] else TextOf(os[..|os| - 1]) + ShortText(os[|os| - 1])
  }

  lemma TextSnoc(os: seq<Owned>, o: Owned)
    ensures TextOf(os + [o]) == TextOf(os) + ShortText(o)
  {
    assert (os + [o])[..|os|] == os;
  }

  lemma {:induction false} TextConcat(a: seq<Owned>, b: seq<Owned>)
    ensures TextOf(a + b) == TextOf(a) + TextOf(b)
    decreases |b|
  {
    hide ShortText;
    if b == [] {
      assert a + b == a;
    } else {
      var n := |b| - 1;
      TextConcat(a, b[..n]);
      Regroup(a, b);
      TextSnoc(a + b[..n], b[n]);
      assert TextOf(a) + (TextOf(b[..n]) + ShortText(b[n])) == (TextOf(a) + TextOf(b[..n])) + ShortText(b[n]);
    }
  }

  // ---- Encoding key and group into a long option's value ---------------------------------

  const INT_MIN: int := -0x8000_0000
  const INT_MAX: int := 0x7fff_ffff

  /** Conversion of an arithmetic result to int. */
  function ToInt(x: int): (r: int)
    ensures INT_MIN <= r <= INT_MAX
    ensures INT_MIN <= x <= INT_MAX ==> r == x
  {
    var m := x % 0x1_0000_0000;
    if m >= 0x8000_0000 then m - 0x1_0000_0000 else m
  }

  /** `(key & USER_MASK) + ((group + 1) << USER_BITS)` */
  function Encode(key: int, group: nat): int {
    ToInt(And(key % 0x1_0000_0000, 0xff_ffff) + ToInt((group + 1) * 0x100_0000))
  }

  /** `opt >> USER_BITS` */
  function GroupKey(opt: int): int {
    opt / 0x100_0000
  }

  /** `(opt << GROUP_BITS) >> GROUP_BITS` */
  function UserKey(opt: int): int {
    ToInt(opt * 0x100) / 0x100
  }

  lemma MaskedKey(key: int)
    ensures And(key % 0x1_0000_0000, 0xff_ffff) == key % 0x100_0000
  {
    hide And;
    hide Pow2;
    BytePowers();
    AndLow(key % 0x1_0000_0000, 24);
    var q, r := key / 0x1_0000_0000, key % 0x1_0000_0000;
    assert key == 0x100_0000 * (0x100 * q + r / 0x100_0000) + r % 0x100_0000;
    DivModUnique(key, 0x100_0000, 0x100 * q + r / 0x100_0000, r % 0x100_0000);
  }

  /** Decoding returns the group and key that were encoded if and only if the key
      is a signed 24-bit number and the group number is below 127; the value is
      then none of getopt's own results -1, 1 and '?'. */
  lemma EncodeDecode(key: int, group: nat)
    requires INT_MIN <= key <= INT_MAX
    ensures GroupKey(Encode(key, group)) == group + 1 && UserKey(Encode(key, group)) == key
            <==> -0x80_0000 <= key < 0x80_0000 && group < 127
    ensures group < 127 ==> Encode(key, group) > 63
  {
    hide And;
    MaskedKey(key);
    var low := key % 0x100_0000;
    var val := Encode(key, group);
    if group < 127 {
      assert val == low + (group + 1) * 0x100_0000;
      DivModUnique(val, 0x100_0000, group + 1, low);
      UserKeyOf(low, group + 1);
    } else {
      assert val <= INT_MAX;
      assert GroupKey(val) <= 127;
    }
  }

  lemma UserKeyOf(low: nat, g: nat)
    requires low < 0x100_0000 && g <= 127
    ensures UserKey(low + g * 0x100_0000) == if low < 0x80_0000 then low else low - 0x100_0000
  {
    var x := (low + g * 0x100_0000) * 0x100;
    assert x == 0x1_0000_0000 * g + low * 0x100;
    DivModUnique(x, 0x1_0000_0000, g, low * 0x100);
    if low >= 0x80_0000 {
      assert ToInt(x) == low * 0x100 - 0x1_0000_0000 == 0x100 * (low - 0x100_0000);
      DivModUnique(ToInt(x), 0x100, low - 0x100_0000, 0);
    } else {
      DivModUnique(ToInt(x), 0x100, low, 0);
    }
  }

  // ---- The tables as functions of the groups -----------------------------------------------

  /** An option with the number of its group. */
  datatype Tagged = Tagged(o: Owned, group: nat)

  function Tag(os: seq<Owned>, g: nat): seq<Tagged> {
    seq(|os|, i requires 0 <= i < |os| => Tagged(os[i], g))
  }

  function AllTagged(gs: seq<Located>): seq<Tagged> {
    if gs == [] then [] else AllTagged(gs[..|gs| - 1]) + Tag(Declared(gs[|gs| - 1]), |gs| - 1)
  }

  /** Can the option be given by name? */
  predicate Named(t: Tagged, name: string) {
    Listed(t.o) && t.o.opt.name == Some(name)
  }

  predicate InLongs(ls: seq<LongOpt>, name: string) {
    exists i :: 0 <= i < |ls| && ls[i].name == name
  }

  function LongOf(t: Tagged): LongOpt
    requires t.o.opt.name.Some?
  {
    LongOpt(t.o.opt.name.value,
            if !t.o.base.hasArg then NoArgument
            else if t.o.base.argOptional then OptionalArgument else RequiredArgument,
            Encode(if t.o.opt.key != 0 then t.o.opt.key else t.o.base.key, t.group))
  }

  ghost function AddLong(ls: seq<LongOpt>, t: Tagged): seq<LongOpt> {
    if Listed(t.o) && t.o.opt.name.Some? && !InLongs(ls, t.o.opt.name.value) then ls + [LongOf(t)] else ls
  }

  ghost function LongTable(ts: seq<Tagged>): seq<LongOpt> {
    if ts == [] then [] else AddLong(LongTable(ts[..|ts| - 1]), ts[|ts| - 1])
  }

  lemma LongSnoc(ts: seq<Tagged>, t: Tagged)
    ensures LongTable(ts + [t]) == AddLong(LongTable(ts), t)
  {
    assert (ts + [t])[..|ts|] == ts;
  }

  function ChildCount(gs: seq<Located>): nat {
    if gs == [] then 0 else ChildCount(gs[..|gs| - 1]) + |gs[|gs| - 1].argp.children|
  }

  /** For each group, whether the argp right above it has a group. */
  function Unders(a: Argp, under: bool): seq<bool>
    decreases a, 1
  {
    (if HasGroup(a) then [under] else []) + ChildUnders(a.children, HasGroup(a))
  }

  function ChildUnders(cs: seq<Argp>, under: bool): seq<bool>
    decreases cs, 0
  {
    if cs == [] then [] else Unders(cs[0], under) + ChildUnders(cs[1..], under)
  }

  datatype Tables = Tables(short: seq<int>, longs: seq<LongOpt>, groups: seq<Group>, childEnd: nat)

  /** The group records agree with the groups `gs` of the tree. */
  ghost predicate Recorded(groups: seq<Group>, prefix: seq<int>, gs: seq<Located>, unders: seq<bool>) {
    |groups| == |gs| == |unders| && forall i :: 0 <= i < |gs| ==> RecordOk(groups, prefix, gs, unders, i)
  }

  ghost predicate RecordOk(groups: seq<Group>, prefix: seq<int>, gs: seq<Located>, unders: seq<bool>, i: nat)
    requires i < |gs| == |groups| == |unders|
  {
    var g := groups[i];
    && Located(g.argp, g.node) == gs[i]
    && g.shortEnd == |prefix + TextOf(AllDeclared(gs[..i + 1]))|
    && g.childInputs == ChildCount(gs[..i])
    && (g.parent.Some? <==> unders[i])
    && (g.parent.Some? ==>
          && g.parent.value < i
          && g.node == groups[g.parent.value].node + [g.parentIndex]
          && g.parentIndex < |groups[g.parent.value].argp.children|)
  }

  /** The tables hold exactly the groups `gs`, read in order. */
  ghost predicate Holds(t: Tables, prefix: seq<int>, gs: seq<Located>, unders: seq<bool>) {
    && t.short == prefix + TextOf(AllDeclared(gs))
    && t.longs == LongTable(AllTagged(gs))
    && t.childEnd == ChildCount(gs)
    && Recorded(t.groups, prefix, gs, unders)
  }

  // ---- convert_options -------------------------------------------------------------------------

  /** find_long_option with a name: the offset, or -1. */
  method FindLongOption(ls: seq<LongOpt>, name: string) returns (r: int)
    ensures r == -1 <==> !InLongs(ls, name)
    ensures r != -1 ==> 0 <= r < |ls| && ls[r].name == name && forall i :: 0 <= i < r ==> ls[i].name != name
  {
    var l := 0;
    while l < |ls|
      invariant 0 <= l <= |ls| && forall i :: 0 <= i < l ==> ls[i].name != name
    {
      if ls[l].name == name { return l; }
      l := l + 1;
    }
    return -1;
  }

  /** struct parser_convert_state with the tables it fills. */
  class Converter {
    var short: seq<int>
    var longs: seq<LongOpt>
    var groups: seq<Group>
    var childEnd: nat

    ghost function State(): Tables
      reads this
    {
      Tables(short, longs, groups, childEnd)
    }

    /** parser_convert up to the call of convert_options. */
    constructor (inOrder: bool, noArgs: bool)
      ensures State() == Tables(Prefix(inOrder, noArgs), [], [], 0)
    {
      short := if inOrder then [MINUS] else if noArgs then [PLUS] else [];
      longs, groups, childEnd := [], [], 0;
    }

    /** The loop over the options of one argp. */
    method ConvertOwn(a: Argp, node: Node, ghost prefix: seq<int>, ghost gs: seq<Located>)
      requires short == prefix + TextOf(AllDeclared(gs)) && longs == LongTable(AllTagged(gs)) && |groups| == |gs|
      modifies this`short, this`longs
      ensures var all := gs + [Located(a, node)];
              short == prefix + TextOf(AllDeclared(all)) && longs == LongTable(AllTagged(all))
    {
      hide LongTable;
      hide TextOf;
      hide AllDeclared;
      hide AllTagged;
      hide InLongs;
      hide ShortText;
      var opts := Opts(a);
      ghost var l := Located(a, node);
      ghost var os, before, tags := Declared(l), AllDeclared(gs), AllTagged(gs);
      ghost var ts := Tag(os, |gs|);
      assert before + os[..0] == before && tags + ts[..0] == tags;
      if opts == [] {
        Snocs(gs, l);
        assert os == [] && ts == [];
        return;
      }
      var base := opts[0];
      for i := 0 to |opts|
        invariant base == if i == 0 then opts[0] else RealAt(opts, i - 1)
        invariant short == prefix + TextOf(before + os[..i])
        invariant longs == LongTable(tags + ts[..i])
      {
        var opt := opts[i];
        if !opt.isAlias { base := opt; }
        ghost var o := os[i];
        assert before + os[..i + 1] == (before + os[..i]) + [o];
        assert tags + ts[..i + 1] == (tags + ts[..i]) + [ts[i]];
        TextSnoc(before + os[..i], o);
        LongSnoc(tags + ts[..i], ts[i]);
        ConvertOne(opt, base, o);
        assert prefix + (TextOf(before + os[..i]) + ShortText(o)) == (prefix + TextOf(before + os[..i])) + ShortText(o);
      }
      assert os[..|opts|] == os && ts[..|opts|] == ts;
      Snocs(gs, l);
    }

    /** One option. */
    method ConvertOne(opt: Opt, base: Opt, ghost o: Owned)
      requires o.opt == opt && o.base == base
      modifies this`short, this`longs
      ensures short == old(short) + ShortText(o)
      ensures longs == AddLong(old(longs), Tagged(o, |groups|))
    {
      ghost var was := short;
      if !base.isDoc {
        if IsShort(opt) {
          short := short + [opt.key];
          if base.hasArg {
            short := short + [COLON];
            if base.argOptional { short := short + [COLON]; }
          }
        }
        if opt.name.Some? {
          var at := FindLongOption(longs, opt.name.value);
          if at < 0 {
            longs := longs + [LongOf(Tagged(Owned(opt, base, []), |groups|))];
          }
        }
      }
      assert short == was + ShortText(o);
    }

    /** convert_options: the group of `a`, if any, and then its children. */
    method ConvertOptions(a: Argp, node: Node, parent: Option<nat>, parentIndex: nat,
                          ghost prefix: seq<int>, ghost gs: seq<Located>, ghost us: seq<bool>)
      requires Holds(State(), prefix, gs, us)
      requires parent.Some? ==>
                 && parent.value < |groups|
                 && node == groups[parent.value].node + [parentIndex]
                 && parentIndex < |groups[parent.value].argp.children|
      modifies this
      ensures Holds(State(), prefix, gs + Groups(a, node), us + Unders(a, parent.Some?))
      ensures old(groups) <= groups
      decreases a, 1
    {
      hide Holds;
      hide TextOf;
      hide LongTable;
      hide AllDeclared;
      hide AllTagged;
      hide ChildCount;
      hide Groups;
      hide ChildGroups;
      hide Unders;
      hide ChildUnders;
      ghost var done, unders := gs, us;
      var under: Option<nat> := None;
      if HasGroup(a) {
        HoldsParts(State(), prefix, gs, us);
        ConvertOwn(a, node, prefix, gs);
        under := Some(|groups|);
        groups := groups + [Group(a, node, |short|, parent, parentIndex, childEnd)];
        childEnd := childEnd + |a.children|;
        AddGroup(old(State()), State(), prefix, gs, us, parent);
        done, unders := gs + [Located(a, node)], us + [parent.Some?];
      }
      ConvertChildren(a, node, under, prefix, done, unders);
      ListsOf(a, node, parent.Some?, gs, us);
    }

    /** The loop over the children. */
    method ConvertChildren(a: Argp, node: Node, under: Option<nat>,
                           ghost prefix: seq<int>, ghost gs: seq<Located>, ghost us: seq<bool>)
      requires Holds(State(), prefix, gs, us)
      requires under.Some? ==>
                 under.value < |groups| && groups[under.value].node == node && groups[under.value].argp == a
      modifies this
      ensures Holds(State(), prefix, gs + ChildGroups(a.children, node, 0), us + ChildUnders(a.children, under.Some?))
      ensures old(groups) <= groups
      decreases a, 0
    {
      hide Holds;
      ghost var done, unders := gs, us;
      var i := 0;
      assert a.children[0..] == a.children;
      while i < |a.children|
        invariant 0 <= i <= |a.children| && Holds(State(), prefix, done, unders) && old(groups) <= groups
        invariant done + ChildGroups(a.children[i..], node, i) == gs + ChildGroups(a.children, node, 0)
        invariant unders + ChildUnders(a.children[i..], under.Some?) == us + ChildUnders(a.children, under.Some?)
      {
        var child := a.children[i];
        ConvertOptions(child, node + [i], under, i, prefix, done, unders);
        ChildLists(a.children, i, node, under.Some?, done, unders);
        done, unders := done + Groups(child, node + [i]), unders + Unders(child, under.Some?);
        i := i + 1;
      }
      assert a.children[i..] == [];
      assert done + [] == done && unders + [] == unders;
    }
  }

  function Prefix(inOrder: bool, noArgs: bool): seq<int> {
    if inOrder then [MINUS] else if noArgs then [PLUS] else []
  }

  lemma Snocs(gs: seq<Located>, l: Located)
    ensures AllDeclared(gs + [l]) == AllDeclared(gs) + Declared(l)
    ensures AllTagged(gs + [l]) == AllTagged(gs) + Tag(Declared(l), |gs|)
    ensures ChildCount(gs + [l]) == ChildCount(gs) + |l.argp.children|
  {
    assert (gs + [l])[..|gs|] == gs;
  }

  lemma HoldsParts(t: Tables, prefix: seq<int>, gs: seq<Located>, us: seq<bool>)
    requires Holds(t, prefix, gs, us)
    ensures t.short == prefix + TextOf(AllDeclared(gs)) && t.longs == LongTable(AllTagged(gs)) && |t.groups| == |gs|
  {
  }

  lemma AddGroup(was: Tables, now: Tables, prefix: seq<int>, gs: seq<Located>, us: seq<bool>, parent: Option<nat>)
    requires Holds(was, prefix, gs, us) && |now.groups| == |was.groups| + 1 && was.groups <= now.groups
    requires var g := now.groups[|was.groups|];
             var all := gs + [Located(g.argp, g.node)];
             && now.short == prefix + TextOf(AllDeclared(all)) && now.longs == LongTable(AllTagged(all))
             && g.shortEnd == |now.short| && g.childInputs == was.childEnd && g.parent == parent
             && now.childEnd == was.childEnd + |g.argp.children|
             && (parent.Some? ==>
                   && parent.value < |was.groups|
                   && g.node == was.groups[parent.value].node + [g.parentIndex]
                   && g.parentIndex < |was.groups[parent.value].argp.children|)
    ensures var g := now.groups[|was.groups|];
            Holds(now, prefix, gs + [Located(g.argp, g.node)], us + [parent.Some?])
  {
    hide TextOf;
    hide AllDeclared;
    hide LongTable;
    hide AllTagged;
    hide ChildCount;
    var n := |was.groups|;
    var l := Located(now.groups[n].argp, now.groups[n].node);
    var all, us' := gs + [l], us + [parent.Some?];
    Snocs(gs, l);
    assert all[..n + 1] == all && all[..n] == gs;
    forall i | 0 <= i < |all| ensures RecordOk(now.groups, prefix, all, us', i) {
      if i < n {
        assert RecordOk(was.groups, prefix, gs, us, i);
        assert all[..i + 1] == gs[..i + 1] && all[..i] == gs[..i];
      }
    }
  }

  lemma ListsOf(a: Argp, node: Node, under: bool, gs: seq<Located>, us: seq<bool>)
    ensures gs + Groups(a, node)
            == (if HasGroup(a) then gs + [Located(a, node)] else gs) + ChildGroups(a.children, node, 0)
    ensures us + Unders(a, under) == (if HasGroup(a) then us + [under] else us) + ChildUnders(a.children, HasGroup(a))
  {
  }

  lemma ChildLists(cs: seq<Argp>, i: nat, node: Node, under: bool, gs: seq<Located>, us: seq<bool>)
    requires i < |cs|
    ensures gs + ChildGroups(cs[i..], node, i)
            == (gs + Groups(cs[i], node + [i])) + ChildGroups(cs[i + 1..], node, i + 1)
    ensures us + ChildUnders(cs[i..], under) == (us + Unders(cs[i], under)) + ChildUnders(cs[i + 1..], under)
  {
    assert cs[i..][1..] == cs[i + 1..] && cs[i..][0] == cs[i];
  }

  /** parser_convert: the tables of a whole tree. */
  method ParserConvert(a: Argp, inOrder: bool, noArgs: bool) returns (t: Tables)
    ensures Holds(t, Prefix(inOrder, noArgs), Groups(a, []), Unders(a, false))
  {
    hide Holds;
    hide Groups;
    hide Unders;
    var c := new Converter(inOrder, noArgs);
    ghost var prefix := Prefix(inOrder, noArgs);
    NoGroups(prefix);
    c.ConvertOptions(a, [], None, 0, prefix, [], []);
    assert [] + Groups(a, []) == Groups(a, []) && [] + Unders(a, false) == Unders(a, false);
    t := Tables(c.short, c.longs, c.groups, c.childEnd);
  }

  lemma NoGroups(prefix: seq<int>)
    ensures Holds(Tables(prefix, [], [], 0), prefix, [], [])
  {
    assert prefix + [] == prefix;
  }

  // ---- Sizes -------------------------------------------------------------------------------------

  /** struct parser_sizes as calc_sizes accumulates it: options instead of the
      two lengths derived from their number. */
  datatype Sizes = Sizes(options: nat, groups: nat, childInputs: nat)

  /** The number of argps below `a`. */
  function Below(a: Argp): nat {
    AllBelow(a.children)
  }

  function AllBelow(cs: seq<Argp>): nat {
    if cs == [] then 0 else 1 + Below(cs[0]) + AllBelow(cs[1..])
  }

  /** calc_sizes: one child-input slot for every argp below the root, at least as
      many as the groups will ask for. */
  method CalcSizes(a: Argp, szs0: Sizes) returns (szs: Sizes)
    ensures szs.groups == szs0.groups + |Groups(a, [])|
    ensures szs.options == szs0.options + |AllDeclared(Groups(a, []))|
    ensures szs.childInputs == szs0.childInputs + Below(a) >= szs0.childInputs + ChildCount(Groups(a, []))
    decreases a, 1
  {
    hide AllDeclared;
    hide ChildCount;
    szs := szs0;
    if HasGroup(a) {
      szs := szs.(groups := szs.groups + 1, options := szs.options + |Opts(a)|);
    }
    OwnCounts(a, []);
    var i := 0;
    ghost var done := if HasGroup(a) then [Located(a, [])] else [];
    assert a.children[0..] == a.children;
    while i < |a.children|
      invariant 0 <= i <= |a.children|
      invariant done + ChildGroups(a.children[i..], [], i) == Groups(a, [])
      invariant szs.groups == szs0.groups + |done| && szs.options == szs0.options + |AllDeclared(done)|
      invariant szs.childInputs + AllBelow(a.children[i..]) == szs0.childInputs + Below(a)
      invariant szs.childInputs + (if HasGroup(a) then |a.children| - i else 0) >= szs0.childInputs + ChildCount(done)
    {
      szs := CalcSizes(a.children[i], szs);
      szs := szs.(childInputs := szs.childInputs + 1);
      ghost var more := Groups(a.children[i], [] + [i]);
      CountsAdd(done, a.children[i], [] + [i]);
      ChildLists(a.children, i, [], false, done, []);
      done := done + more;
      i := i + 1;
    }
    assert a.children[i..] == [];
    assert done + [] == done;
  }

  lemma CountsAdd(done: seq<Located>, a: Argp, node: Node)
    ensures |AllDeclared(done + Groups(a, node))| == |AllDeclared(done)| + |AllDeclared(Groups(a, []))|
    ensures ChildCount(done + Groups(a, node)) == ChildCount(done) + ChildCount(Groups(a, []))
    ensures |Groups(a, node)| == |Groups(a, [])|
  {
    hide AllDeclared;
    hide ChildCount;
    SameCounts(a, [], node);
    AllDeclaredConcat(done, Groups(a, node));
    ChildCountConcat(done, Groups(a, node));
  }

  lemma OwnCounts(a: Argp, node: Node)
    ensures var own := if HasGroup(a) then [Located(a, node)] else [];
            |AllDeclared(own)| == |Opts(a)| && ChildCount(own) == if HasGroup(a) then |a.children| else 0
  {
    if HasGroup(a) {
      Snocs([], Located(a, node));
      assert [] + [Located(a, node)] == [Located(a, node)];
    }
  }

  lemma {:induction false} ChildCountConcat(a: seq<Located>, b: seq<Located>)
    ensures ChildCount(a + b) == ChildCount(a) + ChildCount(b)
    decreases |b|
  {
    if b == [] {
      assert a + b == a;
    } else {
      var n := |b| - 1;
      ChildCountConcat(a, b[..n]);
      Regroup(a, b);
      Snocs(a + b[..n], b[n]);
    }
  }

  /** Counts do not depend on where the tree hangs. */
  lemma {:induction false} SameCounts(a: Argp, m: Node, n: Node)
    ensures |Groups(a, m)| == |Groups(a, n)|
    ensures |AllDeclared(Groups(a, m))| == |AllDeclared(Groups(a, n))|
    ensures ChildCount(Groups(a, m)) == ChildCount(Groups(a, n))
    decreases a, 1
  {
    hide AllDeclared;
    hide ChildCount;
    SameChildCounts(a.children, m, n, 0);
    OwnCounts(a, m);
    OwnCounts(a, n);
    AllDeclaredConcat(if HasGroup(a) then [Located(a, m)] else [], ChildGroups(a.children, m, 0));
    AllDeclaredConcat(if HasGroup(a) then [Located(a, n)] else [], ChildGroups(a.children, n, 0));
    ChildCountConcat(if HasGroup(a) then [Located(a, m)] else [], ChildGroups(a.children, m, 0));
    ChildCountConcat(if HasGroup(a) then [Located(a, n)] else [], ChildGroups(a.children, n, 0));
  }

  lemma {:induction false} SameChildCounts(cs: seq<Argp>, m: Node, n: Node, i: nat)
    ensures |ChildGroups(cs, m, i)| == |ChildGroups(cs, n, i)|
    ensures |AllDeclared(ChildGroups(cs, m, i))| == |AllDeclared(ChildGroups(cs, n, i))|
    ensures ChildCount(ChildGroups(cs, m, i)) == ChildCount(ChildGroups(cs, n, i))
    decreases cs, 0
  {
    hide AllDeclared;
    hide ChildCount;
    if cs != [] {
      SameCounts(cs[0], m + [i], n + [i]);
      SameChildCounts(cs[1..], m, n, i + 1);
      AllDeclaredConcat(Groups(cs[0], m + [i]), ChildGroups(cs[1..], m, i + 1));
      AllDeclaredConcat(Groups(cs[0], n + [i]), ChildGroups(cs[1..], n, i + 1));
      ChildCountConcat(Groups(cs[0], m + [i]), ChildGroups(cs[1..], m, i + 1));
      ChildCountConcat(Groups(cs[0], n + [i]), ChildGroups(cs[1..], n, i + 1));
    }
  }

  /** Does the option take three characters, a letter and two colons? */
  predicate TakesThree(o: Owned) {
    |ShortText(o)| == 3
  }

  lemma {:induction false} TextLength(os: seq<Owned>)
    ensures |TextOf(os)| <= 3 * |os|
    ensures |TextOf(os)| == 3 * |os| <==> forall o :: o in os ==> TakesThree(o)
    decreases |os|
  {
    hide ShortText;
    if os != [] {
      var n := |os| - 1;
      TextLength(os[..n]);
      assert os == os[..n] + [os[n]];
      if forall o :: o in os[..n] ==> TakesThree(o) {
        assert (forall o :: o in os ==> TakesThree(o)) <==> TakesThree(os[n]);
      } else {
        var o :| o in os[..n] && !TakesThree(o);
        assert o in os;
      }
    }
  }

  lemma {:induction false} LongLength(ts: seq<Tagged>)
    ensures |LongTable(ts)| <= |ts|
    decreases |ts|
  {
    if ts != [] { LongLength(ts[..|ts| - 1]); }
  }

  lemma {:induction false} TaggedLength(gs: seq<Located>)
    ensures |AllTagged(gs)| == |AllDeclared(gs)|
    decreases |gs|
  {
    if gs != [] { TaggedLength(gs[..|gs| - 1]); }
  }

  /** The storage parser_init reserves for the groups, long options and child
      inputs always suffices.  For the short-option string with its terminator
      it suffices if and only if ARGP_NO_ARGS is clear or some option does not
      take all three characters counted for it. */
  lemma SizesSuffice(t: Tables, a: Argp, szs: Sizes, inOrder: bool, noArgs: bool)
    requires Holds(t, Prefix(inOrder, noArgs), Groups(a, []), Unders(a, false))
    requires szs.groups == |Groups(a, [])| && szs.options == |AllDeclared(Groups(a, []))|
    requires szs.childInputs >= ChildCount(Groups(a, []))
    ensures |t.groups| == szs.groups && |t.longs| <= szs.options && t.childEnd <= szs.childInputs
    ensures var shortLen := (if noArgs then 0 else 1) + 3 * szs.options;
            |t.short| + 1 <= shortLen + 1
            <==> !noArgs || exists o :: o in AllDeclared(Groups(a, [])) && !TakesThree(o)
  {
    hide TextOf;
    hide TakesThree;
    var os := AllDeclared(Groups(a, []));
    TextLength(os);
    LongLength(AllTagged(Groups(a, [])));
    TaggedLength(Groups(a, []));
    if exists o :: o in os && !TakesThree(o) {
      var o :| o in os && !TakesThree(o);
    }
  }

  /** The child-input slots of different groups never overlap. */
  lemma SlotsAreDisjoint(t: Tables, prefix: seq<int>, gs: seq<Located>, us: seq<bool>, i: nat, j: nat)
    requires Holds(t, prefix, gs, us) && i < j < |t.groups|
    ensures t.groups[i].childInputs + |t.groups[i].argp.children| <= t.groups[j].childInputs
    ensures t.groups[j].childInputs + |t.groups[j].argp.children| <= t.childEnd
  {
    hide TextOf;
    hide AllDeclared;
    hide ChildCount;
    hide LongTable;
    hide AllTagged;
    assert RecordOk(t.groups, prefix, gs, us, i) && RecordOk(t.groups, prefix, gs, us, j);
    Snocs(gs[..i], gs[i]);
    assert gs[..i] + [gs[i]] == gs[..i + 1];
    CountMonotone(gs, i + 1, j);
    Snocs(gs[..j], gs[j]);
    assert gs[..j] + [gs[j]] == gs[..j + 1];
    CountMonotone(gs, j + 1, |gs|);
    assert gs[..|gs|] == gs;
  }

  lemma CountMonotone(gs: seq<Located>, i: nat, j: nat)
    requires i <= j <= |gs|
    ensures ChildCount(gs[..i]) <= ChildCount(gs[..j])
  {
    ChildCountConcat(gs[..i], gs[i..j]);
    assert gs[..i] + gs[i..j] == gs[..j];
  }

  // ---- Long options: the first declaration wins ---------------------------------------------------

  ghost predicate FirstNamed(ts: seq<Tagged>, name: string, j: int) {
    0 <= j < |ts| && Named(ts[j], name) && forall i :: 0 <= i < j ==> !Named(ts[i], name)
  }

  predicate SomeNamed(ts: seq<Tagged>, name: string) {
    exists i :: 0 <= i < |ts| && Named(ts[i], name)
  }

  lemma SomeNamedSnoc(ts: seq<Tagged>, t: Tagged, name: string)
    ensures SomeNamed(ts + [t], name) <==> SomeNamed(ts, name) || Named(t, name)
  {
    var all := ts + [t];
    if i :| 0 <= i < |ts| && Named(ts[i], name) { assert Named(all[i], name); }
    if Named(t, name) { assert Named(all[|ts|], name); }
  }

  lemma InLongsSnoc(ls: seq<LongOpt>, l: LongOpt, name: string)
    ensures InLongs(ls + [l], name) <==> InLongs(ls, name) || l.name == name
  {
    var all := ls + [l];
    if i :| 0 <= i < |ls| && ls[i].name == name { assert all[i].name == name; }
    if l.name == name { assert all[|ls|].name == name; }
  }

  lemma {:induction false} LongNames(ts: seq<Tagged>, name: string)
    ensures InLongs(LongTable(ts), name) <==> SomeNamed(ts, name)
    decreases |ts|
  {
    if ts != [] {
      hide InLongs;
      hide SomeNamed;
      var n := |ts| - 1;
      var t := ts[n];
      LongNames(ts[..n], name);
      assert ts == ts[..n] + [t];
      SomeNamedSnoc(ts[..n], t, name);
      if t.o.opt.name.Some? { InLongsSnoc(LongTable(ts[..n]), LongOf(t), name); }
    }
  }

  /** Names are pairwise distinct; a name is in the table exactly if some option
      that is not documentation has it, and its entry is made from the first
      such option in pre-order. */
  lemma {:induction false} LongTableIsFirst(ts: seq<Tagged>, name: string)
    ensures var ls := LongTable(ts);
            && (forall i, j :: 0 <= i < j < |ls| ==> ls[i].name != ls[j].name)
            && (InLongs(ls, name) <==> SomeNamed(ts, name))
            && forall i, j :: 0 <= i < |ls| && ls[i].name == name && FirstNamed(ts, name, j) ==> ls[i] == LongOf(ts[j])
    decreases |ts|
  {
    LongNames(ts, name);
    if ts != [] {
      var n := |ts| - 1;
      var pre, t := ts[..n], ts[n];
      LongTableIsFirst(pre, name);
      LongNames(pre, name);
      var was, ls := LongTable(pre), LongTable(ts);
      assert forall i, j :: 0 <= i < j < |ls| ==> ls[i].name != ls[j].name by {
        assert forall i :: 0 <= i < |was| ==> InLongs(was, was[i].name);
      }
      forall i, j | 0 <= i < |ls| && ls[i].name == name && FirstNamed(ts, name, j) ensures ls[i] == LongOf(ts[j]) {
        FirstOfPrefix(ts, name, j);
        if i < |was| {
          assert InLongs(was, name);
        }
      }
    }
  }

  lemma SomeFirstNamed(ts: seq<Tagged>, name: string) returns (j: nat)
    requires SomeNamed(ts, name)
    ensures FirstNamed(ts, name, j)
  {
    j := 0;
    while !Named(ts[j], name)
      invariant 0 <= j < |ts| && forall i :: 0 <= i < j ==> !Named(ts[i], name)
      decreases |ts| - j
    {
      var i :| 0 <= i < |ts| && Named(ts[i], name);
      assert i > j;
      j := j + 1;
    }
  }

  lemma FirstOfPrefix(ts: seq<Tagged>, name: string, j: int)
    requires ts != [] && FirstNamed(ts, name, j)
    ensures if SomeNamed(ts[..|ts| - 1], name) then FirstNamed(ts[..|ts| - 1], name, j) else j == |ts| - 1
  {
    var pre := ts[..|ts| - 1];
    if j < |ts| - 1 { assert Named(pre[j], name); }
    if i :| 0 <= i < |pre| && Named(pre[i], name) { assert Named(ts[i], name); }
  }

  // ---- Short options: dispatch by position ---------------------------------------------------------

  ghost predicate FirstAt(s: seq<int>, k: int, i: nat) {
    i < |s| && s[i] == k && forall j :: 0 <= j < i ==> s[j] != k
  }

  /** What parser_parse_opt finds for a short option: the first group whose
      options end behind the first occurrence of the letter. */
  ghost predicate Dispatches(t: Tables, k: int, r: Option<nat>) {
    match r
    case Some(n) =>
      && n < |t.groups|
      && exists i :: FirstAt(t.short, k, i) && t.groups[n].shortEnd > i
                     && forall m :: 0 <= m < n ==> t.groups[m].shortEnd <= i
    case None => forall i :: FirstAt(t.short, k, i) ==> forall m :: 0 <= m < |t.groups| ==> t.groups[m].shortEnd <= i
  }

  /** strchr: the first place of `k` from `i` on, or the end. */
  function IndexFrom(s: seq<int>, k: int, i: nat): (j: nat)
    requires i <= |s|
    ensures i <= j <= |s| && (j < |s| ==> s[j] == k) && forall m :: i <= m < j ==> s[m] != k
    decreases |s| - i
  {
    if i == |s| || s[i] == k then i else IndexFrom(s, k, i + 1)
  }

  /** The first group from `g` on whose letters end behind `at`, or their number. */
  function GroupFrom(groups: seq<Group>, at: nat, g: nat): (n: nat)
    requires g <= |groups|
    ensures g <= n <= |groups| && (n < |groups| ==> groups[n].shortEnd > at)
    ensures forall m :: g <= m < n ==> groups[m].shortEnd <= at
    decreases |groups| - g
  {
    if g == |groups| || groups[g].shortEnd > at then g else GroupFrom(groups, at, g + 1)
  }

  function ShortGroup(t: Tables, k: int): (r: Option<nat>)
    ensures Dispatches(t, k, r)
  {
    var i := IndexFrom(t.short, k, 0);
    if i == |t.short| then None
    else
      assert FirstAt(t.short, k, i);
      var n := GroupFrom(t.groups, i, 0);
      if n == |t.groups| then None else Some(n)
  }

  /** What parser_parse_opt makes of a value that getopt returns: a group and the
      key it is called with. */
  function Owner(t: Tables, opt: int): (r: Option<(nat, int)>)
    ensures r.Some? ==> r.value.0 < |t.groups|
  {
    var groupKey := GroupKey(opt);
    if groupKey == 0 then
      var g := ShortGroup(t, opt);
      if g.Some? then Some((g.value, opt)) else None
    else if 0 < groupKey <= |t.groups| then Some((groupKey - 1, UserKey(opt)))
    else None
  }

  /** The short-option branch of parser_parse_opt. */
  method DispatchShort(t: Tables, k: int) returns (r: Option<nat>)
    ensures Dispatches(t, k, r) && r == ShortGroup(t, k)
  {
    var i := 0;
    while i < |t.short| && t.short[i] != k
      invariant 0 <= i <= |t.short| && forall j :: 0 <= j < i ==> t.short[j] != k
    {
      i := i + 1;
    }
    if i == |t.short| { return None; }
    assert FirstAt(t.short, k, i);
    var n := 0;
    while n < |t.groups|
      invariant 0 <= n <= |t.groups| && forall m :: 0 <= m < n ==> t.groups[m].shortEnd <= i
    {
      if t.groups[n].shortEnd > i { return Some(n); }
      n := n + 1;
    }
    return None;
  }

  /** Does getopt know the letter from this option? */
  predicate Parsed(o: Owned, k: int) {
    Listed(o) && Short(o) && o.opt.key == k
  }

  ghost predicate FirstParsed(os: seq<Owned>, k: int, j: int) {
    0 <= j < |os| && Parsed(os[j], k) && forall i :: 0 <= i < j ==> !Parsed(os[i], k)
  }

  predicate Letter(k: int) {
    k != COLON && k != MINUS && k != PLUS
  }

  predicate SomeParsed(os: seq<Owned>, k: int) {
    exists i :: 0 <= i < |os| && Parsed(os[i], k)
  }

  lemma SomeParsedSnoc(os: seq<Owned>, o: Owned, k: int)
    ensures SomeParsed(os + [o], k) <==> SomeParsed(os, k) || Parsed(o, k)
  {
    hide Parsed;
    var all := os + [o];
    if i :| 0 <= i < |os| && Parsed(os[i], k) { assert Parsed(all[i], k); }
    if Parsed(o, k) { assert Parsed(all[|os|], k); }
  }

  lemma LetterInOne(o: Owned, k: int)
    requires Letter(k)
    ensures k in ShortText(o) <==> Parsed(o, k)
  {
  }

  lemma {:induction false} LetterInText(os: seq<Owned>, k: int)
    requires Letter(k)
    ensures k in TextOf(os) <==> SomeParsed(os, k)
    decreases |os|
  {
    hide SomeParsed;
    hide ShortText;
    if os == [] {
      NoneParsed(k);
    } else {
      var n := |os| - 1;
      LetterInText(os[..n], k);
      assert os == os[..n] + [os[n]];
      SomeParsedSnoc(os[..n], os[n], k);
      LetterInOne(os[n], k);
    }
  }

  lemma NoneParsed(k: int)
    ensures !SomeParsed([], k)
  {
  }

  /** The first occurrence of a letter comes from the first option with it. */
  lemma LetterPlace(prefix: seq<int>, os: seq<Owned>, k: int, j: nat)
    requires Letter(k) && k !in prefix && FirstParsed(os, k, j)
    ensures FirstAt(prefix + TextOf(os), k, |prefix| + |TextOf(os[..j])|)
  {
    hide TextOf;
    assert !SomeParsed(os[..j], k) by {
      assert forall i :: 0 <= i < j ==> os[..j][i] == os[i];
    }
    LetterInText(os[..j], k);
    TextConcat(os[..j], os[j..]);
    TextConcat([os[j]], os[j + 1..]);
    TextSnoc([], os[j]);
    EmptyText();
    assert os == os[..j] + os[j..] && os[j..] == [os[j]] + os[j + 1..] && [] + [os[j]] == [os[j]];
    assert ShortText(os[j])[0] == k;
  }

  lemma EmptyText()
    ensures TextOf([]) == []
  {
  }

  lemma FirstAtUnique(s: seq<int>, k: int, i: nat, j: nat)
    requires FirstAt(s, k, i) && FirstAt(s, k, j)
    ensures i == j
  {
  }

  /** The text of a longer run of options is longer if it includes a listed one. */
  lemma TextReaches(os: seq<Owned>, e: nat, j: nat)
    requires e <= |os| && j < |os| && ShortText(os[j]) != []
    ensures |TextOf(os[..e])| > |TextOf(os[..j])| <==> e > j
  {
    hide TextOf;
    if e > j {
      TextConcat(os[..j + 1], os[j + 1..e]);
      TextSnoc(os[..j], os[j]);
      assert os[..e] == os[..j + 1] + os[j + 1..e] && os[..j + 1] == os[..j] + [os[j]];
    } else {
      TextConcat(os[..e], os[e..j]);
      assert os[..j] == os[..e] + os[e..j];
    }
  }

  /** Where the options of group `n` end among all the options. */
  function EndOf(gs: seq<Located>, n: nat): nat
    requires n <= |gs|
  {
    |AllDeclared(gs[..n])|
  }

  lemma DeclaredSplit(gs: seq<Located>, n: nat)
    requires n <= |gs|
    ensures EndOf(gs, n) <= |AllDeclared(gs)| && AllDeclared(gs)[..EndOf(gs, n)] == AllDeclared(gs[..n])
  {
    hide AllDeclared;
    AllDeclaredConcat(gs[..n], gs[n..]);
    assert gs == gs[..n] + gs[n..];
  }

  lemma OptionOfGroup(gs: seq<Located>, n: nat, j: nat)
    requires n < |gs| && EndOf(gs, n) <= j < EndOf(gs, n + 1)
    ensures j < |AllDeclared(gs)| && AllDeclared(gs)[j] in Declared(gs[n]) && AllDeclared(gs)[j].node == gs[n].node
  {
    DeclaredSplit(gs, n + 1);
    assert gs[..n + 1][..n] == gs[..n];
    var d := AllDeclared(gs[..n + 1]);
    assert d[j] == Declared(gs[n])[j - EndOf(gs, n)];
    assert AllDeclared(gs)[j] == d[j];
  }

  lemma NodeOfGroup(t: Tables, prefix: seq<int>, gs: seq<Located>, us: seq<bool>, n: nat)
    requires Holds(t, prefix, gs, us) && n < |gs|
    ensures |t.groups| == |gs| && t.groups[n].node == gs[n].node
  {
    assert RecordOk(t.groups, prefix, gs, us, n);
  }

  /** A letter goes to the group that declares its first occurrence. */
  lemma {:induction false} DispatchFound(t: Tables, prefix: seq<int>, gs: seq<Located>, us: seq<bool>, k: int,
                                         r: Option<nat>, j: nat)
    requires Holds(t, prefix, gs, us) && Letter(k) && k !in prefix && Dispatches(t, k, r)
    requires FirstParsed(AllDeclared(gs), k, j)
    ensures r.Some? && r.value < |gs| && EndOf(gs, r.value) <= j < EndOf(gs, r.value + 1)
  {
    hide TextOf;
    hide AllDeclared;
    hide Holds;
    hide Dispatches;
    var os := AllDeclared(gs);
    LetterPlace(prefix, os, k, j);
    var i := |prefix| + |TextOf(os[..j])|;
    GroupEnds(t, prefix, gs, us);
    var n := OwnerGroup(gs, j);
    forall m | 0 <= m < |gs| ensures t.groups[m].shortEnd > i <==> m >= n {
      EndReaches(t, prefix, gs, m, n, j);
    }
    DispatchIs(t, k, r, i, n);
  }

  /** Exactly the groups from the owner on end behind the option's text. */
  lemma EndReaches(t: Tables, prefix: seq<int>, gs: seq<Located>, m: nat, n: nat, j: nat)
    requires GroupEnd(t, prefix, gs, m) && n < |gs| && EndOf(gs, n) <= j < EndOf(gs, n + 1)
    requires j < |AllDeclared(gs)| && ShortText(AllDeclared(gs)[j]) != []
    ensures t.groups[m].shortEnd > |prefix| + |TextOf(AllDeclared(gs)[..j])| <==> m >= n
  {
    hide TextOf;
    hide AllDeclared;
    hide ShortText;
    TextReaches(AllDeclared(gs), EndOf(gs, m + 1), j);
    EndsGrow(gs, n, m);
  }

  /** Short options go to the group of the first argp, in pre-order, that
      declares the letter; a letter nobody declares goes nowhere. */
  lemma DispatchOwner(t: Tables, prefix: seq<int>, gs: seq<Located>, us: seq<bool>, k: int, r: Option<nat>)
    requires Holds(t, prefix, gs, us) && Letter(k) && k !in prefix && Dispatches(t, k, r)
    ensures var os := AllDeclared(gs);
            match r
            case None => forall j :: 0 <= j < |os| ==> !Parsed(os[j], k)
            case Some(n) => n < |gs| && exists j :: FirstParsed(os, k, j) && EndOf(gs, n) <= j < EndOf(gs, n + 1)
  {
    hide AllDeclared;
    hide Holds;
    hide Dispatches;
    hide TextOf;
    var os := AllDeclared(gs);
    if SomeParsed(os, k) {
      var j := SomeFirstParsed(os, k);
      DispatchFound(t, prefix, gs, us, k, r, j);
    } else {
      LetterInText(os, k);
      NoDispatch(t, prefix, gs, us, k, r);
    }
  }

  lemma SomeFirstParsed(os: seq<Owned>, k: int) returns (j: nat)
    requires SomeParsed(os, k)
    ensures FirstParsed(os, k, j)
  {
    j := 0;
    while !Parsed(os[j], k)
      invariant 0 <= j < |os| && forall i :: 0 <= i < j ==> !Parsed(os[i], k)
      decreases |os| - j
    {
      var i :| 0 <= i < |os| && Parsed(os[i], k);
      assert i > j;
      j := j + 1;
    }
  }

  /** The record of group `m` points behind its own options. */
  ghost predicate GroupEnd(t: Tables, prefix: seq<int>, gs: seq<Located>, m: int) {
    && 0 <= m < |gs| == |t.groups|
    && EndOf(gs, m + 1) <= |AllDeclared(gs)|
    && t.groups[m].shortEnd == |prefix| + |TextOf(AllDeclared(gs)[..EndOf(gs, m + 1)])|
  }

  lemma GroupEnds(t: Tables, prefix: seq<int>, gs: seq<Located>, us: seq<bool>)
    requires Holds(t, prefix, gs, us)
    ensures |t.groups| == |gs| && t.short == prefix + TextOf(AllDeclared(gs))
    ensures forall m :: 0 <= m < |gs| ==> GroupEnd(t, prefix, gs, m)
  {
    hide TextOf;
    hide LongTable;
    hide AllDeclared;
    hide AllTagged;
    hide ChildCount;
    forall m | 0 <= m < |gs| ensures GroupEnd(t, prefix, gs, m) {
      assert RecordOk(t.groups, prefix, gs, us, m);
      DeclaredSplit(gs, m + 1);
    }
  }

  /** The group whose options include number `j`. */
  lemma OwnerGroup(gs: seq<Located>, j: nat) returns (n: nat)
    requires j < |AllDeclared(gs)|
    ensures n < |gs| && EndOf(gs, n) <= j < EndOf(gs, n + 1)
  {
    assert EndOf(gs, 0) == 0;
    assert gs[..|gs|] == gs;
    n := 0;
    while EndOf(gs, n + 1) <= j
      invariant 0 <= n < |gs| && EndOf(gs, n) <= j
      decreases |gs| - n
    {
      n := n + 1;
    }
  }

  lemma EndsGrow(gs: seq<Located>, m: nat, n: nat)
    requires m <= |gs| && n < |gs|
    ensures m <= n ==> EndOf(gs, m) <= EndOf(gs, n) && (m < |gs| ==> EndOf(gs, m + 1) <= EndOf(gs, n + 1))
    ensures n < m ==> EndOf(gs, n + 1) <= EndOf(gs, m)
  {
    hide AllDeclared;
    if m <= n {
      AllDeclaredConcat(gs[..m], gs[m..n]);
      assert gs[..n] == gs[..m] + gs[m..n];
      if m < |gs| {
        AllDeclaredConcat(gs[..m + 1], gs[m + 1..n + 1]);
        assert gs[..n + 1] == gs[..m + 1] + gs[m + 1..n + 1];
      }
    } else {
      AllDeclaredConcat(gs[..n + 1], gs[n + 1..m]);
      assert gs[..m] == gs[..n + 1] + gs[n + 1..m];
    }
  }

  lemma DispatchIs(t: Tables, k: int, r: Option<nat>, i: nat, n: nat)
    requires Dispatches(t, k, r) && FirstAt(t.short, k, i) && n < |t.groups|
    requires forall m :: 0 <= m < |t.groups| ==> (t.groups[m].shortEnd > i <==> m >= n)
    ensures r == Some(n)
  {
    assert t.groups[n].shortEnd > i;
    match r
    case None =>
    case Some(x) =>
      var i' :| && FirstAt(t.short, k, i') && t.groups[x].shortEnd > i'
                && forall m :: 0 <= m < x ==> t.groups[m].shortEnd <= i';
      FirstAtUnique(t.short, k, i, i');
  }

  lemma NoDispatch(t: Tables, prefix: seq<int>, gs: seq<Located>, us: seq<bool>, k: int, r: Option<nat>)
    requires Holds(t, prefix, gs, us) && Dispatches(t, k, r) && k !in prefix && k !in TextOf(AllDeclared(gs))
    ensures r == None
  {
    assert k !in t.short;
  }
}
