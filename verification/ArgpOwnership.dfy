/** The help output and the parser agree on which argp a short option belongs to. */
module ArgpOwnership {
  import opened Basics
  import opened Argp
  import opened ArgpTree
  import HL = HelpList
  import PT = ParserTables

  /** Both lists were made from the same tree. */
  ghost predicate SameTree(a: Argp, h: HL.Hol, t: PT.Tables, inOrder: bool, noArgs: bool) {
    && HL.Segmented(h) && HL.AllOptions(h.entries) == AllDeclared(Groups(a, []))
    && PT.Holds(t, PT.Prefix(inOrder, noArgs), Groups(a, []), PT.Unders(a, false))
  }

  /** What a program's help output and its parser are made from. */
  method MakeBoth(a: Argp, inOrder: bool, noArgs: bool) returns (h: HL.Hol, t: PT.Tables)
    requires HL.NoLeadingAlias(a)
    ensures SameTree(a, h, t, inOrder, noArgs)
  {
    hide HL.Segmented;
    hide PT.Holds;
    h := HL.ArgpHol(a, [], None);
    t := PT.ParserConvert(a, inOrder, noArgs);
  }

  /** Option `j` of entry `i` is shown with its letter in the help output (if it
      is visible at all). */
  predicate Shown(h: HL.Hol, i: int, j: int) {
    && 0 <= i < |h.entries| && 0 <= j < |h.entries[i].opts|
    && HL.Decode(h.letters, h.entries[i].so, h.entries[i].opts)[j]
  }

  /** The place of option `j` of entry `i` among all options. */
  function Place(h: HL.Hol, i: nat, j: nat): nat
    requires i < |h.entries|
  {
    |HL.AllOptions(h.entries[..i])| + j
  }

  lemma PlaceOfOption(h: HL.Hol, i: nat, j: nat)
    requires i < |h.entries| && j < |h.entries[i].opts|
    ensures var os, p := HL.AllOptions(h.entries), Place(h, i, j);
            && p < |os| && os[p] == HL.Options(h.entries[i])[j]
            && os[..p] == HL.AllOptions(h.entries[..i]) + HL.Options(h.entries[i])[..j]
  {
    hide HL.AllOptions;
    HL.AllOptionsSplit(h.entries, i);
    var after :| HL.AllOptions(h.entries) == HL.AllOptions(h.entries[..i]) + HL.Options(h.entries[i]) + after;
  }

  lemma LetterOf(os: seq<Owned>, k: int)
    ensures k in Letters(os) <==> exists q :: 0 <= q < |os| && Short(os[q]) && os[q].opt.key == k
  {
  }

  /** No option before `p` has the letter of option `p`. */
  lemma UnshadowedIsFirst(os: seq<Owned>, p: nat)
    requires p < |os|
    ensures Unshadowed(os[..p], os[p])
            <==> Short(os[p]) && forall q :: 0 <= q < p ==> !(Short(os[q]) && os[q].opt.key == os[p].opt.key)
  {
    hide Letters;
    hide Short;
    var pre := os[..p];
    LetterOf(pre, os[p].opt.key);
    assert forall q :: 0 <= q < p ==> pre[q] == os[q];
  }

  /** The option the help output shows for a letter is the option the parser
      dispatches the letter to if and only if it is not an alias of a
      documentation option; the parser's group is then that of the same argp. */
  lemma ShownIsDispatched(a: Argp, h: HL.Hol, t: PT.Tables, inOrder: bool, noArgs: bool, i: nat, j: nat, r: Option<nat>)
    requires SameTree(a, h, t, inOrder, noArgs) && Shown(h, i, j)
    requires PT.Letter(h.entries[i].opts[j].key) && PT.Dispatches(t, h.entries[i].opts[j].key, r)
    ensures var e := h.entries[i];
            && (PT.FirstParsed(AllDeclared(Groups(a, [])), e.opts[j].key, Place(h, i, j)) <==> !e.opts[0].isDoc)
            && (!e.opts[0].isDoc ==> r.Some? && r.value < |t.groups| && t.groups[r.value].node == e.node)
  {
    hide AllDeclared;
    hide Groups;
    hide HL.AllOptions;
    hide PT.Dispatches;
    hide PT.Holds;
    hide Unshadowed;
    var e, gs := h.entries[i], Groups(a, []);
    var os, p, k := AllDeclared(gs), Place(h, i, j), e.opts[j].key;
    HL.DecodesUnshadowed(h, i, j);
    PlaceOfOption(h, i, j);
    UnshadowedIsFirst(os, p);
    if !e.opts[0].isDoc {
      assert PT.FirstParsed(os, k, p);
      PT.DispatchFound(t, PT.Prefix(inOrder, noArgs), gs, PT.Unders(a, false), k, r, p);
      var n := r.value;
      PT.OptionOfGroup(gs, n, p);
      PT.NodeOfGroup(t, PT.Prefix(inOrder, noArgs), gs, PT.Unders(a, false), n);
    }
  }

  /** Every letter the parser dispatches is shown by the help entry of the same
      argp, as long as no alias of a documentation option carries it. */
  lemma DispatchedIsShown(a: Argp, h: HL.Hol, t: PT.Tables, inOrder: bool, noArgs: bool, k: int, r: Option<nat>)
    returns (i: nat, j: nat)
    requires SameTree(a, h, t, inOrder, noArgs) && PT.Letter(k) && PT.Dispatches(t, k, r) && r.Some?
    requires forall o :: o in AllDeclared(Groups(a, [])) && Short(o) && o.opt.key == k ==> PT.Listed(o)
    ensures Shown(h, i, j) && h.entries[i].opts[j].key == k
    ensures r.value < |t.groups| && t.groups[r.value].node == h.entries[i].node
  {
    hide AllDeclared;
    hide Groups;
    hide HL.AllOptions;
    hide PT.Dispatches;
    hide PT.Holds;
    hide Unshadowed;
    var gs, n := Groups(a, []), r.value;
    var os := AllDeclared(gs);
    PT.DispatchOwner(t, PT.Prefix(inOrder, noArgs), gs, PT.Unders(a, false), k, r);
    var p :| PT.FirstParsed(os, k, p) && PT.EndOf(gs, n) <= p < PT.EndOf(gs, n + 1);
    i, j := EntryOf(h, p);
    PlaceOfOption(h, i, j);
    UnshadowedIsFirst(os, p);
    HL.DecodesUnshadowed(h, i, j);
    PT.OptionOfGroup(gs, n, p);
    PT.NodeOfGroup(t, PT.Prefix(inOrder, noArgs), gs, PT.Unders(a, false), n);
  }

  /** The entry that holds option number `p`. */
  lemma EntryOf(h: HL.Hol, p: nat) returns (i: nat, j: nat)
    requires p < |HL.AllOptions(h.entries)|
    ensures i < |h.entries| && j < |h.entries[i].opts| && Place(h, i, j) == p
  {
    assert h.entries[..|h.entries|] == h.entries;
    i := 0;
    while |HL.AllOptions(h.entries[..i + 1])| <= p
      invariant 0 <= i < |h.entries| && |HL.AllOptions(h.entries[..i])| <= p
      decreases |h.entries| - i
    {
      i := i + 1;
    }
    assert h.entries[..i + 1] == h.entries[..i] + [h.entries[i]];
    HL.AllOptionsSnoc(h.entries[..i], h.entries[i]);
    j := p - |HL.AllOptions(h.entries[..i])|;
  }

  /** Long options: whatever getopt returns for a name decodes to the group and
      key of the first option, in pre-order, that is not documentation. */
  lemma LongOptionGoesHome(ts: seq<PT.Tagged>, name: string, j: int, i: nat)
    requires PT.FirstNamed(ts, name, j) && i < |PT.LongTable(ts)| && PT.LongTable(ts)[i].name == name
    requires var o := ts[j].o;
             var key := if o.opt.key != 0 then o.opt.key else o.base.key;
             -0x80_0000 <= key < 0x80_0000
    requires ts[j].group < 127
    ensures var o := ts[j].o;
            var val := PT.LongTable(ts)[i].val;
            && PT.GroupKey(val) - 1 == ts[j].group
            && PT.UserKey(val) == (if o.opt.key != 0 then o.opt.key else o.base.key)
            && val != -1 && val != 1 && val != 63
  {
    hide PT.Encode;
    hide PT.GroupKey;
    hide PT.UserKey;
    PT.LongTableIsFirst(ts, name);
    var o := ts[j].o;
    PT.EncodeDecode(if o.opt.key != 0 then o.opt.key else o.base.key, ts[j].group);
  }
}
