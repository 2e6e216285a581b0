/** The help option list (HOL): make_hol, hol_append, argp_hol, and the decoding
    of short options by position in the shared letter string. */
module HelpList {
  import opened Basics
  import opened Argp
  import opened ArgpTree

  /** struct hol_cluster.  `node` is the child argp the cluster is made for and
      stands for the address of the struct. */
  datatype Cluster = Cluster(node: Node, header: Option<string>, index: nat, group: int,
                             parent: Option<Cluster>, depth: nat)

  /** struct hol_entry: `opts` are the `num` options from `opt` on, `so` is the
      offset of `short_options` in the letter string. */
  datatype Entry = Entry(opts: seq<Opt>, so: nat, group: int, cluster: Option<Cluster>, node: Node)

  /** struct hol: the entries and the letter string. */
  datatype Hol = Hol(entries: seq<Entry>, letters: seq<int>)

  /** The options of an entry with the argp they come from; aliases stand for
      the first option. */
  function Options(e: Entry): seq<Owned> {
    seq(|e.opts|, i requires 0 <= i < |e.opts| => Owned(e.opts[i], e.opts[0], e.node))
  }

  /** An entry is one option with its aliases. */
  predicate IsEntry(e: Entry) {
    e.opts != [] && forall i :: 0 < i < |e.opts| ==> e.opts[i].isAlias
  }

  function AllOptions(es: seq<Entry>): seq<Owned> {
    if es == [] then [] else AllOptions(es[..|es| - 1]) + Options(es[|es| - 1])
  }

  lemma AllOptionsSnoc(es: seq<Entry>, e: Entry)
    ensures AllOptions(es + [e]) == AllOptions(es) + Options(e)
  {
    assert (es + [e])[..|es|] == es;
  }

  /** The invariant of every HOL: the letter string holds the letters of all the
      options, without repetition and in order, and every entry's pointer is
      where the letters of the entries before it end. */
  ghost predicate Segmented(h: Hol) {
    && (forall e :: e in h.entries ==> IsEntry(e))
    && h.letters == Letters(AllOptions(h.entries))
    && forall i :: 0 <= i < |h.entries| ==> h.entries[i].so == Start(h.entries, i)
  }

  /** Where the letters of entry `i` begin. */
  function Start(es: seq<Entry>, i: nat): nat
    requires i <= |es|
  {
    |Letters(AllOptions(es[..i]))|
  }

  // ---- Decoding ---------------------------------------------------------------------

  /** hol_entry_short_iterate: which options of an entry have a letter at the
      place the pointer has reached. */
  function Decode(letters: seq<int>, so: nat, opts: seq<Opt>): (r: seq<bool>)
    ensures |r| == |opts|
    decreases |opts|
  {
    if opts == [] then []
    else if IsShort(opts[0]) && so < |letters| && letters[so] == opts[0].key then
      [true] + Decode(letters, so + 1, opts[1..])
    else [false] + Decode(letters, so, opts[1..])
  }

  /** One option at the place its letter would have: the letter is there exactly
      if no earlier option claims it. */
  lemma DecodeOne(before: seq<Owned>, o: Owned, after: seq<Owned>)
    ensures var letters := Letters(before + [o] + after);
            var so := |Letters(before)|;
            && (Short(o) && so < |letters| && letters[so] == o.opt.key <==> Unshadowed(before, o))
            && |Letters(before + [o])| == if Unshadowed(before, o) then so + 1 else so
  {
    hide Letters;
    LettersSnoc(before, o);
    LettersPrefix(before + [o], after);
    LettersDistinct(before + [o] + after);
    var letters, so := Letters(before + [o] + after), |Letters(before)|;
    if Short(o) && o.opt.key in Letters(before) {
      var i :| 0 <= i < so && Letters(before)[i] == o.opt.key;
      assert letters[i] == o.opt.key;
    }
  }

  lemma LettersDistinct(os: seq<Owned>)
    ensures Distinct(Letters(os))
  {
  }

  /** A run of options decoded from its place. */
  lemma {:induction false} DecodeRun(before: seq<Owned>, opts: seq<Opt>, os: seq<Owned>, after: seq<Owned>)
    requires |os| == |opts| && forall i :: 0 <= i < |os| ==> os[i].opt == opts[i]
    ensures var r := Decode(Letters(before + os + after), |Letters(before)|, opts);
            forall k :: 0 <= k < |opts| ==> (r[k] <==> Unshadowed(before + os[..k], os[k]))
    decreases |opts|
  {
    hide Letters;
    hide Unshadowed;
    if opts != [] {
      var o, rest := os[0], os[1..];
      assert before + os + after == before + [o] + (rest + after) == (before + [o]) + rest + after;
      DecodeOne(before, o, rest + after);
      DecodeRun(before + [o], opts[1..], rest, after);
      var letters := Letters(before + os + after);
      var r := Decode(letters, |Letters(before)|, opts);
      var r' := Decode(letters, |Letters(before + [o])|, opts[1..]);
      assert r == [Unshadowed(before, o)] + r';
      forall k | 0 <= k < |opts| ensures r[k] <==> Unshadowed(before + os[..k], os[k]) {
        if k == 0 {
          assert before + os[..0] == before;
        } else {
          assert r[k] == r'[k - 1];
          assert before + os[..k] == (before + [o]) + rest[..k - 1];
        }
      }
    }
  }

  lemma {:induction false} AllOptionsSplit(es: seq<Entry>, i: nat)
    requires i < |es|
    ensures exists after :: AllOptions(es) == AllOptions(es[..i]) + Options(es[i]) + after
    decreases |es|
  {
    var n := |es| - 1;
    if i == n {
      assert AllOptions(es) == AllOptions(es[..i]) + Options(es[i]) + [];
    } else {
      AllOptionsSplit(es[..n], i);
      assert es[..n][..i] == es[..i];
      var after :| AllOptions(es[..n]) == AllOptions(es[..i]) + Options(es[i]) + after;
      assert AllOptions(es) == AllOptions(es[..i]) + Options(es[i]) + (after + Options(es[n]));
    }
  }

  /** Decoding is exact: every entry of a HOL shows precisely those of its
      options that no option before them, in this entry or an earlier one,
      shadows. */
  lemma DecodesUnshadowed(h: Hol, i: nat, k: nat)
    requires Segmented(h) && i < |h.entries| && k < |h.entries[i].opts|
    ensures var e := h.entries[i];
            Decode(h.letters, e.so, e.opts)[k]
            <==> Unshadowed(AllOptions(h.entries[..i]) + Options(e)[..k], Options(e)[k])
  {
    hide Letters;
    hide Unshadowed;
    hide Decode;
    var e := h.entries[i];
    AllOptionsSplit(h.entries, i);
    var after :| AllOptions(h.entries) == AllOptions(h.entries[..i]) + Options(e) + after;
    assert e.so == Start(h.entries, i);
    DecodeRun(AllOptions(h.entries[..i]), e.opts, Options(e), after);
  }

  // ---- make_hol ------------------------------------------------------------------------

  /** The group of an entry that follows one in group `prev`. */
  function GroupAfter(prev: int, o: Opt): int {
    if o.group != 0 then o.group else if o.name.None? && o.key == 0 then prev + 1 else prev
  }

  /** Every entry's group follows from its own option and the entry of the same
      argp before it. */
  predicate Grouped(es: seq<Entry>) {
    forall i :: 0 <= i < |es| ==> GroupFollows(es, i)
  }

  /** The group numbers of an argp's entries: one that is given is taken, an option
      without one stays in the group before it, and a header without one starts the
      next; every argp starts from 0. */
  lemma GroupNumbers(es: seq<Entry>, i: nat)
    requires Grouped(es) && i < |es|
    ensures es[i].opts != []
    ensures var o, first := es[i].opts[0], i == 0 || es[i - 1].node != es[i].node;
            && (o.group != 0 ==> es[i].group == o.group)
            && (o.group == 0 && (o.name.Some? || o.key != 0) ==> es[i].group == if first then 0 else es[i - 1].group)
            && (o.group == 0 && o.name.None? && o.key == 0 ==> es[i].group == if first then 1 else es[i - 1].group + 1)
  {
    assert GroupFollows(es, i);
  }

  predicate GroupFollows(es: seq<Entry>, i: nat)
    requires i < |es|
  {
    var before := if i > 0 && es[i - 1].node == es[i].node then es[i - 1].group else 0;
    es[i].opts != [] && es[i].group == GroupAfter(before, es[i].opts[0])
  }

  predicate AllFrom(es: seq<Entry>, node: Node, cluster: Option<Cluster>) {
    forall e :: e in es ==> e.node == node && e.cluster == cluster
  }

  predicate FirstNotAlias(a: Argp) {
    Opts(a) != [] ==> !Opts(a)[0].isAlias
  }

  lemma RunOfAliases(opts: seq<Opt>, start: nat, i: nat)
    requires start <= i < |opts| && !opts[start].isAlias && forall j :: start < j <= i ==> opts[j].isAlias
    ensures RealAt(opts, i) == opts[start]
  {
    if i > start { RunOfAliases(opts, start, i - 1); }
  }

  /** make_hol */
  method MakeHol(a: Argp, node: Node, cluster: Option<Cluster>) returns (h: Hol)
    requires FirstNotAlias(a)
    ensures Segmented(h) && AllOptions(h.entries) == Declared(Located(a, node))
    ensures Grouped(h.entries) && AllFrom(h.entries, node, cluster)
  {
    hide Letters;
    hide GroupAfter;
    hide Segmented;
    hide AllOptions;
    hide Grouped;
    hide AllFrom;
    NothingGrouped(node, cluster);
    var opts := Opts(a);
    ghost var all := Declared(Located(a, node));
    var entries: seq<Entry>, letters: seq<int>, o, curGroup := [], [], 0, 0;
    EmptyHol();
    assert all[..0] == [];
    while o < |opts|
      invariant 0 <= o <= |opts| && Segmented(Hol(entries, letters)) && letters == Letters(all[..o])
      invariant AllOptions(entries) == all[..o]
      invariant Grouped(entries) && AllFrom(entries, node, cluster)
      invariant curGroup == if entries == [] then 0 else entries[|entries| - 1].group
      invariant o < |opts| ==> !opts[o].isAlias
    {
      var start := o;
      curGroup := GroupAfter(curGroup, opts[o]);
      var so := |letters|;
      ghost var before := letters;
      o, letters := TakeEntry(opts, start, letters, all);
      var entry := Entry(opts[start..o], so, curGroup, cluster, node);
      AddEntry(entries, before, letters, entry, all, start, o, opts);
      SnocGrouped(entries, entry, cluster);
      entries := entries + [entry];
    }
    assert all[..|opts|] == all;
    h := Hol(entries, letters);
  }

  lemma NothingGrouped(node: Node, cluster: Option<Cluster>)
    ensures Grouped([]) && AllFrom([], node, cluster)
  {
  }

  lemma SnocGrouped(es: seq<Entry>, e: Entry, cluster: Option<Cluster>)
    requires Grouped(es) && AllFrom(es, e.node, cluster) && e.cluster == cluster && e.opts != []
    requires e.group == GroupAfter(if es == [] then 0 else es[|es| - 1].group, e.opts[0])
    ensures Grouped(es + [e]) && AllFrom(es + [e], e.node, cluster)
  {
    hide GroupAfter;
    var r := es + [e];
    forall i | 0 <= i < |r| ensures GroupFollows(r, i) {
      if i < |es| { assert GroupFollows(es, i); }
      assert i > 0 ==> r[i - 1] == es[i - 1] && es[i - 1] in es;
    }
  }

  lemma EmptyHol()
    ensures Segmented(Hol([], [])) && AllOptions([]) == [] && Letters([]) == []
  {
  }

  /** The inner loop: one option and its aliases, adding the letters that are
      not in use yet. */
  method TakeEntry(opts: seq<Opt>, start: nat, letters0: seq<int>, ghost all: seq<Owned>)
    returns (o: nat, letters: seq<int>)
    requires start < |opts| && |all| == |opts| && letters0 == Letters(all[..start])
    requires forall i :: 0 <= i < |opts| ==> all[i].opt == opts[i]
    ensures start < o <= |opts| && letters == Letters(all[..o])
    ensures forall j :: start < j < o ==> opts[j].isAlias
    ensures o < |opts| ==> !opts[o].isAlias
  {
    hide Letters;
    o, letters := start, letters0;
    while true
      invariant start <= o < |opts| && letters == Letters(all[..o])
      invariant forall j :: start < j <= o ==> opts[j].isAlias
      decreases |opts| - o
    {
      assert all[..o + 1] == all[..o] + [all[o]];
      LettersSnoc(all[..o], all[o]);
      if IsShort(opts[o]) && opts[o].key !in letters {
        letters := letters + [opts[o].key];
      }
      o := o + 1;
      if !(o < |opts| && opts[o].isAlias) { break; }
    }
  }

  lemma AddEntry(entries: seq<Entry>, before: seq<int>, letters: seq<int>, entry: Entry,
                 all: seq<Owned>, start: nat, o: nat, opts: seq<Opt>)
    requires start < o <= |opts| && |all| == |opts| && Segmented(Hol(entries, before))
    requires AllOptions(entries) == all[..start] && letters == Letters(all[..o])
    requires entry.opts == opts[start..o] && entry.so == |before|
    requires !opts[start].isAlias && forall j :: start < j < o ==> opts[j].isAlias
    requires forall i :: 0 <= i < |opts| ==> all[i] == Owned(opts[i], RealAt(opts, i), entry.node)
    ensures Segmented(Hol(entries + [entry], letters)) && AllOptions(entries + [entry]) == all[..o]
  {
    hide Letters;
    hide AllOptions;
    hide Options;
    hide RealAt;
    hide Start;
    OptionsOfRun(entry, all, start, o, opts);
    AllOptionsSnoc(entries, entry);
    assert all[..start] + all[start..o] == all[..o];
    RunIsEntry(entry, start, o, opts);
    StartsKept(entries, entry);
  }

  lemma RunIsEntry(entry: Entry, start: nat, o: nat, opts: seq<Opt>)
    requires start < o <= |opts| && entry.opts == opts[start..o]
    requires forall j :: start < j < o ==> opts[j].isAlias
    ensures IsEntry(entry)
  {
  }

  lemma StartsKept(entries: seq<Entry>, entry: Entry)
    requires forall i :: 0 <= i < |entries| ==> entries[i].so == Start(entries, i)
    requires entry.so == |Letters(AllOptions(entries))|
    ensures var es := entries + [entry]; forall i :: 0 <= i < |es| ==> es[i].so == Start(es, i)
  {
    hide Letters;
    hide AllOptions;
    var es := entries + [entry];
    forall i | 0 <= i < |es| ensures es[i].so == Start(es, i) {
      if i < |entries| {
        assert entries[i].so == Start(entries, i);
        assert es[..i] == entries[..i];
      } else {
        assert es[..i] == entries;
      }
    }
  }

  lemma OptionsOfRun(entry: Entry, all: seq<Owned>, start: nat, o: nat, opts: seq<Opt>)
    requires start < o <= |opts| && |all| == |opts| && entry.opts == opts[start..o]
    requires !opts[start].isAlias && forall j :: start < j < o ==> opts[j].isAlias
    requires forall i :: 0 <= i < |opts| ==> all[i] == Owned(opts[i], RealAt(opts, i), entry.node)
    ensures Options(entry) == all[start..o]
  {
    forall i | start <= i < o ensures RealAt(opts, i) == opts[start] { RunOfAliases(opts, start, i); }
  }

  // ---- hol_append ----------------------------------------------------------------------

  lemma {:induction false} AllOptionsConcat(a: seq<Entry>, b: seq<Entry>)
    ensures AllOptions(a + b) == AllOptions(a) + AllOptions(b)
    decreases |b|
  {
    hide Options;
    if b == [] {
      assert a + b == a;
    } else {
      var n := |b| - 1;
      AllOptionsConcat(a, b[..n]);
      Regroup(a, b);
      AllOptionsSnoc(a + b[..n], b[n]);
      var x, y := AllOptions(b[..n]), Options(b[n]);
      assert AllOptions(a) + (x + y) == (AllOptions(a) + x) + y;
    }
  }

  lemma InLetters(a: seq<Owned>, b: seq<Owned>, k: int)
    ensures k in Letters(a + b) <==> k in Letters(a) || k in Letters(b)
  {
    KeysConcat(a, b);
  }

  /** One option of MORE: the letter pointer decodes it, and its letter is added
      unless HOL has it. */
  lemma AppendOne(hol: seq<Owned>, before: seq<Owned>, o: Owned, after: seq<Owned>)
    ensures var more := Letters(before + [o] + after);
            var so := |Letters(before)|;
            var here := Short(o) && so < |more| && more[so] == o.opt.key;
            && |Letters(before + [o])| == (if here then so + 1 else so)
            && Letters(hol + (before + [o]))
               == Letters(hol + before) + if here && o.opt.key !in Letters(hol) then [o.opt.key] else []
  {
    hide Letters;
    DecodeOne(before, o, after);
    assert hol + (before + [o]) == (hol + before) + [o];
    LettersSnoc(hol + before, o);
    InLetters(hol, before, o.opt.key);
    assert Letters(hol + before) + [] == Letters(hol + before);
  }

  /** The options of one entry of MORE. */
  method AppendLetters(opts: seq<Opt>, holLetters: seq<int>, moreLetters: seq<int>, so0: seq<int>, moreSo0: nat,
                       ghost hol: seq<Owned>, ghost before: seq<Owned>, ghost os: seq<Owned>, ghost after: seq<Owned>)
    returns (so: seq<int>, moreSo: nat)
    requires |os| == |opts| && forall i :: 0 <= i < |os| ==> os[i].opt == opts[i]
    requires holLetters == Letters(hol) && moreLetters == Letters(before + os + after)
    requires so0 == Letters(hol + before) && moreSo0 == |Letters(before)|
    ensures so == Letters(hol + (before + os)) && moreSo == |Letters(before + os)|
  {
    hide Letters;
    so, moreSo := so0, moreSo0;
    assert before + os[..0] == before;
    for k := 0 to |opts|
      invariant so == Letters(hol + (before + os[..k])) && moreSo == |Letters(before + os[..k])|
    {
      var ch := if moreSo < |moreLetters| then moreLetters[moreSo] else 0;
      AppendOne(hol, before + os[..k], os[k], os[k + 1..] + after);
      assert before + os[..k] + [os[k]] == before + os[..k + 1];
      assert before + os + after == before + os[..k + 1] + (os[k + 1..] + after);
      if IsShort(opts[k]) && ch == opts[k].key {
        if ch !in holLetters { so := so + [ch]; }
        moreSo := moreSo + 1;
      }
    }
    assert os[..|opts|] == os;
  }

  /** The entries of MORE are kept, except for their pointers. */
  predicate Moved(xs: seq<Entry>, ys: seq<Entry>) {
    |xs| == |ys| && forall i :: 0 <= i < |xs| ==> xs[i] == ys[i].(so := xs[i].so)
  }

  lemma {:induction false} MovedOptions(xs: seq<Entry>, ys: seq<Entry>)
    requires Moved(xs, ys)
    ensures AllOptions(xs) == AllOptions(ys)
    decreases |xs|
  {
    if xs != [] {
      var n := |xs| - 1;
      MovedOptions(xs[..n], ys[..n]);
      assert Options(xs[n]) == Options(ys[n]);
    }
  }

  /** hol_append */
  method HolAppend(h: Hol, more: Hol) returns (r: Hol)
    requires Segmented(h) && Segmented(more)
    ensures Segmented(r) && AllOptions(r.entries) == AllOptions(h.entries) + AllOptions(more.entries)
    ensures |r.entries| == |h.entries| + |more.entries|
    ensures r.entries[..|h.entries|] == h.entries && Moved(r.entries[|h.entries|..], more.entries)
  {
    if more.entries == [] {
      r := h;
      assert AllOptions(h.entries) + [] == AllOptions(h.entries);
    } else if h.entries == [] {
      r := more;
      assert [] + AllOptions(more.entries) == AllOptions(more.entries);
    } else {
      var moved, so := MergeEntries(h, more);
      r := Hol(h.entries + moved, so);
      AppendedIsSegmented(h, more, moved, so);
    }
  }

  /** The offsets of the entries of MORE behind the options `hol`. */
  predicate Placed(moved: seq<Entry>, more: seq<Entry>, hol: seq<Owned>) {
    |moved| <= |more| && forall j :: 0 <= j < |moved| ==> moved[j].so == |Letters(hol + AllOptions(more[..j]))|
  }

  /** The loop that copies the entries of MORE and merges their letters. */
  method MergeEntries(h: Hol, more: Hol) returns (moved: seq<Entry>, so: seq<int>)
    requires Segmented(h) && Segmented(more)
    ensures Moved(moved, more.entries) && Placed(moved, more.entries, AllOptions(h.entries))
    ensures so == Letters(AllOptions(h.entries) + AllOptions(more.entries))
  {
    hide Letters;
    hide AllOptions;
    hide Options;
    hide Segmented;
    hide Moved;
    hide Placed;
    ghost var hol := AllOptions(h.entries);
    SegmentedLetters(h);
    SegmentedLetters(more);
    var moreSo: nat := 0;
    moved, so := [], h.letters;
    EmptyHol();
    NothingMoved(more.entries, hol);
    assert hol + [] == hol && more.entries[..0] == [];
    for i := 0 to |more.entries|
      invariant |moved| == i && Moved(moved, more.entries[..i]) && Placed(moved, more.entries, hol)
      invariant so == Letters(hol + AllOptions(more.entries[..i])) && moreSo == |Letters(AllOptions(more.entries[..i]))|
    {
      MovedStep(moved, more.entries, i, hol, |so|);
      moved := moved + [more.entries[i].(so := |so|)];
      so, moreSo := MergeOne(h.letters, more, i, so, moreSo, hol);
    }
    assert more.entries[..|more.entries|] == more.entries;
  }

  /** One entry of MORE. */
  method MergeOne(holLetters: seq<int>, more: Hol, i: nat, so0: seq<int>, moreSo0: nat, ghost hol: seq<Owned>)
    returns (so: seq<int>, moreSo: nat)
    requires i < |more.entries| && holLetters == Letters(hol) && more.letters == Letters(AllOptions(more.entries))
    requires so0 == Letters(hol + AllOptions(more.entries[..i])) && moreSo0 == |Letters(AllOptions(more.entries[..i]))|
    ensures so == Letters(hol + AllOptions(more.entries[..i + 1]))
    ensures moreSo == |Letters(AllOptions(more.entries[..i + 1]))|
  {
    hide Letters;
    hide AllOptions;
    hide Options;
    var e := more.entries[i];
    AllOptionsSplit(more.entries, i);
    ghost var before := AllOptions(more.entries[..i]);
    ghost var after :| AllOptions(more.entries) == before + Options(e) + after;
    OptionsMatch(e);
    so, moreSo := AppendLetters(e.opts, holLetters, more.letters, so0, moreSo0, hol, before, Options(e), after);
    assert more.entries[..i + 1] == more.entries[..i] + [e];
    AllOptionsSnoc(more.entries[..i], e);
  }

  lemma SegmentedLetters(h: Hol)
    requires Segmented(h)
    ensures h.letters == Letters(AllOptions(h.entries))
  {
  }

  lemma NothingMoved(more: seq<Entry>, hol: seq<Owned>)
    ensures Moved([], []) && Placed([], more, hol)
  {
  }

  lemma MovedStep(moved: seq<Entry>, more: seq<Entry>, i: nat, hol: seq<Owned>, so: nat)
    requires i < |more| && |moved| == i && Moved(moved, more[..i]) && Placed(moved, more, hol)
    requires so == |Letters(hol + AllOptions(more[..i]))|
    ensures Moved(moved + [more[i].(so := so)], more[..i + 1]) && Placed(moved + [more[i].(so := so)], more, hol)
  {
    hide Letters;
    hide AllOptions;
  }

  lemma OptionsMatch(e: Entry)
    ensures |Options(e)| == |e.opts| && forall i :: 0 <= i < |e.opts| ==> Options(e)[i].opt == e.opts[i]
  {
  }

  lemma AppendedIsSegmented(h: Hol, more: Hol, moved: seq<Entry>, so: seq<int>)
    requires Segmented(h) && Segmented(more) && Moved(moved, more.entries)
    requires so == Letters(AllOptions(h.entries) + AllOptions(more.entries))
    requires Placed(moved, more.entries, AllOptions(h.entries))
    ensures Segmented(Hol(h.entries + moved, so))
    ensures AllOptions(h.entries + moved) == AllOptions(h.entries) + AllOptions(more.entries)
  {
    hide Letters;
    hide AllOptions;
    var es, n := h.entries + moved, |h.entries|;
    AllOptionsConcat(h.entries, moved);
    MovedOptions(moved, more.entries);
    forall e | e in es ensures IsEntry(e) {
      if e !in h.entries {
        var i :| 0 <= i < |moved| && moved[i] == e;
        assert more.entries[i] in more.entries;
      }
    }
    forall i | 0 <= i < |es| ensures es[i].so == Start(es, i) {
      if i < n {
        assert h.entries[i].so == Start(h.entries, i);
        assert es[..i] == h.entries[..i];
      } else {
        assert es[..i] == h.entries + moved[..i - n];
        AllOptionsConcat(h.entries, moved[..i - n]);
        MovedOptions(moved[..i - n], more.entries[..i - n]);
      }
    }
  }

  // ---- argp_hol --------------------------------------------------------------------------

  /** make_hol asserts that no options array starts with an alias. */
  predicate NoLeadingAlias(a: Argp)
    decreases a, 1
  {
    FirstNotAlias(a) && NoLeadingAliases(a.children)
  }

  predicate NoLeadingAliases(cs: seq<Argp>)
    decreases cs, 0
  {
    cs == [] || (NoLeadingAlias(cs[0]) && NoLeadingAliases(cs[1..]))
  }

  /** Depths count from the root, as hol_add_cluster sets them. */
  predicate WellFormed(c: Cluster) {
    match c.parent
    case None => c.depth == 0
    case Some(p) => WellFormed(p) && c.depth == p.depth + 1
  }

  predicate Clustered(es: seq<Entry>) {
    forall i :: 0 <= i < |es| && es[i].cluster.Some? ==> WellFormed(es[i].cluster.value)
  }

  /** Is the child shown in a cluster of its own? */
  predicate Headed(c: Argp) {
    c.group != 0 || c.header.Some?
  }

  /** hol_add_cluster for child number `i`, or the cluster of the parent. */
  function ChildCluster(c: Argp, node: Node, i: nat, cluster: Option<Cluster>): Option<Cluster> {
    if Headed(c) then
      Some(Cluster(node + [i], c.header, i, c.group, cluster, if cluster.Some? then cluster.value.depth + 1 else 0))
    else cluster
  }

  /** A child listed with a group or a header gets a cluster of its own inside that
      of its parent; any other is shown in its parent's. */
  lemma ChildClusterExactly(c: Argp, node: Node, i: nat, cluster: Option<Cluster>)
    ensures c.group == 0 && c.header.None? ==> ChildCluster(c, node, i, cluster) == cluster
    ensures c.group != 0 || c.header.Some? ==>
              && ChildCluster(c, node, i, cluster).Some?
              && var cl := ChildCluster(c, node, i, cluster).value;
                 && cl.group == c.group && cl.header == c.header && cl.index == i && cl.parent == cluster
                 && cl.depth == (match cluster case Some(p) => p.depth + 1 case None => 0)
  {
  }

  /** The cluster that the argp at the end of `path`, counted from `a`, is shown
      in, if `a` is shown in `cluster`. */
  function ClusterAt(a: Argp, node: Node, cluster: Option<Cluster>, path: Node): Option<Cluster>
    decreases |path|
  {
    if path == [] || path[0] >= |a.children| then cluster
    else
      var i := path[0];
      ClusterAt(a.children[i], node + [i], ChildCluster(a.children[i], node, i, cluster), path[1..])
  }

  /** Every entry stems from the tree and is in the cluster of its argp. */
  predicate InPlace(es: seq<Entry>, a: Argp, node: Node, cluster: Option<Cluster>) {
    forall e :: e in es ==> node <= e.node && e.cluster == ClusterAt(a, node, cluster, e.node[|node|..])
  }

  /** The entries of the argp itself and of its children below number `i`. */
  predicate UpToChild(es: seq<Entry>, node: Node, i: nat) {
    forall e :: e in es ==> e.node == node || (|node| < |e.node| && e.node[|node|] < i)
  }

  lemma OwnInPlace(es: seq<Entry>, a: Argp, node: Node, cluster: Option<Cluster>)
    requires AllFrom(es, node, cluster)
    ensures InPlace(es, a, node, cluster) && UpToChild(es, node, 0)
  {
  }

  lemma ChildInPlace(es: seq<Entry>, a: Argp, node: Node, cluster: Option<Cluster>, i: nat)
    requires i < |a.children|
    requires InPlace(es, a.children[i], node + [i], ChildCluster(a.children[i], node, i, cluster))
    ensures InPlace(es, a, node, cluster) && forall e :: e in es ==> |node| < |e.node| && e.node[|node|] == i
  {
    forall e | e in es
      ensures node <= e.node && |node| < |e.node| && e.node[|node|] == i
      ensures e.cluster == ClusterAt(a, node, cluster, e.node[|node|..])
    {
      var path := e.node[|node|..];
      assert node + [i] <= e.node && |node + [i]| == |node| + 1;
      assert e.node[..|node|] == (node + [i])[..|node|] == node && e.node[|node|] == (node + [i])[|node|];
      assert path[0] == i && path[1..] == e.node[|node + [i]|..];
    }
  }

  lemma MovedFrom(r: seq<Entry>, a: seq<Entry>, b: seq<Entry>, e: Entry)
    requires |r| == |a| + |b| && r[..|a|] == a && Moved(r[|a|..], b) && e in r
    ensures exists f :: (f in a || f in b) && e == f.(so := e.so)
  {
    var k :| 0 <= k < |r| && r[k] == e;
    if k < |a| {
      assert a[k] == r[k] && a[k] in a;
    } else {
      assert r[|a|..][k - |a|] == r[k] && b[k - |a|] in b;
    }
  }

  lemma AppendInPlace(h: seq<Entry>, more: seq<Entry>, r: seq<Entry>, a: Argp, node: Node,
                      cluster: Option<Cluster>, i: nat)
    requires |r| == |h| + |more| && r[..|h|] == h && Moved(r[|h|..], more)
    requires InPlace(h, a, node, cluster) && InPlace(more, a, node, cluster) && UpToChild(h, node, i)
    requires forall e :: e in more ==> |node| < |e.node| && e.node[|node|] == i
    requires Grouped(h) && Grouped(more)
    ensures InPlace(r, a, node, cluster) && UpToChild(r, node, i + 1) && Grouped(r)
  {
    hide ClusterAt;
    hide GroupAfter;
    forall e | e in r
      ensures node <= e.node && e.cluster == ClusterAt(a, node, cluster, e.node[|node|..])
      ensures e.node == node || (|node| < |e.node| && e.node[|node|] < i + 1)
    {
      MovedFrom(r, h, more, e);
    }
    AppendGrouped(h, more, r, node, i);
  }

  lemma AppendGrouped(h: seq<Entry>, more: seq<Entry>, r: seq<Entry>, node: Node, i: nat)
    requires |r| == |h| + |more| && r[..|h|] == h && Moved(r[|h|..], more) && UpToChild(h, node, i)
    requires forall e :: e in more ==> |node| < |e.node| && e.node[|node|] == i
    requires Grouped(h) && Grouped(more)
    ensures Grouped(r)
  {
    hide GroupAfter;
    var n := |h|;
    forall k | 0 <= k < |r| ensures GroupFollows(r, k) {
      if k < n {
        assert GroupFollows(h, k) && r[k] == h[k] && (k > 0 ==> r[k - 1] == h[k - 1]);
      } else {
        assert GroupFollows(more, k - n) && r[k] == r[n..][k - n];
        if k > n {
          assert r[k - 1] == r[n..][k - 1 - n];
        } else if k > 0 {
          assert r[k - 1] == h[k - 1] && h[k - 1] in h && more[0] in more;
        }
      }
    }
  }

  /** argp_hol */
  method ArgpHol(a: Argp, node: Node, cluster: Option<Cluster>) returns (h: Hol)
    requires NoLeadingAlias(a) && (cluster.Some? ==> WellFormed(cluster.value))
    ensures Segmented(h) && AllOptions(h.entries) == AllDeclared(Groups(a, node))
    ensures InPlace(h.entries, a, node, cluster) && Grouped(h.entries) && Clustered(h.entries)
    decreases a, 1
  {
    h := MakeHol(a, node, cluster);
    OwnDeclared(a, node);
    OwnInPlace(h.entries, a, node, cluster);
    assert Clustered(h.entries) by {
      forall i | 0 <= i < |h.entries| ensures h.entries[i].cluster == cluster { assert h.entries[i] in h.entries; }
    }
    var i := 0;
    ghost var done := if HasGroup(a) then [Located(a, node)] else [];
    assert a.children[0..] == a.children;
    while i < |a.children|
      invariant 0 <= i <= |a.children| && Segmented(h) && Clustered(h.entries)
      invariant InPlace(h.entries, a, node, cluster) && UpToChild(h.entries, node, i) && Grouped(h.entries)
      invariant NoLeadingAliases(a.children[i..])
      invariant AllOptions(h.entries) == AllDeclared(done)
      invariant done + ChildGroups(a.children[i..], node, i) == Groups(a, node)
    {
      hide Segmented;
      hide AllOptions;
      hide AllDeclared;
      hide InPlace;
      hide UpToChild;
      hide Grouped;
      var child := a.children[i];
      var childCluster := ChildCluster(child, node, i, cluster);
      var more := ArgpHol(child, node + [i], childCluster);
      ghost var was := h;
      h := HolAppend(h, more);
      AppendClustered(was.entries, more.entries, h.entries);
      ChildInPlace(more.entries, a, node, cluster, i);
      AppendInPlace(was.entries, more.entries, h.entries, a, node, cluster, i);
      AllDeclaredConcat(done, Groups(child, node + [i]));
      NextChild(a.children, i, node, done);
      done := done + Groups(child, node + [i]);
      i := i + 1;
    }
    assert a.children[i..] == [];
    assert done + [] == done;
  }

  lemma OwnDeclared(a: Argp, node: Node)
    ensures AllDeclared(if HasGroup(a) then [Located(a, node)] else []) == Declared(Located(a, node))
  {
    var l := Located(a, node);
    assert [l][..0] == [] && [] + Declared(l) == Declared(l);
  }

  lemma NextChild(cs: seq<Argp>, i: nat, node: Node, done: seq<Located>)
    requires i < |cs|
    ensures done + ChildGroups(cs[i..], node, i)
            == (done + Groups(cs[i], node + [i])) + ChildGroups(cs[i + 1..], node, i + 1)
    ensures NoLeadingAliases(cs[i..]) ==> NoLeadingAlias(cs[i]) && NoLeadingAliases(cs[i + 1..])
  {
    assert cs[i..][1..] == cs[i + 1..] && cs[i..][0] == cs[i];
  }

  lemma AppendClustered(a: seq<Entry>, b: seq<Entry>, r: seq<Entry>)
    requires |r| == |a| + |b| && r[..|a|] == a && Moved(r[|a|..], b) && Clustered(a) && Clustered(b)
    ensures Clustered(r)
  {
    forall i | 0 <= i < |r| && r[i].cluster.Some? ensures WellFormed(r[i].cluster.value) {
      if i < |a| {
        assert r[i] == r[..|a|][i] == a[i];
      } else {
        assert r[i] == r[|a|..][i - |a|];
      }
    }
  }
}
