/** Arguments are conserved, the loop ends, and quoted arguments stay quoted. */
module ParserBalance {
  import opened Basics
  import opened Argp
  import PT = ParserTables
  import opened ParserRun

  // ---- Conservation of arguments -------------------------------------------------------------

  /** Callbacks leave `next` and `argc` alone. */
  ghost predicate Quiet(w: World) {
    forall h :: w.parse(h).next == None && w.parse(h).argc == None
  }

  /** Getopt keeps optind within the arguments, and an argument it returns is
      behind it.  It may move optind back, as it does when it has permuted
      arguments to the end. */
  ghost predicate Scans(w: World, argc: int) {
    forall h :: 0 <= w.getopt(h).optind <= argc && (w.getopt(h).found.KeyArg? ==> w.getopt(h).optind >= 1)
  }

  function Sum(xs: seq<nat>): nat {
    if xs == [] then 0 else Sum(xs[..|xs| - 1]) + xs[|xs| - 1]
  }

  lemma {:induction false} SumUpdate(xs: seq<nat>, i: nat, d: nat)
    requires i < |xs|
    ensures Sum(xs[i := xs[i] + d]) == Sum(xs) + d
    decreases |xs|
  {
    var n := |xs| - 1;
    var ys := xs[i := xs[i] + d];
    if i == n {
      assert ys[..n] == xs[..n];
    } else {
      SumUpdate(xs[..n], i, d);
      assert ys[..n] == xs[..n][i := xs[..n][i] + d];
    }
  }

  lemma {:induction false} SumZeros(n: nat)
    ensures Sum(Repeat<nat>(0, n)) == 0
  {
    if n > 0 {
      SumZeros(n - 1);
      assert Repeat<nat>(0, n)[..n - 1] == Repeat<nat>(0, n - 1);
    }
  }

  /** Positions passed over are those getopt moved over plus those the groups
      consumed. */
  predicate Balanced(s: State) {
    s.next == s.moved + Sum(s.processed)
  }

  /** What a callback that leaves `next` and `argc` alone cannot change. */
  ghost predicate Same(s: State, t: State) {
    && t.argc == s.argc && t.processed == s.processed && t.moved == s.moved
    && t.tryGetopt == s.tryGetopt && t.quoted == s.quoted
  }

  lemma QuietCall(w: World, gs: seq<bool>, s: State, g: nat, key: Key)
    requires Quiet(w) && g < |gs|
    ensures var t := GroupParse(w, gs, s, g, key).0; Same(s, t) && t.next == s.next
  {
  }

  lemma {:induction false} QuietOffer(w: World, gs: seq<bool>, s: State, g: nat)
    requires Quiet(w)
    ensures var o := OfferArg(w, gs, s, g);
            && Same(s, o.s)
            && o.s.next == (if o.err == EBADKEY || o.args then s.next else s.next + 1)
            && (o.err != EBADKEY ==> g <= o.group < |gs|)
    decreases |gs| - g
  {
    hide GroupParse;
    hide Quiet;
    if g < |gs| {
      QuietCall(w, gs, s.(next := s.next + 1), g, Arg);
      var (s1, err1) := GroupParse(w, gs, s.(next := s.next + 1), g, Arg);
      if err1 == EBADKEY {
        var (s2, err2) := GroupParse(w, gs, s1.(next := s1.next - 1), g, Args);
        QuietCall(w, gs, s1.(next := s1.next - 1), g, Args);
        if err2 == EBADKEY { QuietOffer(w, gs, s2, g + 1); }
      }
    }
  }

  /** ARG and then ARGS, to every group from `g` to below `h` that has a parser. */
  function Asked(gs: seq<bool>, g: nat, h: nat): Trace
    requires g <= h <= |gs|
    decreases h - g
  {
    if g == h then [] else (if gs[g] then [Call(g, Arg), Call(g, Args)] else []) + Asked(gs, g + 1, h)
  }

  /** The calls for one argument: every group in turn refuses both keys until one
      does not, and then no other is asked. */
  function Offered(gs: seq<bool>, o: Offer): Trace
    requires o.group <= |gs|
  {
    Asked(gs, 0, o.group)
    + if o.err == EBADKEY then []
      else if o.args then [Call(o.group, Arg), Call(o.group, Args)]
      else [Call(o.group, Arg)]
  }

  lemma {:induction false} AskedMore(gs: seq<bool>, g: nat, h: nat)
    requires g <= h < |gs|
    ensures Asked(gs, g, h + 1) == Asked(gs, g, h) + if gs[h] then [Call(h, Arg), Call(h, Args)] else []
    decreases h - g
  {
    if g < h { AskedMore(gs, g + 1, h); }
  }

  lemma {:induction false} OfferAsksFrom(w: World, gs: seq<bool>, s: State, g: nat, before: Trace)
    requires g <= |gs| && s.trace == before + Asked(gs, 0, g)
    ensures var o := OfferArg(w, gs, s, g);
            && o.group <= |gs| && (o.err == EBADKEY <==> o.group == |gs|) && (o.group < |gs| ==> gs[o.group])
            && o.s.trace == before + Offered(gs, o)
    decreases |gs| - g
  {
    hide Asked;
    hide GroupParse;
    if g < |gs| {
      var asked := Asked(gs, 0, g);
      AskedMore(gs, 0, g);
      CallTrace(w, gs, s.(next := s.next + 1), g, Arg);
      var (s1, err1) := GroupParse(w, gs, s.(next := s.next + 1), g, Arg);
      if err1 != EBADKEY {
        Regroup3(before, asked, [Call(g, Arg)]);
      } else {
        CallTrace(w, gs, s1.(next := s1.next - 1), g, Args);
        var (s2, err2) := GroupParse(w, gs, s1.(next := s1.next - 1), g, Args);
        TwoCalls(s.trace, g);
        Regroup3(before, asked, if gs[g] then [Call(g, Arg), Call(g, Args)] else []);
        if err2 == EBADKEY { OfferAsksFrom(w, gs, s2, g + 1, before); }
      }
    } else {
      Regroup3(before, Asked(gs, 0, g), []);
    }
  }

  lemma CallTrace(w: World, gs: seq<bool>, s: State, g: nat, key: Key)
    requires g < |gs|
    ensures var (s', err) := GroupParse(w, gs, s, g, key);
            if gs[g] then s'.trace == s.trace + [Call(g, key)] else s' == s && err == EBADKEY
  {
  }

  lemma TwoCalls(t: Trace, g: nat)
    ensures t + [Call(g, Arg)] + [Call(g, Args)] == t + [Call(g, Arg), Call(g, Args)]
  {
  }

  lemma Regroup3(a: Trace, b: Trace, c: Trace)
    ensures a + b + c == a + (b + c) && (c == [] ==> a + b + c == a + b)
  {
  }

  /** An argument is offered to the groups in order, as ARG and then as ARGS, and
      to all of them exactly if it is refused. */
  lemma OfferAsks(w: World, gs: seq<bool>, s: State)
    ensures var o := OfferArg(w, gs, s, 0);
            && o.group <= |gs| && (o.err == EBADKEY <==> o.group == |gs|) && (o.group < |gs| ==> gs[o.group])
            && o.s.trace == s.trace + Offered(gs, o)
  {
    assert s.trace + Asked(gs, 0, 0) == s.trace;
    OfferAsksFrom(w, gs, s, 0, s.trace);
  }

  /** An accepted argument is credited to the group that accepted it, and to no
      other: one position for ARG, all the remaining ones for ARGS. */
  lemma Credit(w: World, gs: seq<bool>, s: State)
    requires Quiet(w) && |s.processed| == |gs| && s.next - 1 < s.argc && ParseArg(w, gs, s).1 == 0
    ensures var s' := ParseArg(w, gs, s).0;
            && s'.trace != [] && s'.trace[|s'.trace| - 1].Call?
            && var e := s'.trace[|s'.trace| - 1];
            && (e.key == Arg || e.key == Args) && e.group < |gs| && gs[e.group]
            && s'.next == (if e.key == Args then s.argc else s.next)
            && s'.processed == s.processed[e.group := s.processed[e.group] + (s'.next - (s.next - 1))]
  {
    QuietOffer(w, gs, s.(next := s.next - 1), 0);
    OfferAsks(w, gs, s.(next := s.next - 1));
  }

  /** One argument at `next - 1`: accepted, it is counted for the group that took
      it, with all that follow if the group asked for ARGS; refused, it is put
      back. */
  lemma ArgBalance(w: World, gs: seq<bool>, s: State)
    requires Quiet(w) && |s.processed| == |gs| && s.next - 1 < s.argc
    requires s.next - 1 == s.moved + Sum(s.processed)
    ensures var (s', err) := ParseArg(w, gs, s);
            && s'.argc == s.argc && s'.tryGetopt == s.tryGetopt && s'.quoted == s.quoted
            && (err == 0 ==> Balanced(s') && s.next <= s'.next <= s.argc)
            && (err == EBADKEY ==> Balanced(s') && s'.next == s.next - 1)
  {
    var index := s.next - 1;
    QuietOffer(w, gs, s.(next := index), 0);
    var o := OfferArg(w, gs, s.(next := index), 0);
    if o.err == 0 {
      SumUpdate(s.processed, o.group, (if o.args then s.argc else index + 1) - index);
    }
  }

  lemma PastBalance(w: World, gs: seq<bool>, s: State)
    requires Quiet(w) && |s.processed| == |gs| && Balanced(s)
    ensures var o := PastOptions(w, gs, s);
            && o.s.argc == s.argc && o.s.tryGetopt == s.tryGetopt && o.s.quoted == s.quoted
            && (o.err == 0 ==> Balanced(o.s) && s.next < o.s.next <= s.argc)
            && (o.err == EBADKEY ==> Balanced(o.s) && o.s.next == s.next)
  {
    hide ParseArg;
    if !(s.next >= s.argc || s.noArgs) { ArgBalance(w, gs, s.(next := s.next + 1)); }
  }

  lemma StepBalance(w: World, gs: seq<bool>, s: State)
    requires Quiet(w) && Scans(w, s.argc) && |s.processed| == |gs| && Balanced(s)
    ensures var o := ParseNext(w, gs, s);
            o.s.argc == s.argc && (GoOn(o.err) ==> Balanced(o.s))
  {
    hide ParseArg;
    hide PastOptions;
    var u := Unquote(s);
    if u.tryGetopt && u.quoted == 0 {
      var r := w.getopt(u.trace + [Getopt]);
      var s1 := AfterGetopt(u, r);
      match r.found
      case KeyEnd => PastBalance(w, gs, s1);
      case KeyErr =>
      case KeyArg => ArgBalance(w, gs, s1);
      case KeyOpt(opt) =>
    } else {
      PastBalance(w, gs, u);
    }
  }

  lemma {:induction false} LoopBalance(w: World, gs: seq<bool>, s: State, n: nat)
    requires Quiet(w) && Scans(w, s.argc) && |s.processed| == |gs| && Balanced(s)
    ensures var o := Loop(w, gs, s, n); o.s.argc == s.argc && (GoOn(o.err) ==> Balanced(o.s))
    decreases n
  {
    hide ParseNext;
    hide Balanced;
    if n > 0 {
      StepBalance(w, gs, s);
      StepKeepsGroups(w, gs, s);
      var o := ParseNext(w, gs, s);
      if o.err == 0 { LoopBalance(w, gs, o.s, n - 1); }
    }
  }

  lemma {:induction false} UpQuiet(w: World, gs: seq<bool>, s: State, key: Key, g: nat, err: int)
    requires Quiet(w) && |s.processed| == |gs|
    ensures var t := Up(w, gs, s, key, g, err).0; Same(s, t) && t.next == s.next
    decreases |gs| - g
  {
    if g < |gs| && GoOn(err) {
      if key == NoArgs && s.processed[g] != 0 {
        UpQuiet(w, gs, s, key, g + 1, err);
      } else {
        var (s', err') := GroupParse(w, gs, s, g, key);
        UpQuiet(w, gs, s', key, g + 1, err');
      }
    }
  }

  /** Conservation, for every run and every number of rounds: as long as no
      callback fails, the position equals what getopt moved over plus the
      arguments the groups processed. */
  lemma Conservation(w: World, gs: seq<bool>, argv: seq<string>, noArgs: bool, n: nat)
    requires Quiet(w) && Scans(w, |argv|)
    ensures var s := Initialise(w, gs, argv, noArgs).0;
            && |s.processed| == |gs|
            && var o := Loop(w, gs, s, n);
               GoOn(o.err) ==> o.s.next == o.s.moved + Sum(o.s.processed)
  {
    hide Loop;
    var s0 := StartState(gs, argv, noArgs);
    UpQuiet(w, gs, s0, Init, 0, 0);
    SumZeros(|gs|);
    LoopBalance(w, gs, Initialise(w, gs, argv, noArgs).0, n);
  }

  /** An argument that every group refuses is put back, and end_index names it. */
  lemma RefusedArgument(w: World, gs: seq<bool>, s: State)
    requires Quiet(w) && |s.processed| == |gs| && s.next < s.argc && !s.noArgs
    requires PastOptions(w, gs, s).err == EBADKEY
    ensures var o := PastOptions(w, gs, s);
            && |o.s.processed| == |gs|
            && Finalise(w, gs, o, true).endIndex == Some(s.next)
  {
    QuietOffer(w, gs, s.(next := s.next + 1 - 1), 0);
  }

  /** An argument getopt hands over in order and every group refuses likewise. */
  lemma RefusedInOrder(w: World, gs: seq<bool>, s: State)
    requires Quiet(w) && |s.processed| == |gs| && s.next <= s.argc && ParseArg(w, gs, s).1 == EBADKEY
    ensures var s' := ParseArg(w, gs, s).0;
            && |s'.processed| == |gs|
            && Finalise(w, gs, Outcome(s', EBADKEY, true), true).endIndex == Some(s.next - 1)
  {
    QuietOffer(w, gs, s.(next := s.next - 1), 0);
  }

  // ---- Termination ---------------------------------------------------------------------------------

  lemma PastMovesOn(w: World, gs: seq<bool>, s: State)
    requires Quiet(w) && |s.processed| == |gs|
    ensures var o := PastOptions(w, gs, s);
            o.err == 0 ==> o.s.argc == s.argc && o.s.tryGetopt == s.tryGetopt && s.next < o.s.next <= s.argc
  {
    QuietOffer(w, gs, s.(next := s.next + 1 - 1), 0);
  }

  /** Once getopt has reported the end, the loop is over after at most one round
      for each remaining argument and one more. */
  lemma {:induction false} LoopEnds(w: World, gs: seq<bool>, s: State, n: nat)
    requires Quiet(w) && |s.processed| == |gs| && !s.tryGetopt && n > 0 && n > s.argc - s.next
    ensures Loop(w, gs, s, n).err != 0
    decreases n
  {
    hide PastOptions;
    var u := Unquote(s);
    PastMovesOn(w, gs, u);
    StepKeepsGroups(w, gs, s);
    if u.next >= u.argc {
      PastAtEnd(w, gs, u);
    } else {
      var o := ParseNext(w, gs, s);
      if o.err == 0 { LoopEnds(w, gs, o.s, n - 1); }
    }
  }

  lemma PastAtEnd(w: World, gs: seq<bool>, s: State)
    requires |s.processed| == |gs| && s.next >= s.argc
    ensures PastOptions(w, gs, s).err != 0
  {
  }

  // ---- Quoted arguments --------------------------------------------------------------------------------

  /** Behind a processed `--` that ends at position `q`. */
  predicate Behind(s: State, q: int) {
    s.quoted == q > 0 && s.next >= q && s.argc >= q
  }

  /** From the history `t` on, callbacks do not move `next`, or the end of the
      arguments, before `q`; what they did earlier does not matter. */
  ghost predicate StayBehind(w: World, q: int, t: Trace) {
    forall h :: t <= h ==>
      && (w.parse(h).next.Some? ==> w.parse(h).next.value >= q)
      && (w.parse(h).argc.Some? ==> w.parse(h).argc.value >= q)
  }

  /** How often getopt was asked. */
  function Scanned(t: Trace): nat {
    if t == [] then 0 else Scanned(t[..|t| - 1]) + if t[|t| - 1].Getopt? then 1 else 0
  }

  lemma CallScans(t: Trace, g: nat, key: Key)
    ensures Scanned(t + [Call(g, key)]) == Scanned(t)
  {
    assert (t + [Call(g, key)])[..|t|] == t;
  }

  lemma CallBehind(w: World, gs: seq<bool>, s: State, g: nat, key: Key, q: int, t: Trace)
    requires StayBehind(w, q, t) && g < |gs| && s.argc >= q && t <= s.trace
    ensures var s' := GroupParse(w, gs, s, g, key).0;
            && s'.quoted == s.quoted && s'.argc >= q && Scanned(s'.trace) == Scanned(s.trace)
            && (s'.next == s.next || s'.next >= q) && t <= s'.trace
  {
    hide Scanned;
    CallScans(s.trace, g, key);
  }

  lemma {:induction false} OfferBehind(w: World, gs: seq<bool>, s: State, g: nat, q: int, t: Trace)
    requires StayBehind(w, q, t) && s.quoted == q && s.next >= q - 1 && s.argc >= q && t <= s.trace
    ensures var o := OfferArg(w, gs, s, g);
            && o.s.quoted == q && o.s.argc >= q && Scanned(o.s.trace) == Scanned(s.trace) && t <= o.s.trace
            && (o.err != EBADKEY && !o.args ==> o.s.next >= q)
    decreases |gs| - g
  {
    hide Scanned;
    hide GroupParse;
    hide StayBehind;
    if g < |gs| {
      CallBehind(w, gs, s.(next := s.next + 1), g, Arg, q, t);
      var (s1, err1) := GroupParse(w, gs, s.(next := s.next + 1), g, Arg);
      if err1 == EBADKEY {
        CallBehind(w, gs, s1.(next := s1.next - 1), g, Args, q, t);
        var (s2, err2) := GroupParse(w, gs, s1.(next := s1.next - 1), g, Args);
        if err2 == EBADKEY { OfferBehind(w, gs, s2, g + 1, q, t); }
      }
    }
  }

  lemma StepBehind(w: World, gs: seq<bool>, s: State, q: int, t: Trace)
    requires StayBehind(w, q, t) && |s.processed| == |gs| && Behind(s, q) && t <= s.trace
    ensures var o := ParseNext(w, gs, s);
            Scanned(o.s.trace) == Scanned(s.trace) && t <= o.s.trace && (o.err == 0 ==> Behind(o.s, q))
  {
    assert Unquote(s) == s;
    hide OfferArg;
    hide StayBehind;
    hide Scanned;
    OfferBehind(w, gs, s.(next := s.next + 1 - 1), 0, q, t);
  }

  /** Quoting: whatever the callbacks do from here on, short of moving before the
      quoted region, getopt never sees an argument behind a processed `--` again, even
      if a callback moves back and the parser tries getopt once more. */
  lemma {:induction false} QuotedStaysQuoted(w: World, gs: seq<bool>, s: State, q: int, t: Trace, n: nat)
    requires StayBehind(w, q, t) && |s.processed| == |gs| && Behind(s, q) && t <= s.trace
    ensures var o := Loop(w, gs, s, n);
            Scanned(o.s.trace) == Scanned(s.trace) && (o.err == 0 ==> Behind(o.s, q))
    decreases n
  {
    hide ParseNext;
    hide StayBehind;
    hide Scanned;
    if n > 0 {
      StepBehind(w, gs, s, q, t);
      StepKeepsGroups(w, gs, s);
      var o := ParseNext(w, gs, s);
      if o.err == 0 { QuotedStaysQuoted(w, gs, o.s, q, t, n - 1); }
    }
  }

  /** Getopt reports the end of the options right behind a `--`. */
  predicate Quotes(w: World, s: State) {
    Asks(s) && AfterGetopt(Unquote(s), w.getopt(s.trace + [Getopt])).quoted != 0
  }

  /** The state in which getopt leaves the parser is then behind the `--`. */
  lemma QuotingStarts(w: World, s: State)
    requires Quotes(w, s) && w.getopt(s.trace + [Getopt]).optind <= s.argc
    ensures var s1 := AfterGetopt(Unquote(s), w.getopt(s.trace + [Getopt])); Behind(s1, s1.next) && s1.next > 1
    ensures w.getopt(s.trace + [Getopt]).found.KeyEnd?
  {
  }

  /** The round in which getopt ends the options with a `--` is the last one that
      asks getopt, as long as callbacks do not afterwards move before the quoted
      region. */
  lemma QuotingLasts(w: World, gs: seq<bool>, s: State, n: nat)
    requires |s.processed| == |gs| && Quotes(w, s) && n > 0
    requires var t := s.trace + [Getopt]; w.getopt(t).optind <= s.argc && StayBehind(w, w.getopt(t).optind, t)
    ensures Scanned(Loop(w, gs, s, n).s.trace) == Scanned(s.trace) + 1
  {
    hide Scanned;
    hide StayBehind;
    hide OfferArg;
    var q := w.getopt(s.trace + [Getopt]).optind;
    var s1 := AfterGetopt(Unquote(s), w.getopt(s.trace + [Getopt]));
    QuotingStarts(w, s);
    StepScans(w, gs, s);
    StepKeepsGroups(w, gs, s);
    var o := ParseNext(w, gs, s);
    OfferBehind(w, gs, s1.(next := s1.next + 1 - 1), 0, q, s.trace + [Getopt]);
    if o.err == 0 {
      assert Behind(o.s, q);
      hide ParseNext;
      QuotedStaysQuoted(w, gs, o.s, q, s.trace + [Getopt], n - 1);
    }
  }

  lemma {:induction false} LoopInTwo(w: World, gs: seq<bool>, s: State, k: nat, n: nat)
    requires |s.processed| == |gs| && Loop(w, gs, s, k).err == 0
    ensures Loop(w, gs, s, k + n) == Loop(w, gs, Loop(w, gs, s, k).s, n)
    decreases k
  {
    hide ParseNext;
    if k > 0 {
      StepKeepsGroups(w, gs, s);
      LoopInTwo(w, gs, ParseNext(w, gs, s).s, k - 1, n);
    }
  }

  /** Quoting in every run of __argp_parse: if round `k` meets the `--`, getopt is
      not asked in any later round. */
  lemma QuotingInRuns(w: World, gs: seq<bool>, argv: seq<string>, noArgs: bool, k: nat, n: nat)
    requires var s := Initialise(w, gs, argv, noArgs).0;
             && |s.processed| == |gs| && n > 0
             && var o := Loop(w, gs, s, k);
                && o.err == 0 && Quotes(w, o.s)
                && var t := o.s.trace + [Getopt]; w.getopt(t).optind <= o.s.argc && StayBehind(w, w.getopt(t).optind, t)
    ensures var s := Initialise(w, gs, argv, noArgs).0;
            Scanned(Loop(w, gs, s, k + n).s.trace) == Scanned(Loop(w, gs, s, k).s.trace) + 1
  {
    hide Initialise;
    hide Quotes;
    hide StayBehind;
    hide Scanned;
    var s := Initialise(w, gs, argv, noArgs).0;
    LoopInTwo(w, gs, s, k, n);
    QuotingLasts(w, gs, Loop(w, gs, s, k).s, n);
  }

  lemma {:induction false} OfferScans(w: World, gs: seq<bool>, s: State, g: nat)
    ensures var o := OfferArg(w, gs, s, g); o.s.quoted == s.quoted && Scanned(o.s.trace) == Scanned(s.trace)
    decreases |gs| - g
  {
    hide Scanned;
    if g < |gs| {
      CallScans(s.trace, g, Arg);
      var (s1, err1) := GroupParse(w, gs, s.(next := s.next + 1), g, Arg);
      if err1 == EBADKEY {
        CallScans(s1.trace, g, Args);
        var (s2, err2) := GroupParse(w, gs, s1.(next := s1.next - 1), g, Args);
        if err2 == EBADKEY { OfferScans(w, gs, s2, g + 1); }
      }
    }
  }

  /** Does a round ask getopt? */
  predicate Asks(s: State) {
    s.tryGetopt && (s.quoted == 0 || s.next < s.quoted)
  }

  lemma GetoptScans(t: Trace)
    ensures Scanned(t + [Getopt]) == Scanned(t) + 1
  {
    assert (t + [Getopt])[..|t|] == t;
  }

  lemma StepScans(w: World, gs: seq<bool>, s: State)
    requires |s.processed| == |gs|
    ensures var o := ParseNext(w, gs, s);
            && Scanned(o.s.trace) == Scanned(s.trace) + (if Asks(s) then 1 else 0)
            && (!Asks(s) ==> o.s.quoted == Unquote(s).quoted)
  {
    hide Scanned;
    hide OfferArg;
    var u := Unquote(s);
    if Asks(s) {
      var r := w.getopt(u.trace + [Getopt]);
      var s1 := AfterGetopt(u, r);
      GetoptScans(s.trace);
      OfferScans(w, gs, s1.(next := s1.next - 1), 0);
      OfferScans(w, gs, s1.(next := s1.next + 1 - 1), 0);
      if r.found.KeyOpt? {
        match PT.Owner(w.tables, r.found.opt)
        case None =>
        case Some((g, key)) => CallScans(s1.trace, g, UserOption(key));
      }
    } else {
      OfferScans(w, gs, u.(next := u.next + 1 - 1), 0);
    }
  }

  lemma {:induction false} LoopScans(w: World, gs: seq<bool>, s: State, n: nat)
    requires |s.processed| == |gs|
    ensures Scanned(Loop(w, gs, s, n).s.trace) >= Scanned(s.trace)
    decreases n
  {
    hide ParseNext;
    hide Scanned;
    if n > 0 {
      StepScans(w, gs, s);
      StepKeepsGroups(w, gs, s);
      var o := ParseNext(w, gs, s);
      if o.err == 0 { LoopScans(w, gs, o.s, n - 1); }
    }
  }

  /** Was `next` before `q` at the start of round `k` or an earlier one? */
  ghost predicate MovedBefore(w: World, gs: seq<bool>, s: State, q: int, k: nat)
    requires |s.processed| == |gs|
  {
    exists j: nat :: j <= k && Loop(w, gs, s, j).s.next < q
  }

  /** Round `k` takes place, with getopt enabled and the quoting `--` forgotten. */
  ghost predicate Reopened(w: World, gs: seq<bool>, s: State, q: int, k: nat)
    requires |s.processed| == |gs|
  {
    var o := Loop(w, gs, s, k);
    o.err == 0 && o.s.tryGetopt && (s.quoted == 0 || MovedBefore(w, gs, s, q, k))
  }

  lemma LaterRounds(w: World, gs: seq<bool>, s: State, q: int, k: nat)
    requires |s.processed| == |gs| && ParseNext(w, gs, s).err == 0
    ensures |ParseNext(w, gs, s).s.processed| == |gs|
    ensures Loop(w, gs, s, k + 1) == Loop(w, gs, ParseNext(w, gs, s).s, k)
    ensures MovedBefore(w, gs, s, q, k + 1) <==> s.next < q || MovedBefore(w, gs, ParseNext(w, gs, s).s, q, k)
  {
    hide ParseNext;
    StepKeepsGroups(w, gs, s);
    var s' := ParseNext(w, gs, s).s;
    assert Loop(w, gs, s, 0).s == s;
    forall j: nat ensures Loop(w, gs, s, j + 1) == Loop(w, gs, s', j) { }
    if MovedBefore(w, gs, s', q, k) {
      var j: nat :| j <= k && Loop(w, gs, s', j).s.next < q;
      assert Loop(w, gs, s, j + 1).s.next < q;
    }
    if MovedBefore(w, gs, s, q, k + 1) && s.next >= q {
      var j: nat :| j <= k + 1 && Loop(w, gs, s, j).s.next < q;
      assert j > 0 && Loop(w, gs, s', j - 1).s.next < q;
    }
  }

  /** The exact condition, for arbitrary callbacks: after a `--` that ended at
      `q`, getopt is asked again if and only if some round starts with
      try_getopt set at or after a round that started with `next` before `q`. */
  lemma {:induction false} ScannedAgainExactly(w: World, gs: seq<bool>, s: State, q: int, n: nat)
    requires |s.processed| == |gs| && q > 0 && (s.quoted == q || s.quoted == 0)
    ensures Scanned(Loop(w, gs, s, n).s.trace) > Scanned(s.trace)
            <==> exists k: nat :: k < n && Reopened(w, gs, s, q, k)
    decreases n
  {
    hide ParseNext;
    hide Scanned;
    if n > 0 {
      StepScans(w, gs, s);
      StepKeepsGroups(w, gs, s);
      var o := ParseNext(w, gs, s);
      assert Loop(w, gs, s, 0) == Outcome(s, 0, false);
      assert Asks(s) <==> Reopened(w, gs, s, q, 0);
      if Asks(s) {
        if o.err == 0 { LoopScans(w, gs, o.s, n - 1); }
      } else if o.err == 0 {
        ScannedAgainExactly(w, gs, o.s, q, n - 1);
        ReopenedLater(w, gs, s, q);
        if k: nat :| k < n && Reopened(w, gs, s, q, k) {
          assert k > 0 && Reopened(w, gs, o.s, q, k - 1);
        }
        if k: nat :| k < n - 1 && Reopened(w, gs, o.s, q, k) {
          assert Reopened(w, gs, s, q, k + 1);
        }
      } else {
        forall k: nat | 0 < k < n ensures !Reopened(w, gs, s, q, k) { }
      }
    }
  }

  lemma ReopenedLater(w: World, gs: seq<bool>, s: State, q: int)
    requires |s.processed| == |gs| && q > 0 && (s.quoted == q || s.quoted == 0)
    requires ParseNext(w, gs, s).err == 0 && !Asks(s)
    ensures |ParseNext(w, gs, s).s.processed| == |gs|
    ensures forall k: nat :: Reopened(w, gs, s, q, k + 1) <==> Reopened(w, gs, ParseNext(w, gs, s).s, q, k)
  {
    hide ParseNext;
    hide Loop;
    hide Scanned;
    hide MovedBefore;
    StepKeepsGroups(w, gs, s);
    StepScans(w, gs, s);
    var s' := ParseNext(w, gs, s).s;
    forall k: nat ensures Reopened(w, gs, s, q, k + 1) <==> Reopened(w, gs, s', q, k) {
      LaterRounds(w, gs, s, q, k);
    }
  }


  // ---- Whole runs end ----------------------------------------------------------------------------------

  /** After `b` calls getopt has nothing but the end, or an error, to report. */
  ghost predicate Exhausts(w: World, b: nat) {
    forall h :: Scanned(h) > b ==> w.getopt(h).found.KeyEnd? || w.getopt(h).found.KeyErr?
  }

  /** A round that asks getopt either ends the loop, or ends the options, or
      leaves the rest to getopt. */
  lemma AskedRound(w: World, gs: seq<bool>, s: State)
    requires Quiet(w) && Scans(w, s.argc) && |s.processed| == |gs| && s.tryGetopt && s.quoted == 0
    ensures var o := ParseNext(w, gs, s);
            o.err == 0 ==>
              && o.s.argc == s.argc && o.s.next >= 0
              && o.s.tryGetopt == !w.getopt(s.trace + [Getopt]).found.KeyEnd?
              && (o.s.tryGetopt ==> o.s.quoted == 0)
  {
    hide OfferArg;
    var r := w.getopt(s.trace + [Getopt]);
    var s1 := AfterGetopt(s, r);
    match r.found
    case KeyEnd => PastMovesOn(w, gs, s1);
    case KeyErr =>
    case KeyArg => QuietOffer(w, gs, s1.(next := s1.next - 1), 0);
    case KeyOpt(opt) =>
  }

  lemma {:induction false} RunEnds(w: World, gs: seq<bool>, s: State, b: nat, n: nat)
    requires Quiet(w) && Scans(w, s.argc) && Exhausts(w, b)
    requires |s.processed| == |gs| && s.argc >= 0 && s.next >= 0 && (s.tryGetopt ==> s.quoted == 0)
    requires n > s.argc + 1 && (s.tryGetopt ==> n > s.argc + 1 + b - Scanned(s.trace))
    ensures Loop(w, gs, s, n).err != 0
    decreases n
  {
    hide Scanned;
    if !s.tryGetopt {
      LoopEnds(w, gs, s, n);
    } else {
      AskedRound(w, gs, s);
      StepScans(w, gs, s);
      StepKeepsGroups(w, gs, s);
      GetoptScans(s.trace);
      var o := ParseNext(w, gs, s);
      if o.err == 0 {
        if o.s.tryGetopt {
          StillScanning(w, gs, s, b);
          RunEnds(w, gs, o.s, b, n - 1);
        } else {
          LoopEnds(w, gs, o.s, n - 1);
        }
      }
    }
  }

  lemma StillScanning(w: World, gs: seq<bool>, s: State, b: nat)
    requires Exhausts(w, b) && |s.processed| == |gs| && s.tryGetopt && s.quoted == 0
    requires ParseNext(w, gs, s).err == 0 && !w.getopt(s.trace + [Getopt]).found.KeyEnd?
    ensures Scanned(s.trace) < b
  {
    hide Scanned;
    GetoptScans(s.trace);
  }

  /** Every parse ends if callbacks leave `next` and `argc` alone and getopt runs
      out of options: one round for each of getopt's answers and each argument. */
  lemma ParseEnds(w: World, gs: seq<bool>, argv: seq<string>, noArgs: bool, b: nat, n: nat)
    requires Quiet(w) && Scans(w, |argv|) && Exhausts(w, b) && n >= b + |argv| + 2
    ensures var s := Initialise(w, gs, argv, noArgs).0; |s.processed| == |gs| && Loop(w, gs, s, n).err != 0
  {
    hide Loop;
    hide Scanned;
    UpQuiet(w, gs, StartState(gs, argv, noArgs), Init, 0, 0);
    RunEnds(w, gs, Initialise(w, gs, argv, noArgs).0, b, n);
  }

  // ---- Why the end of the arguments matters --------------------------------------------------------------

  /** A world with one group whose callback refuses everything but takes all
      arguments with ARGS, shortening the vector to one element. */
  function Shortener(): World {
    World(h => if h != [] && h[|h| - 1] == Call(0, Args) then Reply(0, None, Some(1), None, None)
               else Reply(EBADKEY, None, None, None, None),
          h => Scan(KeyEnd, 2, ["p", "--", "x"]),
          PT.Tables([], [], [PT.Group(Argp(None, true, None, [], 0, None), [], 0, None, 0, 0)], 0))
  }

  lemma ShortenerReplies(h: Trace, key: Key)
    ensures Shortener().parse(h + [Call(0, key)])
            == if key == Args then Reply(0, None, Some(1), None, None) else Reply(EBADKEY, None, None, None, None)
    ensures Shortener().getopt(h) == Scan(KeyEnd, 2, ["p", "--", "x"])
  {
  }

  lemma ShortenerOffers(s: State)
    ensures OfferArg(Shortener(), [true], s, 0)
            == Offer(s.(argc := 1, trace := s.trace + [Call(0, Arg)] + [Call(0, Args)]), 0, true, 0)
  {
    hide Shortener;
    ShortenerReplies(s.trace, Arg);
    ShortenerReplies(s.trace + [Call(0, Arg)], Args);
  }

  lemma ShortenerStarts(argv: seq<string>)
    ensures Initialise(Shortener(), [true], argv, false)
            == (StartState([true], argv, false).(trace := [] + [Call(0, Init)]), 0)
  {
    hide Shortener;
    ShortenerReplies([], Init);
    var s := StartState([true], argv, false);
    assert GroupParse(Shortener(), [true], s, 0, Init) == (s.(trace := [] + [Call(0, Init)]), EBADKEY);
  }

  /** The condition on the end of the arguments is needed: with the arguments
      `-- x`, a callback that takes all arguments with ARGS and shortens the
      vector, without ever touching `next`, makes the parser ask getopt again. */
  lemma ShortenedVectorIsScannedAgain()
    ensures var w, argv := Shortener(), ["p", "--", "x"];
            && Parsers(w.tables) == [true] && (forall h :: w.parse(h).next == None)
            && var (s, err) := Initialise(w, [true], argv, false);
               && err == 0 && |s.processed| == 1 && Scanned(s.trace) == 0
               && Quotes(w, s) && Scanned(Loop(w, [true], s, 2).s.trace) == 2
  {
    hide OfferArg;
    hide Scanned;
    hide Loop;
    hide Quotes;
    hide Initialise;
    var argv := ["p", "--", "x"];
    assert Parsers(Shortener().tables) == [true];
    ShortenerStarts(argv);
    var s := StartState([true], argv, false).(trace := [] + [Call(0, Init)]);
    ShortenerRound(s);
    TwoScans(Shortener(), [true], s);
    CallScans([], 0, Init);
    NothingScanned();
  }

  /** Two rounds that ask getopt. */
  lemma TwoScans(w: World, gs: seq<bool>, s: State)
    requires |s.processed| == |gs| && Asks(s)
    requires var o := ParseNext(w, gs, s); o.err == 0 && Asks(o.s)
    ensures Scanned(Loop(w, gs, s, 2).s.trace) == Scanned(s.trace) + 2
  {
    hide Scanned;
    hide ParseNext;
    hide Asks;
    StepScans(w, gs, s);
    StepKeepsGroups(w, gs, s);
    var s2 := ParseNext(w, gs, s).s;
    StepScans(w, gs, s2);
    StepKeepsGroups(w, gs, s2);
    var o := ParseNext(w, gs, s2);
    assert Loop(w, gs, o.s, 0).s == o.s;
    assert Loop(w, gs, s2, 1).s == o.s;
  }

  lemma NothingScanned()
    ensures Scanned([]) == 0
  {
  }

  lemma ShortenerRound(s: State)
    requires s == StartState([true], ["p", "--", "x"], false).(trace := [] + [Call(0, Init)])
    ensures Quotes(Shortener(), s)
    ensures var o := ParseNext(Shortener(), [true], s);
            o.err == 0 && |o.s.processed| == 1 && o.s.next == 1 && o.s.tryGetopt && o.s.quoted == 2
  {
    hide OfferArg;
    var w := Shortener();
    var s1 := AfterGetopt(s, w.getopt(s.trace + [Getopt]));
    assert s1.next == 2 && s1.quoted == 2 && !s1.tryGetopt && s1.argc == 3;
    ShortenerOffers(s1.(next := s1.next + 1 - 1));
  }
}
