/** Options in a run: every callback for an option answers a value that getopt
    returned, and goes to the argp that declares the option. */
module ParserDispatch {
  import opened Basics
  import opened Argp
  import opened ArgpTree
  import PT = ParserTables
  import opened ParserRun
  import P = ParserProtocol
  import AO = ArgpOwnership

  /** Event `x` is the call for the option that getopt returned right before. */
  predicate Answers(w: World, t: Trace, x: nat)
    requires x < |t| && IsOption(t[x])
  {
    && x > 0 && t[x - 1] == Getopt
    && w.getopt(t[..x]).found.KeyOpt?
    && PT.Owner(w.tables, w.getopt(t[..x]).found.opt) == Some((t[x].group, t[x].key.key))
  }

  /** Getopt call `x` returned an option of a group with a parser. */
  predicate Owes(w: World, gs: seq<bool>, t: Trace, x: nat)
    requires x < |t|
  {
    var found := w.getopt(t[..x + 1]).found;
    && t[x] == Getopt && found.KeyOpt?
    && var r := PT.Owner(w.tables, found.opt);
       r.Some? && r.value.0 < |gs| && gs[r.value.0]
  }

  predicate IsOption(e: Event) {
    e.Call? && e.key.UserOption?
  }

  /** Option callbacks and getopt's answers correspond one to one. */
  ghost predicate Answered(w: World, gs: seq<bool>, t: Trace) {
    && (forall x :: 0 <= x < |t| && IsOption(t[x]) ==> Answers(w, t, x))
    && (forall x :: 0 <= x < |t| && Owes(w, gs, t, x) ==> x + 1 < |t| && IsOption(t[x + 1]))
  }

  lemma Snoc(w: World, gs: seq<bool>, t: Trace, e: Event)
    requires Answered(w, gs, t) && !IsOption(e) && !Owes(w, gs, t + [e], |t|)
    ensures Answered(w, gs, t + [e])
  {
    var t' := t + [e];
    forall x | 0 <= x < |t'| && IsOption(t'[x]) ensures Answers(w, t', x) {
      assert Answers(w, t, x);
      assert t'[..x] == t[..x];
    }
    forall x | 0 <= x < |t'| && Owes(w, gs, t', x) ensures x + 1 < |t'| && IsOption(t'[x + 1]) {
      assert x < |t| && t'[..x + 1] == t[..x + 1];
      assert Owes(w, gs, t, x);
    }
  }

  /** A round in which getopt returns an option. */
  lemma SnocOption(w: World, gs: seq<bool>, t: Trace, e: Event)
    requires Answered(w, gs, t) && IsOption(e) && Answers(w, t + [Getopt] + [e], |t| + 1)
    ensures Answered(w, gs, t + [Getopt] + [e])
  {
    var t' := t + [Getopt] + [e];
    forall x | 0 <= x < |t'| && IsOption(t'[x]) ensures Answers(w, t', x) {
      if x < |t| {
        assert Answers(w, t, x);
        assert t'[..x] == t[..x];
      }
    }
    forall x | 0 <= x < |t'| && Owes(w, gs, t', x) ensures x + 1 < |t'| && IsOption(t'[x + 1]) {
      if x < |t| {
        assert t'[..x + 1] == t[..x + 1];
        assert Owes(w, gs, t, x);
      }
    }
  }

  /** Calls with the other keys add nothing to answer for. */
  lemma Calls(w: World, gs: seq<bool>, s: State, g: nat, key: Key)
    requires g < |gs| && !key.UserOption? && Answered(w, gs, s.trace)
    ensures Answered(w, gs, GroupParse(w, gs, s, g, key).0.trace)
  {
    hide Answered;
    Snoc(w, gs, s.trace, Call(g, key));
  }

  lemma {:induction false} UpAnswers(w: World, gs: seq<bool>, s: State, key: Key, g: nat, err: int)
    requires |s.processed| == |gs| && !key.UserOption? && Answered(w, gs, s.trace)
    ensures Answered(w, gs, Up(w, gs, s, key, g, err).0.trace)
    decreases |gs| - g
  {
    hide Answered;
    if g >= |gs| || !GoOn(err) {
    } else if key == NoArgs && s.processed[g] != 0 {
      UpAnswers(w, gs, s, key, g + 1, err);
    } else {
      Calls(w, gs, s, g, key);
      var (s', err') := GroupParse(w, gs, s, g, key);
      UpAnswers(w, gs, s', key, g + 1, err');
    }
  }

  lemma {:induction false} DownAnswers(w: World, gs: seq<bool>, s: State, key: Key, n: nat, err: int)
    requires n <= |gs| && !key.UserOption? && Answered(w, gs, s.trace)
    ensures Answered(w, gs, Down(w, gs, s, key, n, err).0.trace)
    decreases n
  {
    hide Answered;
    if n > 0 && GoOn(err) {
      Calls(w, gs, s, n - 1, key);
      var (s', err') := GroupParse(w, gs, s, n - 1, key);
      DownAnswers(w, gs, s', key, n - 1, err');
    }
  }

  lemma {:induction false} UpAllAnswers(w: World, gs: seq<bool>, s: State, key: Key, g: nat)
    requires !key.UserOption? && Answered(w, gs, s.trace)
    ensures Answered(w, gs, UpAll(w, gs, s, key, g).trace)
    decreases |gs| - g
  {
    hide Answered;
    if g < |gs| {
      Calls(w, gs, s, g, key);
      UpAllAnswers(w, gs, GroupParse(w, gs, s, g, key).0, key, g + 1);
    }
  }

  lemma {:induction false} DownAllAnswers(w: World, gs: seq<bool>, s: State, key: Key, n: nat)
    requires n <= |gs| && !key.UserOption? && Answered(w, gs, s.trace)
    ensures Answered(w, gs, DownAll(w, gs, s, key, n).trace)
    decreases n
  {
    hide Answered;
    if n > 0 {
      Calls(w, gs, s, n - 1, key);
      DownAllAnswers(w, gs, GroupParse(w, gs, s, n - 1, key).0, key, n - 1);
    }
  }

  lemma {:induction false} OfferAnswers(w: World, gs: seq<bool>, s: State, g: nat)
    requires Answered(w, gs, s.trace)
    ensures Answered(w, gs, OfferArg(w, gs, s, g).s.trace)
    decreases |gs| - g
  {
    hide Answered;
    if g < |gs| {
      Calls(w, gs, s.(next := s.next + 1), g, Arg);
      var (s1, err1) := GroupParse(w, gs, s.(next := s.next + 1), g, Arg);
      if err1 == EBADKEY {
        Calls(w, gs, s1.(next := s1.next - 1), g, Args);
        var (s2, err2) := GroupParse(w, gs, s1.(next := s1.next - 1), g, Args);
        if err2 == EBADKEY { OfferAnswers(w, gs, s2, g + 1); }
      }
    }
  }

  lemma PastAnswers(w: World, gs: seq<bool>, s: State)
    requires |s.processed| == |gs| && Answered(w, gs, s.trace)
    ensures Answered(w, gs, PastOptions(w, gs, s).s.trace)
  {
    hide Answered;
    hide OfferArg;
    OfferAnswers(w, gs, s.(next := s.next + 1 - 1), 0);
  }

  lemma OptAnswers(w: World, gs: seq<bool>, s: State, s1: State, opt: int)
    requires Answered(w, gs, s.trace) && s1.trace == s.trace + [Getopt] && w.getopt(s1.trace).found == KeyOpt(opt)
    ensures Answered(w, gs, ParseOpt(w, gs, s1, opt).0.trace)
  {
    hide Answered;
    hide PT.Owner;
    assert s1.trace[..|s1.trace|] == s1.trace;
    var r := PT.Owner(w.tables, opt);
    if r.Some? && r.value.0 < |gs| && gs[r.value.0] {
      var e := Call(r.value.0, UserOption(r.value.1));
      assert (s1.trace + [e])[..|s1.trace|] == s1.trace;
      SnocOption(w, gs, s.trace, e);
    } else {
      Snoc(w, gs, s.trace, Getopt);
    }
  }

  lemma StepAnswers(w: World, gs: seq<bool>, s: State)
    requires |s.processed| == |gs| && Answered(w, gs, s.trace)
    ensures Answered(w, gs, ParseNext(w, gs, s).s.trace)
  {
    hide Answered;
    hide OfferArg;
    hide PastOptions;
    hide ParseOpt;
    var u := Unquote(s);
    if u.tryGetopt && u.quoted == 0 {
      var r := w.getopt(u.trace + [Getopt]);
      var s1 := AfterGetopt(u, r);
      assert s1.trace[..|s1.trace|] == s1.trace;
      if !r.found.KeyOpt? { Snoc(w, gs, u.trace, Getopt); }
      match r.found
      case KeyEnd => PastAnswers(w, gs, s1);
      case KeyErr =>
      case KeyArg => OfferAnswers(w, gs, s1.(next := s1.next - 1), 0);
      case KeyOpt(opt) => OptAnswers(w, gs, u, s1, opt);
    } else {
      PastAnswers(w, gs, u);
    }
  }

  lemma {:induction false} LoopAnswers(w: World, gs: seq<bool>, s: State, n: nat)
    requires |s.processed| == |gs| && Answered(w, gs, s.trace)
    ensures Answered(w, gs, Loop(w, gs, s, n).s.trace)
    decreases n
  {
    hide Answered;
    hide ParseNext;
    if n > 0 {
      StepAnswers(w, gs, s);
      StepKeepsGroups(w, gs, s);
      var o := ParseNext(w, gs, s);
      if o.err == 0 { LoopAnswers(w, gs, o.s, n - 1); }
    }
  }

  lemma FinaliseAnswers(w: World, gs: seq<bool>, o: Outcome, wanted: bool)
    requires |o.s.processed| == |gs| && Answered(w, gs, o.s.trace)
    ensures Answered(w, gs, Finalise(w, gs, o, wanted).s.trace)
  {
    hide Answered;
    hide Up;
    hide Down;
    hide UpAll;
    hide DownAll;
    var err0 := if o.err == EBADKEY && o.argBad then 0 else o.err;
    var complete := err0 == 0 && o.s.next == o.s.argc;
    if complete {
      UpAnswers(w, gs, o.s, NoArgs, 0, 0);
      var (s1, err1) := Up(w, gs, o.s, NoArgs, 0, 0);
      DownAnswers(w, gs, s1, End, |gs|, err1);
    }
    var (s1, err1) := if complete then Complete(w, gs, o.s) else (o.s, err0);
    var err2 := if err0 == 0 && !complete && !wanted then EBADKEY else err1;
    UpAllAnswers(w, gs, s1, Error, 0);
    DownAnswers(w, gs, s1, Success, |gs|, 0);
    DownAllAnswers(w, gs, Report(w, gs, s1, err2).0, Fini, |gs|);
  }

  /** In every run, each option callback is the answer to what getopt returned
      right before, with the group and key that the tables give for it, and each
      option that getopt returns for a group with a parser is answered. */
  lemma OptionsAreAnswers(w: World, gs: seq<bool>, argv: seq<string>, noArgs: bool, t: Trace)
    requires P.Traced(w, gs, argv, noArgs, t)
    ensures Answered(w, gs, t)
  {
    hide Answered;
    hide Up;
    hide Loop;
    hide Finalise;
    assert Answered(w, gs, []) by { NothingToAnswer(w, gs); }
    UpAnswers(w, gs, StartState(gs, argv, noArgs), Init, 0, 0);
    var s := Initialise(w, gs, argv, noArgs).0;
    if t != s.trace {
      var n, wanted, f :| P.Runs(w, gs, argv, noArgs, n, wanted, f) && t == f.s.trace;
      LoopAnswers(w, gs, s, n);
      FinaliseAnswers(w, gs, Loop(w, gs, s, n), wanted);
    }
  }

  lemma NothingToAnswer(w: World, gs: seq<bool>)
    ensures Answered(w, gs, [])
  {
  }

  // ---- Options reach the argp that declares them ---------------------------------------------------

  /** In every run of the tables of a tree, the callback for a letter other than
      ':', '-' and '+' is that of the first argp in pre-order that declares it. */
  lemma LettersGoHome(a: Argp, w: World, inOrder: bool, plus: bool, argv: seq<string>, noArgs: bool, t: Trace, x: nat)
    requires PT.Holds(w.tables, PT.Prefix(inOrder, plus), Groups(a, []), PT.Unders(a, false))
    requires P.Traced(w, Parsers(w.tables), argv, noArgs, t) && x < |t| && IsOption(t[x])
    ensures Answers(w, t, x)
    ensures var opt := w.getopt(t[..x]).found.opt;
            PT.GroupKey(opt) == 0 && PT.Letter(opt) ==>
              && t[x].key.key == opt && t[x].group < |w.tables.groups|
              && exists j :: PT.FirstParsed(AllDeclared(Groups(a, [])), opt, j)
                             && AllDeclared(Groups(a, []))[j].node == w.tables.groups[t[x].group].node
  {
    hide P.Traced;
    hide PT.Holds;
    hide PT.ShortGroup;
    hide PT.Dispatches;
    hide AllDeclared;
    hide Groups;
    OptionsAreAnswers(w, Parsers(w.tables), argv, noArgs, t);
    assert Answers(w, t, x);
    var opt := w.getopt(t[..x]).found.opt;
    if PT.GroupKey(opt) == 0 && PT.Letter(opt) {
      var gs, us, prefix := Groups(a, []), PT.Unders(a, false), PT.Prefix(inOrder, plus);
      var r := PT.ShortGroup(w.tables, opt);
      PT.DispatchOwner(w.tables, prefix, gs, us, opt, r);
      var j :| PT.FirstParsed(AllDeclared(gs), opt, j) && PT.EndOf(gs, r.value) <= j < PT.EndOf(gs, r.value + 1);
      PT.OptionOfGroup(gs, r.value, j);
      PT.NodeOfGroup(w.tables, prefix, gs, us, r.value);
    }
  }

  function KeyOf(t: PT.Tagged): int {
    if t.o.opt.key != 0 then t.o.opt.key else t.o.base.key
  }

  /** Keys and group numbers that the encoding of long options keeps. */
  ghost predicate Encodable(ts: seq<PT.Tagged>) {
    forall j :: 0 <= j < |ts| ==> -0x80_0000 <= KeyOf(ts[j]) < 0x80_0000 && ts[j].group < 127
  }

  /** In every run, the callback for a value of the long-option table is that of
      the group, and has the key, of an option that is the first in pre-order
      with its name. */
  lemma LongsGoHome(a: Argp, w: World, prefix: seq<int>, argv: seq<string>, noArgs: bool, t: Trace, x: nat, i: nat)
    requires PT.Holds(w.tables, prefix, Groups(a, []), PT.Unders(a, false)) && Encodable(PT.AllTagged(Groups(a, [])))
    requires P.Traced(w, Parsers(w.tables), argv, noArgs, t) && x < |t| && IsOption(t[x])
    requires i < |w.tables.longs|
    ensures Answers(w, t, x)
    ensures var ts, long := PT.AllTagged(Groups(a, [])), w.tables.longs[i];
            w.getopt(t[..x]).found.opt == long.val ==>
              exists j :: PT.FirstNamed(ts, long.name, j) && t[x].group == ts[j].group && t[x].key.key == KeyOf(ts[j])
  {
    hide P.Traced;
    hide PT.AllTagged;
    hide PT.LongTable;
    hide Groups;
    OptionsAreAnswers(w, Parsers(w.tables), argv, noArgs, t);
    assert Answers(w, t, x);
    var ts := PT.AllTagged(Groups(a, []));
    assert w.tables.longs == PT.LongTable(ts);
    hide PT.Holds;
    var name := w.tables.longs[i].name;
    if w.getopt(t[..x]).found.opt == w.tables.longs[i].val {
      PT.LongTableIsFirst(ts, name);
      var j := PT.SomeFirstNamed(ts, name);
      AO.LongOptionGoesHome(ts, name, j, i);
      hide PT.GroupKey;
      hide PT.UserKey;
    }
  }
}
