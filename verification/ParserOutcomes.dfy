/** What becomes of options and arguments that nobody accepts, and what a callback's
    answer does: the outcomes of a run in terms of getopt's and the callbacks'
    replies alone. */
module ParserOutcomes {
  import opened Basics
  import PT = ParserTables
  import opened ParserRun
  import opened ParserProtocol
  import opened ParserBalance

  // ---- One callback -------------------------------------------------------------------------

  /** A callback changes exactly the fields it says, and a group without a parser
      changes nothing. */
  lemma CallEffect(w: World, gs: seq<bool>, s: State, g: nat, key: Key)
    requires g < |gs|
    ensures var (s', err) := GroupParse(w, gs, s, g, key);
            var r := w.parse(s.trace + [Call(g, key)]);
            if !gs[g] then s' == s && err == EBADKEY
            else
              && err == r.err && s'.trace == s.trace + [Call(g, key)]
              && s'.next == (match r.next case Some(n) => n case None => s.next)
              && s'.argc == (match r.argc case Some(n) => n case None => s.argc)
              && s'.argv == (match r.argv case Some(v) => v case None => s.argv)
              && s'.noArgs == (match r.noArgs case Some(b) => b case None => s.noArgs)
              && s'.quoted == s.quoted && s'.tryGetopt == s.tryGetopt
              && s'.processed == s.processed && s'.moved == s.moved
  {
  }

  lemma {:induction false} OfferKeeps(w: World, gs: seq<bool>, s: State, g: nat)
    ensures var o := OfferArg(w, gs, s, g);
            o.s.processed == s.processed && o.s.tryGetopt == s.tryGetopt && o.s.quoted == s.quoted
    decreases |gs| - g
  {
    if g < |gs| {
      var (s1, err1) := GroupParse(w, gs, s.(next := s.next + 1), g, Arg);
      if err1 == EBADKEY {
        var (s2, err2) := GroupParse(w, gs, s1.(next := s1.next - 1), g, Args);
        if err2 == EBADKEY { OfferKeeps(w, gs, s2, g + 1); }
      }
    }
  }

  /** The group that decided about an argument, by the last call. */
  predicate Decided(gs: seq<bool>, t: Trace, g: nat, key: Key) {
    g < |gs| && gs[g] && t != [] && t[|t| - 1] == Call(g, key) && (key == Arg || key == Args)
  }

  /** Accepting an argument, for arbitrary callbacks: ARGS consumes everything; the
      group that accepted is credited with what was passed over; and if `next` is
      not past the argument, nobody is credited and getopt gets another try. */
  lemma AcceptedExactly(w: World, gs: seq<bool>, s: State) returns (g: nat, key: Key)
    requires |s.processed| == |gs| && ParseArg(w, gs, s).1 == 0
    ensures var s', index := ParseArg(w, gs, s).0, s.next - 1;
            && Decided(gs, s'.trace, g, key) && s'.quoted == s.quoted
            && (key == Args ==> s'.next == s'.argc)
            && (s'.next > index ==>
                  && s'.processed == s.processed[g := s.processed[g] + (s'.next - index)]
                  && s'.tryGetopt == s.tryGetopt)
            && (s'.next <= index ==> s'.processed == s.processed && s'.tryGetopt)
  {
    hide OfferArg;
    var s0 := s.(next := s.next - 1);
    var o := OfferArg(w, gs, s0, 0);
    OfferAsks(w, gs, s0);
    OfferKeeps(w, gs, s0, 0);
    g, key := o.group, if o.args then Args else Arg;
    var t := if o.args then [Call(g, Arg), Call(g, Args)] else [Call(g, Arg)];
    LastOfThree(s.trace, Asked(gs, 0, g), t);
  }

  lemma LastOfThree(a: Trace, b: Trace, c: Trace)
    requires c != []
    ensures var t := a + (b + c); t != [] && t[|t| - 1] == c[|c| - 1]
  {
  }

  // ---- Which refusals are errors --------------------------------------------------------------

  /** What getopt returns in the round that starts in `s`. */
  function Answer(w: World, s: State): Found {
    w.getopt(s.trace + [Getopt]).found
  }

  /** Is the round about an option? */
  predicate OptionRound(w: World, s: State) {
    Asks(s) && (Answer(w, s).KeyErr? || Answer(w, s).KeyOpt?)
  }

  /** A refusal is put down to an argument exactly if the round is not about an
      option. */
  lemma RefusalsExactly(w: World, gs: seq<bool>, s: State)
    requires |s.processed| == |gs|
    ensures var o := ParseNext(w, gs, s); o.err == EBADKEY ==> (o.argBad <==> !OptionRound(w, s))
  {
    hide ParseArg;
    hide PT.Owner;
  }

  /** The error of a round about an option: an option getopt does not know, one that
      belongs to no group, or what the owner's callback answers. */
  function OptionError(w: World, gs: seq<bool>, s: State): int {
    match Answer(w, s)
    case KeyOpt(opt) =>
      (match PT.Owner(w.tables, opt)
       case Some((g, key)) =>
         if g < |gs| && gs[g] then w.parse(s.trace + [Getopt] + [Call(g, UserOption(key))]).err else EBADKEY
       case None => EBADKEY)
    case _ => EBADKEY
  }

  lemma OptionOutcome(w: World, gs: seq<bool>, s: State)
    requires |s.processed| == |gs| && OptionRound(w, s)
    ensures var o := ParseNext(w, gs, s); o.err == OptionError(w, gs, s) && !o.argBad
  {
    hide PT.Owner;
    hide ParseArg;
  }

  lemma OneMoreRound(w: World, gs: seq<bool>, s: State, k: nat)
    requires |s.processed| == |gs| && Loop(w, gs, s, k).err == 0
    ensures var o := ParseNext(w, gs, Loop(w, gs, s, k).s);
            o.err != 0 ==> Loop(w, gs, s, k + 1) == o
  {
    hide ParseNext;
    LoopInTwo(w, gs, s, k, 1);
  }

  /** In every run, an option that getopt rejects, that no table entry owns, that
      its owner does not recognise, or on which its owner fails, ends the parse
      with an error told to every group: EINVAL for an unrecognised option, and
      otherwise the callback's own. */
  lemma OptionFails(w: World, gs: seq<bool>, argv: seq<string>, noArgs: bool, k: nat, wanted: bool)
    requires var (s, err) := Initialise(w, gs, argv, noArgs);
             && err == 0 && |s.processed| == |gs|
             && var o := Loop(w, gs, s, k); o.err == 0 && OptionRound(w, o.s) && OptionError(w, gs, o.s) != 0
    ensures var s := Initialise(w, gs, argv, noArgs).0;
            var e := OptionError(w, gs, Loop(w, gs, s, k).s);
            var f := Finalise(w, gs, Loop(w, gs, s, k + 1), wanted);
            && f.result == (if e == EBADKEY then EINVAL else e) && f.endIndex == None
            && All(f.s.trace, gs, Error)
  {
    hide Initialise;
    hide Loop;
    hide ParseNext;
    hide OptionRound;
    hide OptionError;
    hide UpTo;
    var s := Initialise(w, gs, argv, noArgs).0;
    OptionOutcome(w, gs, Loop(w, gs, s, k).s);
    OneMoreRound(w, gs, s, k);
    InitialiseOrder(w, gs, argv, noArgs);
    Weaken(s.trace, gs, 0, 1);
    LoopUpTo(w, gs, s, k + 1);
    Delivery(w, gs, Loop(w, gs, s, k + 1), wanted);
    EndIndexGiven(w, gs, Loop(w, gs, s, k + 1), wanted);
  }

  // ---- The index handed back -----------------------------------------------------------------------

  /** end_index is set exactly if the caller wants it and parsing did not fail. */
  lemma EndIndexGiven(w: World, gs: seq<bool>, o: Outcome, wanted: bool)
    requires |o.s.processed| == |gs| && o.err != 0
    ensures Finalise(w, gs, o, wanted).endIndex.Some? <==> wanted && o.err == EBADKEY && o.argBad
  {
    hide Up;
    hide Down;
    hide UpAll;
    hide DownAll;
  }

  lemma {:induction false} DownQuiet(w: World, gs: seq<bool>, s: State, key: Key, n: nat, err: int)
    requires Quiet(w) && n <= |gs|
    ensures var t := Down(w, gs, s, key, n, err).0; Same(s, t) && t.next == s.next
    decreases n
  {
    hide GroupParse;
    hide Quiet;
    if n > 0 && GoOn(err) {
      QuietCall(w, gs, s, n - 1, key);
      var (s', err') := GroupParse(w, gs, s, n - 1, key);
      DownQuiet(w, gs, s', key, n - 1, err');
    }
  }

  /** It is then the first position not consumed, also after a complete parse. */
  lemma EndIndexExactly(w: World, gs: seq<bool>, o: Outcome, wanted: bool)
    requires Quiet(w) && |o.s.processed| == |gs| && o.err != 0
    ensures Finalise(w, gs, o, wanted).endIndex
            == if wanted && o.err == EBADKEY && o.argBad then Some(o.s.next) else None
  {
    hide Up;
    hide Down;
    hide UpAll;
    hide DownAll;
    hide Quiet;
    UpQuiet(w, gs, o.s, NoArgs, 0, 0);
    var (s1, err1) := Up(w, gs, o.s, NoArgs, 0, 0);
    DownQuiet(w, gs, s1, End, |gs|, err1);
  }

  /** In every run, the argument that all groups refuse in round `k` is the one
      end_index names, and an error if the caller does not take it. */
  lemma ArgumentRefused(w: World, gs: seq<bool>, argv: seq<string>, noArgs: bool, k: nat, wanted: bool)
    requires Quiet(w) && Scans(w, |argv|)
    requires var (s, err) := Initialise(w, gs, argv, noArgs);
             && err == 0 && |s.processed| == |gs|
             && var o := Loop(w, gs, s, k);
                && o.err == 0 && !OptionRound(w, o.s)
                && ParseNext(w, gs, o.s).err == EBADKEY && ParseNext(w, gs, o.s).s.next != |argv|
    ensures var o := Loop(w, gs, Initialise(w, gs, argv, noArgs).0, k + 1);
            var f := Finalise(w, gs, o, wanted);
            if wanted then f.endIndex == Some(o.s.moved + Sum(o.s.processed))
            else f.endIndex == None && f.result == EINVAL && All(f.s.trace, gs, Error)
  {
    hide Loop;
    hide ParseNext;
    hide UpTo;
    hide Quiet;
    hide Scans;
    var s := Initialise(w, gs, argv, noArgs).0;
    RefusalsExactly(w, gs, Loop(w, gs, s, k).s);
    OneMoreRound(w, gs, s, k);
    InitialiseOrder(w, gs, argv, noArgs);
    Weaken(s.trace, gs, 0, 1);
    LoopUpTo(w, gs, s, k + 1);
    Conservation(w, gs, argv, noArgs, k + 1);
    UpQuiet(w, gs, StartState(gs, argv, noArgs), Init, 0, 0);
    SumZeros(|gs|);
    LoopBalance(w, gs, s, k + 1);
    Delivery(w, gs, Loop(w, gs, s, k + 1), wanted);
    EndIndexExactly(w, gs, Loop(w, gs, s, k + 1), wanted);
  }

  // ---- Getopt is asked first, and ARGP_NO_ARGS stops at its end -----------------------------------

  /** Whatever the INIT callbacks do, the first round asks getopt. */
  lemma FirstRoundAsks(w: World, gs: seq<bool>, argv: seq<string>, noArgs: bool)
    ensures Asks(Initialise(w, gs, argv, noArgs).0)
  {
    UpKeepsFlags(w, gs, StartState(gs, argv, noArgs), Init, 0, 0);
  }

  lemma {:induction false} UpKeepsFlags(w: World, gs: seq<bool>, s: State, key: Key, g: nat, err: int)
    requires |s.processed| == |gs|
    ensures var t := Up(w, gs, s, key, g, err).0; t.tryGetopt == s.tryGetopt && t.quoted == s.quoted
    decreases |gs| - g
  {
    if g < |gs| && GoOn(err) {
      if key == NoArgs && s.processed[g] != 0 {
        UpKeepsFlags(w, gs, s, key, g + 1, err);
      } else {
        var (s', err') := GroupParse(w, gs, s, g, key);
        UpKeepsFlags(w, gs, s', key, g + 1, err');
      }
    }
  }

  /** With ARGP_NO_ARGS, no group is offered an argument behind the options. */
  lemma NoArgsStops(w: World, gs: seq<bool>, s: State)
    requires |s.processed| == |gs| && s.noArgs && (Asks(s) ==> Answer(w, s).KeyEnd?)
    ensures var o := ParseNext(w, gs, s);
            && o.err == EBADKEY && o.argBad && o.s.processed == s.processed
            && o.s.trace == (if Asks(s) then s.trace + [Getopt] else s.trace)
  {
    hide ParseArg;
  }

  /** Without it, an argument behind the options is offered, and nothing is once
      the arguments are used up. */
  lemma OffersExactly(w: World, gs: seq<bool>, s: State)
    requires |s.processed| == |gs| && !s.noArgs && !Asks(s)
    ensures var o := ParseNext(w, gs, s);
            if s.next >= s.argc then o.err == EBADKEY && o.argBad && o.s.trace == s.trace
            else o.err == ParseArg(w, gs, Unquote(s).(next := s.next + 1)).1
  {
    hide ParseArg;
  }

  /** A `--` is taken for the end of the options exactly if getopt stops right
      behind it, past the program name. */
  lemma QuotesExactly(w: World, s: State)
    ensures Quotes(w, s)
            <==> && Asks(s)
                 && var r := w.getopt(s.trace + [Getopt]);
                    r.found.KeyEnd? && 1 < r.optind <= |r.argv| && r.argv[r.optind - 1] == "--"
  {
  }
}
