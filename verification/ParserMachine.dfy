/** The parser as imperative code: struct parser with its state updated step by
    step, proved to compute the functions of the run. */
module ParserMachine {
  import opened Basics
  import PT = ParserTables
  import R = ParserRun
  import PB = ParserBalance

  class Parser {
    const w: R.World
    const gs: seq<bool>

    var next: int
    var argc: int
    var argv: seq<string>
    var noArgs: bool
    var quoted: int
    var tryGetopt: bool
    var processed: seq<nat>
    /** Everything the callbacks and getopt have been asked so far. */
    var trace: R.Trace
    ghost var moved: int

    ghost predicate Valid()
      reads this
    {
      |processed| == |gs|
    }

    ghost function State(): R.State
      reads this
    {
      R.State(next, argc, argv, noArgs, quoted, tryGetopt, processed, trace, moved)
    }

    /** parser_init before the INIT calls. */
    constructor (w: R.World, argv: seq<string>, noArgs: bool)
      ensures this.w == w && gs == R.Parsers(w.tables) && Valid() && State() == R.StartState(gs, argv, noArgs)
    {
      this.w, gs := w, R.Parsers(w.tables);
      next, argc, this.argv, this.noArgs := 0, |argv|, argv, noArgs;
      quoted, tryGetopt, processed, trace, moved := 0, true, Repeat<nat>(0, |w.tables.groups|), [], 0;
    }

    /** group_parse */
    method GroupParse(g: nat, key: R.Key) returns (err: int)
      requires Valid() && g < |gs|
      modifies this
      ensures Valid() && (State(), err) == R.GroupParse(w, gs, old(State()), g, key)
    {
      if !gs[g] { return R.EBADKEY; }
      trace := trace + [R.Call(g, key)];
      var r := w.parse(trace);
      if r.next.Some? { next := r.next.value; }
      if r.argc.Some? { argc := r.argc.value; }
      if r.argv.Some? { argv := r.argv.value; }
      if r.noArgs.Some? { noArgs := r.noArgs.value; }
      err := r.err;
    }

    /** The loops over the groups from first to last that stop on an error. */
    method SweepUp(key: R.Key) returns (err: int)
      requires Valid()
      modifies this
      ensures Valid() && (State(), err) == R.Up(w, gs, old(State()), key, 0, 0)
    {
      hide R.GroupParse;
      err := 0;
      var group := 0;
      while group < |gs| && (err == 0 || err == R.EBADKEY)
        invariant Valid() && group <= |gs|
        invariant R.Up(w, gs, State(), key, group, err) == R.Up(w, gs, old(State()), key, 0, 0)
      {
        if !(key == R.NoArgs && processed[group] != 0) {
          err := GroupParse(group, key);
        }
        group := group + 1;
      }
    }

    /** The loops over the groups from last to first that stop on an error. */
    method SweepDown(key: R.Key, err0: int) returns (err: int)
      requires Valid()
      modifies this
      ensures Valid() && (State(), err) == R.Down(w, gs, old(State()), key, |gs|, err0)
    {
      hide R.GroupParse;
      err := err0;
      var group := |gs|;
      while group > 0 && (err == 0 || err == R.EBADKEY)
        invariant Valid() && 0 <= group <= |gs|
        invariant R.Down(w, gs, State(), key, group, err) == R.Down(w, gs, old(State()), key, |gs|, err0)
      {
        err := GroupParse(group - 1, key);
        group := group - 1;
      }
    }

    /** The loops that ignore what the groups answer. */
    method TellAllUp(key: R.Key)
      requires Valid()
      modifies this
      ensures Valid() && State() == R.UpAll(w, gs, old(State()), key, 0)
    {
      hide R.GroupParse;
      var group := 0;
      while group < |gs|
        invariant Valid() && group <= |gs|
        invariant R.UpAll(w, gs, State(), key, group) == R.UpAll(w, gs, old(State()), key, 0)
      {
        var err := GroupParse(group, key);
        group := group + 1;
      }
    }

    method TellAllDown(key: R.Key)
      requires Valid()
      modifies this
      ensures Valid() && State() == R.DownAll(w, gs, old(State()), key, |gs|)
    {
      hide R.GroupParse;
      var group := |gs|;
      while group > 0
        invariant Valid() && 0 <= group <= |gs|
        invariant R.DownAll(w, gs, State(), key, group) == R.DownAll(w, gs, old(State()), key, |gs|)
      {
        var err := GroupParse(group - 1, key);
        group := group - 1;
      }
    }

    /** The loop of parser_parse_arg; `group` is where it stopped. */
    method OfferArg() returns (err: int, args: bool, group: nat)
      requires Valid()
      modifies this
      ensures Valid() && R.Offer(State(), err, args, group) == R.OfferArg(w, gs, old(State()), 0)
    {
      hide R.GroupParse;
      err, args, group := R.EBADKEY, false, 0;
      while group < |gs|
        invariant Valid() && group <= |gs|
        invariant R.OfferArg(w, gs, State(), group) == R.OfferArg(w, gs, old(State()), 0)
      {
        next := next + 1;
        err := GroupParse(group, R.Arg);
        if err != R.EBADKEY { return err, false, group; }
        next := next - 1;
        err := GroupParse(group, R.Args);
        if err != R.EBADKEY { return err, true, group; }
        group := group + 1;
      }
      return R.EBADKEY, false, group;
    }

    /** parser_parse_arg */
    method ParseArg() returns (err: int)
      requires Valid()
      modifies this
      ensures Valid() && (State(), err) == R.ParseArg(w, gs, old(State()))
    {
      hide R.OfferArg;
      next := next - 1;
      var index := next;
      ghost var before := State();
      R.OfferKeepsCounts(w, gs, before, 0);
      var args, group;
      err, args, group := OfferArg();
      if err == 0 {
        if args { next := argc; }
        if next > index {
          if group < |processed| {
            processed := processed[group := processed[group] + (next - index)];
          }
        } else {
          tryGetopt := true;
        }
      }
    }

    /** parser_parse_opt */
    method ParseOpt(opt: int) returns (err: int)
      requires Valid()
      modifies this
      ensures Valid() && (State(), err) == R.ParseOpt(w, gs, old(State()), opt)
    {
      hide R.GroupParse;
      hide PT.ShortGroup;
      err := R.EBADKEY;
      var groupKey := PT.GroupKey(opt);
      if groupKey == 0 {
        var group := PT.DispatchShort(w.tables, opt);
        if group.Some? && group.value < |gs| { err := GroupParse(group.value, R.UserOption(opt)); }
      } else if 0 < groupKey <= |w.tables.groups| && groupKey - 1 < |gs| {
        err := GroupParse(groupKey - 1, R.UserOption(PT.UserKey(opt)));
      }
    }

    /** The part of parser_parse_next that asks getopt. */
    method AskGetopt() returns (found: R.Found)
      requires Valid()
      modifies this
      ensures Valid()
      ensures var r := w.getopt(old(trace) + [R.Getopt]); found == r.found && State() == R.AfterGetopt(old(State()), r)
    {
      trace := trace + [R.Getopt];
      var r := w.getopt(trace);
      found := r.found;
      moved := moved + (r.optind - next) - if found.KeyArg? then 1 else 0;
      next, argv := r.optind, r.argv;
      if found.KeyEnd? {
        tryGetopt := false;
        if next > 1 && next - 1 < |argv| && argv[next - 1] == "--" { quoted := next; }
      }
    }

    /** The part of parser_parse_next past the options. */
    method PastOptions() returns (err: int)
      requires Valid()
      modifies this
      ensures Valid() && R.Outcome(State(), err, true) == R.PastOptions(w, gs, old(State()))
    {
      hide R.ParseArg;
      if next >= argc || noArgs { return R.EBADKEY; }
      next := next + 1;
      err := ParseArg();
    }

    /** parser_parse_next */
    method ParseNext() returns (err: int, argBad: bool)
      requires Valid()
      modifies this
      ensures Valid() && R.Outcome(State(), err, argBad) == R.ParseNext(w, gs, old(State()))
    {
      hide R.ParseArg;
      hide R.ParseOpt;
      hide R.PastOptions;
      hide R.AfterGetopt;
      if quoted != 0 && next < quoted { quoted := 0; }
      if tryGetopt && quoted == 0 {
        var found := AskGetopt();
        match found {
          case KeyEnd => err := PastOptions();
            argBad := true;
          case KeyErr => err, argBad := R.EBADKEY, false;
          case KeyArg => err := ParseArg();
            argBad := true;
          case KeyOpt(opt) => err := ParseOpt(opt);
            argBad := false;
        }
      } else {
        err := PastOptions();
        argBad := true;
      }
    }

    /** parser_finalize */
    method Finalise(err0: int, argBad: bool, wanted: bool) returns (result: int, endIndex: Option<int>)
      requires Valid()
      modifies this
      ensures R.Final(State(), result, endIndex) == R.Finalise(w, gs, R.Outcome(old(State()), err0, argBad), wanted)
    {
      hide R.Up;
      hide R.Down;
      hide R.UpAll;
      hide R.DownAll;
      var err := if err0 == R.EBADKEY && argBad then 0 else err0;
      endIndex := None;
      if err == 0 {
        if next == argc {
          err := SweepUp(R.NoArgs);
          err := SweepDown(R.End, err);
          if err == R.EBADKEY { err := 0; }
          if wanted { endIndex := Some(next); }
        } else if wanted {
          endIndex := Some(next);
        } else {
          err := R.EBADKEY;
        }
      }
      if err != 0 {
        TellAllUp(R.Error);
      } else {
        err := SweepDown(R.Success, 0);
        if err == R.EBADKEY { err := 0; }
      }
      TellAllDown(R.Fini);
      result := if err == R.EBADKEY then R.EINVAL else err;
    }
  }

  /** __argp_parse, followed for at most `rounds` rounds of its loop: None if the
      callbacks keep it going longer, and otherwise the result and end_index. */
  method ArgpParse(w: R.World, argv: seq<string>, noArgs: bool, wanted: bool, rounds: nat)
    returns (r: Option<(int, Option<int>)>, calls: R.Trace)
    ensures var gs := R.Parsers(w.tables);
            var (s, err) := R.Initialise(w, gs, argv, noArgs);
            if err != 0 then r == Some((err, None)) && calls == s.trace
            else
              && |s.processed| == |gs|
              && var o := R.Loop(w, gs, s, rounds);
                 if o.err == 0 then r == None && calls == o.s.trace
                 else
                   var f := R.Finalise(w, gs, o, wanted);
                   r == Some((f.result, f.endIndex)) && calls == f.s.trace
    ensures PB.Quiet(w) && PB.Scans(w, |argv|) ==>
              forall b: nat :: PB.Exhausts(w, b) && rounds >= b + |argv| + 2 ==> r.Some?
  {
    hide R.Up;
    hide R.ParseNext;
    hide R.Finalise;
    hide PB.Quiet;
    hide PB.Scans;
    hide PB.Exhausts;
    ghost var gs := R.Parsers(w.tables);
    var p := new Parser(w, argv, noArgs);
    var err := p.SweepUp(R.Init);
    if err == R.EBADKEY { err := 0; }
    if err != 0 { return Some((err, None)), p.trace; }
    ghost var s := p.State();
    var argBad, n := false, rounds;
    while err == 0 && n > 0
      invariant p.Valid() && p.gs == gs && p.w == w
      invariant if err == 0 then R.Loop(w, gs, p.State(), n) == R.Loop(w, gs, s, rounds)
                else R.Outcome(p.State(), err, argBad) == R.Loop(w, gs, s, rounds)
      decreases n
    {
      err, argBad := p.ParseNext();
      n := n - 1;
    }
    if err == 0 {
      if PB.Quiet(w) && PB.Scans(w, |argv|) {
        forall b: nat | PB.Exhausts(w, b) ensures rounds < b + |argv| + 2 {
          if rounds >= b + |argv| + 2 { PB.ParseEnds(w, gs, argv, noArgs, b, rounds); }
        }
      }
      return None, p.trace;
    }
    var result, endIndex := p.Finalise(err, argBad, wanted);
    return Some((result, endIndex)), p.trace;
  }
}
