/** Running the parser: the callback protocol of __argp_parse with parser_init,
    parser_parse_next, parser_parse_arg, parser_parse_opt and parser_finalize.

    The groups are known by number, in the order of the parser tables; `gs[g]`
    says whether group `g` has a parser function.  User parsers and getopt are
    arbitrary functions of everything that happened before; what getopt returns
    for an option is decoded with the parser tables. */
module ParserRun {
  import opened Basics
  import PT = ParserTables

  // ---- The outside world -----------------------------------------------------------------

  datatype Key = Init | UserOption(key: int) | Arg | Args | NoArgs | End | Success | Error | Fini

  datatype Event = Call(group: nat, key: Key) | Getopt

  type Trace = seq<Event>

  /** What a callback returns and which fields of the state it changes. */
  datatype Reply = Reply(
    err: int, next: Option<int>, argc: Option<int>, argv: Option<seq<string>>, noArgs: Option<bool>)

  /** What getopt returns: the end of the options, an error, an argument, or the
      value of an option. */
  datatype Found = KeyEnd | KeyErr | KeyArg | KeyOpt(opt: int)

  /** Getopt also moves optind and may permute the arguments. */
  datatype Scan = Scan(found: Found, optind: int, argv: seq<string>)

  /** What a run depends on besides the arguments. */
  datatype World = World(parse: Trace -> Reply, getopt: Trace -> Scan, tables: PT.Tables)

  /** Which groups of the tables have a parser function. */
  function Parsers(t: PT.Tables): (gs: seq<bool>)
    ensures |gs| == |t.groups| && forall g :: 0 <= g < |gs| ==> gs[g] == t.groups[g].argp.hasParser
  {
    seq(|t.groups|, g requires 0 <= g < |t.groups| => t.groups[g].argp.hasParser)
  }

  /** ARGP_ERR_UNKNOWN, which is E2BIG, and EINVAL */
  const EBADKEY: int := 7
  const EINVAL: int := 22

  /** struct parser and struct argp_state, as far as the run depends on them.
      `moved` is the net movement of `next` by getopt, arguments not counted. */
  datatype State = State(
    next: int, argc: int, argv: seq<string>, noArgs: bool, quoted: int, tryGetopt: bool,
    processed: seq<nat>, trace: Trace, moved: int)

  function ArgAt(s: State, i: int): string {
    if 0 <= i < |s.argv| then s.argv[i] else ""
  }

  function Or<T>(o: Option<T>, x: T): T {
    if o.Some? then o.value else x
  }

  /** group_parse: the callback of a group, or EBADKEY if it has none. */
  function GroupParse(w: World, gs: seq<bool>, s: State, g: nat, key: Key): (State, int)
    requires g < |gs|
  {
    if !gs[g] then (s, EBADKEY)
    else
      var trace := s.trace + [Call(g, key)];
      var r := w.parse(trace);
      (s.(trace := trace, next := Or(r.next, s.next), argc := Or(r.argc, s.argc), argv := Or(r.argv, s.argv),
          noArgs := Or(r.noArgs, s.noArgs)), r.err)
  }

  /** May a loop over the groups go on? */
  predicate GoOn(err: int) {
    err == 0 || err == EBADKEY
  }

  // ---- Loops over the groups ---------------------------------------------------------------

  /** Groups from `g` up, while nothing fails; ARGP_KEY_NO_ARGS skips groups that
      have processed arguments. */
  function Up(w: World, gs: seq<bool>, s: State, key: Key, g: nat, err: int): (State, int)
    requires |s.processed| == |gs|
    decreases |gs| - g
  {
    if g >= |gs| || !GoOn(err) then (s, err)
    else if key == NoArgs && s.processed[g] != 0 then Up(w, gs, s, key, g + 1, err)
    else
      var (s', err') := GroupParse(w, gs, s, g, key);
      Up(w, gs, s', key, g + 1, err')
  }

  /** Groups from `n - 1` down, while nothing fails. */
  function Down(w: World, gs: seq<bool>, s: State, key: Key, n: nat, err: int): (State, int)
    requires n <= |gs|
    decreases n
  {
    if n == 0 || !GoOn(err) then (s, err)
    else
      var (s', err') := GroupParse(w, gs, s, n - 1, key);
      Down(w, gs, s', key, n - 1, err')
  }

  /** All groups up, or all down, whatever they answer. */
  function UpAll(w: World, gs: seq<bool>, s: State, key: Key, g: nat): State
    decreases |gs| - g
  {
    if g >= |gs| then s else UpAll(w, gs, GroupParse(w, gs, s, g, key).0, key, g + 1)
  }

  function DownAll(w: World, gs: seq<bool>, s: State, key: Key, n: nat): State
    requires n <= |gs|
    decreases n
  {
    if n == 0 then s else DownAll(w, gs, GroupParse(w, gs, s, n - 1, key).0, key, n - 1)
  }

  function Known(err: int): int {
    if err == EBADKEY then 0 else err
  }

  // ---- parser_init ----------------------------------------------------------------------------

  function StartState(gs: seq<bool>, argv: seq<string>, noArgs: bool): State {
    State(0, |argv|, argv, noArgs, 0, true, Repeat<nat>(0, |gs|), [], 0)
  }

  /** The INIT calls of parser_init. */
  function Initialise(w: World, gs: seq<bool>, argv: seq<string>, noArgs: bool): (State, int) {
    var (s, err) := Up(w, gs, StartState(gs, argv, noArgs), Init, 0, 0);
    (s, Known(err))
  }

  // ---- parser_parse_arg, parser_parse_opt, parser_parse_next ----------------------------------------

  /** The loop of parser_parse_arg: the state, the error, whether ARGS was the
      last key, and the group that was asked last. */
  datatype Offer = Offer(s: State, err: int, args: bool, group: nat)

  function OfferArg(w: World, gs: seq<bool>, s: State, g: nat): Offer
    decreases |gs| - g
  {
    if g >= |gs| then Offer(s, EBADKEY, false, g)
    else
      var (s1, err1) := GroupParse(w, gs, s.(next := s.next + 1), g, Arg);
      if err1 != EBADKEY then Offer(s1, err1, false, g)
      else
        var (s2, err2) := GroupParse(w, gs, s1.(next := s1.next - 1), g, Args);
        if err2 != EBADKEY then Offer(s2, err2, true, g) else OfferArg(w, gs, s2, g + 1)
  }

  function ParseArg(w: World, gs: seq<bool>, s: State): (State, int)
    requires |s.processed| == |gs|
  {
    var index := s.next - 1;
    var o := OfferArg(w, gs, s.(next := index), 0);
    if o.err != 0 then (o.s, o.err)
    else (Accept(o, index), 0)
  }

  /** An accepted argument is counted, unless the callback moved back. */
  function Accept(o: Offer, index: int): State {
    var s := if o.args then o.s.(next := o.s.argc) else o.s;
    if s.next > index then
      if o.group < |s.processed| then
        s.(processed := s.processed[o.group := s.processed[o.group] + (s.next - index)])
      else s
    else s.(tryGetopt := true)
  }

  /** The callback of the group that the tables give for a value of getopt. */
  function ParseOpt(w: World, gs: seq<bool>, s: State, opt: int): (State, int) {
    match PT.Owner(w.tables, opt)
    case Some((g, key)) => if g < |gs| then GroupParse(w, gs, s, g, UserOption(key)) else (s, EBADKEY)
    case None => (s, EBADKEY)
  }

  /** The result of one step: `argBad` says that EBADKEY stems from an argument. */
  datatype Outcome = Outcome(s: State, err: int, argBad: bool)

  /** Forget the quoting if the arguments were moved back before it. */
  function Unquote(s: State): State {
    if s.quoted != 0 && s.next < s.quoted then s.(quoted := 0) else s
  }

  /** The state after getopt has looked at the next argument. */
  function AfterGetopt(s: State, r: Scan): State {
    var s1 := s.(trace := s.trace + [Getopt], next := r.optind, argv := r.argv,
                 moved := s.moved + (r.optind - s.next) - if r.found.KeyArg? then 1 else 0);
    if !r.found.KeyEnd? then s1
    else
      var s2 := s1.(tryGetopt := false);
      if s2.next > 1 && ArgAt(s2, s2.next - 1) == "--" then s2.(quoted := s2.next) else s2
  }

  /** What follows once getopt has no more options. */
  function PastOptions(w: World, gs: seq<bool>, s: State): Outcome
    requires |s.processed| == |gs|
  {
    if s.next >= s.argc || s.noArgs then Outcome(s, EBADKEY, true)
    else
      var (s', err) := ParseArg(w, gs, s.(next := s.next + 1));
      Outcome(s', err, true)
  }

  /** parser_parse_next */
  function ParseNext(w: World, gs: seq<bool>, s0: State): Outcome
    requires |s0.processed| == |gs|
  {
    var s := Unquote(s0);
    if s.tryGetopt && s.quoted == 0 then
      var r := w.getopt(s.trace + [Getopt]);
      var s1 := AfterGetopt(s, r);
      match r.found
      case KeyEnd => PastOptions(w, gs, s1)
      case KeyErr => Outcome(s1, EBADKEY, false)
      case KeyArg => var (s2, err) := ParseArg(w, gs, s1); Outcome(s2, err, true)
      case KeyOpt(opt) => var (s2, err) := ParseOpt(w, gs, s1, opt); Outcome(s2, err, false)
    else PastOptions(w, gs, s)
  }

  lemma {:induction false} OfferKeepsCounts(w: World, gs: seq<bool>, s: State, g: nat)
    ensures OfferArg(w, gs, s, g).s.processed == s.processed
    decreases |gs| - g
  {
    if g < |gs| {
      var (s1, err1) := GroupParse(w, gs, s.(next := s.next + 1), g, Arg);
      if err1 == EBADKEY {
        var (s2, err2) := GroupParse(w, gs, s1.(next := s1.next - 1), g, Args);
        if err2 == EBADKEY { OfferKeepsCounts(w, gs, s2, g + 1); }
      }
    }
  }

  lemma ArgKeepsGroups(w: World, gs: seq<bool>, s: State)
    requires |s.processed| == |gs|
    ensures |ParseArg(w, gs, s).0.processed| == |gs|
  {
    OfferKeepsCounts(w, gs, s.(next := s.next - 1), 0);
  }

  lemma StepKeepsGroups(w: World, gs: seq<bool>, s: State)
    requires |s.processed| == |gs|
    ensures |ParseNext(w, gs, s).s.processed| == |gs|
  {
    hide ParseArg;
    var u := Unquote(s);
    var s1 := AfterGetopt(u, w.getopt(u.trace + [Getopt]));
    ArgKeepsGroups(w, gs, u.(next := u.next + 1));
    ArgKeepsGroups(w, gs, s1);
    ArgKeepsGroups(w, gs, s1.(next := s1.next + 1));
  }

  /** Up to `n` rounds of the loop in __argp_parse. */
  function Loop(w: World, gs: seq<bool>, s: State, n: nat): (o: Outcome)
    requires |s.processed| == |gs|
    ensures |o.s.processed| == |gs|
    decreases n
  {
    if n == 0 then Outcome(s, 0, false)
    else
      StepKeepsGroups(w, gs, s);
      var o := ParseNext(w, gs, s);
      if o.err != 0 then o else Loop(w, gs, o.s, n - 1)
  }

  // ---- parser_finalize -----------------------------------------------------------------------------

  /** NO_ARGS and END after everything was parsed. */
  function Complete(w: World, gs: seq<bool>, s: State): (State, int)
    requires |s.processed| == |gs|
  {
    var (s1, err1) := Up(w, gs, s, NoArgs, 0, 0);
    var (s2, err2) := Down(w, gs, s1, End, |gs|, err1);
    (s2, Known(err2))
  }

  /** ERROR to all groups, or SUCCESS until one fails. */
  function Report(w: World, gs: seq<bool>, s: State, err: int): (State, int) {
    if err != 0 then (UpAll(w, gs, s, Error, 0), err)
    else
      var (s', err') := Down(w, gs, s, Success, |gs|, 0);
      (s', Known(err'))
  }

  /** What __argp_parse hands back. */
  datatype Final = Final(s: State, result: int, endIndex: Option<int>)

  /** parser_finalize; `wanted` says that the caller passed an end_index. */
  function Finalise(w: World, gs: seq<bool>, o: Outcome, wanted: bool): Final
    requires |o.s.processed| == |gs|
  {
    var err0 := if o.err == EBADKEY && o.argBad then 0 else o.err;
    var complete := err0 == 0 && o.s.next == o.s.argc;
    var (s1, err1) := if complete then Complete(w, gs, o.s) else (o.s, err0);
    var end := if err0 == 0 && wanted then Some(s1.next) else None;
    var err2 := if err0 == 0 && !complete && !wanted then EBADKEY else err1;
    var (s2, err3) := Report(w, gs, s1, err2);
    var s3 := DownAll(w, gs, s2, Fini, |gs|);
    Final(s3, if err3 == EBADKEY then EINVAL else err3, end)
  }
}
