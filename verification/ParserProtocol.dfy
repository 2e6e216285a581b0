/** What every run of the parser keeps: the order of the callbacks and who hears
    what in the end. */
module ParserProtocol {
  import opened Basics
  import PT = ParserTables
  import opened ParserRun

  // ---- The order of callbacks --------------------------------------------------------------

  /** Stages of a run; getopt works during parsing. */
  function Stage(e: Event): nat {
    if e.Getopt? then 1
    else match e.key
      case Init => 0
      case NoArgs => 2
      case End => 3
      case Success => 4
      case Error => 4
      case Fini => 5
      case _ => 1
  }

  /** The keys that are delivered to parents before children. */
  predicate Ascending(k: Key) {
    k == Init || k == NoArgs || k == Error
  }

  /** May `a` come before `b`?  Within a stage other than parsing there is a
      single key, and groups come in strictly ascending or descending order. */
  predicate Before(a: Event, b: Event) {
    || Stage(a) < Stage(b)
    || (Stage(a) == 1 && Stage(b) == 1)
    || (&& Stage(a) == Stage(b) != 1 && a.key == b.key
        && if Ascending(a.key) then a.group < b.group else a.group > b.group)
  }

  /** The protocol: every event may come before every later one. */
  ghost predicate Ordered(t: Trace) {
    forall i, j :: 0 <= i < j < |t| ==> Before(t[i], t[j])
  }

  ghost predicate OnlyParsers(t: Trace, gs: seq<bool>) {
    forall e :: e in t && e.Call? ==> e.group < |gs| && gs[e.group]
  }

  /** Every event so far may come before a call of group `g` with `key`. */
  ghost predicate Room(t: Trace, e: Event) {
    forall x :: x in t ==> Before(x, e)
  }

  lemma OrderedSnoc(t: Trace, e: Event)
    requires Ordered(t) && Room(t, e)
    ensures Ordered(t + [e])
  {
    var t' := t + [e];
    forall i, j | 0 <= i < j < |t'| ensures Before(t'[i], t'[j]) {
      if j == |t| { assert t'[i] in t; }
    }
  }

  /** `t'` adds to `t` only calls with `key` to groups in a range. */
  ghost predicate Adds(t: Trace, t': Trace, gs: seq<bool>, key: Key, lo: nat, hi: nat) {
    && t <= t'
    && forall e :: e in t' ==> e in t || (e.Call? && e.key == key && lo <= e.group < hi <= |gs| && gs[e.group])
  }

  lemma AddsTrans(t: Trace, t1: Trace, t2: Trace, gs: seq<bool>, key: Key, lo: nat, hi: nat,
                  a: nat, b: nat, c: nat, d: nat)
    requires Adds(t, t1, gs, key, a, b) && Adds(t1, t2, gs, key, c, d)
    requires lo <= a && b <= hi <= |gs| && lo <= c && d <= hi
    ensures Adds(t, t2, gs, key, lo, hi)
  {
  }

  lemma CallAdds(w: World, gs: seq<bool>, s: State, g: nat, key: Key)
    requires g < |gs| && Ordered(s.trace) && Room(s.trace, Call(g, key))
    ensures var t := GroupParse(w, gs, s, g, key).0.trace;
            && Ordered(t) && Adds(s.trace, t, gs, key, g, g + 1)
            && (gs[g] ==> Call(g, key) in t)
  {
    OrderedSnoc(s.trace, Call(g, key));
  }

  /** A sweep upwards keeps the order. */
  lemma {:induction false} UpAdds(w: World, gs: seq<bool>, s: State, key: Key, g: nat, err: int)
    requires |s.processed| == |gs| && g <= |gs| && Ascending(key) && Ordered(s.trace)
    requires forall h :: g <= h < |gs| ==> Room(s.trace, Call(h, key))
    ensures var t := Up(w, gs, s, key, g, err).0.trace; Ordered(t) && Adds(s.trace, t, gs, key, g, |gs|)
    ensures GoOn(Up(w, gs, s, key, g, err).1) ==>
              forall h :: g <= h < |gs| && gs[h] && (key == NoArgs ==> s.processed[h] == 0)
                ==> Call(h, key) in Up(w, gs, s, key, g, err).0.trace
    ensures key == NoArgs ==>
              forall h :: g <= h < |gs| && s.processed[h] != 0 && Call(h, key) !in s.trace
                ==> Call(h, key) !in Up(w, gs, s, key, g, err).0.trace
    decreases |gs| - g
  {
    hide GroupParse;
    hide Ordered;
    hide Room;
    if g >= |gs| || !GoOn(err) {
    } else if key == NoArgs && s.processed[g] != 0 {
      UpAdds(w, gs, s, key, g + 1, err);
    } else {
      CallKeepsCounts(w, gs, s, g, key);
      var (s', err') := GroupParse(w, gs, s, g, key);
      CallAdds(w, gs, s, g, key);
      RoomAbove(s.trace, s'.trace, gs, key, g);
      UpAdds(w, gs, s', key, g + 1, err');
      AddsTrans(s.trace, s'.trace, Up(w, gs, s', key, g + 1, err').0.trace, gs, key, g, |gs|, g, g + 1, g + 1, |gs|);
    }
  }

  lemma CallKeepsCounts(w: World, gs: seq<bool>, s: State, g: nat, key: Key)
    requires g < |gs|
    ensures GroupParse(w, gs, s, g, key).0.processed == s.processed
    ensures !gs[g] ==> GroupParse(w, gs, s, g, key) == (s, EBADKEY)
  {
  }

  lemma RoomAbove(t: Trace, t': Trace, gs: seq<bool>, key: Key, g: nat)
    requires Ascending(key) && Adds(t, t', gs, key, g, g + 1)
    requires forall h :: g <= h < |gs| ==> Room(t, Call(h, key))
    ensures forall h :: g + 1 <= h < |gs| ==> Room(t', Call(h, key))
  {
  }

  lemma RoomBelow(t: Trace, t': Trace, gs: seq<bool>, key: Key, n: nat)
    requires n > 0 && !Ascending(key) && Stage(Call(0, key)) != 1 && Adds(t, t', gs, key, n - 1, n)
    requires forall h :: 0 <= h < n ==> Room(t, Call(h, key))
    ensures forall h :: 0 <= h < n - 1 ==> Room(t', Call(h, key))
  {
  }

  /** A sweep downwards keeps the order. */
  lemma {:induction false} DownAdds(w: World, gs: seq<bool>, s: State, key: Key, n: nat, err: int)
    requires n <= |gs| && !Ascending(key) && Stage(Call(0, key)) != 1 && Ordered(s.trace)
    requires forall h :: 0 <= h < n ==> Room(s.trace, Call(h, key))
    ensures var t := Down(w, gs, s, key, n, err).0.trace; Ordered(t) && Adds(s.trace, t, gs, key, 0, n)
    ensures GoOn(Down(w, gs, s, key, n, err).1) ==>
              forall h :: 0 <= h < n && gs[h] ==> Call(h, key) in Down(w, gs, s, key, n, err).0.trace
    decreases n
  {
    if n == 0 || !GoOn(err) {
    } else {
      var (s', err') := GroupParse(w, gs, s, n - 1, key);
      CallAdds(w, gs, s, n - 1, key);
      RoomBelow(s.trace, s'.trace, gs, key, n);
      DownAdds(w, gs, s', key, n - 1, err');
      AddsTrans(s.trace, s'.trace, Down(w, gs, s', key, n - 1, err').0.trace, gs, key, 0, n, n - 1, n, 0, n - 1);
    }
  }

  lemma {:induction false} UpAllAdds(w: World, gs: seq<bool>, s: State, key: Key, g: nat)
    requires g <= |gs| && Ascending(key) && Ordered(s.trace)
    requires forall h :: g <= h < |gs| ==> Room(s.trace, Call(h, key))
    ensures var t := UpAll(w, gs, s, key, g).trace;
            && Ordered(t) && Adds(s.trace, t, gs, key, g, |gs|)
            && forall h :: g <= h < |gs| && gs[h] ==> Call(h, key) in t
    decreases |gs| - g
  {
    if g < |gs| {
      var s' := GroupParse(w, gs, s, g, key).0;
      CallAdds(w, gs, s, g, key);
      RoomAbove(s.trace, s'.trace, gs, key, g);
      UpAllAdds(w, gs, s', key, g + 1);
      AddsTrans(s.trace, s'.trace, UpAll(w, gs, s', key, g + 1).trace, gs, key, g, |gs|, g, g + 1, g + 1, |gs|);
    }
  }

  lemma {:induction false} DownAllAdds(w: World, gs: seq<bool>, s: State, key: Key, n: nat)
    requires n <= |gs| && !Ascending(key) && Stage(Call(0, key)) != 1 && Ordered(s.trace)
    requires forall h :: 0 <= h < n ==> Room(s.trace, Call(h, key))
    ensures var t := DownAll(w, gs, s, key, n).trace;
            && Ordered(t) && Adds(s.trace, t, gs, key, 0, n)
            && forall h :: 0 <= h < n && gs[h] ==> Call(h, key) in t
    decreases n
  {
    if n > 0 {
      var s' := GroupParse(w, gs, s, n - 1, key).0;
      CallAdds(w, gs, s, n - 1, key);
      RoomBelow(s.trace, s'.trace, gs, key, n);
      DownAllAdds(w, gs, s', key, n - 1);
      AddsTrans(s.trace, s'.trace, DownAll(w, gs, s', key, n - 1).trace, gs, key, 0, n, n - 1, n, 0, n - 1);
    }
  }

  // ---- Stages of a run ----------------------------------------------------------------------

  /** Well ordered, only calls to groups with a parser, and no stage beyond `k`. */
  ghost predicate UpTo(t: Trace, gs: seq<bool>, k: nat) {
    Ordered(t) && OnlyParsers(t, gs) && forall e :: e in t ==> Stage(e) <= k
  }

  lemma SweepUpTo(t: Trace, t': Trace, gs: seq<bool>, key: Key, k: nat)
    requires UpTo(t, gs, k) && Ordered(t') && Adds(t, t', gs, key, 0, |gs|) && Stage(Call(0, key)) > k
    ensures UpTo(t', gs, Stage(Call(0, key)))
  {
  }

  lemma RoomFor(t: Trace, gs: seq<bool>, key: Key, k: nat)
    requires UpTo(t, gs, k) && Stage(Call(0, key)) > k
    ensures forall h :: 0 <= h < |gs| ==> Room(t, Call(h, key))
  {
  }

  lemma ParseEvent(t: Trace, gs: seq<bool>, e: Event)
    requires UpTo(t, gs, 1) && Stage(e) == 1 && (e.Call? ==> e.group < |gs| && gs[e.group])
    ensures UpTo(t + [e], gs, 1)
  {
    OrderedSnoc(t, e);
  }

  lemma ParseCall(w: World, gs: seq<bool>, s: State, g: nat, key: Key)
    requires UpTo(s.trace, gs, 1) && g < |gs| && Stage(Call(g, key)) == 1
    ensures var t := GroupParse(w, gs, s, g, key).0.trace; UpTo(t, gs, 1) && s.trace <= t
  {
    hide UpTo;
    if gs[g] { ParseEvent(s.trace, gs, Call(g, key)); }
  }

  lemma {:induction false} OfferUpTo(w: World, gs: seq<bool>, s: State, g: nat)
    requires UpTo(s.trace, gs, 1)
    ensures UpTo(OfferArg(w, gs, s, g).s.trace, gs, 1) && s.trace <= OfferArg(w, gs, s, g).s.trace
    decreases |gs| - g
  {
    hide UpTo;
    hide GroupParse;
    if g < |gs| {
      ParseCall(w, gs, s.(next := s.next + 1), g, Arg);
      var (s1, err1) := GroupParse(w, gs, s.(next := s.next + 1), g, Arg);
      if err1 == EBADKEY {
        ParseCall(w, gs, s1.(next := s1.next - 1), g, Args);
        var (s2, err2) := GroupParse(w, gs, s1.(next := s1.next - 1), g, Args);
        if err2 == EBADKEY { OfferUpTo(w, gs, s2, g + 1); }
      }
    }
  }

  lemma PastUpTo(w: World, gs: seq<bool>, s: State)
    requires |s.processed| == |gs| && UpTo(s.trace, gs, 1)
    ensures UpTo(PastOptions(w, gs, s).s.trace, gs, 1) && s.trace <= PastOptions(w, gs, s).s.trace
  {
    hide UpTo;
    hide OfferArg;
    OfferUpTo(w, gs, s.(next := s.next + 1 - 1), 0);
  }

  lemma StepUpTo(w: World, gs: seq<bool>, s: State)
    requires |s.processed| == |gs| && UpTo(s.trace, gs, 1)
    ensures UpTo(ParseNext(w, gs, s).s.trace, gs, 1) && s.trace <= ParseNext(w, gs, s).s.trace
  {
    hide UpTo;
    var u := Unquote(s);
    if u.tryGetopt && u.quoted == 0 {
      var r := w.getopt(u.trace + [Getopt]);
      var s1 := AfterGetopt(u, r);
      ParseEvent(u.trace, gs, Getopt);
      match r.found
      case KeyEnd => PastUpTo(w, gs, s1);
      case KeyErr =>
      case KeyArg => OfferUpTo(w, gs, s1.(next := s1.next - 1), 0);
      case KeyOpt(opt) =>
        var r := PT.Owner(w.tables, opt);
        if r.Some? && r.value.0 < |gs| && gs[r.value.0] {
          ParseEvent(s1.trace, gs, Call(r.value.0, UserOption(r.value.1)));
        }
    } else {
      PastUpTo(w, gs, u);
    }
  }

  lemma {:induction false} LoopUpTo(w: World, gs: seq<bool>, s: State, n: nat)
    requires |s.processed| == |gs| && UpTo(s.trace, gs, 1)
    ensures UpTo(Loop(w, gs, s, n).s.trace, gs, 1) && s.trace <= Loop(w, gs, s, n).s.trace
    decreases n
  {
    hide UpTo;
    hide ParseNext;
    if n > 0 {
      StepUpTo(w, gs, s);
      StepKeepsGroups(w, gs, s);
      var o := ParseNext(w, gs, s);
      if o.err == 0 { LoopUpTo(w, gs, o.s, n - 1); }
    }
  }

  lemma {:induction false} UpKeepsCounts(w: World, gs: seq<bool>, s: State, key: Key, g: nat, err: int)
    requires |s.processed| == |gs|
    ensures Up(w, gs, s, key, g, err).0.processed == s.processed
    decreases |gs| - g
  {
    if g < |gs| && GoOn(err) {
      if key == NoArgs && s.processed[g] != 0 {
        UpKeepsCounts(w, gs, s, key, g + 1, err);
      } else {
        var (s', err') := GroupParse(w, gs, s, g, key);
        UpKeepsCounts(w, gs, s', key, g + 1, err');
      }
    }
  }

  lemma InitialiseOrder(w: World, gs: seq<bool>, argv: seq<string>, noArgs: bool)
    ensures var (s, err) := Initialise(w, gs, argv, noArgs);
            && |s.processed| == |gs| && UpTo(s.trace, gs, 0) && err != EBADKEY
            && (err == 0 ==> forall g :: 0 <= g < |gs| && gs[g] ==> Call(g, Init) in s.trace)
  {
    var s0 := StartState(gs, argv, noArgs);
    UpKeepsCounts(w, gs, s0, Init, 0, 0);
    UpAdds(w, gs, s0, Init, 0, 0);
  }

  /** After everything was parsed, and unless a callback fails, NO_ARGS goes to
      exactly the groups that processed nothing, and END to all. */
  lemma CompleteOrder(w: World, gs: seq<bool>, s: State)
    requires |s.processed| == |gs| && UpTo(s.trace, gs, 1)
    ensures UpTo(Complete(w, gs, s).0.trace, gs, 3) && s.trace <= Complete(w, gs, s).0.trace
    ensures Complete(w, gs, s).1 == 0 ==>
              forall g :: 0 <= g < |gs| && gs[g] ==>
                && (Call(g, NoArgs) in Complete(w, gs, s).0.trace <==> s.processed[g] == 0)
                && Call(g, End) in Complete(w, gs, s).0.trace
    ensures forall g :: 0 <= g < |gs| && s.processed[g] != 0 ==> Call(g, NoArgs) !in Complete(w, gs, s).0.trace
  {
    hide UpTo;
    var (s1, err1) := Up(w, gs, s, NoArgs, 0, 0);
    RoomFor(s.trace, gs, NoArgs, 1);
    assert Ordered(s.trace) by { UpToOrdered(s.trace, gs, 1); }
    UpAdds(w, gs, s, NoArgs, 0, 0);
    SweepUpTo(s.trace, s1.trace, gs, NoArgs, 1);
    RoomFor(s1.trace, gs, End, 2);
    DownAdds(w, gs, s1, End, |gs|, err1);
    SweepUpTo(s1.trace, Down(w, gs, s1, End, |gs|, err1).0.trace, gs, End, 2);
    NotYet(s.trace, gs, NoArgs, 1);
    if !GoOn(err1) { DownStops(w, gs, s1, End, |gs|, err1); }
  }

  lemma NotYet(t: Trace, gs: seq<bool>, key: Key, k: nat)
    requires UpTo(t, gs, k) && Stage(Call(0, key)) > k
    ensures forall g :: Call(g, key) !in t
  {
  }

  lemma DownStops(w: World, gs: seq<bool>, s: State, key: Key, n: nat, err: int)
    requires n <= |gs| && !GoOn(err)
    ensures Down(w, gs, s, key, n, err) == (s, err)
  {
  }

  lemma UpToOrdered(t: Trace, gs: seq<bool>, k: nat)
    requires UpTo(t, gs, k)
    ensures Ordered(t) && OnlyParsers(t, gs)
  {
  }

  lemma ReportOrder(w: World, gs: seq<bool>, s: State, err: int)
    requires UpTo(s.trace, gs, 3)
    ensures UpTo(Report(w, gs, s, err).0.trace, gs, 4) && s.trace <= Report(w, gs, s, err).0.trace
    ensures err != 0 ==> forall g :: 0 <= g < |gs| && gs[g] ==> Call(g, Error) in Report(w, gs, s, err).0.trace
    ensures Report(w, gs, s, err).1 == 0 ==>
              forall g :: 0 <= g < |gs| && gs[g] ==> Call(g, Success) in Report(w, gs, s, err).0.trace
  {
    hide UpTo;
    assert Ordered(s.trace) by { UpToOrdered(s.trace, gs, 3); }
    if err != 0 {
      RoomFor(s.trace, gs, Error, 3);
      UpAllAdds(w, gs, s, Error, 0);
      SweepUpTo(s.trace, UpAll(w, gs, s, Error, 0).trace, gs, Error, 3);
    } else {
      RoomFor(s.trace, gs, Success, 3);
      DownAdds(w, gs, s, Success, |gs|, 0);
      SweepUpTo(s.trace, Down(w, gs, s, Success, |gs|, 0).0.trace, gs, Success, 3);
    }
  }

  lemma FinaliseOrder(w: World, gs: seq<bool>, o: Outcome, wanted: bool)
    requires |o.s.processed| == |gs| && UpTo(o.s.trace, gs, 1)
    ensures var t := Finalise(w, gs, o, wanted).s.trace;
            && o.s.trace <= t && Ordered(t) && OnlyParsers(t, gs)
            && forall g :: 0 <= g < |gs| && gs[g] ==> Call(g, Fini) in t
  {
    hide UpTo;
    hide Complete;
    hide Report;
    hide DownAll;
    var err0 := if o.err == EBADKEY && o.argBad then 0 else o.err;
    var complete := err0 == 0 && o.s.next == o.s.argc;
    var (s1, err1) := if complete then Complete(w, gs, o.s) else (o.s, err0);
    CompleteOrder(w, gs, o.s);
    Weaken(o.s.trace, gs, 1, 3);
    var err2 := if err0 == 0 && !complete && !wanted then EBADKEY else err1;
    ReportOrder(w, gs, s1, err2);
    var s2 := Report(w, gs, s1, err2).0;
    RoomFor(s2.trace, gs, Fini, 4);
    UpToOrdered(s2.trace, gs, 4);
    DownAllAdds(w, gs, s2, Fini, |gs|);
    SweepUpTo(s2.trace, DownAll(w, gs, s2, Fini, |gs|).trace, gs, Fini, 4);
    UpToOrdered(DownAll(w, gs, s2, Fini, |gs|).trace, gs, 5);
  }

  lemma Weaken(t: Trace, gs: seq<bool>, j: nat, k: nat)
    requires UpTo(t, gs, j) && j <= k
    ensures UpTo(t, gs, k)
  {
  }

  predicate All(t: Trace, gs: seq<bool>, key: Key) {
    forall g :: 0 <= g < |gs| && gs[g] ==> Call(g, key) in t
  }

  /** Who hears what at the end.  A result of 0 means that every group heard
      SUCCESS, and, if no argument was left, that every group heard END and
      exactly those without arguments NO_ARGS.  In no run does a group hear
      NO_ARGS that processed arguments, or after an error or with arguments left.
      An error from parsing is told to every group and handed back, an
      unrecognised option as EINVAL. */
  lemma Delivery(w: World, gs: seq<bool>, o: Outcome, wanted: bool)
    requires |o.s.processed| == |gs| && UpTo(o.s.trace, gs, 1) && o.err != 0
    ensures var f := Finalise(w, gs, o, wanted);
            var suppressed := o.err == EBADKEY && o.argBad;
            && (f.result == 0 ==> suppressed && All(f.s.trace, gs, Success))
            && (f.result == 0 && o.s.next == o.s.argc ==>
                  All(f.s.trace, gs, End)
                  && forall g :: 0 <= g < |gs| && gs[g] ==> (Call(g, NoArgs) in f.s.trace <==> o.s.processed[g] == 0))
            && (forall g :: 0 <= g < |gs| && (o.s.processed[g] != 0 || !suppressed || o.s.next != o.s.argc)
                  ==> Call(g, NoArgs) !in f.s.trace)
            && (!suppressed ==> All(f.s.trace, gs, Error) && f.result == if o.err == EBADKEY then EINVAL else o.err)
            && (suppressed && o.s.next != o.s.argc && !wanted ==> All(f.s.trace, gs, Error) && f.result == EINVAL)
  {
    hide UpTo;
    hide Complete;
    hide Report;
    hide DownAll;
    var err0 := if o.err == EBADKEY && o.argBad then 0 else o.err;
    var complete := err0 == 0 && o.s.next == o.s.argc;
    var (s1, err1) := if complete then Complete(w, gs, o.s) else (o.s, err0);
    CompleteOrder(w, gs, o.s);
    Weaken(o.s.trace, gs, 1, 3);
    var err2 := if err0 == 0 && !complete && !wanted then EBADKEY else err1;
    ReportOrder(w, gs, s1, err2);
    ReportKeepsError(w, gs, s1, err2);
    ReportNoArgs(w, gs, s1, err2);
    NotYet(o.s.trace, gs, NoArgs, 1);
    var s2 := Report(w, gs, s1, err2).0;
    RoomFor(s2.trace, gs, Fini, 4);
    UpToOrdered(s2.trace, gs, 4);
    DownAllAdds(w, gs, s2, Fini, |gs|);
    var t := DownAll(w, gs, s2, Fini, |gs|).trace;
    assert forall e :: e in s2.trace ==> e in t;
    assert forall e :: e in s1.trace ==> e in s2.trace;
  }

  /** The final report and FINI make no NO_ARGS calls. */
  lemma ReportNoArgs(w: World, gs: seq<bool>, s: State, err: int)
    requires UpTo(s.trace, gs, 3)
    ensures var t := DownAll(w, gs, Report(w, gs, s, err).0, Fini, |gs|).trace;
            forall g :: Call(g, NoArgs) in t <==> Call(g, NoArgs) in s.trace
  {
    hide UpTo;
    UpToOrdered(s.trace, gs, 3);
    RoomFor(s.trace, gs, Error, 3);
    RoomFor(s.trace, gs, Success, 3);
    UpAllAdds(w, gs, s, Error, 0);
    DownAdds(w, gs, s, Success, |gs|, 0);
    ReportOrder(w, gs, s, err);
    var s2 := Report(w, gs, s, err).0;
    assert forall g :: Call(g, NoArgs) in s2.trace <==> Call(g, NoArgs) in s.trace;
    RoomFor(s2.trace, gs, Fini, 4);
    UpToOrdered(s2.trace, gs, 4);
    DownAllAdds(w, gs, s2, Fini, |gs|);
  }

  lemma ReportKeepsError(w: World, gs: seq<bool>, s: State, err: int)
    ensures err != 0 ==> Report(w, gs, s, err).1 == err
    ensures Report(w, gs, s, err).1 == 0 ==> err == 0
  {
  }

  /** A whole run of __argp_parse that gets past parser_init and out of the loop
      within `n` rounds. */
  ghost predicate Runs(w: World, gs: seq<bool>, argv: seq<string>, noArgs: bool, n: nat, wanted: bool, f: Final) {
    var (s, err) := Initialise(w, gs, argv, noArgs);
    && err == 0 && |s.processed| == |gs|
    && var o := Loop(w, gs, s, n);
       o.err != 0 && f == Finalise(w, gs, o, wanted)
  }

  /** The callback protocol, for every run: all events are in order, every group
      with a parser gets its INIT and its FINI, groups without one get nothing,
      and the result is never ARGP_ERR_UNKNOWN. */
  lemma Protocol(w: World, gs: seq<bool>, argv: seq<string>, noArgs: bool, n: nat, wanted: bool, f: Final)
    requires Runs(w, gs, argv, noArgs, n, wanted, f)
    ensures Ordered(f.s.trace) && OnlyParsers(f.s.trace, gs)
    ensures forall g :: 0 <= g < |gs| && gs[g] ==> Call(g, Init) in f.s.trace && Call(g, Fini) in f.s.trace
    ensures f.result != EBADKEY
  {
    hide Initialise;
    hide Loop;
    hide UpTo;
    InitialiseOrder(w, gs, argv, noArgs);
    var s := Initialise(w, gs, argv, noArgs).0;
    Weaken(s.trace, gs, 0, 1);
    LoopUpTo(w, gs, s, n);
    FinaliseOrder(w, gs, Loop(w, gs, s, n), wanted);
    ResultIsKnown(w, gs, Loop(w, gs, s, n), wanted);
  }

  lemma ResultIsKnown(w: World, gs: seq<bool>, o: Outcome, wanted: bool)
    requires |o.s.processed| == |gs|
    ensures Finalise(w, gs, o, wanted).result != EBADKEY
  {
  }

  /** What the order means for one group: INIT comes first and FINI last, and
      NO_ARGS, END and the final report come at most once each and in this order. */
  lemma OneGroup(t: Trace, i: nat, j: nat)
    requires Ordered(t) && i < j < |t|
    requires t[i].Call? && t[j].Call? && t[i].group == t[j].group
    ensures Stage(t[i]) < Stage(t[j]) || (Stage(t[i]) == 1 && Stage(t[j]) == 1)
    ensures t[j].key != Init && t[i].key != Fini
  {
    assert Before(t[i], t[j]);
  }

  /** The sequence of keys that one group sees, key by key. */
  lemma KeySequence(t: Trace, i: nat, j: nat)
    requires Ordered(t) && i < j < |t|
    requires t[i].Call? && t[j].Call? && t[i].group == t[j].group
    ensures t[j].key != Init && t[i].key != Fini
    ensures t[i].key == NoArgs ==> t[j].key in {End, Success, Error, Fini}
    ensures t[i].key == End ==> t[j].key in {Success, Error, Fini}
    ensures t[i].key == Success || t[i].key == Error ==> t[j].key == Fini
    ensures t[j].key == Arg || t[j].key == Args || t[j].key.UserOption? ==>
              t[i].key == Init || t[i].key == Arg || t[i].key == Args || t[i].key.UserOption?
  {
    assert Before(t[i], t[j]);
  }

  /** Parents hear INIT, NO_ARGS and ERROR before their children, and END, SUCCESS
      and FINI after them. */
  lemma Directions()
    ensures Ascending(Init) && Ascending(NoArgs) && Ascending(Error)
    ensures !Ascending(End) && !Ascending(Success) && !Ascending(Fini)
  {
  }

  lemma NeverBoth(t: Trace, i: nat, j: nat)
    requires Ordered(t) && i < |t| && j < |t|
    ensures !(t[i].Call? && t[j].Call? && t[i].key == Success && t[j].key == Error)
  {
    if i < j { assert Before(t[i], t[j]); } else if j < i { assert Before(t[j], t[i]); }
  }

  /** The calls of a run, be it one that fails in parser_init or a whole one. */
  ghost predicate Traced(w: World, gs: seq<bool>, argv: seq<string>, noArgs: bool, t: Trace) {
    || t == Initialise(w, gs, argv, noArgs).0.trace
    || exists n, wanted, f :: Runs(w, gs, argv, noArgs, n, wanted, f) && t == f.s.trace
  }

  lemma TracedIsOrdered(w: World, gs: seq<bool>, argv: seq<string>, noArgs: bool, t: Trace)
    requires Traced(w, gs, argv, noArgs, t)
    ensures Ordered(t) && OnlyParsers(t, gs)
  {
    hide Initialise;
    hide Runs;
    InitialiseOrder(w, gs, argv, noArgs);
    if t != Initialise(w, gs, argv, noArgs).0.trace {
      var n, wanted, f :| Runs(w, gs, argv, noArgs, n, wanted, f) && t == f.s.trace;
      Protocol(w, gs, argv, noArgs, n, wanted, f);
    }
  }

  // ---- Nobody is passed over ---------------------------------------------------------------------

  /** Whenever a group hears `key`, so do all groups whose turn comes before. */
  ghost predicate Reaches(t: Trace, gs: seq<bool>, key: Key) {
    forall g, h :: 0 <= g < h < |gs| ==>
      if Ascending(key) then gs[g] && Call(h, key) in t ==> Call(g, key) in t
      else gs[h] && Call(g, key) in t ==> Call(h, key) in t
  }

  /** The keys of the sweeps; NO_ARGS passes over groups with arguments. */
  predicate Swept(key: Key) {
    key == Init || key == End || key == Success || key == Error || key == Fini
  }

  ghost predicate ReachesAll(t: Trace, gs: seq<bool>) {
    forall key :: Swept(key) ==> Reaches(t, gs, key)
  }

  lemma AllReaches(t: Trace, gs: seq<bool>, key: Key)
    requires All(t, gs, key) || forall g :: Call(g, key) !in t
    ensures Reaches(t, gs, key)
  {
  }

  lemma SweepReaches(t: Trace, t': Trace, gs: seq<bool>, key: Key)
    requires ReachesAll(t, gs) && Adds(t, t', gs, key, 0, |gs|) && (Swept(key) ==> Reaches(t', gs, key))
    ensures ReachesAll(t', gs)
  {
    forall k | Swept(k) ensures Reaches(t', gs, k) {
      if k != key {
        assert Reaches(t, gs, k);
        assert forall g :: Call(g, k) in t' <==> Call(g, k) in t;
      }
    }
  }

  lemma {:induction false} UpReaches(w: World, gs: seq<bool>, s: State, g: nat, err: int)
    requires |s.processed| == |gs| && g <= |gs| && forall h :: g <= h ==> Call(h, Init) !in s.trace
    ensures s.trace <= Up(w, gs, s, Init, g, err).0.trace
    ensures forall i, j :: g <= i < j < |gs| && gs[i] && Call(j, Init) in Up(w, gs, s, Init, g, err).0.trace ==>
                             Call(i, Init) in Up(w, gs, s, Init, g, err).0.trace
    decreases |gs| - g
  {
    if g < |gs| && GoOn(err) {
      var (s', err') := GroupParse(w, gs, s, g, Init);
      assert gs[g] ==> s'.trace[|s.trace|] == Call(g, Init);
      UpReaches(w, gs, s', g + 1, err');
    }
  }

  lemma {:induction false} DownReaches(w: World, gs: seq<bool>, s: State, key: Key, n: nat, err: int)
    requires n <= |gs| && forall h: nat :: h < n ==> Call(h, key) !in s.trace
    ensures s.trace <= Down(w, gs, s, key, n, err).0.trace
    ensures forall i, j :: 0 <= i < j < n && gs[j] && Call(i, key) in Down(w, gs, s, key, n, err).0.trace ==>
                             Call(j, key) in Down(w, gs, s, key, n, err).0.trace
    decreases n
  {
    if n > 0 && GoOn(err) {
      var (s', err') := GroupParse(w, gs, s, n - 1, key);
      assert gs[n - 1] ==> s'.trace[|s.trace|] == Call(n - 1, key);
      DownReaches(w, gs, s', key, n - 1, err');
    }
  }

  lemma InitialiseReaches(w: World, gs: seq<bool>, argv: seq<string>, noArgs: bool)
    ensures ReachesAll(Initialise(w, gs, argv, noArgs).0.trace, gs)
  {
    hide Up;
    var s := StartState(gs, argv, noArgs);
    var t := Initialise(w, gs, argv, noArgs).0.trace;
    UpReaches(w, gs, s, 0, 0);
    InitialiseOrder(w, gs, argv, noArgs);
    forall key | Swept(key) ensures Reaches(t, gs, key) {
      if key != Init {
        NotYet(t, gs, key, 0);
        AllReaches(t, gs, key);
      }
    }
  }

  /** Before parser_finalize every group has heard INIT and none a later key. */
  lemma ParsedReaches(t: Trace, gs: seq<bool>)
    requires UpTo(t, gs, 1) && All(t, gs, Init)
    ensures ReachesAll(t, gs)
  {
    forall key | Swept(key) ensures Reaches(t, gs, key) {
      if key != Init { NotYet(t, gs, key, 1); }
      AllReaches(t, gs, key);
    }
  }

  lemma DownSweepReaches(w: World, gs: seq<bool>, s: State, key: Key, err: int, k: nat)
    requires UpTo(s.trace, gs, k) && ReachesAll(s.trace, gs)
    requires (key == End || key == Success) && Stage(Call(0, key)) > k
    ensures ReachesAll(Down(w, gs, s, key, |gs|, err).0.trace, gs)
  {
    hide UpTo;
    hide ReachesAll;
    NotYet(s.trace, gs, key, k);
    DownReaches(w, gs, s, key, |gs|, err);
    RoomFor(s.trace, gs, key, k);
    UpToOrdered(s.trace, gs, k);
    DownAdds(w, gs, s, key, |gs|, err);
    SweepReaches(s.trace, Down(w, gs, s, key, |gs|, err).0.trace, gs, key);
  }

  lemma CompleteReaches(w: World, gs: seq<bool>, s: State)
    requires |s.processed| == |gs| && UpTo(s.trace, gs, 1) && ReachesAll(s.trace, gs)
    ensures ReachesAll(Complete(w, gs, s).0.trace, gs)
  {
    hide UpTo;
    hide ReachesAll;
    var (s1, err1) := Up(w, gs, s, NoArgs, 0, 0);
    RoomFor(s.trace, gs, NoArgs, 1);
    UpToOrdered(s.trace, gs, 1);
    UpAdds(w, gs, s, NoArgs, 0, 0);
    SweepUpTo(s.trace, s1.trace, gs, NoArgs, 1);
    SweepReaches(s.trace, s1.trace, gs, NoArgs);
    DownSweepReaches(w, gs, s1, End, err1, 2);
  }

  lemma ReportReaches(w: World, gs: seq<bool>, s: State, err: int)
    requires UpTo(s.trace, gs, 3) && ReachesAll(s.trace, gs)
    ensures ReachesAll(Report(w, gs, s, err).0.trace, gs)
  {
    hide UpTo;
    hide ReachesAll;
    if err != 0 {
      var t := UpAll(w, gs, s, Error, 0).trace;
      RoomFor(s.trace, gs, Error, 3);
      UpToOrdered(s.trace, gs, 3);
      UpAllAdds(w, gs, s, Error, 0);
      AllReaches(t, gs, Error);
      SweepReaches(s.trace, t, gs, Error);
    } else {
      DownSweepReaches(w, gs, s, Success, 0, 3);
    }
  }

  lemma FinaliseReaches(w: World, gs: seq<bool>, o: Outcome, wanted: bool)
    requires |o.s.processed| == |gs| && UpTo(o.s.trace, gs, 1) && ReachesAll(o.s.trace, gs)
    ensures ReachesAll(Finalise(w, gs, o, wanted).s.trace, gs)
  {
    hide UpTo;
    hide ReachesAll;
    hide Complete;
    hide Report;
    hide DownAll;
    var err0 := if o.err == EBADKEY && o.argBad then 0 else o.err;
    var complete := err0 == 0 && o.s.next == o.s.argc;
    var (s1, err1) := if complete then Complete(w, gs, o.s) else (o.s, err0);
    CompleteOrder(w, gs, o.s);
    CompleteReaches(w, gs, o.s);
    Weaken(o.s.trace, gs, 1, 3);
    var err2 := if err0 == 0 && !complete && !wanted then EBADKEY else err1;
    ReportOrder(w, gs, s1, err2);
    ReportReaches(w, gs, s1, err2);
    var s2 := Report(w, gs, s1, err2).0;
    RoomFor(s2.trace, gs, Fini, 4);
    UpToOrdered(s2.trace, gs, 4);
    DownAllAdds(w, gs, s2, Fini, |gs|);
    var t := DownAll(w, gs, s2, Fini, |gs|).trace;
    AllReaches(t, gs, Fini);
    SweepReaches(s2.trace, t, gs, Fini);
  }

  /** In every run, a group that hears INIT, END, SUCCESS, ERROR or FINI does so
      only if all groups whose turn comes before have heard it. */
  lemma NobodyPassedOver(w: World, gs: seq<bool>, argv: seq<string>, noArgs: bool, t: Trace)
    requires Traced(w, gs, argv, noArgs, t)
    ensures ReachesAll(t, gs)
  {
    hide Initialise;
    hide Loop;
    hide Finalise;
    hide UpTo;
    hide ReachesAll;
    InitialiseReaches(w, gs, argv, noArgs);
    if t != Initialise(w, gs, argv, noArgs).0.trace {
      var n, wanted, f :| Runs(w, gs, argv, noArgs, n, wanted, f) && t == f.s.trace;
      InitialiseOrder(w, gs, argv, noArgs);
      var s := Initialise(w, gs, argv, noArgs).0;
      Weaken(s.trace, gs, 0, 1);
      LoopUpTo(w, gs, s, n);
      var o := Loop(w, gs, s, n);
      assert All(o.s.trace, gs, Init);
      ParsedReaches(o.s.trace, gs);
      FinaliseReaches(w, gs, o, wanted);
    }
  }

  /** Groups hear INIT, NO_ARGS and ERROR in the order of their numbers, and END,
      SUCCESS and FINI in the reverse. */
  lemma GroupsInTurn(t: Trace, g: nat, h: nat, key: Key, x: nat, y: nat)
    requires Ordered(t) && g < h && x < |t| && y < |t| && Stage(Call(0, key)) != 1
    requires t[x] == Call(g, key) && t[y] == Call(h, key)
    ensures if Ascending(key) then x < y else y < x
  {
    if x < y { assert Before(t[x], t[y]); } else { assert Before(t[y], t[x]); }
  }
}
