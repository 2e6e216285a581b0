/** How inputs are handed down the tree: the INIT loop of parser_init, with the
    one vector that holds the child-input slots of all groups. */
module ParserInputs {
  import opened Basics
  import opened Argp
  import opened ArgpTree
  import PT = ParserTables
  import R = ParserRun
  import P = ParserProtocol

  /** What the INIT callback of a group with the given input stores in one of its
      child-input slots, if anything. */
  type Storing = (nat, int, nat) -> Option<int>

  /** What is in slot `k` of group `g` after its INIT. */
  function Left(t: PT.Tables, init: Storing, g: nat, input: int, k: nat): int
    requires g < |t.groups|
  {
    if t.groups[g].argp.hasParser then (if init(g, input, k).Some? then init(g, input, k).value else 0)
    else if k == 0 then input
    else 0
  }

  /** The slots of group `g` hold what its INIT left there. */
  ghost predicate Filled(t: PT.Tables, init: Storing, inputs: seq<int>, slots: seq<int>, g: int) {
    && 0 <= g < |t.groups| && g < |inputs|
    && t.groups[g].childInputs + |t.groups[g].argp.children| <= |slots|
    && forall i :: Mine(t, g, i) ==> slots[i] == Left(t, init, g, inputs[g], i - t.groups[g].childInputs)
  }

  /** Is `i` one of the slots of group `g`? */
  predicate Mine(t: PT.Tables, g: nat, i: int)
    requires g < |t.groups|
  {
    t.groups[g].childInputs <= i < t.groups[g].childInputs + |t.groups[g].argp.children|
  }

  /** The slots of group `g` have not been touched. */
  ghost predicate Clear(t: PT.Tables, slots: seq<int>, g: int) {
    && 0 <= g < |t.groups| && t.groups[g].childInputs + |t.groups[g].argp.children| <= |slots|
    && forall i :: Mine(t, g, i) ==> slots[i] == 0
  }

  /** Group `g` got the input its parent left for it; a group without a parent
      group gets nothing, except that the first one gets the caller's input. */
  ghost predicate Received(t: PT.Tables, init: Storing, inputs: seq<int>, input: int, g: int) {
    && 0 <= g < |t.groups| && g < |inputs|
    && match t.groups[g].parent
       case None => inputs[g] == if g == 0 then input else 0
       case Some(p) => p < g && inputs[g] == Left(t, init, p, inputs[p], t.groups[g].parentIndex)
  }

  /** Writing only inside the slots of group `g` leaves all other groups alone. */
  lemma OthersKept(t: PT.Tables, prefix: seq<int>, gs: seq<Located>, us: seq<bool>, init: Storing, inputs: seq<int>,
                   was: seq<int>, now: seq<int>, g: nat, h: nat)
    requires PT.Holds(t, prefix, gs, us) && g < |t.groups| && h < |t.groups| && g != h && |was| == |now| == t.childEnd
    requires forall i :: 0 <= i < |was| && !Mine(t, g, i) ==> now[i] == was[i]
    ensures Filled(t, init, inputs, was, h) ==> Filled(t, init, inputs, now, h)
    ensures Clear(t, was, h) ==> Clear(t, now, h)
  {
    hide PT.Holds;
    hide Left;
    if g < h { PT.SlotsAreDisjoint(t, prefix, gs, us, g, h); } else { PT.SlotsAreDisjoint(t, prefix, gs, us, h, g); }
  }

  /** The storing part of one INIT call. */
  method Store(t: PT.Tables, init: Storing, g: nat, input: int, slots0: seq<int>) returns (slots: seq<int>)
    requires g < |t.groups| && Clear(t, slots0, g)
    ensures |slots| == |slots0|
    ensures forall i :: Mine(t, g, i) ==>
                          i < |slots| && slots[i] == Left(t, init, g, input, i - t.groups[g].childInputs)
    ensures forall i :: 0 <= i < |slots| && !Mine(t, g, i) ==> slots[i] == slots0[i]
  {
    slots := slots0;
    var base, n := t.groups[g].childInputs, |t.groups[g].argp.children|;
    if !t.groups[g].argp.hasParser {
      if n > 0 { slots := slots[base := input]; }
    } else {
      for k := 0 to n
        invariant |slots| == |slots0|
        invariant forall i :: base <= i < base + k ==> slots[i] == Left(t, init, g, input, i - base)
        invariant forall i :: base + k <= i < base + n ==> slots[i] == 0
        invariant forall i :: 0 <= i < |slots| && !Mine(t, g, i) ==> slots[i] == slots0[i]
      {
        var r := init(g, input, k);
        if r.Some? { slots := slots[base + k := r.value]; }
      }
    }
  }

  /** The INIT loop of parser_init: it makes the calls of the run, stops at an INIT
      that fails, and every group reached has the input its parent's INIT left in
      the slot of exactly this child. */
  method HandDown(w: R.World, init: Storing, input: int, argv: seq<string>, noArgs: bool,
                  ghost prefix: seq<int>, ghost gs: seq<Located>, ghost us: seq<bool>)
    returns (inputs: seq<int>, s: R.State, err: int)
    requires PT.Holds(w.tables, prefix, gs, us)
    ensures (s, err) == R.Initialise(w, R.Parsers(w.tables), argv, noArgs)
    ensures |inputs| <= |w.tables.groups|
    ensures forall g :: 0 <= g < |inputs| ==> Received(w.tables, init, inputs, input, g)
    ensures if err == 0 then |inputs| == |w.tables.groups|
            else inputs != [] && s.trace != [] && s.trace[|s.trace| - 1] == R.Call(|inputs| - 1, R.Init)
  {
    hide PT.Holds;
    hide Left;
    hide R.GroupParse;
    hide Received;
    hide Filled;
    hide Clear;
    var t, ps := w.tables, R.Parsers(w.tables);
    s, err, inputs := R.StartState(ps, argv, noArgs), 0, [];
    var slots := seq(t.childEnd, i => 0);
    StartClear(t, prefix, gs, us, slots);
    var g := 0;
    while g < |t.groups| && (err == 0 || err == R.EBADKEY)
      invariant 0 <= g <= |t.groups| && |inputs| == g && |slots| == t.childEnd && |s.processed| == |ps|
      invariant R.Up(w, ps, s, R.Init, g, err) == R.Up(w, ps, R.StartState(ps, argv, noArgs), R.Init, 0, 0)
      invariant err != 0 ==> g > 0
      invariant !R.GoOn(err) ==> s.trace != [] && s.trace[|s.trace| - 1] == R.Call(g - 1, R.Init)
      invariant forall h :: 0 <= h < g ==> Filled(t, init, inputs, slots, h) && Received(t, init, inputs, input, h)
      invariant forall h :: g <= h < |t.groups| ==> Clear(t, slots, h)
    {
      var mine := InputOf(t, init, inputs, slots, input, g, prefix, gs, us);
      ghost var before, was := inputs, slots;
      inputs := inputs + [mine];
      slots := Store(t, init, g, mine, slots);
      Stored(t, prefix, gs, us, init, before, input, mine, was, slots, g);
      CallMade(w, ps, s, g);
      var r := R.GroupParse(w, ps, s, g, R.Init);
      s, err := r.0, r.1;
      g := g + 1;
    }
    if err == R.EBADKEY { err := 0; }
  }

  lemma CallMade(w: R.World, ps: seq<bool>, s: R.State, g: nat)
    requires g < |ps|
    ensures var (s', err) := R.GroupParse(w, ps, s, g, R.Init);
            && s'.processed == s.processed
            && (err != R.EBADKEY ==> s'.trace != [] && s'.trace[|s'.trace| - 1] == R.Call(g, R.Init))
  {
  }

  /** The input of group `g`, read from the slot its parent has for it. */
  method InputOf(t: PT.Tables, ghost init: Storing, ghost inputs: seq<int>, slots: seq<int>, input: int, g: nat,
                 ghost prefix: seq<int>, ghost gs: seq<Located>, ghost us: seq<bool>)
    returns (mine: int)
    requires PT.Holds(t, prefix, gs, us) && g < |t.groups| && |inputs| == g
    requires forall h :: 0 <= h < g ==> Filled(t, init, inputs, slots, h)
    ensures Received(t, init, inputs + [mine], input, g)
  {
    hide PT.Holds;
    hide Left;
    ParentBefore(t, prefix, gs, us, g);
    mine := if g == 0 then input else 0;
    if t.groups[g].parent.Some? {
      var p := t.groups[g].parent.value;
      assert Filled(t, init, inputs, slots, p);
      var slot := t.groups[p].childInputs + t.groups[g].parentIndex;
      assert Mine(t, p, slot);
      mine := slots[slot];
    }
  }

  /** Storing the slots of group `g` completes it and disturbs no other group. */
  lemma Stored(t: PT.Tables, prefix: seq<int>, gs: seq<Located>, us: seq<bool>, init: Storing, inputs: seq<int>,
               input: int, mine: int, was: seq<int>, now: seq<int>, g: nat)
    requires PT.Holds(t, prefix, gs, us) && g < |t.groups| && |inputs| == g && |was| == |now| == t.childEnd
    requires forall i :: Mine(t, g, i) ==> i < |now| && now[i] == Left(t, init, g, mine, i - t.groups[g].childInputs)
    requires forall i :: 0 <= i < |was| && !Mine(t, g, i) ==> now[i] == was[i]
    requires Clear(t, was, g) && Received(t, init, inputs + [mine], input, g)
    requires forall h :: 0 <= h < g ==> Filled(t, init, inputs, was, h) && Received(t, init, inputs, input, h)
    requires forall h :: g <= h < |t.groups| ==> Clear(t, was, h)
    ensures forall h :: 0 <= h <= g ==>
              Filled(t, init, inputs + [mine], now, h) && Received(t, init, inputs + [mine], input, h)
    ensures forall h :: g < h < |t.groups| ==> Clear(t, now, h)
  {
    hide PT.Holds;
    hide Left;
    forall h | 0 <= h < |t.groups| && h != g
      ensures h < g ==> Filled(t, init, inputs + [mine], now, h) && Received(t, init, inputs + [mine], input, h)
      ensures h > g ==> Clear(t, now, h)
    {
      if h < g {
        StillFilled(t, init, inputs, mine, was, h);
        assert Received(t, init, inputs, input, h);
      }
      OthersKept(t, prefix, gs, us, init, inputs + [mine], was, now, g, h);
    }
  }

  /** What a child reads: from a parent with a parser whatever its INIT stored for
      exactly this child, or nothing; from a parent without one its own input, and
      only the first child. */
  lemma InputExactly(t: PT.Tables, init: Storing, inputs: seq<int>, input: int, g: nat, p: nat)
    requires Received(t, init, inputs, input, g) && t.groups[g].parent == Some(p)
    ensures p < g < |inputs|
    ensures var k := t.groups[g].parentIndex;
            if t.groups[p].argp.hasParser then
              inputs[g] == (match init(p, inputs[p], k) case Some(x) => x case None => 0)
            else inputs[g] == if k == 0 then inputs[p] else 0
  {
  }

  lemma StillFilled(t: PT.Tables, init: Storing, inputs: seq<int>, mine: int, slots: seq<int>, h: nat)
    requires Filled(t, init, inputs, slots, h)
    ensures Filled(t, init, inputs + [mine], slots, h)
  {
    hide Left;
  }

  lemma StartClear(t: PT.Tables, prefix: seq<int>, gs: seq<Located>, us: seq<bool>, slots: seq<int>)
    requires PT.Holds(t, prefix, gs, us) && |slots| == t.childEnd && forall i :: 0 <= i < |slots| ==> slots[i] == 0
    ensures forall h :: 0 <= h < |t.groups| ==> Clear(t, slots, h)
  {
    forall h | 0 <= h < |t.groups| ensures Clear(t, slots, h) {
      SlotsInside(t, prefix, gs, us, h);
    }
  }

  lemma SlotsInside(t: PT.Tables, prefix: seq<int>, gs: seq<Located>, us: seq<bool>, h: nat)
    requires PT.Holds(t, prefix, gs, us) && h < |t.groups|
    ensures t.groups[h].childInputs + |t.groups[h].argp.children| <= t.childEnd
  {
    hide PT.TextOf;
    hide AllDeclared;
    hide PT.LongTable;
    hide PT.ChildCount;
    assert PT.RecordOk(t.groups, prefix, gs, us, h);
    PT.Snocs(gs[..h], gs[h]);
    assert gs[..h] + [gs[h]] == gs[..h + 1];
    PT.CountMonotone(gs, h + 1, |gs|);
    assert gs[..|gs|] == gs;
  }

  lemma ParentBefore(t: PT.Tables, prefix: seq<int>, gs: seq<Located>, us: seq<bool>, g: nat)
    requires PT.Holds(t, prefix, gs, us) && g < |t.groups|
    ensures t.groups[g].parent.Some? ==>
              && t.groups[g].parent.value < g
              && t.groups[g].parentIndex < |t.groups[t.groups[g].parent.value].argp.children|
  {
    assert PT.RecordOk(t.groups, prefix, gs, us, g);
  }

  /** In every run of the tables of a tree, a group hears INIT, NO_ARGS and ERROR
      after every group above it in the tree, and END, SUCCESS and FINI before
      it, whether or not argps without a group lie between them. */
  lemma AncestorsAndDescendants(a: Argp, w: R.World, prefix: seq<int>, argv: seq<string>, noArgs: bool, t: R.Trace,
                                g: nat, h: nat, key: R.Key, x: nat, y: nat)
    requires PT.Holds(w.tables, prefix, Groups(a, []), PT.Unders(a, false))
    requires P.Traced(w, R.Parsers(w.tables), argv, noArgs, t)
    requires g < |w.tables.groups| && h < |w.tables.groups| && w.tables.groups[g].node < w.tables.groups[h].node
    requires P.Stage(R.Call(0, key)) != 1 && x < |t| && y < |t| && t[x] == R.Call(g, key) && t[y] == R.Call(h, key)
    ensures if P.Ascending(key) then x < y else y < x
  {
    hide P.Traced;
    hide PT.Holds;
    GroupOrder(a, w.tables, prefix, g, h);
    P.TracedIsOrdered(w, R.Parsers(w.tables), argv, noArgs, t);
    P.GroupsInTurn(t, g, h, key, x, y);
  }

  /** In every run, a group hears INIT or ERROR only after every group with a
      parser above it has, and END, SUCCESS or FINI only after every group with a
      parser below it has. */
  lemma TreeInTurn(a: Argp, w: R.World, prefix: seq<int>, argv: seq<string>, noArgs: bool, t: R.Trace,
                   g: nat, h: nat, key: R.Key, x: nat)
    requires PT.Holds(w.tables, prefix, Groups(a, []), PT.Unders(a, false))
    requires P.Traced(w, R.Parsers(w.tables), argv, noArgs, t)
    requires g < |w.tables.groups| && h < |w.tables.groups| && w.tables.groups[g].node < w.tables.groups[h].node
    requires P.Swept(key) && x < |t|
    ensures P.Ascending(key) && t[x] == R.Call(h, key) && w.tables.groups[g].argp.hasParser ==>
              exists y :: 0 <= y < x && t[y] == R.Call(g, key)
    ensures !P.Ascending(key) && t[x] == R.Call(g, key) && w.tables.groups[h].argp.hasParser ==>
              exists y :: 0 <= y < x && t[y] == R.Call(h, key)
  {
    hide P.Traced;
    hide PT.Holds;
    var gs := R.Parsers(w.tables);
    GroupOrder(a, w.tables, prefix, g, h);
    P.NobodyPassedOver(w, gs, argv, noArgs, t);
    assert P.Reaches(t, gs, key);
    if P.Ascending(key) && t[x] == R.Call(h, key) && gs[g] {
      var y :| 0 <= y < |t| && t[y] == R.Call(g, key);
      AncestorsAndDescendants(a, w, prefix, argv, noArgs, t, g, h, key, y, x);
    }
    if !P.Ascending(key) && t[x] == R.Call(g, key) && gs[h] {
      var y :| 0 <= y < |t| && t[y] == R.Call(h, key);
      AncestorsAndDescendants(a, w, prefix, argv, noArgs, t, g, h, key, x, y);
    }
  }

  lemma GroupOrder(a: Argp, t: PT.Tables, prefix: seq<int>, g: nat, h: nat)
    requires PT.Holds(t, prefix, Groups(a, []), PT.Unders(a, false))
    requires g < |t.groups| && h < |t.groups| && t.groups[g].node < t.groups[h].node
    ensures g < h
  {
    assert PT.RecordOk(t.groups, prefix, Groups(a, []), PT.Unders(a, false), g);
    assert PT.RecordOk(t.groups, prefix, Groups(a, []), PT.Unders(a, false), h);
    PreOrder(a, [], g, h);
  }
}
