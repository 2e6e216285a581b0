/** Which symbols a static link brings in: the worklist of
    conform/linknamespace.py, started from symbol tuples already extracted from
    readelf output. */
module LinkNamespace {

  datatype Bind = Global | Weak

  datatype Sym = Sym(file: string, name: string, bind: Bind, defined: bool)

  datatype Hop = Hop(file: string, name: string)

  /** The text recorded for a symbol, `[initial] s -> [file] t -> ...`, taken apart. */
  datatype Chain = Chain(first: string, hops: seq<Hop>)

  function Last(c: Chain): string {
    if c.hops == [] then c.first else c.hops[|c.hops| - 1].name
  }

  function Extend(c: Chain, file: string, name: string): Chain {
    c.(hops := c.hops + [Hop(file, name)])
  }

  function Front(c: Chain): Chain
    requires c.hops != []
  {
    c.(hops := c.hops[..|c.hops| - 1])
  }

  // ---- What a link means --------------------------------------------------

  predicate IsNeed(t: Sym) {
    t.bind == Global && !t.defined
  }

  predicate IsSeen(t: Sym) {
    t.bind == Global || !t.defined
  }

  /** Objects that define one of `names`, strongly or weakly. */
  function Definers(lib: seq<Sym>, names: set<string>): set<string> {
    set t | t in lib && t.defined && t.name in names :: t.file
  }

  /** Symbols one of `files` needs strongly. */
  function Needs(lib: seq<Sym>, files: set<string>): set<string> {
    set t | t in lib && IsNeed(t) && t.file in files :: t.name
  }

  /** Symbols of `files`, apart from weak definitions. */
  function Shows(lib: seq<Sym>, files: set<string>): set<string> {
    set t | t in lib && IsSeen(t) && t.file in files :: t.name
  }

  function Initial(own: seq<Sym>): set<string> {
    set t | t in own && IsNeed(t) :: t.name
  }

  /** `names` holds the initial symbols and everything the objects defining its
      members need. */
  predicate IsClosed(lib: seq<Sym>, init: set<string>, names: set<string>) {
    init <= names && Needs(lib, Definers(lib, names)) <= names
  }

  ghost predicate IsLeastClosed(lib: seq<Sym>, init: set<string>, names: set<string>) {
    IsClosed(lib, init, names) && forall s | IsClosed(lib, init, s) :: names <= s
  }

  /** A dependency path: every hop goes through an object that defines the
      symbol before it and strongly needs the symbol after it. */
  ghost predicate IsPath(lib: seq<Sym>, init: set<string>, c: Chain)
    decreases |c.hops|
  {
    if c.hops == [] then c.first in init
    else
      var h := c.hops[|c.hops| - 1];
      IsPath(lib, init, Front(c)) && h.file in Definers(lib, {Last(Front(c))}) && h.name in Needs(lib, {h.file})
  }

  /** A path whose last object merely shows the symbol. */
  ghost predicate IsWitness(lib: seq<Sym>, init: set<string>, c: Chain) {
    if c.hops == [] then c.first in init
    else
      var h := c.hops[|c.hops| - 1];
      IsPath(lib, init, Front(c)) && h.file in Definers(lib, {Last(Front(c))}) && h.name in Shows(lib, {h.file})
  }

  /** No witness for the same symbol has fewer hops. */
  ghost predicate IsShortest(lib: seq<Sym>, init: set<string>, c: Chain) {
    IsWitness(lib, init, c) && forall d | IsWitness(lib, init, d) && Last(d) == Last(c) :: |c.hops| <= |d.hops|
  }

  // ---- Distances ------------------------------------------------------------

  /** Symbols needed within `n` hops. */
  ghost function Within(lib: seq<Sym>, init: set<string>, n: nat): set<string> {
    if n == 0 then init
    else Within(lib, init, n - 1) + Needs(lib, Definers(lib, Within(lib, init, n - 1)))
  }

  /** Symbols shown within `n` hops. */
  ghost function ShownWithin(lib: seq<Sym>, init: set<string>, n: nat): set<string> {
    if n == 0 then init else init + Shows(lib, Definers(lib, Within(lib, init, n - 1)))
  }

  lemma {:induction false} WithinGrows(lib: seq<Sym>, init: set<string>, m: nat, n: nat)
    requires m <= n
    ensures Within(lib, init, m) <= Within(lib, init, n)
    decreases n - m
  {
    if m < n { WithinGrows(lib, init, m + 1, n); }
  }

  lemma {:induction false} ShownGrows(lib: seq<Sym>, init: set<string>, m: nat, n: nat)
    requires m <= n
    ensures ShownWithin(lib, init, m) <= ShownWithin(lib, init, n)
  {
    hide Within;
    hide Shows;
    hide Definers;
    if m > 0 {
      WithinGrows(lib, init, m - 1, n - 1);
      DefinersMonotone(lib, Within(lib, init, m - 1), Within(lib, init, n - 1));
      ShowsMonotone(lib, Definers(lib, Within(lib, init, m - 1)), Definers(lib, Within(lib, init, n - 1)));
    }
  }

  lemma {:induction false} WithinBelowClosed(lib: seq<Sym>, init: set<string>, n: nat, names: set<string>)
    requires IsClosed(lib, init, names)
    ensures Within(lib, init, n) <= names
  {
    if n > 0 {
      WithinBelowClosed(lib, init, n - 1, names);
    }
  }

  lemma StableIsLeast(lib: seq<Sym>, init: set<string>, n: nat)
    requires Within(lib, init, n + 1) == Within(lib, init, n)
    ensures IsLeastClosed(lib, init, Within(lib, init, n))
  {
    WithinGrows(lib, init, 0, n);
    forall s | IsClosed(lib, init, s) ensures Within(lib, init, n) <= s {
      WithinBelowClosed(lib, init, n, s);
    }
  }

  lemma {:induction false} PathWithin(lib: seq<Sym>, init: set<string>, c: Chain)
    requires IsPath(lib, init, c)
    ensures Last(c) in Within(lib, init, |c.hops|)
    decreases |c.hops|
  {
    if c.hops != [] { PathWithin(lib, init, Front(c)); }
  }

  lemma WitnessWithin(lib: seq<Sym>, init: set<string>, c: Chain)
    requires IsWitness(lib, init, c)
    ensures Last(c) in ShownWithin(lib, init, |c.hops|)
  {
    if c.hops != [] { PathWithin(lib, init, Front(c)); }
  }

  /** A chain recorded at the first distance at which its symbol shows up is as
      short as any. */
  lemma FirstIsShortest(lib: seq<Sym>, init: set<string>, c: Chain)
    requires IsWitness(lib, init, c)
    requires c.hops != [] ==> Last(c) !in ShownWithin(lib, init, |c.hops| - 1)
    ensures IsShortest(lib, init, c)
  {
    hide ShownWithin;
    hide IsPath;
    hide Shows;
    forall d | IsWitness(lib, init, d) && Last(d) == Last(c)
      ensures |c.hops| <= |d.hops|
    {
      WitnessWithin(lib, init, d);
      if |d.hops| < |c.hops| { ShownGrows(lib, init, |d.hops|, |c.hops| - 1); }
    }
  }

  // ---- Reading the tables ----------------------------------------------------

  /** Lookup in a defaultdict(list). */
  function Get(m: map<string, seq<string>>, key: string): seq<string> {
    if key in m then m[key] else []
  }

  function Add(m: map<string, seq<string>>, key: string, x: string): map<string, seq<string>> {
    m[key := Get(m, key) + [x]]
  }

  datatype Tables = Tables(seenSyms: map<string, seq<string>>, strongUndef: map<string, seq<string>>,
                           symObjs: map<string, seq<string>>)

  function Elems(s: seq<string>): set<string> {
    set x | x in s
  }

  ghost predicate Describes(t: Tables, lib: seq<Sym>) {
    && (forall f :: Elems(Get(t.seenSyms, f)) == Shows(lib, {f}))
    && (forall f :: Elems(Get(t.strongUndef, f)) == Needs(lib, {f}))
    && (forall s :: Elems(Get(t.symObjs, s)) == Definers(lib, {s}))
  }

  method BuildTables(lib: seq<Sym>) returns (t: Tables)
    ensures Describes(t, lib)
  {
    t := Tables(map[], map[], map[]);
    for i := 0 to |lib|
      invariant Describes(t, lib[..i])
    {
      var s := lib[i];
      ghost var was := t;
      assert lib[..i + 1] == lib[..i] + [s];
      if s.defined { t := t.(symObjs := Add(t.symObjs, s.name, s.file)); }
      if s.bind == Global || !s.defined { t := t.(seenSyms := Add(t.seenSyms, s.file, s.name)); }
      if s.bind == Global && !s.defined { t := t.(strongUndef := Add(t.strongUndef, s.file, s.name)); }
      DescribesStep(was, t, lib[..i], s);
    }
    assert lib[..|lib|] == lib;
  }

  lemma ElemsAdd(m: map<string, seq<string>>, key: string, x: string, k: string)
    ensures Elems(Get(Add(m, key, x), k)) == Elems(Get(m, k)) + (if k == key then {x} else {})
  {
  }

  lemma ShowsAppend(lib: seq<Sym>, s: Sym, f: string)
    ensures Shows(lib + [s], {f}) == Shows(lib, {f}) + (if IsSeen(s) && s.file == f then {s.name} else {})
  {
  }

  lemma NeedsAppend(lib: seq<Sym>, s: Sym, f: string)
    ensures Needs(lib + [s], {f}) == Needs(lib, {f}) + (if IsNeed(s) && s.file == f then {s.name} else {})
  {
  }

  lemma DefinersAppend(lib: seq<Sym>, s: Sym, n: string)
    ensures Definers(lib + [s], {n}) == Definers(lib, {n}) + (if s.defined && s.name == n then {s.file} else {})
  {
  }

  lemma DescribesStep(was: Tables, t: Tables, lib: seq<Sym>, s: Sym)
    requires Describes(was, lib)
    requires t.symObjs == if s.defined then Add(was.symObjs, s.name, s.file) else was.symObjs
    requires t.seenSyms == if IsSeen(s) then Add(was.seenSyms, s.file, s.name) else was.seenSyms
    requires t.strongUndef == if IsNeed(s) then Add(was.strongUndef, s.file, s.name) else was.strongUndef
    ensures Describes(t, lib + [s])
  {
    hide Shows;
    hide Needs;
    hide Definers;
    hide Elems;
    hide Add;
    forall f ensures Elems(Get(t.seenSyms, f)) == Shows(lib + [s], {f}) {
      ElemsAdd(was.seenSyms, s.file, s.name, f);
      ShowsAppend(lib, s, f);
    }
    forall f ensures Elems(Get(t.strongUndef, f)) == Needs(lib + [s], {f}) {
      ElemsAdd(was.strongUndef, s.file, s.name, f);
      NeedsAppend(lib, s, f);
    }
    forall n ensures Elems(Get(t.symObjs, n)) == Definers(lib + [s], {n}) {
      ElemsAdd(was.symObjs, s.name, s.file, n);
      DefinersAppend(lib, s, n);
    }
  }

  // ---- The worklist -----------------------------------------------------------

  /** The dictionaries and sets the loop updates; `files` is files_seen. */
  datatype Work = Work(seenWhere: map<string, Chain>, files: set<string>,
                       allUndef: map<string, Chain>, newUndef: map<string, Chain>)

  /** What round `n` maintains while it works through the symbols first needed
      at distance `n`. */
  ghost predicate InRound(lib: seq<Sym>, init: set<string>, n: nat, w: Work) {
    var now := Within(lib, init, n);
    && w.allUndef.Keys == now + Needs(lib, w.files)
    && w.newUndef.Keys == w.allUndef.Keys - now
    && w.seenWhere.Keys == init + Shows(lib, w.files)
    && w.files <= Definers(lib, now)
    && (n > 0 ==> Definers(lib, Within(lib, init, n - 1)) <= w.files)
    && GoodPaths(lib, init, n, w.allUndef)
    && (forall s :: s in w.newUndef ==> w.newUndef[s] == w.allUndef[s])
    && ShortestWitnesses(lib, init, w.seenWhere)
  }

  ghost predicate GoodPaths(lib: seq<Sym>, init: set<string>, n: nat, m: map<string, Chain>) {
    forall s :: s in m ==> GoodPath(lib, init, n, s, m[s])
  }

  /** Every recorded chain is a real witness for its symbol, with the fewest hops. */
  ghost predicate ShortestWitnesses(lib: seq<Sym>, init: set<string>, m: map<string, Chain>) {
    forall s :: s in m ==> Last(m[s]) == s && IsShortest(lib, init, m[s])
  }

  /** A path to `s`, of full length if `s` is new in this round. */
  ghost predicate GoodPath(lib: seq<Sym>, init: set<string>, n: nat, s: string, c: Chain) {
    && IsPath(lib, init, c) && Last(c) == s
    && (s !in Within(lib, init, n) ==> |c.hops| == n + 1)
    && (n > 0 && s in Within(lib, init, n) - Within(lib, init, n - 1) ==> |c.hops| == n)
    && (n == 0 && s in init ==> c.hops == [])
  }

  /** A path of `n` hops to a symbol whose definers include `file` gives a
      shortest witness for every symbol first shown there. */
  lemma NewWitness(lib: seq<Sym>, init: set<string>, n: nat, c: Chain, file: string, s: string, shown: set<string>)
    requires IsPath(lib, init, c) && |c.hops| == n
    requires file in Definers(lib, {Last(c)}) && s in Shows(lib, {file})
    requires ShownWithin(lib, init, n) <= shown && s !in shown
    ensures Last(Extend(c, file, s)) == s && IsShortest(lib, init, Extend(c, file, s))
  {
    var d := Extend(c, file, s);
    assert Front(d) == c;
    FirstIsShortest(lib, init, d);
  }

  lemma UnionOfFiles(lib: seq<Sym>, files: set<string>, file: string)
    ensures Shows(lib, files + {file}) == Shows(lib, files) + Shows(lib, {file})
    ensures Needs(lib, files + {file}) == Needs(lib, files) + Needs(lib, {file})
  {
  }

  lemma ShowsMonotone(lib: seq<Sym>, a: set<string>, b: set<string>)
    requires a <= b
    ensures Shows(lib, a) <= Shows(lib, b)
  {
  }

  lemma DefinersMonotone(lib: seq<Sym>, a: set<string>, b: set<string>)
    requires a <= b
    ensures Definers(lib, a) <= Definers(lib, b)
  {
  }

  lemma AlreadyShown(lib: seq<Sym>, init: set<string>, n: nat, w: Work)
    requires InRound(lib, init, n, w)
    ensures ShownWithin(lib, init, n) <= w.seenWhere.Keys
  {
    if n > 0 { ShowsMonotone(lib, Definers(lib, Within(lib, init, n - 1)), w.files); }
  }

  /** The loop over seen_syms[file]. */
  method VisitSeen(ghost lib: seq<Sym>, ghost init: set<string>, ghost n: nat,
                   seenWhere0: map<string, Chain>, c: Chain, file: string, syms: seq<string>)
    returns (seenWhere: map<string, Chain>)
    requires ShownWithin(lib, init, n) <= seenWhere0.Keys && ShortestWitnesses(lib, init, seenWhere0)
    requires IsPath(lib, init, c) && |c.hops| == n
    requires file in Definers(lib, {Last(c)}) && Elems(syms) == Shows(lib, {file})
    ensures seenWhere.Keys == seenWhere0.Keys + Elems(syms)
    ensures ShortestWitnesses(lib, init, seenWhere)
  {
    hide IsShortest;
    hide IsPath;
    hide ShownWithin;
    hide Definers;
    hide Shows;
    hide Last;
    seenWhere := seenWhere0;
    for i := 0 to |syms|
      invariant seenWhere.Keys == seenWhere0.Keys + Elems(syms[..i])
      invariant ShortestWitnesses(lib, init, seenWhere)
    {
      var ssym := syms[i];
      assert Elems(syms[..i + 1]) == Elems(syms[..i]) + {ssym};
      assert ssym in Elems(syms);
      if ssym !in seenWhere {
        NewWitness(lib, init, n, c, file, ssym, seenWhere.Keys);
        seenWhere := seenWhere[ssym := Extend(c, file, ssym)];
      }
    }
    assert syms[..|syms|] == syms;
  }

  lemma NewPath(lib: seq<Sym>, init: set<string>, n: nat, c: Chain, file: string, s: string)
    requires IsPath(lib, init, c) && |c.hops| == n
    requires file in Definers(lib, {Last(c)}) && s in Needs(lib, {file}) && s !in Within(lib, init, n)
    ensures GoodPath(lib, init, n, s, Extend(c, file, s))
  {
    assert Front(Extend(c, file, s)) == c;
    if n > 0 { WithinGrows(lib, init, n - 1, n); }
  }

  /** The loop over strong_undef_syms[file]. */
  method VisitStrong(ghost lib: seq<Sym>, ghost init: set<string>, ghost n: nat,
                     allUndef0: map<string, Chain>, newUndef0: map<string, Chain>,
                     c: Chain, file: string, syms: seq<string>)
    returns (allUndef: map<string, Chain>, newUndef: map<string, Chain>)
    requires Within(lib, init, n) <= allUndef0.Keys && GoodPaths(lib, init, n, allUndef0)
    requires newUndef0.Keys == allUndef0.Keys - Within(lib, init, n)
    requires forall s :: s in newUndef0 ==> newUndef0[s] == allUndef0[s]
    requires IsPath(lib, init, c) && |c.hops| == n
    requires file in Definers(lib, {Last(c)}) && Elems(syms) == Needs(lib, {file})
    ensures allUndef.Keys == allUndef0.Keys + Elems(syms)
    ensures newUndef.Keys == allUndef.Keys - Within(lib, init, n)
    ensures GoodPaths(lib, init, n, allUndef)
    ensures forall s :: s in newUndef ==> newUndef[s] == allUndef[s]
  {
    hide GoodPath;
    hide IsPath;
    hide Within;
    hide Definers;
    hide Needs;
    hide Last;
    allUndef, newUndef := allUndef0, newUndef0;
    for i := 0 to |syms|
      invariant allUndef.Keys == allUndef0.Keys + Elems(syms[..i])
      invariant newUndef.Keys == allUndef.Keys - Within(lib, init, n)
      invariant GoodPaths(lib, init, n, allUndef)
      invariant forall s :: s in newUndef ==> newUndef[s] == allUndef[s]
    {
      var usym := syms[i];
      assert Elems(syms[..i + 1]) == Elems(syms[..i]) + {usym};
      assert usym in Elems(syms);
      if usym !in allUndef {
        NewPath(lib, init, n, c, file, usym);
        var text := Extend(c, file, usym);
        allUndef := allUndef[usym := text];
        newUndef := newUndef[usym := text];
      }
    }
    assert syms[..|syms|] == syms;
  }

  /** One object: the body of the loop over sym_objs[sym]. */
  method VisitFile(ghost lib: seq<Sym>, ghost init: set<string>, ghost n: nat, t: Tables,
                   w0: Work, c: Chain, file: string)
    returns (w: Work)
    requires Describes(t, lib) && InRound(lib, init, n, w0)
    requires IsPath(lib, init, c) && |c.hops| == n && Last(c) in Within(lib, init, n)
    requires file in Definers(lib, {Last(c)})
    ensures InRound(lib, init, n, w) && w.files == w0.files + {file}
  {
    hide GoodPaths;
    hide ShortestWitnesses;
    hide IsPath;
    hide Within;
    hide Definers;
    hide Needs;
    hide Shows;
    hide Last;
    hide Elems;
    if file in w0.files {
      return w0;
    }
    AlreadyShown(lib, init, n, w0);
    UnionOfFiles(lib, w0.files, file);
    DefinersMonotone(lib, {Last(c)}, Within(lib, init, n));
    var seenWhere := VisitSeen(lib, init, n, w0.seenWhere, c, file, Get(t.seenSyms, file));
    var allUndef, newUndef :=
      VisitStrong(lib, init, n, w0.allUndef, w0.newUndef, c, file, Get(t.strongUndef, file));
    w := Work(seenWhere, w0.files + {file}, allUndef, newUndef);
  }

  /** Every chain of a frontier ends at its symbol after exactly `n` hops. */
  ghost predicate FrontierPaths(lib: seq<Sym>, init: set<string>, n: nat, current: map<string, Chain>) {
    && current.Keys == Frontier(lib, init, n)
    && forall s :: s in current ==> IsPath(lib, init, current[s]) && |current[s].hops| == n && Last(current[s]) == s
  }

  /** One round: the loop over current_undef, in any order. */
  method RunRound(ghost lib: seq<Sym>, ghost init: set<string>, ghost n: nat, t: Tables,
                  w0: Work, current: map<string, Chain>)
    returns (w: Work)
    requires Describes(t, lib) && InRound(lib, init, n, w0)
    requires FrontierPaths(lib, init, n, current)
    requires w0.files == FilesBefore(lib, init, n)
    ensures InRound(lib, init, n, w) && w.files == Definers(lib, Within(lib, init, n))
  {
    hide InRound;
    hide IsPath;
    hide Definers;
    hide Within;
    hide Describes;
    hide Last;
    w := w0;
    ghost var done: set<string> := {};
    var todo := current.Keys;
    NoDefiners(lib);
    CurrentWithin(lib, init, n);
    while todo != {}
      invariant InRound(lib, init, n, w) && done + todo == current.Keys
      invariant w.files == w0.files + Definers(lib, done)
    {
      var sym :| sym in todo;
      w := VisitSymbol(lib, init, n, t, w, sym, current[sym]);
      DefinersUnion(lib, done, {sym});
      done := done + {sym};
      todo := todo - {sym};
    }
    assert done == current.Keys;
    FilesOfRound(lib, init, n);
  }

  /** The symbols first needed at distance `n`. */
  ghost function Frontier(lib: seq<Sym>, init: set<string>, n: nat): set<string> {
    if n == 0 then init else Within(lib, init, n) - Within(lib, init, n - 1)
  }

  lemma CurrentWithin(lib: seq<Sym>, init: set<string>, n: nat)
    ensures Frontier(lib, init, n) <= Within(lib, init, n)
  {
  }

  lemma FilesOfRound(lib: seq<Sym>, init: set<string>, n: nat)
    ensures Definers(lib, Within(lib, init, n))
            == FilesBefore(lib, init, n) + Definers(lib, Frontier(lib, init, n))
  {
    if n > 0 {
      WithinGrows(lib, init, n - 1, n);
      DefinersUnion(lib, Within(lib, init, n - 1), Frontier(lib, init, n));
      assert Within(lib, init, n - 1) + Frontier(lib, init, n) == Within(lib, init, n);
    }
  }

  /** The objects visited before round `n`. */
  ghost function FilesBefore(lib: seq<Sym>, init: set<string>, n: nat): set<string> {
    if n == 0 then {} else Definers(lib, Within(lib, init, n - 1))
  }

  lemma NoDefiners(lib: seq<Sym>)
    ensures Definers(lib, {}) == {} && Needs(lib, {}) == {}
  {
  }

  /** The loop over the objects that define one symbol. */
  method VisitSymbol(ghost lib: seq<Sym>, ghost init: set<string>, ghost n: nat, t: Tables,
                     w0: Work, sym: string, c: Chain)
    returns (w: Work)
    requires Describes(t, lib) && InRound(lib, init, n, w0)
    requires IsPath(lib, init, c) && |c.hops| == n && Last(c) == sym && sym in Within(lib, init, n)
    ensures InRound(lib, init, n, w) && w.files == w0.files + Definers(lib, {sym})
  {
    hide InRound;
    hide IsPath;
    hide Within;
    hide Definers;
    w := w0;
    var objs := Get(t.symObjs, sym);
    assert Elems(objs) == Definers(lib, {sym});
    for i := 0 to |objs|
      invariant InRound(lib, init, n, w)
      invariant w.files == w0.files + Elems(objs[..i])
    {
      assert objs[i] in Elems(objs);
      w := VisitFile(lib, init, n, t, w, c, objs[i]);
      assert Elems(objs[..i + 1]) == Elems(objs[..i]) + {objs[i]};
    }
    assert objs[..|objs|] == objs;
  }

  lemma DefinersUnion(lib: seq<Sym>, a: set<string>, b: set<string>)
    ensures Definers(lib, a + b) == Definers(lib, a) + Definers(lib, b)
  {
  }

  /** The first round starts from the undefined symbols of the test object. */
  method StartWork(own: seq<Sym>) returns (m: map<string, Chain>)
    ensures m.Keys == Initial(own) && forall s :: s in m ==> m[s] == Chain(s, [])
  {
    m := map[];
    for i := 0 to |own|
      invariant m.Keys == Initial(own[..i]) && forall s :: s in m ==> m[s] == Chain(s, [])
    {
      assert own[..i + 1] == own[..i] + [own[i]];
      if own[i].bind == Global && !own[i].defined {
        m := m[own[i].name := Chain(own[i].name, [])];
      }
    }
    assert own[..|own|] == own;
  }

  /** Passing to the next round: the new symbols become the frontier. */
  lemma NextRound(lib: seq<Sym>, init: set<string>, n: nat, w: Work)
    requires InRound(lib, init, n, w) && w.files == Definers(lib, Within(lib, init, n))
    ensures w.allUndef.Keys == Within(lib, init, n + 1)
    ensures FrontierPaths(lib, init, n + 1, w.newUndef)
    ensures InRound(lib, init, n + 1, w.(newUndef := map[])) && w.files == FilesBefore(lib, init, n + 1)
  {
    var now, next := Within(lib, init, n), Within(lib, init, n + 1);
    assert w.allUndef.Keys == next;
    forall s | s in w.allUndef ensures GoodPath(lib, init, n + 1, s, w.allUndef[s]) {
      assert GoodPath(lib, init, n, s, w.allUndef[s]);
    }
    DefinersUnion(lib, now, next);
    assert now + next == next;
    assert Needs(lib, w.files) <= next;
  }

  lemma FirstRound(lib: seq<Sym>, init: set<string>, m: map<string, Chain>)
    requires m.Keys == init && forall s :: s in m ==> m[s] == Chain(s, [])
    ensures InRound(lib, init, 0, Work(m, {}, m, map[])) && FrontierPaths(lib, init, 0, m)
    ensures FilesBefore(lib, init, 0) == {} && Within(lib, init, 0) == init
  {
    forall s | s in m ensures IsShortest(lib, init, m[s]) && GoodPath(lib, init, 0, s, m[s]) {
      FirstIsShortest(lib, init, m[s]);
    }
  }

  lemma {:induction false} WithinFinite(lib: seq<Sym>, init: set<string>, n: nat)
    ensures Within(lib, init, n) <= Names(lib, init)
  {
    if n > 0 { WithinFinite(lib, init, n - 1); }
  }

  /** The whole of the closure loop.  It ends, finds exactly the least closed
      set of needed symbols, and covers exactly the initial symbols and those
      of the objects reached, each with a shortest witness. */
  method Closure(lib: seq<Sym>, own: seq<Sym>)
    returns (seenWhere: map<string, Chain>, allUndef: map<string, Chain>)
    ensures IsLeastClosed(lib, Initial(own), allUndef.Keys)
    ensures seenWhere.Keys == Initial(own) + Shows(lib, Definers(lib, allUndef.Keys))
    ensures ShortestWitnesses(lib, Initial(own), seenWhere)
  {
    hide InRound;
    hide Within;
    hide FilesBefore;
    hide FrontierPaths;
    hide Describes;
    hide IsLeastClosed;
    hide ShortestWitnesses;
    hide Names;
    hide Initial;
    var t := BuildTables(lib);
    var start := StartWork(own);
    ghost var init := Initial(own);
    var w, current := Work(start, {}, start, map[]), start;
    ghost var n: nat := 0;
    FirstRound(lib, init, start);
    while current != map[]
      invariant InRound(lib, init, n, w) && w.files == FilesBefore(lib, init, n)
      invariant w.newUndef == map[] && w.allUndef.Keys == Within(lib, init, n)
      invariant FrontierPaths(lib, init, n, current)
      decreases Names(lib, init) - Within(lib, init, n), |current|
    {
      w := RunRound(lib, init, n, t, w, current);
      NextRound(lib, init, n, w);
      Progress(lib, init, n, w.newUndef);
      current, w := w.newUndef, w.(newUndef := map[]);
      n := n + 1;
    }
    Finished(lib, init, n, w, current);
    seenWhere, allUndef := w.seenWhere, w.allUndef;
  }

  function Names(lib: seq<Sym>, init: set<string>): set<string> {
    init + (set t | t in lib :: t.name)
  }

  lemma NothingNew(a: set<string>, b: set<string>)
    requires a <= b && b - a == {}
    ensures a == b
  {
    assert b == a + (b - a);
  }

  lemma Progress(lib: seq<Sym>, init: set<string>, n: nat, next: map<string, Chain>)
    requires FrontierPaths(lib, init, n + 1, next)
    ensures if next == map[] then Within(lib, init, n + 1) == Within(lib, init, n)
            else Names(lib, init) - Within(lib, init, n + 1) < Names(lib, init) - Within(lib, init, n)
  {
    hide Within;
    WithinFinite(lib, init, n + 1);
    WithinGrows(lib, init, n, n + 1);
    if next == map[] {
      NothingNew(Within(lib, init, n), Within(lib, init, n + 1));
    } else {
      var s :| s in next;
      assert s in Names(lib, init) - Within(lib, init, n) && s !in Names(lib, init) - Within(lib, init, n + 1);
    }
  }

  lemma {:induction false} AtTheEnd(lib: seq<Sym>, init: set<string>, n: nat)
    requires Frontier(lib, init, n) == {}
    ensures IsLeastClosed(lib, init, Within(lib, init, n))
    ensures Definers(lib, Within(lib, init, n)) == FilesBefore(lib, init, n)
  {
    hide IsLeastClosed;
    hide Definers;
    hide Needs;
    if n == 0 {
      NoDefiners(lib);
      StableIsLeast(lib, init, 0);
    } else {
      WithinGrows(lib, init, n - 1, n);
      NothingNew(Within(lib, init, n - 1), Within(lib, init, n));
      StableIsLeast(lib, init, n - 1);
    }
  }

  lemma Finished(lib: seq<Sym>, init: set<string>, n: nat, w: Work, current: map<string, Chain>)
    requires InRound(lib, init, n, w) && w.files == FilesBefore(lib, init, n)
    requires w.allUndef.Keys == Within(lib, init, n) && FrontierPaths(lib, init, n, current) && current == map[]
    ensures IsLeastClosed(lib, init, w.allUndef.Keys)
    ensures w.seenWhere.Keys == init + Shows(lib, Definers(lib, w.allUndef.Keys))
    ensures ShortestWitnesses(lib, init, w.seenWhere)
  {
    hide ShortestWitnesses;
    hide GoodPaths;
    hide IsLeastClosed;
    hide Within;
    hide Definers;
    hide FilesBefore;
    hide Frontier;
    assert current.Keys == {};
    AtTheEnd(lib, init, n);
  }

  /** Least closed sets are unique, so nothing above depends on the order in
      which the loop takes symbols. */
  lemma LeastIsUnique(lib: seq<Sym>, init: set<string>, a: set<string>, b: set<string>)
    requires IsLeastClosed(lib, init, a) && IsLeastClosed(lib, init, b)
    ensures a == b
  {
    assert a <= b && b <= a;
  }

  // ---- The verdict -------------------------------------------------------------

  const WHITELIST: set<string> := {"stdin", "stdout", "stderr", "re_syntax_options"}

  predicate Reserved(stdsyms: set<string>, sym: string) {
    (sym != "" && sym[0] == '_') || sym in stdsyms + WHITELIST
  }

  /** What one symbol of an object does: a definition of either binding lets other
      objects bring this one in, only a strong reference brings in others, and
      everything but a weak definition counts as seen. */
  lemma OneSymbol(s: Sym)
    ensures Definers([s], {s.name}) == if s.defined then {s.file} else {}
    ensures Needs([s], {s.file}) == Initial([s])
    ensures Initial([s]) == if s.bind == Weak || s.defined then {} else {s.name}
    ensures Shows([s], {s.file}) == if s.bind == Weak && s.defined then {} else {s.name}
  {
    assert s in [s] && forall t :: t in [s] ==> t == s;
  }

  /** Reserved are names with a leading underscore, those of the standard, and four
      known exceptions. */
  lemma ReservedExactly(stdsyms: set<string>, s: string)
    ensures Reserved(stdsyms, "_" + s)
    ensures Reserved(stdsyms, s) <==>
            || ["_"[0]] <= s || s in stdsyms
            || s == "stdin" || s == "stdout" || s == "stderr" || s == "re_syntax_options"
  {
  }

  /** The whole check: exit status 0 exactly when every symbol that a link
      with the least closed set of needed symbols can show is reserved. */
  method Check(lib: seq<Sym>, own: seq<Sym>, stdsyms: set<string>) returns (status: int, ghost needed: set<string>)
    ensures IsLeastClosed(lib, Initial(own), needed)
    ensures status == 0 || status == 1
    ensures status == 0 <==>
            forall s | s in Initial(own) + Shows(lib, Definers(lib, needed)) :: Reserved(stdsyms, s)
  {
    var seenWhere, allUndef := Closure(lib, own);
    needed := allUndef.Keys;
    var allowed := stdsyms + WHITELIST;
    var todo := seenWhere.Keys;
    status := 0;
    while todo != {}
      invariant todo <= seenWhere.Keys
      invariant status == 0 || status == 1
      invariant status == 0 <==> forall s | s in seenWhere.Keys - todo :: Reserved(stdsyms, s)
    {
      var sym :| sym in todo;
      if sym != "" && sym[0] == '_' {
      } else if sym in allowed {
      } else {
        status := 1;
      }
      assert seenWhere.Keys - (todo - {sym}) == (seenWhere.Keys - todo) + {sym};
      todo := todo - {sym};
    }
    assert seenWhere.Keys - todo == seenWhere.Keys;
  }
}
