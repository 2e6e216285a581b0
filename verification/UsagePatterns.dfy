/** Usage patterns of an argp tree: argp_args_usage and the loop of _help that
    prints one line for every combination of alternative argument strings.
    Strings are neither filtered nor translated. */
module UsagePatterns {
  import opened Basics
  import opened Bits
  import opened Argp

  // ---- Alternatives of one args_doc string -----------------------------------

  /** strchrnul (s + i, '\n'), as an index */
  function NewlineFrom(s: string, i: nat): (j: nat)
    requires i <= |s|
    ensures i <= j <= |s| && (j < |s| ==> s[j] == '\n')
    ensures forall k :: i <= k < j ==> s[k] != '\n'
    decreases |s| - i
  {
    if i == |s| || s[i] == '\n' then i else NewlineFrom(s, i + 1)
  }

  /** The newline-separated parts of a string. */
  function SplitFrom(s: string, i: nat): (r: seq<string>)
    requires i <= |s|
    ensures |r| >= 1
    decreases |s| - i
  {
    var nl := NewlineFrom(s, i);
    if nl == |s| then [s[i..]] else [s[i..nl]] + SplitFrom(s, nl + 1)
  }

  function Alternatives(doc: string): (r: seq<string>)
    ensures |r| >= 1
  {
    SplitFrom(doc, 0)
  }

  /** Does the argp have more than one pattern, and so a level of its own? */
  predicate Multiple(a: Argp) {
    a.argsDoc.Some? && '\n' in a.argsDoc.value
  }

  lemma MultipleHasTwo(doc: string)
    ensures |Alternatives(doc)| >= 2 <==> '\n' in doc
  {
    var nl := NewlineFrom(doc, 0);
    if nl < |doc| { assert doc[nl] in doc; }
  }

  /** The alternatives with newlines between them. */
  function Joined(parts: seq<string>): string {
    if parts == [] then "" else if |parts| == 1 then parts[0] else parts[0] + "\n" + Joined(parts[1..])
  }

  lemma {:induction false} SplitJoins(s: string, i: nat)
    requires i <= |s|
    ensures var parts := SplitFrom(s, i);
            Joined(parts) == s[i..] && forall k :: 0 <= k < |parts| ==> '\n' !in parts[k]
    decreases |s| - i
  {
    hide Joined;
    var nl := NewlineFrom(s, i);
    if nl < |s| {
      SplitJoins(s, nl + 1);
      JoinedCons(s[i..nl], SplitFrom(s, nl + 1));
      CutAt(s, i, nl);
    } else {
      JoinedOne(s[i..]);
    }
  }

  lemma JoinedOne(part: string)
    ensures Joined([part]) == part
  {
  }

  lemma JoinedCons(part: string, parts: seq<string>)
    requires parts != []
    ensures Joined([part] + parts) == part + "\n" + Joined(parts)
  {
    assert ([part] + parts)[1..] == parts;
  }

  lemma CutAt(s: string, i: nat, nl: nat)
    requires i <= nl < |s| && s[nl] == '\n'
    ensures s[i..] == s[i..nl] + "\n" + s[nl + 1..]
  {
  }

  /** The alternatives are the lines of the string: none contains a newline, and
      with newlines between them they are the string. */
  lemma AlternativesAreLines(doc: string)
    ensures var lines := Alternatives(doc);
            Joined(lines) == doc && forall k :: 0 <= k < |lines| ==> '\n' !in lines[k]
  {
    SplitJoins(doc, 0);
    assert doc[0..] == doc;
  }

  // ---- Levels ------------------------------------------------------------------

  function Own(a: Argp): nat {
    if Multiple(a) then 1 else 0
  }

  /** argp_args_levels */
  function Levels(a: Argp): nat {
    Own(a) + ChildLevels(a.children)
  }

  function ChildLevels(cs: seq<Argp>): nat {
    if cs == [] then 0 else Levels(cs[0]) + ChildLevels(cs[1..])
  }

  /** The type `char` of the level bytes. */
  datatype CharType = Signed | Unsigned

  function CharMax(t: CharType): int {
    if t == Signed then 127 else 255
  }

  function CharMin(t: CharType): int {
    if t == Signed then -128 else 0
  }

  function Bump(t: CharType, x: int): int {
    if x == CharMax(t) then CharMin(t) else x + 1
  }

  /** The alternative a level byte selects: the search loop runs zero times for
      a negative byte. */
  function Index(x: int): nat {
    if x < 0 then 0 else x
  }

  function Radix(a: Argp): nat {
    if Multiple(a) then |Alternatives(a.argsDoc.value)| else 1
  }

  /** A level vector as argp_args_usage leaves it: every byte is a char that
      selects an existing alternative. */
  predicate Leveled(t: CharType, a: Argp, lv: seq<int>) {
    && |lv| == Levels(a)
    && (Multiple(a) ==> CharMin(t) <= lv[0] <= CharMax(t) && lv[0] < Radix(a))
    && LeveledAll(t, a.children, lv[Own(a)..])
  }

  predicate LeveledAll(t: CharType, cs: seq<Argp>, lv: seq<int>) {
    && |lv| == ChildLevels(cs)
    && (cs == [] ||
        var n := Levels(cs[0]);
        Leveled(t, cs[0], lv[..n]) && LeveledAll(t, cs[1..], lv[n..]))
  }

  // ---- One call, as a function of the level vector -------------------------------

  /** The new level vector and whether the caller has to advance as well. */
  function Advance(t: CharType, a: Argp, lv: seq<int>, advance: bool): (r: (seq<int>, bool))
    requires Leveled(t, a, lv)
    ensures |r.0| == |lv|
  {
    var (rest, carry) := AdvanceAll(t, a.children, lv[Own(a)..], advance);
    if !Multiple(a) then (rest, carry)
    else if !carry then ([lv[0]] + rest, false)
    else if Index(lv[0]) < Radix(a) - 1 then ([Bump(t, lv[0])] + rest, false)
    else ([if lv[0] > 0 then 0 else lv[0]] + rest, true)
  }

  function AdvanceAll(t: CharType, cs: seq<Argp>, lv: seq<int>, advance: bool): (r: (seq<int>, bool))
    requires LeveledAll(t, cs, lv)
    ensures |r.0| == |lv|
  {
    if cs == [] then (lv, advance)
    else
      var n := Levels(cs[0]);
      var (first, carry) := Advance(t, cs[0], lv[..n], advance);
      var (rest, carry') := AdvanceAll(t, cs[1..], lv[n..], carry);
      (first + rest, carry')
  }

  function OwnPrinted(a: Argp, level: int): seq<string>
    requires Multiple(a) ==> level < Radix(a)
  {
    if a.argsDoc.None? then []
    else if Multiple(a) then [Alternatives(a.argsDoc.value)[Index(level)]]
    else [a.argsDoc.value]
  }

  /** What a call writes: the chosen alternative of every argp with an args_doc,
      parents before children. */
  function Printed(t: CharType, a: Argp, lv: seq<int>): seq<string>
    requires Leveled(t, a, lv)
  {
    OwnPrinted(a, if Multiple(a) then lv[0] else 0) + PrintedAll(t, a.children, lv[Own(a)..])
  }

  function PrintedAll(t: CharType, cs: seq<Argp>, lv: seq<int>): seq<string>
    requires LeveledAll(t, cs, lv)
  {
    if cs == [] then []
    else
      var n := Levels(cs[0]);
      Printed(t, cs[0], lv[..n]) + PrintedAll(t, cs[1..], lv[n..])
  }

  // ---- The level vector as a mixed-radix number ------------------------------------

  /** The number of combinations. */
  function Total(a: Argp): (r: nat)
    ensures r >= 1
  {
    TotalAll(a.children) * Radix(a)
  }

  function TotalAll(cs: seq<Argp>): (r: nat)
    ensures r >= 1
  {
    if cs == [] then 1 else Total(cs[0]) * TotalAll(cs[1..])
  }

  /** First child least significant, the argp's own level above its children. */
  function Value(t: CharType, a: Argp, lv: seq<int>): nat
    requires Leveled(t, a, lv)
  {
    ValueAll(t, a.children, lv[Own(a)..]) + if Multiple(a) then TotalAll(a.children) * Index(lv[0]) else 0
  }

  function ValueAll(t: CharType, cs: seq<Argp>, lv: seq<int>): nat
    requires LeveledAll(t, cs, lv)
  {
    if cs == [] then 0
    else
      var n := Levels(cs[0]);
      Value(t, cs[0], lv[..n]) + Total(cs[0]) * ValueAll(t, cs[1..], lv[n..])
  }

  /** Every argp has few enough alternatives for its level byte. */
  predicate Countable(t: CharType, a: Argp) {
    Radix(a) <= CharMax(t) + 1 && CountableAll(t, a.children)
  }

  predicate CountableAll(t: CharType, cs: seq<Argp>) {
    cs == [] || (Countable(t, cs[0]) && CountableAll(t, cs[1..]))
  }

  /** No level byte is negative. */
  predicate Digits(lv: seq<int>) {
    forall i :: 0 <= i < |lv| ==> lv[i] >= 0
  }

  // ---- Every call adds one ------------------------------------------------------------

  lemma {:induction false} AdvanceKeepsLevels(t: CharType, a: Argp, lv: seq<int>, advance: bool)
    requires Leveled(t, a, lv)
    ensures Leveled(t, a, Advance(t, a, lv, advance).0)
    decreases a, 1
  {
    AdvanceAllKeepsLevels(t, a.children, lv[Own(a)..], advance);
    var r := Advance(t, a, lv, advance).0;
    assert r[Own(a)..] == AdvanceAll(t, a.children, lv[Own(a)..], advance).0;
    if Multiple(a) { MultipleHasTwo(a.argsDoc.value); }
  }

  lemma {:induction false} AdvanceAllKeepsLevels(t: CharType, cs: seq<Argp>, lv: seq<int>, advance: bool)
    requires LeveledAll(t, cs, lv)
    ensures LeveledAll(t, cs, AdvanceAll(t, cs, lv, advance).0)
    decreases cs, 0
  {
    if cs != [] {
      var n := Levels(cs[0]);
      var (first, carry) := Advance(t, cs[0], lv[..n], advance);
      AdvanceKeepsLevels(t, cs[0], lv[..n], advance);
      AdvanceAllKeepsLevels(t, cs[1..], lv[n..], carry);
      var r := AdvanceAll(t, cs, lv, advance).0;
      assert r[..n] == first && r[n..] == AdvanceAll(t, cs[1..], lv[n..], carry).0;
    }
  }

  /** Two digits, the low one below its radix. */
  lemma TwoDigits(low: nat, radix: nat, high: nat, count: nat)
    requires low < radix && high < count
    ensures low + radix * high < radix * count
    ensures low + radix * high == radix * count - 1 <==> low == radix - 1 && high == count - 1
    ensures radix * (high + 1) == radix * high + radix
  {
    if high < count - 1 {
      MulMonotone(radix, high + 2, count);
    } else {
      assert high + 1 == count;
    }
  }

  /** What one step does to a number below `total`. */
  ghost predicate Steps(v: nat, v': nat, total: nat, advance: bool, carry: bool) {
    && v < total
    && (!advance ==> v' == v && !carry)
    && (advance ==> (carry <==> v == total - 1) && v' == if carry then 0 else v + 1)
  }

  /** A low digit that steps and hands its carry to a high digit that steps
      make one number that steps. */
  lemma StepsCompose(low: nat, low': nat, radix: nat, high: nat, high': nat, count: nat,
                     advance: bool, carry: bool, carry': bool)
    requires Steps(low, low', radix, advance, carry) && Steps(high, high', count, carry, carry')
    ensures Steps(low + radix * high, low' + radix * high', radix * count, advance, carry')
  {
    TwoDigits(low, radix, high, count);
  }

  lemma {:induction false} AdvanceAddsOne(t: CharType, a: Argp, lv: seq<int>, advance: bool)
    requires Leveled(t, a, lv) && Countable(t, a) && Digits(lv)
    ensures var (lv', carry) := Advance(t, a, lv, advance);
            && Leveled(t, a, lv') && Digits(lv')
            && Steps(Value(t, a, lv), Value(t, a, lv'), Total(a), advance, carry)
    decreases a, 1
  {
    hide Steps;
    hide AdvanceAll;
    hide Alternatives;
    hide ValueAll;
    hide TotalAll;
    hide LeveledAll;
    AdvanceKeepsLevels(t, a, lv, advance);
    var rest := lv[Own(a)..];
    AdvanceAllAddsOne(t, a.children, rest, advance);
    var (rest', carry) := AdvanceAll(t, a.children, rest, advance);
    var (lv', carry') := Advance(t, a, lv, advance);
    if Multiple(a) {
      OwnSteps(t, a, lv, advance);
      StepsCompose(ValueAll(t, a.children, rest), ValueAll(t, a.children, rest'), TotalAll(a.children),
                   lv[0], lv'[0], Radix(a), advance, carry, carry');
    } else {
      assert lv'[0..] == rest';
    }
  }

  /** The argp's own level byte, given the carry of its children. */
  lemma OwnSteps(t: CharType, a: Argp, lv: seq<int>, advance: bool)
    requires Leveled(t, a, lv) && Multiple(a) && lv[0] >= 0 && Radix(a) <= CharMax(t) + 1
    ensures var carry := AdvanceAll(t, a.children, lv[1..], advance).1;
            var (lv', carry') := Advance(t, a, lv, advance);
            && lv'[0] >= 0 && lv'[1..] == AdvanceAll(t, a.children, lv[1..], advance).0
            && Steps(lv[0], lv'[0], Radix(a), carry, carry')
  {
    hide Alternatives;
    hide AdvanceAll;
    MultipleHasTwo(a.argsDoc.value);
  }

  lemma {:induction false} AdvanceAllAddsOne(t: CharType, cs: seq<Argp>, lv: seq<int>, advance: bool)
    requires LeveledAll(t, cs, lv) && CountableAll(t, cs) && Digits(lv)
    ensures var (lv', carry) := AdvanceAll(t, cs, lv, advance);
            && LeveledAll(t, cs, lv') && Digits(lv')
            && Steps(ValueAll(t, cs, lv), ValueAll(t, cs, lv'), TotalAll(cs), advance, carry)
    decreases cs, 0
  {
    AdvanceAllKeepsLevels(t, cs, lv, advance);
    if cs == [] {
    } else {
      hide Steps;
      var n := Levels(cs[0]);
      var (first, carry) := Advance(t, cs[0], lv[..n], advance);
      var (rest, carry') := AdvanceAll(t, cs[1..], lv[n..], carry);
      AdvanceAddsOne(t, cs[0], lv[..n], advance);
      AdvanceAllAddsOne(t, cs[1..], lv[n..], carry);
      var lv' := AdvanceAll(t, cs, lv, advance).0;
      assert lv'[..n] == first && lv'[n..] == rest;
      StepsCompose(Value(t, cs[0], lv[..n]), Value(t, cs[0], first), Total(cs[0]),
                   ValueAll(t, cs[1..], lv[n..]), ValueAll(t, cs[1..], rest), TotalAll(cs[1..]),
                   advance, carry, carry');
    }
  }

  // ---- Different vectors are different numbers --------------------------------------------

  lemma SplitDigits(low: nat, low': nat, radix: nat, high: nat, high': nat)
    requires low < radix && low' < radix && low + radix * high == low' + radix * high'
    ensures low == low' && high == high'
  {
    DivModUnique(low + radix * high, radix, high, low);
    DivModUnique(low + radix * high, radix, high', low');
  }

  lemma {:induction false} ValueInjective(t: CharType, a: Argp, u: seq<int>, v: seq<int>)
    requires Leveled(t, a, u) && Leveled(t, a, v) && Countable(t, a) && Digits(u) && Digits(v)
    requires Value(t, a, u) == Value(t, a, v)
    ensures u == v
    decreases a, 1
  {
    var n := Own(a);
    AdvanceAllAddsOne(t, a.children, u[n..], false);
    AdvanceAllAddsOne(t, a.children, v[n..], false);
    if Multiple(a) {
      SplitDigits(ValueAll(t, a.children, u[n..]), ValueAll(t, a.children, v[n..]), TotalAll(a.children), u[0], v[0]);
    }
    ValueAllInjective(t, a.children, u[n..], v[n..]);
    assert u == u[..n] + u[n..] && v == v[..n] + v[n..];
  }

  lemma {:induction false} ValueAllInjective(t: CharType, cs: seq<Argp>, u: seq<int>, v: seq<int>)
    requires LeveledAll(t, cs, u) && LeveledAll(t, cs, v) && CountableAll(t, cs) && Digits(u) && Digits(v)
    requires ValueAll(t, cs, u) == ValueAll(t, cs, v)
    ensures u == v
    decreases cs, 0
  {
    if cs != [] {
      var n := Levels(cs[0]);
      AdvanceAddsOne(t, cs[0], u[..n], false);
      AdvanceAddsOne(t, cs[0], v[..n], false);
      SplitDigits(Value(t, cs[0], u[..n]), Value(t, cs[0], v[..n]), Total(cs[0]),
                  ValueAll(t, cs[1..], u[n..]), ValueAll(t, cs[1..], v[n..]));
      ValueInjective(t, cs[0], u[..n], v[..n]);
      ValueAllInjective(t, cs[1..], u[n..], v[n..]);
      assert u == u[..n] + u[n..] && v == v[..n] + v[n..];
    }
  }

  // ---- Whole runs of the loop in _help -------------------------------------------------------

  lemma {:induction false} ZerosLeveled(t: CharType, a: Argp)
    ensures Leveled(t, a, Repeat<int>(0, Levels(a))) && Value(t, a, Repeat<int>(0, Levels(a))) == 0
    decreases a, 1
  {
    ZerosLeveledAll(t, a.children);
    assert Repeat<int>(0, Levels(a))[Own(a)..] == Repeat<int>(0, ChildLevels(a.children));
  }

  lemma {:induction false} ZerosLeveledAll(t: CharType, cs: seq<Argp>)
    ensures LeveledAll(t, cs, Repeat<int>(0, ChildLevels(cs))) && ValueAll(t, cs, Repeat<int>(0, ChildLevels(cs))) == 0
    decreases cs, 0
  {
    if cs != [] {
      var n, z := Levels(cs[0]), Repeat<int>(0, ChildLevels(cs));
      ZerosLeveled(t, cs[0]);
      ZerosLeveledAll(t, cs[1..]);
      assert z[..n] == Repeat<int>(0, n) && z[n..] == Repeat<int>(0, ChildLevels(cs[1..]));
    }
  }

  /** The level vector before call number `k` of the loop, which starts from all
      zeros. */
  ghost function Before(t: CharType, a: Argp, k: nat): (lv: seq<int>)
    ensures Leveled(t, a, lv)
  {
    if k == 0 then
      ZerosLeveled(t, a);
      Repeat<int>(0, Levels(a))
    else
      var prev := Before(t, a, k - 1);
      AdvanceKeepsLevels(t, a, prev, true);
      Advance(t, a, prev, true).0
  }

  /** Does call number `k` report more patterns? */
  ghost predicate More(t: CharType, a: Argp, k: nat) {
    !Advance(t, a, Before(t, a, k), true).1
  }

  /** The loop counts: before call `k` the levels stand for `k`, and the first
      call that reports no more patterns is the last combination. */
  lemma {:induction false} LoopCounts(t: CharType, a: Argp, k: nat)
    requires Countable(t, a) && k < Total(a)
    ensures Digits(Before(t, a, k)) && Value(t, a, Before(t, a, k)) == k
    ensures More(t, a, k) <==> k < Total(a) - 1
    decreases k
  {
    ZerosLeveled(t, a);
    if k > 0 {
      LoopCounts(t, a, k - 1);
      AdvanceAddsOne(t, a, Before(t, a, k - 1), true);
    }
    AdvanceAddsOne(t, a, Before(t, a, k), true);
  }

  /** Every combination of alternatives is printed by exactly one call. */
  lemma EachCombinationOnce(t: CharType, a: Argp, v: seq<int>)
    requires Countable(t, a) && Leveled(t, a, v) && Digits(v)
    ensures Value(t, a, v) < Total(a) && Before(t, a, Value(t, a, v)) == v
    ensures forall k: nat :: k < Total(a) && Before(t, a, k) == v ==> k == Value(t, a, v)
  {
    AdvanceAddsOne(t, a, v, false);
    LoopCounts(t, a, Value(t, a, v));
    ValueInjective(t, a, Before(t, a, Value(t, a, v)), v);
    forall k: nat | k < Total(a) && Before(t, a, k) == v ensures k == Value(t, a, v) {
      LoopCounts(t, a, k);
    }
  }

  lemma {:induction false} CarryNeedsCountable(t: CharType, a: Argp, lv: seq<int>, advance: bool)
    requires Leveled(t, a, lv) && Advance(t, a, lv, advance).1
    ensures Countable(t, a)
    decreases a, 1
  {
    CarryAllNeedsCountable(t, a.children, lv[Own(a)..], advance);
  }

  lemma {:induction false} CarryAllNeedsCountable(t: CharType, cs: seq<Argp>, lv: seq<int>, advance: bool)
    requires LeveledAll(t, cs, lv) && AdvanceAll(t, cs, lv, advance).1
    ensures CountableAll(t, cs)
    decreases cs, 0
  {
    if cs != [] {
      var n := Levels(cs[0]);
      var (first, carry) := Advance(t, cs[0], lv[..n], advance);
      CarryAllNeedsCountable(t, cs[1..], lv[n..], carry);
      NoCarryOut(t, cs[1..], lv[n..], carry);
      CarryNeedsCountable(t, cs[0], lv[..n], advance);
    }
  }

  lemma {:induction false} NoCarryOut(t: CharType, cs: seq<Argp>, lv: seq<int>, advance: bool)
    requires LeveledAll(t, cs, lv)
    ensures AdvanceAll(t, cs, lv, advance).1 ==> advance
    decreases cs, 0
  {
    if cs != [] {
      var n := Levels(cs[0]);
      var (first, carry) := Advance(t, cs[0], lv[..n], advance);
      NoCarryOut(t, cs[1..], lv[n..], carry);
      NoCarryOut(t, cs[0].children, lv[..n][Own(cs[0])..], advance);
    }
  }

  /** The loop ends if and only if every argp of the tree has at most
      CHAR_MAX + 1 alternatives. */
  lemma LoopEndsExactly(t: CharType, a: Argp)
    ensures Countable(t, a) <==> exists k: nat :: !More(t, a, k)
  {
    if Countable(t, a) {
      LoopCounts(t, a, Total(a) - 1);
    }
    if exists k: nat :: !More(t, a, k) {
      var k: nat :| !More(t, a, k);
      CarryNeedsCountable(t, a, Before(t, a, k), true);
    }
  }

  // ---- Which alternatives change first ------------------------------------------------------------

  lemma CarryMeansZeros(t: CharType, a: Argp, lv: seq<int>)
    requires Leveled(t, a, lv) && Countable(t, a) && Digits(lv) && Advance(t, a, lv, true).1
    ensures Advance(t, a, lv, true).0 == Repeat<int>(0, Levels(a))
  {
    hide Advance;
    hide Value;
    hide Leveled;
    hide Countable;
    AdvanceAddsOne(t, a, lv, true);
    ZerosLeveled(t, a);
    ValueInjective(t, a, Advance(t, a, lv, true).0, Repeat<int>(0, Levels(a)));
  }

  lemma CarryAllMeansZeros(t: CharType, cs: seq<Argp>, lv: seq<int>)
    requires LeveledAll(t, cs, lv) && CountableAll(t, cs) && Digits(lv) && AdvanceAll(t, cs, lv, true).1
    ensures AdvanceAll(t, cs, lv, true).0 == Repeat<int>(0, ChildLevels(cs))
  {
    hide AdvanceAll;
    hide ValueAll;
    hide LeveledAll;
    hide CountableAll;
    AdvanceAllAddsOne(t, cs, lv, true);
    ZerosLeveledAll(t, cs);
    ValueAllInjective(t, cs, AdvanceAll(t, cs, lv, true).0, Repeat<int>(0, ChildLevels(cs)));
  }

  lemma NothingMoves(t: CharType, cs: seq<Argp>, lv: seq<int>)
    requires LeveledAll(t, cs, lv) && CountableAll(t, cs) && Digits(lv)
    ensures AdvanceAll(t, cs, lv, false).0 == lv
  {
    hide AdvanceAll;
    hide ValueAll;
    hide LeveledAll;
    hide CountableAll;
    AdvanceAllAddsOne(t, cs, lv, false);
    ValueAllInjective(t, cs, AdvanceAll(t, cs, lv, false).0, lv);
  }

  /** An argp goes on to its next alternative only when all argps below it are back
      at their first. */
  lemma OwnMovesLast(t: CharType, a: Argp, lv: seq<int>)
    requires Leveled(t, a, lv) && Countable(t, a) && Digits(lv) && Multiple(a)
    ensures var r := Advance(t, a, lv, true).0;
            r[0] != lv[0] ==> r[1..] == Repeat<int>(0, ChildLevels(a.children))
  {
    if AdvanceAll(t, a.children, lv[1..], true).1 { CarryAllMeansZeros(t, a.children, lv[1..]); }
  }

  /** A child's subtree moves only when those of the children before it are back at
      their first alternatives. */
  lemma LaterChildrenMoveLater(t: CharType, cs: seq<Argp>, lv: seq<int>)
    requires LeveledAll(t, cs, lv) && CountableAll(t, cs) && Digits(lv) && cs != []
    ensures var r, n := AdvanceAll(t, cs, lv, true).0, Levels(cs[0]);
            n <= |lv| == |r| && (r[n..] != lv[n..] ==> r[..n] == Repeat<int>(0, n))
  {
    hide Leveled;
    hide Countable;
    hide Advance;
    var n := Levels(cs[0]);
    var (first, carry) := Advance(t, cs[0], lv[..n], true);
    AdvanceKeepsLevels(t, cs[0], lv[..n], true);
    LeveledLength(t, cs[0], lv[..n]);
    if carry {
      CarryMeansZeros(t, cs[0], lv[..n]);
    } else {
      NothingMoves(t, cs[1..], lv[n..]);
    }
  }

  // ---- What the patterns say --------------------------------------------------------------------

  /** The args_doc strings of the tree, parents before children. */
  function Docs(a: Argp): seq<string> {
    (if a.argsDoc.Some? then [a.argsDoc.value] else []) + DocsAll(a.children)
  }

  function DocsAll(cs: seq<Argp>): seq<string> {
    if cs == [] then [] else Docs(cs[0]) + DocsAll(cs[1..])
  }

  /** One line number for every string. */
  predicate IsChoice(ds: seq<string>, choice: seq<nat>) {
    |choice| == |ds| && forall i :: 0 <= i < |ds| ==> choice[i] < |Alternatives(ds[i])|
  }

  /** The lines with these numbers. */
  function Chosen(ds: seq<string>, choice: seq<nat>): (r: seq<string>)
    requires IsChoice(ds, choice)
    ensures |r| == |ds| && forall i :: 0 <= i < |ds| ==> r[i] == Alternatives(ds[i])[choice[i]]
  {
    seq(|ds|, i requires 0 <= i < |ds| => Alternatives(ds[i])[choice[i]])
  }

  lemma ChosenConcat(ds: seq<string>, x: seq<nat>, es: seq<string>, y: seq<nat>)
    requires IsChoice(ds, x) && IsChoice(es, y)
    ensures IsChoice(ds + es, x + y) && Chosen(ds + es, x + y) == Chosen(ds, x) + Chosen(es, y)
  {
    hide Alternatives;
  }

  lemma ChoiceSplit(ds: seq<string>, es: seq<string>, choice: seq<nat>)
    requires IsChoice(ds + es, choice)
    ensures IsChoice(ds, choice[..|ds|]) && IsChoice(es, choice[|ds|..])
    ensures choice == choice[..|ds|] + choice[|ds|..]
  {
    hide Alternatives;
    forall i | 0 <= i < |ds| ensures choice[i] < |Alternatives(ds[i])| {
      assert (ds + es)[i] == ds[i];
    }
    forall i | 0 <= i < |es| ensures choice[|ds| + i] < |Alternatives(es[i])| {
      assert (ds + es)[|ds| + i] == es[i];
    }
  }

  /** The lines that a level vector selects. */
  function ChoiceOf(t: CharType, a: Argp, lv: seq<int>): seq<nat>
    requires Leveled(t, a, lv)
  {
    (if a.argsDoc.None? then [] else if Multiple(a) then [Index(lv[0])] else [0])
    + ChoiceOfAll(t, a.children, lv[Own(a)..])
  }

  function ChoiceOfAll(t: CharType, cs: seq<Argp>, lv: seq<int>): seq<nat>
    requires LeveledAll(t, cs, lv)
  {
    if cs == [] then []
    else
      var n := Levels(cs[0]);
      ChoiceOf(t, cs[0], lv[..n]) + ChoiceOfAll(t, cs[1..], lv[n..])
  }

  lemma OneLine(doc: string)
    requires '\n' !in doc
    ensures Alternatives(doc) == [doc]
  {
    assert NewlineFrom(doc, 0) == |doc|;
    assert doc[0..] == doc;
  }

  /** What a call writes for one argp is a line of its string. */
  lemma OwnIsChosen(a: Argp, level: int)
    requires Multiple(a) ==> level < Radix(a)
    ensures var ds := if a.argsDoc.Some? then [a.argsDoc.value] else [];
            var x := if a.argsDoc.None? then [] else if Multiple(a) then [Index(level)] else [0];
            IsChoice(ds, x) && OwnPrinted(a, level) == Chosen(ds, x)
  {
    if a.argsDoc.Some? && !Multiple(a) { OneLine(a.argsDoc.value); }
  }

  lemma {:induction false} PrintedIsChosen(t: CharType, a: Argp, lv: seq<int>)
    requires Leveled(t, a, lv)
    ensures IsChoice(Docs(a), ChoiceOf(t, a, lv)) && Printed(t, a, lv) == Chosen(Docs(a), ChoiceOf(t, a, lv))
    decreases a, 1
  {
    hide OwnPrinted;
    hide Alternatives;
    var level := if Multiple(a) then lv[0] else 0;
    OwnIsChosen(a, level);
    PrintedAllIsChosen(t, a.children, lv[Own(a)..]);
    ChosenConcat(if a.argsDoc.Some? then [a.argsDoc.value] else [],
                 if a.argsDoc.None? then [] else if Multiple(a) then [Index(level)] else [0],
                 DocsAll(a.children), ChoiceOfAll(t, a.children, lv[Own(a)..]));
  }

  lemma {:induction false} PrintedAllIsChosen(t: CharType, cs: seq<Argp>, lv: seq<int>)
    requires LeveledAll(t, cs, lv)
    ensures IsChoice(DocsAll(cs), ChoiceOfAll(t, cs, lv))
    ensures PrintedAll(t, cs, lv) == Chosen(DocsAll(cs), ChoiceOfAll(t, cs, lv))
    decreases cs, 0
  {
    hide Alternatives;
    hide Printed;
    hide ChoiceOf;
    hide Docs;
    if cs != [] {
      var n := Levels(cs[0]);
      PrintedIsChosen(t, cs[0], lv[..n]);
      PrintedAllIsChosen(t, cs[1..], lv[n..]);
      ChosenConcat(Docs(cs[0]), ChoiceOf(t, cs[0], lv[..n]), DocsAll(cs[1..]), ChoiceOfAll(t, cs[1..], lv[n..]));
    }
  }

  /** Every choice of lines is selected by some level vector. */
  lemma {:induction false} LevelsFor(t: CharType, a: Argp, choice: seq<nat>) returns (lv: seq<int>)
    requires Countable(t, a) && IsChoice(Docs(a), choice)
    ensures Leveled(t, a, lv) && Digits(lv) && ChoiceOf(t, a, lv) == choice
    decreases a, 1
  {
    hide Alternatives;
    var ds := if a.argsDoc.Some? then [a.argsDoc.value] else [];
    ChoiceSplit(ds, DocsAll(a.children), choice);
    var rest := LevelsForAll(t, a.children, choice[|ds|..]);
    if Multiple(a) {
      lv := [choice[0]] + rest;
      assert lv[1..] == rest;
    } else {
      lv := rest;
      assert lv[0..] == rest;
      if a.argsDoc.Some? { OneLine(a.argsDoc.value); }
    }
  }

  lemma {:induction false} LevelsForAll(t: CharType, cs: seq<Argp>, choice: seq<nat>) returns (lv: seq<int>)
    requires CountableAll(t, cs) && IsChoice(DocsAll(cs), choice)
    ensures LeveledAll(t, cs, lv) && Digits(lv) && ChoiceOfAll(t, cs, lv) == choice
    decreases cs, 0
  {
    hide Alternatives;
    hide Docs;
    hide Countable;
    hide Leveled;
    hide ChoiceOf;
    lv := [];
    if cs != [] {
      var n := |Docs(cs[0])|;
      ChoiceSplit(Docs(cs[0]), DocsAll(cs[1..]), choice);
      var first := LevelsFor(t, cs[0], choice[..n]);
      var rest := LevelsForAll(t, cs[1..], choice[n..]);
      lv := first + rest;
      LeveledLength(t, cs[0], first);
      assert lv[..Levels(cs[0])] == first && lv[Levels(cs[0])..] == rest;
    }
  }

  lemma LeveledLength(t: CharType, a: Argp, lv: seq<int>)
    requires Leveled(t, a, lv)
    ensures |lv| == Levels(a)
  {
  }

  /** Different level vectors select different lines. */
  lemma {:induction false} ChoiceInjective(t: CharType, a: Argp, u: seq<int>, v: seq<int>)
    requires Leveled(t, a, u) && Leveled(t, a, v) && Digits(u) && Digits(v)
    requires ChoiceOf(t, a, u) == ChoiceOf(t, a, v)
    ensures u == v
    decreases a, 1
  {
    var n := Own(a);
    var d := if a.argsDoc.Some? then 1 else 0;
    var x, y := ChoiceOf(t, a, u), ChoiceOf(t, a, v);
    assert x[d..] == ChoiceOfAll(t, a.children, u[n..]) && y[d..] == ChoiceOfAll(t, a.children, v[n..]);
    ChoiceAllInjective(t, a.children, u[n..], v[n..]);
    if Multiple(a) { assert x[0] == u[0] && y[0] == v[0]; }
    assert u == u[..n] + u[n..] && v == v[..n] + v[n..];
  }

  lemma {:induction false} ChoiceAllInjective(t: CharType, cs: seq<Argp>, u: seq<int>, v: seq<int>)
    requires LeveledAll(t, cs, u) && LeveledAll(t, cs, v) && Digits(u) && Digits(v)
    requires ChoiceOfAll(t, cs, u) == ChoiceOfAll(t, cs, v)
    ensures u == v
    decreases cs, 0
  {
    hide Leveled;
    hide ChoiceOf;
    if cs != [] {
      var n := Levels(cs[0]);
      var x, y := ChoiceOfAll(t, cs, u), ChoiceOfAll(t, cs, v);
      PrintedIsChosen(t, cs[0], u[..n]);
      PrintedIsChosen(t, cs[0], v[..n]);
      var d := |Docs(cs[0])|;
      assert x[..d] == ChoiceOf(t, cs[0], u[..n]) && x[d..] == ChoiceOfAll(t, cs[1..], u[n..]);
      assert y[..d] == ChoiceOf(t, cs[0], v[..n]) && y[d..] == ChoiceOfAll(t, cs[1..], v[n..]);
      ChoiceInjective(t, cs[0], u[..n], v[..n]);
      ChoiceAllInjective(t, cs[1..], u[n..], v[n..]);
      assert u == u[..n] + u[n..] && v == v[..n] + v[n..];
    }
  }

  /** The lines of each string differ from each other. */
  predicate DistinctLines(ds: seq<string>) {
    forall i, j, k :: 0 <= i < |ds| && 0 <= j < k < |Alternatives(ds[i])| ==>
      Alternatives(ds[i])[j] != Alternatives(ds[i])[k]
  }

  lemma ChosenInjective(ds: seq<string>, x: seq<nat>, y: seq<nat>)
    requires DistinctLines(ds) && IsChoice(ds, x) && IsChoice(ds, y) && Chosen(ds, x) == Chosen(ds, y)
    ensures x == y
  {
    hide Alternatives;
    forall i | 0 <= i < |ds| ensures x[i] == y[i] {
      assert Alternatives(ds[i])[x[i]] == Chosen(ds, x)[i] == Chosen(ds, y)[i] == Alternatives(ds[i])[y[i]];
    }
  }

  /** The patterns of the usage loop, without mention of level vectors: each takes
      one line of every string, every choice of lines occurs, and no pattern
      occurs twice if the lines of each string are distinct. */
  ghost predicate AllPatterns(ds: seq<string>, patterns: seq<seq<string>>) {
    && (forall p :: p in patterns ==> |p| == |ds| && forall i :: 0 <= i < |ds| ==> p[i] in Alternatives(ds[i]))
    && (forall choice :: IsChoice(ds, choice) ==> Chosen(ds, choice) in patterns)
    && (DistinctLines(ds) ==> forall j, k :: 0 <= j < k < |patterns| ==> patterns[j] != patterns[k])
  }

  lemma LoopShowsAll(t: CharType, a: Argp, patterns: seq<seq<string>>)
    requires Countable(t, a) && |patterns| == Total(a)
    requires forall k :: 0 <= k < |patterns| ==> patterns[k] == Printed(t, a, Before(t, a, k))
    ensures AllPatterns(Docs(a), patterns)
  {
    hide Alternatives;
    hide Docs;
    hide Printed;
    hide ChoiceOf;
    hide Before;
    hide Value;
    hide Total;
    hide Countable;
    var ds := Docs(a);
    forall p | p in patterns ensures |p| == |ds| && forall i :: 0 <= i < |ds| ==> p[i] in Alternatives(ds[i]) {
      var k :| 0 <= k < |patterns| && patterns[k] == p;
      PrintedIsChosen(t, a, Before(t, a, k));
    }
    forall choice | IsChoice(ds, choice) ensures Chosen(ds, choice) in patterns {
      var lv := LevelsFor(t, a, choice);
      EachCombinationOnce(t, a, lv);
      PrintedIsChosen(t, a, lv);
      assert patterns[Value(t, a, lv)] == Chosen(ds, choice);
    }
    if DistinctLines(ds) {
      hide DistinctLines;
      forall j, k | 0 <= j < k < |patterns| ensures patterns[j] != patterns[k] {
        PatternsDiffer(t, a, j, k);
      }
    }
  }

  lemma PatternsDiffer(t: CharType, a: Argp, j: nat, k: nat)
    requires Countable(t, a) && j < k < Total(a) && DistinctLines(Docs(a))
    ensures Printed(t, a, Before(t, a, j)) != Printed(t, a, Before(t, a, k))
  {
    hide Alternatives;
    hide Docs;
    hide Printed;
    hide ChoiceOf;
    hide Before;
    hide Total;
    hide Countable;
    hide DistinctLines;
    var u, v := Before(t, a, j), Before(t, a, k);
    LoopCounts(t, a, j);
    LoopCounts(t, a, k);
    PrintedIsChosen(t, a, u);
    PrintedIsChosen(t, a, v);
    if Printed(t, a, u) == Printed(t, a, v) {
      ChosenInjective(Docs(a), ChoiceOf(t, a, u), ChoiceOf(t, a, v));
      ChoiceInjective(t, a, u, v);
    }
  }

  /** The number of ways to take one line of each string. */
  function Product(ds: seq<string>): nat {
    if ds == [] then 1 else |Alternatives(ds[0])| * Product(ds[1..])
  }

  lemma {:induction false} ProductConcat(ds: seq<string>, es: seq<string>)
    ensures Product(ds + es) == Product(ds) * Product(es)
  {
    if ds == [] {
      assert ds + es == es;
    } else {
      ProductConcat(ds[1..], es);
      assert (ds + es)[1..] == ds[1..] + es;
      MulAssoc(|Alternatives(ds[0])|, Product(ds[1..]), Product(es));
    }
  }

  lemma MulAssoc(x: nat, y: nat, z: nat)
    ensures x * (y * z) == x * y * z
  {
  }

  lemma {:induction false} TotalIsProduct(a: Argp)
    ensures Total(a) == Product(Docs(a))
    decreases a, 1
  {
    hide Alternatives;
    TotalAllIsProduct(a.children);
    var ds := if a.argsDoc.Some? then [a.argsDoc.value] else [];
    ProductConcat(ds, DocsAll(a.children));
    if a.argsDoc.Some? {
      assert ds[1..] == [];
      if !Multiple(a) { OneLine(a.argsDoc.value); }
      assert Product(ds) == Radix(a);
    }
  }

  lemma {:induction false} TotalAllIsProduct(cs: seq<Argp>)
    ensures TotalAll(cs) == Product(DocsAll(cs))
    decreases cs, 0
  {
    if cs != [] {
      TotalIsProduct(cs[0]);
      TotalAllIsProduct(cs[1..]);
      ProductConcat(Docs(cs[0]), DocsAll(cs[1..]));
    }
  }

  // ---- The imperative code ------------------------------------------------------------------

  /** argp_args_levels */
  method CountLevels(a: Argp) returns (levels: nat)
    ensures levels == Levels(a)
    decreases a
  {
    levels := if Multiple(a) then 1 else 0;
    var i := 0;
    while i < |a.children|
      invariant i <= |a.children| && levels + ChildLevels(a.children[i..]) == Levels(a)
    {
      var n := CountLevels(a.children[i]);
      levels := levels + n;
      assert a.children[i..][1..] == a.children[i + 1..];
      i := i + 1;
    }
  }

  /** The search for the alternative a level byte selects: its bounds in the
      string. */
  method SelectAlternative(doc: string, level: int) returns (cp: nat, nl: nat)
    requires level < |Alternatives(doc)|
    ensures cp <= nl <= |doc| && doc[cp..nl] == Alternatives(doc)[Index(level)]
    ensures nl < |doc| <==> Index(level) < |Alternatives(doc)| - 1
  {
    cp, nl := 0, NewlineFrom(doc, 0);
    var i := 0;
    AllFromStart(doc);
    hide SplitFrom;
    hide Alternatives;
    hide NewlineFrom;
    while i < level
      invariant 0 <= i <= Index(level) && cp <= |doc| && nl == NewlineFrom(doc, cp)
      invariant SplitFrom(doc, cp) == Alternatives(doc)[i..]
    {
      NextAlternative(doc, cp, i);
      cp := nl + 1;
      nl := NewlineFrom(doc, cp);
      i := i + 1;
    }
    SplitStarts(doc, cp);
    assert i == Index(level);
    assert Alternatives(doc)[i..][0] == Alternatives(doc)[i];
  }

  lemma AllFromStart(doc: string)
    ensures SplitFrom(doc, 0) == Alternatives(doc)[0..]
  {
    hide SplitFrom;
  }

  lemma SplitStarts(doc: string, cp: nat)
    requires cp <= |doc|
    ensures SplitFrom(doc, cp)[0] == doc[cp..NewlineFrom(doc, cp)]
    ensures NewlineFrom(doc, cp) < |doc| <==> |SplitFrom(doc, cp)| > 1
  {
  }

  lemma NextAlternative(doc: string, cp: nat, i: nat)
    requires cp <= |doc| && i < |Alternatives(doc)| - 1 && SplitFrom(doc, cp) == Alternatives(doc)[i..]
    ensures NewlineFrom(doc, cp) < |doc| && SplitFrom(doc, NewlineFrom(doc, cp) + 1) == Alternatives(doc)[i + 1..]
  {
    hide Alternatives;
    assert |SplitFrom(doc, cp)| >= 2;
    assert Alternatives(doc)[i..][1..] == Alternatives(doc)[i + 1..];
  }

  /** The part of argp_args_usage before the loop over the children: the text to
      write, whether there are alternatives, and whether this is the last. */
  method OwnPattern(t: CharType, a: Argp, level: int) returns (shown: seq<string>, multiple: bool, atEnd: bool)
    requires Multiple(a) ==> level < Radix(a)
    ensures multiple == Multiple(a)
    ensures shown == OwnPrinted(a, level)
    ensures multiple ==> (atEnd <==> Index(level) == Radix(a) - 1)
  {
    shown, multiple, atEnd := [], false, false;
    if a.argsDoc.Some? {
      var doc := a.argsDoc.value;
      var cp, nl := 0, NewlineFrom(doc, 0);
      if nl < |doc| {
        assert doc[nl] in doc;
        multiple := true;
        cp, nl := SelectAlternative(doc, level);
      } else {
        assert doc[0..|doc|] == doc;
      }
      shown := [doc[cp..nl]];
      atEnd := nl == |doc|;
    }
  }

  /** `s` with the elements from `p` on replaced by `x`. */
  function Splice(s: seq<int>, p: nat, x: seq<int>): (r: seq<int>)
    requires p + |x| <= |s|
    ensures |r| == |s|
  {
    s[..p] + x + s[p + |x|..]
  }

  lemma SpliceNothing(s: seq<int>, p: nat)
    requires p <= |s|
    ensures Splice(s, p, []) == s
  {
  }

  lemma SpliceTwice(s: seq<int>, p: nat, x: seq<int>, y: seq<int>)
    requires p + |x| + |y| <= |s|
    ensures Splice(Splice(s, p, x), p + |x|, y) == Splice(s, p, x + y)
  {
  }

  lemma SpliceBeyond(s: seq<int>, p: nat, x: seq<int>, i: nat, j: nat)
    requires p + |x| <= i <= j <= |s|
    ensures Splice(s, p, x)[i..j] == s[i..j]
  {
  }

  lemma SpliceInFront(s: seq<int>, p: nat, x: int, y: seq<int>)
    requires p + 1 + |y| <= |s|
    ensures Splice(s, p + 1, y)[p := x] == Splice(s, p, [x] + y)
  {
  }

  /** argp_args_usage on the level bytes from `pos` on: `next` is where the
      levels pointer ends up, `more` the result, `out` what is written. */
  method ArgsUsage(t: CharType, a: Argp, levels: array<int>, pos: nat, advance0: bool)
    returns (next: nat, more: bool, out: seq<string>)
    requires pos + Levels(a) <= levels.Length && Leveled(t, a, levels[pos..pos + Levels(a)])
    modifies levels
    ensures next == pos + Levels(a)
    ensures levels[..] == Splice(old(levels[..]), pos, Advance(t, a, old(levels[pos..next]), advance0).0)
    ensures more == !Advance(t, a, old(levels[pos..next]), advance0).1
    ensures out == Printed(t, a, old(levels[pos..next]))
    decreases a, 1
  {
    hide Alternatives;
    hide AdvanceAll;
    hide PrintedAll;
    hide LeveledAll;
    hide Splice;
    ghost var all := levels[..];
    ghost var lv := levels[pos..pos + Levels(a)];
    var ourLevel := pos;
    var shown, multiple, atEnd := OwnPattern(t, a, if Multiple(a) then levels[ourLevel] else 0);
    next := if multiple then pos + 1 else pos;
    assert lv[Own(a)..] == levels[next..next + ChildLevels(a.children)];
    var advance;
    next, advance, out := ChildrenUsage(t, a.children, levels, next, advance0, shown);
    ghost var rest := AdvanceAll(t, a.children, lv[Own(a)..], advance0).0;
    if !multiple {
      assert Advance(t, a, lv, advance0).0 == rest;
    } else {
      assert levels[ourLevel] == lv[0] by { SpliceKeepsFront(all, pos, rest); }
      ghost var after := levels[..];
      if advance {
        if !atEnd {
          levels[ourLevel] := Bump(t, levels[ourLevel]);
          advance := false;
        } else if levels[ourLevel] > 0 {
          levels[ourLevel] := 0;
        }
      }
      assert levels[..] == after[pos := levels[ourLevel]];
      SpliceInFront(all, pos, levels[ourLevel], rest);
      assert Advance(t, a, lv, advance0).0 == [levels[ourLevel]] + rest;
    }
    more := !advance;
  }

  lemma SpliceKeepsFront(s: seq<int>, p: nat, y: seq<int>)
    requires p + 1 + |y| <= |s|
    ensures Splice(s, p + 1, y)[p] == s[p]
  {
  }

  /** The loop over the children; each child's result is the next one's cue. */
  method ChildrenUsage(t: CharType, cs: seq<Argp>, levels: array<int>, pos: nat, advance0: bool, out0: seq<string>)
    returns (next: nat, advance: bool, out: seq<string>)
    requires pos + ChildLevels(cs) <= levels.Length && LeveledAll(t, cs, levels[pos..pos + ChildLevels(cs)])
    modifies levels
    ensures next == pos + ChildLevels(cs)
    ensures levels[..] == Splice(old(levels[..]), pos, AdvanceAll(t, cs, old(levels[pos..next]), advance0).0)
    ensures advance == AdvanceAll(t, cs, old(levels[pos..next]), advance0).1
    ensures out == out0 + PrintedAll(t, cs, old(levels[pos..next]))
    decreases cs, 0
  {
    hide Splice;
    hide Resumes;
    hide Leveled;
    hide Advance;
    hide Printed;
    hide AdvanceAll;
    hide PrintedAll;
    hide Levels;
    hide ChildLevels;
    hide LeveledAll;
    ghost var all := levels[..];
    ghost var end := pos + ChildLevels(cs);
    ghost var done: seq<int> := [];
    next, advance, out := pos, advance0, out0;
    var i := 0;
    assert cs[0..] == cs;
    SpliceNothing(all, pos);
    ResumesStart(t, cs, all[pos..end], advance0, out0);
    while i < |cs|
      invariant 0 <= i <= |cs| && next == pos + |done| && next + ChildLevels(cs[i..]) == end <= levels.Length
      invariant levels[..] == Splice(all, pos, done)
      invariant Resumes(t, cs, all[pos..end], advance0, out0, done, cs[i..], all[next..end], advance, out)
    {
      ghost var n, rest := Levels(cs[i]), all[next..end];
      assert cs[i..][0] == cs[i] && cs[i..][1..] == cs[i + 1..];
      ResumesStep(t, cs, all[pos..end], advance0, out0, done, cs[i..], rest, advance, out);
      assert levels[next..next + n] == rest[..n] by {
        SpliceBeyond(all, pos, done, next, next + n);
        ArraySlice(levels, next, next + n);
        SliceOfSlice(all, next, end, n);
      }
      ghost var first := Advance(t, cs[i], rest[..n], advance).0;
      var next', more, piece := ArgsUsage(t, cs[i], levels, next, advance);
      SpliceTwice(all, pos, done, first);
      SliceOfSlice(all, next, end, n);
      next, advance, out, done := next', !more, out + piece, done + first;
      i := i + 1;
    }
    assert cs[i..] == [];
    NoLevels();
    assert all[next..end] == [];
    ResumesEnd(t, cs, all[pos..end], advance0, out0, done, advance, out);
  }

  lemma ArraySlice(a: array<int>, i: nat, j: nat)
    requires i <= j <= a.Length
    ensures a[i..j] == a[..][i..j]
  {
  }

  lemma SliceOfSlice(s: seq<int>, i: nat, j: nat, n: nat)
    requires i + n <= j <= |s|
    ensures s[i..j][..n] == s[i..i + n] && s[i..j][n..] == s[i + n..j]
  {
  }

  lemma NoLevels()
    ensures ChildLevels([]) == 0
  {
  }

  lemma ResumesStart(t: CharType, cs: seq<Argp>, lv: seq<int>, advance: bool, out: seq<string>)
    requires LeveledAll(t, cs, lv)
    ensures Resumes(t, cs, lv, advance, out, [], cs, lv, advance, out)
  {
    assert [] + AdvanceAll(t, cs, lv, advance).0 == AdvanceAll(t, cs, lv, advance).0;
  }

  lemma ResumesEnd(t: CharType, cs: seq<Argp>, lv: seq<int>, advance0: bool, out0: seq<string>,
                   done: seq<int>, advance: bool, out: seq<string>)
    requires Resumes(t, cs, lv, advance0, out0, done, [], [], advance, out)
    ensures AdvanceAll(t, cs, lv, advance0) == (done, advance) && out == out0 + PrintedAll(t, cs, lv)
  {
    assert done + [] == done && out + [] == out;
  }

  /** The children `todo` are left: finishing them finishes the whole list. */
  ghost predicate Resumes(t: CharType, cs: seq<Argp>, lv: seq<int>, advance0: bool, out0: seq<string>,
                          done: seq<int>, todo: seq<Argp>, rest: seq<int>, advance: bool, out: seq<string>)
  {
    && LeveledAll(t, cs, lv) && LeveledAll(t, todo, rest)
    && AdvanceAll(t, cs, lv, advance0)
       == (done + AdvanceAll(t, todo, rest, advance).0, AdvanceAll(t, todo, rest, advance).1)
    && out0 + PrintedAll(t, cs, lv) == out + PrintedAll(t, todo, rest)
  }

  lemma ResumesStep(t: CharType, cs: seq<Argp>, lv: seq<int>, advance0: bool, out0: seq<string>,
                    done: seq<int>, todo: seq<Argp>, rest: seq<int>, advance: bool, out: seq<string>)
    requires todo != [] && Resumes(t, cs, lv, advance0, out0, done, todo, rest, advance, out)
    ensures var n := Levels(todo[0]);
            ChildLevels(todo) == n + ChildLevels(todo[1..]) && n <= |rest| && Leveled(t, todo[0], rest[..n])
    ensures var n := Levels(todo[0]);
            var (first, carry) := Advance(t, todo[0], rest[..n], advance);
            Resumes(t, cs, lv, advance0, out0, done + first, todo[1..], rest[n..], carry,
                    out + Printed(t, todo[0], rest[..n]))
  {
    hide Advance;
    hide Printed;
    hide Leveled;
    hide AdvanceAll;
    hide PrintedAll;
    hide LeveledAll;
    hide ChildLevels;
    FirstChild(t, todo, rest, advance);
    var n := Levels(todo[0]);
    var (first, carry) := Advance(t, todo[0], rest[..n], advance);
    var more := AdvanceAll(t, todo[1..], rest[n..], carry).0;
    assert done + (first + more) == (done + first) + more;
    var p, q := Printed(t, todo[0], rest[..n]), PrintedAll(t, todo[1..], rest[n..]);
    assert out + (p + q) == (out + p) + q;
  }

  /** The loop over the children, with its first round taken out. */
  lemma FirstChild(t: CharType, cs: seq<Argp>, lv: seq<int>, advance: bool)
    requires cs != [] && LeveledAll(t, cs, lv)
    ensures var n := Levels(cs[0]);
            && ChildLevels(cs) == n + ChildLevels(cs[1..]) && n <= |lv|
            && Leveled(t, cs[0], lv[..n]) && LeveledAll(t, cs[1..], lv[n..])
            && PrintedAll(t, cs, lv) == Printed(t, cs[0], lv[..n]) + PrintedAll(t, cs[1..], lv[n..])
            && var (first, carry) := Advance(t, cs[0], lv[..n], advance);
               var (more, out) := AdvanceAll(t, cs[1..], lv[n..], carry);
               AdvanceAll(t, cs, lv, advance) == (first + more, out)
  {
    hide Advance;
    hide Printed;
    hide Leveled;
  }

  lemma SpliceWhole(s: seq<int>, x: seq<int>)
    requires |x| == |s|
    ensures Splice(s, 0, x) == x
  {
  }

  lemma BeforeFirst(t: CharType, a: Argp)
    ensures Before(t, a, 0) == Repeat<int>(0, Levels(a))
  {
  }

  lemma BeforeNext(t: CharType, a: Argp, k: nat)
    ensures Before(t, a, k + 1) == Advance(t, a, Before(t, a, k), true).0
  {
  }

  /** The usage loop of _help: one printed pattern for each combination, in
      counting order, and an end after the last. */
  method UsageLoop(t: CharType, a: Argp) returns (patterns: seq<seq<string>>)
    requires Countable(t, a)
    ensures |patterns| == Product(Docs(a)) && AllPatterns(Docs(a), patterns)
    ensures forall k :: 0 <= k < |patterns| ==> patterns[k] == Printed(t, a, Before(t, a, k))
  {
    hide Advance;
    hide Printed;
    hide Leveled;
    hide Countable;
    hide Total;
    hide Value;
    hide Splice;
    hide Before;
    BeforeFirst(t, a);
    var n := CountLevels(a);
    var levels := new int[n](i => 0);
    patterns := [];
    ghost var k: nat := 0;
    assert levels[..] == Repeat<int>(0, n);
    while true
      invariant k == |patterns| < Total(a) && levels.Length == n && levels[..] == Before(t, a, k)
      invariant forall j :: 0 <= j < k ==> patterns[j] == Printed(t, a, Before(t, a, j))
      decreases Total(a) - k
    {
      assert levels[0..n] == levels[..];
      ghost var lv := levels[..];
      var next, more, out := ArgsUsage(t, a, levels, 0, true);
      LoopCounts(t, a, k);
      patterns := patterns + [out];
      if !more { break; }
      SpliceWhole(lv, Advance(t, a, lv, true).0);
      BeforeNext(t, a, k);
      k := k + 1;
    }
    TotalIsProduct(a);
    LoopShowsAll(t, a, patterns);
  }
}
