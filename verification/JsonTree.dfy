/** The emitter seen from the data: every tree of strings and numbers, written by
    the calls that walk it, is read back as the same tree. */
module JsonTree {
  import opened Basics
  import opened JsonText
  import opened JsonEmitter

  // ---- Numbers -----------------------------------------------------------

  function DigitValue(c: char): nat
    requires IsDigit(c)
  {
    c as int - '0' as int
  }

  predicate AllDigits(s: string) {
    forall i :: 0 <= i < |s| ==> IsDigit(s[i])
  }

  /** The number that decimal digits stand for. */
  function NumberValue(d: string): nat
    requires AllDigits(d)
  {
    if d == "" then 0 else 10 * NumberValue(d[..|d| - 1]) + DigitValue(d[|d| - 1])
  }

  /** The integer that a number text without fraction and exponent stands for. */
  function Reading(text: string): Option<int> {
    if text != "" && AllDigits(text) then Some(NumberValue(text) as int)
    else if |text| > 1 && text[0] == '-' && AllDigits(text[1..]) then Some(-(NumberValue(text[1..]) as int))
    else None
  }

  lemma {:induction false} DecimalKeepsValue(n: nat)
    ensures AllDigits(Decimal(n)) && NumberValue(Decimal(n)) == n
  {
    DecimalDigits(n);
    if n < 10 {
      assert Decimal(n)[..0] == "";
    } else {
      DecimalKeepsValue(n / 10);
      var d := Decimal(n);
      assert d[..|d| - 1] == Decimal(n / 10);
    }
  }

  lemma PlainReading(d: string)
    requires d != "" && AllDigits(d)
    ensures Reading(d) == Some(NumberValue(d) as int)
  {
  }

  lemma MinusReading(d: string)
    requires d != "" && AllDigits(d)
    ensures Reading("-" + d) == Some(-(NumberValue(d) as int))
  {
    hide NumberValue;
    var text := "-" + d;
    assert text[0] == '-' && text[1..] == d;
    assert !IsDigit(text[0]);
  }

  lemma TextOfInteger(n: int)
    ensures n >= 0 ==> Text(Int(n)) == Decimal(n) && Text(Uint(n)) == Decimal(n)
    ensures n < 0 ==> Text(Int(n)) == "-" + Decimal(-n)
  {
  }

  /** Printed integers, signed and unsigned, are read as the numbers printed. */
  lemma IntegersReadBack(n: int)
    ensures Reading(Text(Int(n))) == Some(n)
    ensures n >= 0 ==> Reading(Text(Uint(n))) == Some(n)
  {
    hide NumberValue;
    hide Reading;
    hide AllDigits;
    hide Text;
    hide Decimal;
    var m := if n < 0 then -n else n;
    TextOfInteger(n);
    DecimalDigits(m);
    DecimalKeepsValue(m);
    if n < 0 { MinusReading(Decimal(m)); } else { PlainReading(Decimal(m)); }
  }

  // ---- Trees and their calls -------------------------------------------------

  /** What the library can write: objects hold scalars, objects and arrays under
      names, and arrays hold scalars and objects. */
  datatype Field =
    | ScalarField(name: string, value: Scalar)
    | ObjectField(name: string, fields: seq<Field>)
    | ArrayField(name: string, items: seq<Item>)

  datatype Item = ScalarItem(value: Scalar) | ObjectItem(fields: seq<Field>)

  function FieldCalls(f: Field): seq<Call> {
    match f
    case ScalarField(name, v) => [Attr(name, v)]
    case ObjectField(name, fs) => [AttrObjectBegin(name)] + FieldsCalls(fs) + [AttrObjectEnd]
    case ArrayField(name, xs) => [ArrayBegin(name)] + ItemsCalls(xs) + [ArrayEnd]
  }

  function FieldsCalls(fs: seq<Field>): seq<Call> {
    if fs == [] then [] else FieldCalls(fs[0]) + FieldsCalls(fs[1..])
  }

  function ItemCalls(x: Item): seq<Call> {
    match x
    case ScalarItem(v) => [Element(v)]
    case ObjectItem(fs) => [ElementObjectBegin] + FieldsCalls(fs) + [ElementObjectEnd]
  }

  function ItemsCalls(xs: seq<Item>): seq<Call> {
    if xs == [] then [] else ItemCalls(xs[0]) + ItemsCalls(xs[1..])
  }

  /** The calls for a whole document. */
  function DocumentCalls(fs: seq<Field>): seq<Call> {
    [DocumentBegin] + FieldsCalls(fs) + [DocumentEnd]
  }

  /** Names and strings need no escaping, and doubles print as numbers. */
  predicate CleanField(f: Field) {
    Plain(f.name) &&
    match f
    case ScalarField(_, v) => Clean(v)
    case ObjectField(_, fs) => CleanFields(fs)
    case ArrayField(_, xs) => CleanItems(xs)
  }

  predicate CleanFields(fs: seq<Field>) {
    fs == [] || (CleanField(fs[0]) && CleanFields(fs[1..]))
  }

  predicate CleanItem(x: Item) {
    match x
    case ScalarItem(v) => Clean(v)
    case ObjectItem(fs) => CleanFields(fs)
  }

  predicate CleanItems(xs: seq<Item>) {
    xs == [] || (CleanItem(xs[0]) && CleanItems(xs[1..]))
  }

  // ---- When a value is the tree -----------------------------------------------

  /** A value read back is the scalar that was written; integers are compared as
      numbers. */
  predicate IsScalar(v: Value, s: Scalar) {
    match s
    case String(x) => v == JString(x)
    case Uint(u) => v.JNumber? && Reading(v.text) == Some(u)
    case Int(i) => v.JNumber? && Reading(v.text) == Some(i)
    case Double(t) => v == JNumber(t)
  }

  predicate IsField(m: Member, f: Field)
    decreases f, 0
  {
    m.name == f.name &&
    match f
    case ScalarField(_, s) => IsScalar(m.value, s)
    case ObjectField(_, fs) => m.value.JObject? && AreFields(m.value.members, fs)
    case ArrayField(_, xs) => m.value.JArray? && AreItems(m.value.items, xs)
  }

  predicate AreFields(ms: seq<Member>, fs: seq<Field>)
    decreases fs, 1
  {
    |ms| == |fs| && (fs == [] || (IsField(ms[0], fs[0]) && AreFields(ms[1..], fs[1..])))
  }

  predicate IsItem(v: Value, x: Item)
    decreases x, 0
  {
    match x
    case ScalarItem(s) => IsScalar(v, s)
    case ObjectItem(fs) => v.JObject? && AreFields(v.members, fs)
  }

  predicate AreItems(vs: seq<Value>, xs: seq<Item>)
    decreases xs, 1
  {
    |vs| == |xs| && (xs == [] || (IsItem(vs[0], xs[0]) && AreItems(vs[1..], xs[1..])))
  }

  lemma ScalarIsDenoted(s: Scalar)
    ensures IsScalar(Denotes(s), s)
  {
    hide Text;
    match s
    case String(x) =>
    case Uint(u) => IntegersReadBack(u);
    case Int(i) => IntegersReadBack(i);
    case Double(t) => DoubleText(t);
  }

  lemma DoubleText(t: string)
    ensures Text(Double(t)) == t
  {
  }

  // ---- Running the calls of a tree ----------------------------------------------

  /** The stack with members added to its top. */
  function AddAll(stack: seq<Frame>, ms: seq<Member>): seq<Frame>
    requires stack != []
  {
    var n := |stack| - 1;
    stack[..n] + [stack[n].(members := stack[n].members + ms)]
  }

  predicate TopIs(stack: seq<Frame>, inArray: bool) {
    stack != [] && (stack[|stack| - 1].kind == ArrayAttr <==> inArray)
  }

  /** Running `calls` and then `rest` is running `rest` with `ms` added. */
  ghost predicate Adds(stack: seq<Frame>, calls: seq<Call>, ms: seq<Member>, rest: seq<Call>)
    requires stack != []
  {
    var p := Progress(AddAll(stack, ms), None);
    Nested(p, rest) ==>
      && Nested(Progress(stack, None), calls + rest)
      && Described(Progress(stack, None), calls + rest) == Described(p, rest)
  }

  lemma OneCall(p: Progress, call: Call, rest: seq<Call>)
    requires Allowed(p, call) && Nested(Apply(p, call), rest)
    ensures Nested(p, [call] + rest) && Described(p, [call] + rest) == Described(Apply(p, call), rest)
  {
    assert ([call] + rest)[1..] == rest;
  }

  lemma AddNone(stack: seq<Frame>)
    requires stack != []
    ensures AddAll(stack, []) == stack
  {
    var n := |stack| - 1;
    assert stack[n].(members := stack[n].members + []) == stack[n];
  }

  lemma AddTwice(stack: seq<Frame>, a: seq<Member>, b: seq<Member>)
    requires stack != []
    ensures AddAll(stack, a) != [] && AddAll(AddAll(stack, a), b) == AddAll(stack, a + b)
  {
    var n := |stack| - 1;
    var top := stack[n];
    assert top.members + a + b == top.members + (a + b);
    assert AddAll(stack, a)[..n] == stack[..n];
  }

  lemma AddOne(stack: seq<Frame>, m: Member)
    requires stack != []
    ensures AddMember(stack, m) == AddAll(stack, [m])
  {
  }

  /** Opening a container, filling it and closing it adds one member. */
  lemma Container(stack: seq<Frame>, open: Call, f: Frame, close: Call, body: seq<Call>, ms: seq<Member>,
                  rest: seq<Call>)
    requires stack != [] && Allowed(Progress(stack, None), open) && f.members == []
    requires Apply(Progress(stack, None), open) == Progress(stack + [f], None)
    requires Closes(close) && close == CloseOf(f.kind) && f.kind != Document
    requires Adds(stack + [f], body, ms, [close] + rest)
    ensures Adds(stack, [open] + body + [close], [Member(f.name, Closed(f.(members := ms)))], rest)
  {
    hide Nested;
    hide Described;
    hide Closed;
    var m := Member(f.name, Closed(f.(members := ms)));
    var p := Progress(AddAll(stack, [m]), None);
    if Nested(p, rest) {
      var inner := AddAll(stack + [f], ms);
      assert inner == stack + [f.(members := ms)] by {
        assert (stack + [f])[..|stack|] == stack && [] + ms == ms;
      }
      AddOne(stack, m);
      assert inner[..|stack|] == stack;
      assert Apply(Progress(inner, None), close) == p;
      OneCall(Progress(inner, None), close, rest);
      OneCall(Progress(stack, None), open, body + ([close] + rest));
      assert [open] + (body + ([close] + rest)) == [open] + body + [close] + rest;
    }
  }

  function CloseOf(kind: Kind): Call {
    match kind
    case Document => DocumentEnd
    case AttrObject => AttrObjectEnd
    case ArrayAttr => ArrayEnd
    case ElementObject => ElementObjectEnd
  }

  lemma {:induction false} FieldRuns(stack: seq<Frame>, f: Field, rest: seq<Call>) returns (m: Member)
    requires TopIs(stack, false) && CleanField(f)
    ensures IsField(m, f) && Adds(stack, FieldCalls(f), [m], rest)
    decreases f, 0
  {
    hide Nested;
    hide Described;
    hide Adds;
    var p := Progress(stack, None);
    match f
    case ScalarField(name, v) =>
      m := Member(name, Denotes(v));
      ScalarIsDenoted(v);
      ScalarRuns(stack, Attr(name, v), m, rest);
    case ObjectField(name, fs) =>
      var frame := Frame(AttrObject, name, []);
      var ms := FieldsRun(stack + [frame], fs, [AttrObjectEnd] + rest);
      Container(stack, AttrObjectBegin(name), frame, AttrObjectEnd, FieldsCalls(fs), ms, rest);
      m := Member(name, Closed(frame.(members := ms)));
    case ArrayField(name, xs) =>
      var frame := Frame(ArrayAttr, name, []);
      var ms := ItemsRun(stack + [frame], xs, [ArrayEnd] + rest);
      Container(stack, ArrayBegin(name), frame, ArrayEnd, ItemsCalls(xs), ms, rest);
      m := Member(name, Closed(frame.(members := ms)));
  }

  lemma ScalarRuns(stack: seq<Frame>, call: Call, m: Member, rest: seq<Call>)
    requires stack != [] && Allowed(Progress(stack, None), call)
    requires Apply(Progress(stack, None), call) == Progress(AddMember(stack, m), None)
    ensures Adds(stack, [call], [m], rest)
  {
    hide Nested;
    hide Described;
    AddOne(stack, m);
    if Nested(Progress(AddAll(stack, [m]), None), rest) { OneCall(Progress(stack, None), call, rest); }
  }

  lemma {:induction false} FieldsRun(stack: seq<Frame>, fs: seq<Field>, rest: seq<Call>) returns (ms: seq<Member>)
    requires TopIs(stack, false) && CleanFields(fs)
    ensures AreFields(ms, fs) && Adds(stack, FieldsCalls(fs), ms, rest)
    decreases fs, 1
  {
    hide IsField;
    if fs == [] {
      ms := [];
      AddNone(stack);
      assert [] + rest == rest;
    } else {
      var m := FieldRuns(stack, fs[0], FieldsCalls(fs[1..]) + rest);
      var more := FieldsRun(AddAll(stack, [m]), fs[1..], rest);
      ms := [m] + more;
      assert ms[0] == m && ms[1..] == more;
      InTurn(stack, FieldCalls(fs[0]), m, FieldsCalls(fs[1..]), more, rest);
    }
  }

  lemma InTurn(stack: seq<Frame>, first: seq<Call>, m: Member, calls: seq<Call>, more: seq<Member>, rest: seq<Call>)
    requires stack != [] && Adds(stack, first, [m], calls + rest) && AddAll(stack, [m]) != []
    requires Adds(AddAll(stack, [m]), calls, more, rest)
    ensures Adds(stack, first + calls, [m] + more, rest)
  {
    hide Nested;
    hide Described;
    AddTwice(stack, [m], more);
    assert first + calls + rest == first + (calls + rest);
  }

  lemma {:induction false} ItemRuns(stack: seq<Frame>, x: Item, rest: seq<Call>) returns (m: Member)
    requires TopIs(stack, true) && CleanItem(x)
    ensures IsItem(m.value, x) && Adds(stack, ItemCalls(x), [m], rest)
    decreases x, 0
  {
    hide Nested;
    hide Described;
    hide Adds;
    match x
    case ScalarItem(v) =>
      m := Member("", Denotes(v));
      ScalarIsDenoted(v);
      ScalarRuns(stack, Element(v), m, rest);
    case ObjectItem(fs) =>
      var frame := Frame(ElementObject, "", []);
      var ms := FieldsRun(stack + [frame], fs, [ElementObjectEnd] + rest);
      Container(stack, ElementObjectBegin, frame, ElementObjectEnd, FieldsCalls(fs), ms, rest);
      m := Member("", Closed(frame.(members := ms)));
  }

  lemma {:induction false} ItemsRun(stack: seq<Frame>, xs: seq<Item>, rest: seq<Call>) returns (ms: seq<Member>)
    requires TopIs(stack, true) && CleanItems(xs)
    ensures AreItems(Values(ms), xs) && Adds(stack, ItemsCalls(xs), ms, rest)
    decreases xs, 1
  {
    hide IsItem;
    if xs == [] {
      ms := [];
      AddNone(stack);
      assert [] + rest == rest;
    } else {
      var m := ItemRuns(stack, xs[0], ItemsCalls(xs[1..]) + rest);
      var more := ItemsRun(AddAll(stack, [m]), xs[1..], rest);
      ms := [m] + more;
      assert Values(ms)[0] == m.value && Values(ms)[1..] == Values(more);
      InTurn(stack, ItemCalls(xs[0]), m, ItemsCalls(xs[1..]), more, rest);
    }
  }

  /** Every tree can be written, and what is written parses to exactly this tree:
      the same names in the same order, the same strings, and the same numbers. */
  lemma TreeReadBack(start: nat, fs: seq<Field>)
    requires start < UINT_RANGE && CleanFields(fs)
    ensures var c := Run(Ctx("", start, true), DocumentCalls(fs));
            && c.indent == start
            && match Parse(c.out)
               case Some(v) => v.JObject? && AreFields(v.members, fs)
               case None => false
  {
    hide Run;
    hide Parse;
    hide AreFields;
    var calls := DocumentCalls(fs);
    var v := DocumentRuns(fs);
    RoundTrip(start, calls);
  }

  lemma DocumentRuns(fs: seq<Field>) returns (v: Value)
    requires CleanFields(fs)
    ensures Nested(START, DocumentCalls(fs)) && Described(START, DocumentCalls(fs)).done == Some(v)
    ensures v.JObject? && AreFields(v.members, fs)
  {
    hide AreFields;
    var frame := Frame(Document, "", []);
    var ms := FieldsRun([frame], fs, [DocumentEnd]);
    var full := [frame.(members := ms)];
    assert AddAll([frame], ms) == full by { assert [] + ms == ms; }
    v := JObject(ms);
    var p := Progress(full, None);
    assert Apply(p, DocumentEnd) == Progress([], Some(v));
    assert [DocumentEnd] + [] == [DocumentEnd];
    OneCall(p, DocumentEnd, []);
    OneCall(START, DocumentBegin, FieldsCalls(fs) + [DocumentEnd]);
    assert [DocumentBegin] + (FieldsCalls(fs) + [DocumentEnd]) == DocumentCalls(fs);
  }
}
