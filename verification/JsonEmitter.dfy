/** The JSON printing library of benchtests/json-lib.c.  A context holds an
    indentation level and the single bit `first_element`; every call appends to
    the output. */
module JsonEmitter {
  import opened Basics
  import opened JsonText

  // ---- The emitter ------------------------------------------------------

  const UINT_RANGE: nat := 0x1_0000_0000

  /** A value printed on one line.  A double carries the text `%g` made of it. */
  datatype Scalar = String(s: string) | Uint(u: nat) | Int(i: int) | Double(text: string)

  datatype Call =
    | DocumentBegin | DocumentEnd
    | AttrObjectBegin(name: string) | AttrObjectEnd
    | Attr(name: string, value: Scalar)
    | ArrayBegin(name: string) | ArrayEnd
    | Element(value: Scalar)
    | ElementObjectBegin | ElementObjectEnd

  datatype Ctx = Ctx(out: string, indent: nat, first: bool)

  function Decimal(n: nat): string {
    if n < 10 then ['0' + n as char] else Decimal(n / 10) + ['0' + (n % 10) as char]
  }

  function Quote(s: string): string {
    "\"" + s + "\""
  }

  function Text(v: Scalar): string {
    match v
    case String(s) => Quote(s)
    case Uint(u) => Decimal(u)
    case Int(i) => if i < 0 then "-" + Decimal(-i) else Decimal(i)
    case Double(t) => t
  }

  function Spaces(n: nat): string {
    seq(n, i => ' ')
  }

  /** Unsigned increment and decrement. */
  function Inc(n: nat): nat {
    (n + 1) % UINT_RANGE
  }

  function Dec(n: nat): nat {
    (n + UINT_RANGE - 1) % UINT_RANGE
  }

  /** What one call writes. */
  function Chunk(c: Ctx, call: Call): string {
    var sep := if c.first then "" else ",\n";
    match call
    case DocumentBegin => Spaces(c.indent) + "{\n"
    case DocumentEnd => Spaces(Dec(c.indent)) + "\n}"
    case AttrObjectBegin(name) => sep + Spaces(c.indent) + Quote(name) + ": {\n"
    case Attr(name, v) => sep + Spaces(c.indent) + Quote(name) + ": " + Text(v)
    case ArrayBegin(name) => sep + Spaces(c.indent) + Quote(name) + ": ["
    case ArrayEnd => "]"
    case Element(v) => (if c.first then "" else ", ") + Text(v)
    case ElementObjectBegin => (if c.first then "" else ",") + "\n" + Spaces(c.indent) + "{\n"
    case AttrObjectEnd => "\n" + Spaces(Dec(c.indent)) + "}"
    case ElementObjectEnd => "\n" + Spaces(Dec(c.indent)) + "}"
  }

  predicate Opens(call: Call) {
    call.DocumentBegin? || call.AttrObjectBegin? || call.ArrayBegin? || call.ElementObjectBegin?
  }

  predicate Closes(call: Call) {
    call.DocumentEnd? || call.AttrObjectEnd? || call.ArrayEnd? || call.ElementObjectEnd?
  }

  function Step(c: Ctx, call: Call): Ctx {
    Ctx(c.out + Chunk(c, call),
        if Opens(call) then Inc(c.indent) else if Closes(call) then Dec(c.indent) else c.indent,
        if Opens(call) then true else if call.DocumentEnd? then c.first else false)
  }

  function Run(c: Ctx, calls: seq<Call>): Ctx
    decreases |calls|
  {
    if calls == [] then c else Run(Step(c, calls[0]), calls[1..])
  }

  /** json_ctx_t with the functions that update it. */
  class JsonCtx {
    var out: string
    var indentLevel: nat
    var firstElement: bool

    ghost function State(): Ctx
      reads this
    {
      Ctx(out, indentLevel, firstElement)
    }

    /** json_init */
    constructor (indent: nat)
      ensures State() == Ctx("", indent, true)
    {
      out, indentLevel, firstElement := "", indent, true;
    }

    method Fputs(s: string)
      modifies this`out
      ensures out == old(out) + s
    {
      out := out + s;
    }

    method DoIndent()
      modifies this`out
      ensures out == old(out) + Spaces(indentLevel)
    {
      var buf := "";
      for i := 0 to indentLevel
        invariant buf == Spaces(i)
      {
        buf := buf + " ";
      }
      Fputs(buf);
    }

    method PutDocumentBegin()
      modifies this
      ensures State() == Step(old(State()), DocumentBegin)
    {
      DoIndent();
      Fputs("{\n");
      indentLevel := Inc(indentLevel);
      firstElement := true;
      assert out == old(out) + (Spaces(old(indentLevel)) + "{\n");
    }

    method PutDocumentEnd()
      modifies this
      ensures State() == Step(old(State()), DocumentEnd)
    {
      indentLevel := Dec(indentLevel);
      DoIndent();
      Fputs("\n}");
      assert out == old(out) + (Spaces(indentLevel) + "\n}");
    }

    /** The separator and indentation every json_attr_* function starts with. */
    method AttrPrefix(name: string)
      modifies this`out
      ensures out == old(out) + ((if firstElement then "" else ",\n") + Spaces(indentLevel) + Quote(name))
    {
      if !firstElement { Fputs(",\n"); }
      DoIndent();
      Fputs(Quote(name));
    }

    method PutAttrObjectBegin(name: string)
      modifies this
      ensures State() == Step(old(State()), AttrObjectBegin(name))
    {
      AttrPrefix(name);
      Fputs(": {\n");
      indentLevel := Inc(indentLevel);
      firstElement := true;
      assert out == old(out) + Chunk(old(State()), AttrObjectBegin(name));
    }

    method PutObjectEnd(call: Call)
      requires call == AttrObjectEnd || call == ElementObjectEnd
      modifies this
      ensures State() == Step(old(State()), call)
    {
      indentLevel := Dec(indentLevel);
      firstElement := false;
      Fputs("\n");
      DoIndent();
      Fputs("}");
      assert out == old(out) + Chunk(old(State()), call);
    }

    /** json_attr_string, json_attr_uint, json_attr_int, json_attr_double */
    method PutAttr(name: string, v: Scalar)
      modifies this
      ensures State() == Step(old(State()), Attr(name, v))
    {
      hide Text;
      hide Quote;
      hide Spaces;
      AttrPrefix(name);
      firstElement := false;
      Fputs(": ");
      Fputs(Text(v));
      assert out == old(out) + Chunk(old(State()), Attr(name, v));
    }

    method PutArrayBegin(name: string)
      modifies this
      ensures State() == Step(old(State()), ArrayBegin(name))
    {
      AttrPrefix(name);
      Fputs(": [");
      indentLevel := Inc(indentLevel);
      firstElement := true;
      assert out == old(out) + Chunk(old(State()), ArrayBegin(name));
    }

    method PutArrayEnd()
      modifies this
      ensures State() == Step(old(State()), ArrayEnd)
    {
      indentLevel := Dec(indentLevel);
      firstElement := false;
      Fputs("]");
    }

    /** json_element_string, json_element_uint, json_element_int, json_element_double */
    method PutElement(v: Scalar)
      modifies this
      ensures State() == Step(old(State()), Element(v))
    {
      hide Text;
      hide Spaces;
      if !firstElement {
        Fputs(", ");
        Fputs(Text(v));
      } else {
        Fputs(Text(v));
        firstElement := false;
      }
      assert out == old(out) + Chunk(old(State()), Element(v));
    }

    method PutElementObjectBegin()
      modifies this
      ensures State() == Step(old(State()), ElementObjectBegin)
    {
      if !firstElement { Fputs(","); }
      Fputs("\n");
      DoIndent();
      Fputs("{\n");
      indentLevel := Inc(indentLevel);
      firstElement := true;
      assert out == old(out) + Chunk(old(State()), ElementObjectBegin);
    }
  }

  /** What the calls write in a context at level 1 that is not empty, and how an
      empty one differs. */
  lemma ChunkExamples(c: Ctx, d: Ctx)
    requires c.indent == 1 && !c.first && d.indent == 1 && d.first
    ensures Chunk(c, DocumentBegin) == " {\n" && Chunk(c, DocumentEnd) == "\n}"
    ensures Chunk(c, AttrObjectBegin("o")) == ",\n \"o\": {\n" && Chunk(d, AttrObjectBegin("o")) == " \"o\": {\n"
    ensures Chunk(c, AttrObjectEnd) == "\n}" && Chunk(c, ElementObjectEnd) == "\n}"
    ensures Chunk(c, Attr("a", Uint(7))) == ",\n \"a\": 7" && Chunk(d, Attr("a", Int(-7))) == " \"a\": -7"
    ensures Chunk(c, ArrayBegin("l")) == ",\n \"l\": [" && Chunk(c, ArrayEnd) == "]"
    ensures Chunk(c, Element(String("x"))) == ", \"x\"" && Chunk(d, Element(String("x"))) == "\"x\""
    ensures Chunk(c, ElementObjectBegin) == ",\n {\n" && Chunk(d, ElementObjectBegin) == "\n {\n"
  {
    assert Spaces(1) == " " && Spaces(0) == "" && Dec(1) == 0;
    assert Quote("o") == "\"o\"" && Quote("a") == "\"a\"" && Quote("l") == "\"l\"" && Quote("x") == "\"x\"";
    assert Decimal(7) == "7";
  }

  // ---- Properly nested calls and the value they describe ----------------

  datatype Kind = Document | AttrObject | ArrayAttr | ElementObject

  /** An open container with what it holds so far; array items carry no name. */
  datatype Frame = Frame(kind: Kind, name: string, members: seq<Member>)

  /** The open containers, outermost first, and the finished document. */
  datatype Progress = Progress(stack: seq<Frame>, done: Option<Value>)

  const START := Progress([], None)

  predicate Clean(v: Scalar) {
    match v
    case String(s) => Plain(s)
    case Double(t) => IsNumber(t)
    case _ => true
  }

  function Denotes(v: Scalar): Value {
    if v.String? then JString(v.s) else JNumber(Text(v))
  }

  /** May `call` be made here, with text that needs no escaping? */
  predicate Allowed(p: Progress, call: Call) {
    && p.done.None?
    && if p.stack == [] then call.DocumentBegin?
       else
         var top := p.stack[|p.stack| - 1];
         match call
         case DocumentBegin => false
         case DocumentEnd => top.kind == Document
         case AttrObjectEnd => top.kind == AttrObject
         case ArrayEnd => top.kind == ArrayAttr
         case ElementObjectEnd => top.kind == ElementObject
         case AttrObjectBegin(name) => top.kind != ArrayAttr && Plain(name)
         case ArrayBegin(name) => top.kind != ArrayAttr && Plain(name)
         case Attr(name, v) => top.kind != ArrayAttr && Plain(name) && Clean(v)
         case Element(v) => top.kind == ArrayAttr && Clean(v)
         case ElementObjectBegin => top.kind == ArrayAttr
  }

  function Values(ms: seq<Member>): seq<Value> {
    seq(|ms|, i requires 0 <= i < |ms| => ms[i].value)
  }

  function Closed(f: Frame): Value {
    if f.kind == ArrayAttr then JArray(Values(f.members)) else JObject(f.members)
  }

  function AddMember(stack: seq<Frame>, m: Member): seq<Frame>
    requires stack != []
  {
    var n := |stack| - 1;
    stack[..n] + [stack[n].(members := stack[n].members + [m])]
  }

  /** The effect of a call on the value being described. */
  function Apply(p: Progress, call: Call): Progress
    requires Allowed(p, call)
  {
    match call
    case DocumentBegin => Progress([Frame(Document, "", [])], None)
    case AttrObjectBegin(name) => Progress(p.stack + [Frame(AttrObject, name, [])], None)
    case ArrayBegin(name) => Progress(p.stack + [Frame(ArrayAttr, name, [])], None)
    case ElementObjectBegin => Progress(p.stack + [Frame(ElementObject, "", [])], None)
    case Attr(name, v) => Progress(AddMember(p.stack, Member(name, Denotes(v))), None)
    case Element(v) => Progress(AddMember(p.stack, Member("", Denotes(v))), None)
    case _ =>
      var n := |p.stack| - 1;
      var f := p.stack[n];
      if n == 0 then Progress([], Some(Closed(f)))
      else Progress(AddMember(p.stack[..n], Member(f.name, Closed(f))), None)
  }

  predicate Nested(p: Progress, calls: seq<Call>)
    decreases |calls|
  {
    calls == [] || (Allowed(p, calls[0]) && Nested(Apply(p, calls[0]), calls[1..]))
  }

  function Described(p: Progress, calls: seq<Call>): Progress
    requires Nested(p, calls)
    decreases |calls|
  {
    if calls == [] then p else Described(Apply(p, calls[0]), calls[1..])
  }

  // ---- The invariant of every nested run ---------------------------------

  function Open(f: Frame): seq<Token> {
    match f.kind
    case Document => [LBrace]
    case ElementObject => [LBrace]
    case AttrObject => [Str(f.name), Colon, LBrace]
    case ArrayAttr => [Str(f.name), Colon, LBracket]
  }

  function Body(f: Frame): seq<Token> {
    if f.kind == ArrayAttr then ItemTokens(Values(f.members)) else MemberTokens(f.members)
  }

  function Sep(ms: seq<Member>): seq<Token> {
    if ms == [] then [] else [Comma]
  }

  /** The tokens of the text up to and including the open containers. */
  function OpenTokens(stack: seq<Frame>): seq<Token> {
    if stack == [] then []
    else
      var n := |stack| - 1;
      OpenTokens(stack[..n]) + (if n == 0 then [] else Sep(stack[n - 1].members))
      + Open(stack[n]) + Body(stack[n])
  }

  /** Containers nest as the calls allow: a document outermost, element objects
      exactly inside arrays. */
  predicate WellNested(stack: seq<Frame>) {
    forall i :: 0 <= i < |stack| ==>
      && (stack[i].kind == Document <==> i == 0)
      && (i > 0 ==> (stack[i].kind == ElementObject <==> stack[i - 1].kind == ArrayAttr))
  }

  predicate Bounded(s: string) {
    s == "" || !IsNumberChar(s[|s| - 1])
  }

  /** The one bit stands for the whole stack: it says whether the innermost open
      container is still empty. */
  predicate Inv(c: Ctx, p: Progress, start: nat) {
    && WellNested(p.stack)
    && c.indent == (start + |p.stack|) % UINT_RANGE
    && match p.done
       case Some(v) => p.stack == [] && Lex(c.out) == Some(ValueTokens(v))
       case None =>
         && Lex(c.out) == Some(OpenTokens(p.stack))
         && (p.stack == [] ==> c.out == "")
         && (p.stack != [] ==>
               && (c.first <==> p.stack[|p.stack| - 1].members == [])
               && (c.first ==> Bounded(c.out)))
  }

  // ---- Lexing one chunk ---------------------------------------------------

  /** One more character in front of a text. */
  lemma LexCons(c: char, s: string, t: string, ts: seq<Token>)
    requires t == [c] + s && Lex(s).Some? && (IsBlank(c) || Punctuation(c).Some?)
    requires ts == (if IsBlank(c) then [] else [Punctuation(c).value]) + Lex(s).value
    ensures Lex(t) == Some(ts)
  {
    assert First(t).Some? && First(t).value.1 == 1;
    assert t[1..] == s;
  }

  lemma LexEnds()
    ensures Lex("\n") == Some([]) && Lex("]") == Some([RBracket]) && Lex("}") == Some([RBrace])
    ensures Lex("{\n") == Some([LBrace]) && Lex("\n}") == Some([RBrace])
  {
    hide First;
    LexCons('\n', "", "\n", []);
    LexCons(']', "", "]", [RBracket]);
    LexCons('}', "", "}", [RBrace]);
    hide Lex;
    LexCons('{', "\n", "{\n", [LBrace]);
    LexCons('\n', "}", "\n}", [RBrace]);
  }

  lemma LexSeparators()
    ensures Lex(",") == Some([Comma]) && Lex(",\n") == Some([Comma]) && Lex(", ") == Some([Comma])
  {
    hide First;
    LexCons('\n', "", "\n", []);
    LexCons(' ', "", " ", []);
    LexCons(',', "", ",", [Comma]);
    hide Lex;
    LexCons(',', "\n", ",\n", [Comma]);
    LexCons(',', " ", ", ", [Comma]);
  }

  lemma LexAfterName()
    ensures Lex(": ") == Some([Colon]) && Lex(": {\n") == Some([Colon, LBrace]) && Lex(": [") == Some([Colon, LBracket])
  {
    hide Lex;
    LexNothing();
    LexEnds();
    LexTwo(':', "", ": ", [], [Colon]);
    LexTwo(':', "{\n", ": {\n", [LBrace], [Colon, LBrace]);
    LexCons('[', "", "[", [LBracket]);
    LexTwo(':', "[", ": [", [LBracket], [Colon, LBracket]);
  }

  lemma LexNothing()
    ensures Lex("") == Some([])
  {
  }

  /** A punctuation mark and a blank in front of a text. */
  lemma LexTwo(c: char, s: string, t: string, x: seq<Token>, ts: seq<Token>)
    requires t == [c] + ([' '] + s) && Lex(s) == Some(x) && !IsBlank(c)
    requires Punctuation(c).Some? && ts == [Punctuation(c).value] + x
    ensures Lex(t) == Some(ts)
  {
    hide Lex;
    LexCons(' ', s, [' '] + s, x);
    LexCons(c, [' '] + s, t, ts);
  }

  /** Two texts that each lex, cut where no number can run across. */
  lemma LexPair(a: string, x: seq<Token>, b: string, y: seq<Token>, z: seq<Token>)
    requires Lex(a) == Some(x) && Lex(b) == Some(y) && CutOk(a, b) && z == x + y
    ensures Lex(a + b) == Some(z)
  {
    LexAppend(a, b);
  }

  lemma LexSpaces(n: nat)
    ensures Lex(Spaces(n)) == Some([]) && Bounded(Spaces(n))
  {
    LexBlanks(Spaces(n));
  }

  lemma {:induction false} DecimalDigits(n: nat)
    ensures var d := Decimal(n);
            && |d| >= 1 && (forall i :: 0 <= i < |d| ==> IsDigit(d[i]))
            && (d[0] == '0' ==> |d| == 1)
            && (d[0] == '0' <==> n == 0)
  {
    if n >= 10 { DecimalDigits(n / 10); }
  }

  lemma SkipsAll(s: string, i: nat)
    requires i <= |s| && forall k :: i <= k < |s| ==> IsDigit(s[k])
    ensures SkipDigits(s, i) == |s|
  {
  }

  /** Integers print as numbers of the RFC grammar. */
  lemma TextIsNumber(v: Scalar)
    requires Clean(v) && !v.String?
    ensures IsNumber(Text(v))
  {
    match v
    case Double(t) =>
    case Uint(u) =>
      DecimalDigits(u);
      SkipsAll(Text(v), 0);
    case Int(i) =>
      DecimalDigits(if i < 0 then -i else i);
      SkipsAll(Text(v), if i < 0 then 1 else 0);
  }

  lemma LexText(v: Scalar)
    requires Clean(v)
    ensures Lex(Text(v)) == Some(ValueTokens(Denotes(v)))
  {
    if v.String? {
      LexQuoted(v.s);
    } else {
      TextIsNumber(v);
      LexNumber(Text(v));
    }
  }

  /** The tokens a call adds. */
  function ChunkTokens(first: bool, call: Call): seq<Token> {
    var sep := if first then [] else [Comma];
    match call
    case DocumentBegin => [LBrace]
    case DocumentEnd => [RBrace]
    case AttrObjectBegin(name) => sep + [Str(name), Colon, LBrace]
    case Attr(name, v) => sep + [Str(name), Colon] + ValueTokens(Denotes(v))
    case ArrayBegin(name) => sep + [Str(name), Colon, LBracket]
    case ArrayEnd => [RBracket]
    case Element(v) => sep + ValueTokens(Denotes(v))
    case ElementObjectBegin => sep + [LBrace]
    case AttrObjectEnd => [RBrace]
    case ElementObjectEnd => [RBrace]
  }

  /** A name with what precedes it and the punctuation behind it. */
  lemma LexName(sep: string, x: seq<Token>, n: nat, name: string, post: string, y: seq<Token>, z: seq<Token>)
    requires Lex(sep) == Some(x) && Bounded(sep) && Plain(name) && Lex(post) == Some(y) && z == x + [Str(name)] + y
    ensures Lex(sep + Spaces(n) + Quote(name) + post) == Some(z)
  {
    hide Lex;
    LexSpaces(n);
    LexQuoted(name);
    LexPair(sep, x, Spaces(n), [], x);
    LexPair(sep + Spaces(n), x, Quote(name), [Str(name)], x + [Str(name)]);
    LexPair(sep + Spaces(n) + Quote(name), x + [Str(name)], post, y, z);
  }

  /** What the attribute functions write up to the value. */
  lemma LexAttrName(first: bool, n: nat, name: string, post: string, y: seq<Token>, z: seq<Token>)
    requires Plain(name) && Lex(post) == Some(y) && z == (if first then [] else [Comma]) + [Str(name)] + y
    ensures Lex((if first then "" else ",\n") + Spaces(n) + Quote(name) + post) == Some(z)
  {
    hide Lex;
    LexNothing();
    LexSeparators();
    LexName(if first then "" else ",\n", if first then [] else [Comma], n, name, post, y, z);
  }

  lemma LexAttr(first: bool, n: nat, name: string, v: Scalar)
    requires Plain(name) && Clean(v)
    ensures Lex((if first then "" else ",\n") + Spaces(n) + Quote(name) + ": " + Text(v))
            == Some((if first then [] else [Comma]) + [Str(name), Colon] + ValueTokens(Denotes(v)))
  {
    hide Lex;
    hide Text;
    hide ValueTokens;
    var text := (if first then "" else ",\n") + Spaces(n) + Quote(name) + ": ";
    var x := (if first then [] else [Comma]) + [Str(name), Colon];
    LexAfterName();
    LexAttrName(first, n, name, ": ", [Colon], x);
    LexText(v);
    LexPair(text, x, Text(v), ValueTokens(Denotes(v)), x + ValueTokens(Denotes(v)));
  }

  lemma LexElement(first: bool, v: Scalar)
    requires Clean(v)
    ensures Lex((if first then "" else ", ") + Text(v))
            == Some((if first then [] else [Comma]) + ValueTokens(Denotes(v)))
  {
    hide Lex;
    hide Text;
    hide ValueTokens;
    var x := if first then [] else [Comma];
    LexNothing();
    LexSeparators();
    LexText(v);
    LexPair(if first then "" else ", ", x, Text(v), ValueTokens(Denotes(v)), x + ValueTokens(Denotes(v)));
  }

  lemma LexElementObject(first: bool, n: nat)
    ensures Lex((if first then "" else ",") + "\n" + Spaces(n) + "{\n")
            == Some((if first then [] else [Comma]) + [LBrace])
  {
    hide Lex;
    var pre := if first then "" else ",";
    var x := if first then [] else [Comma];
    LexNothing();
    LexSeparators();
    LexEnds();
    LexSpaces(n);
    LexPair(pre, x, "\n", [], x);
    LexPair(pre + "\n", x, Spaces(n), [], x);
    LexPair(pre + "\n" + Spaces(n), x, "{\n", [LBrace], x + [LBrace]);
  }

  lemma LexChunk(c: Ctx, p: Progress, call: Call)
    requires Allowed(p, call)
    ensures Lex(Chunk(c, call)) == Some(ChunkTokens(c.first, call))
  {
    hide Lex;
    hide Text;
    hide ValueTokens;
    hide Spaces;
    hide Quote;
    LexEnds();
    LexAfterName();
    match call
    case DocumentBegin =>
      LexSpaces(c.indent);
      LexPair(Spaces(c.indent), [], "{\n", [LBrace], [LBrace]);
    case DocumentEnd =>
      LexSpaces(Dec(c.indent));
      LexPair(Spaces(Dec(c.indent)), [], "\n}", [RBrace], [RBrace]);
    case AttrObjectBegin(name) =>
      LexAttrName(c.first, c.indent, name, ": {\n", [Colon, LBrace], ChunkTokens(c.first, call));
    case Attr(name, v) => LexAttr(c.first, c.indent, name, v);
    case ArrayBegin(name) =>
      LexAttrName(c.first, c.indent, name, ": [", [Colon, LBracket], ChunkTokens(c.first, call));
    case ArrayEnd =>
    case Element(v) => LexElement(c.first, v);
    case ElementObjectBegin => LexElementObject(c.first, c.indent);
    case AttrObjectEnd => LexObjectEnd(c.indent);
    case ElementObjectEnd => LexObjectEnd(c.indent);
  }

  lemma LexObjectEnd(n: nat)
    ensures Lex("\n" + Spaces(Dec(n)) + "}") == Some([RBrace])
  {
    hide Lex;
    LexEnds();
    LexSpaces(Dec(n));
    LexPair("\n", [], Spaces(Dec(n)), [], []);
    LexPair("\n" + Spaces(Dec(n)), [], "}", [RBrace], [RBrace]);
  }

  // ---- Every call keeps the invariant ------------------------------------

  lemma ValuesAppend(ms: seq<Member>, m: Member)
    ensures Values(ms + [m]) == Values(ms) + [m.value]
  {
  }

  /** The tokens of one item inside a container of the given kind. */
  function ItemOf(kind: Kind, m: Member): seq<Token> {
    if kind == ArrayAttr then ValueTokens(m.value) else OneMember(m)
  }

  lemma Assoc(a: seq<Token>, b: seq<Token>, c: seq<Token>)
    ensures a + (b + c) == (a + b) + c
  {
  }

  /** The comma a new item of the innermost container needs. */
  function Lead(stack: seq<Frame>): seq<Token> {
    if stack == [] then [] else Sep(stack[|stack| - 1].members)
  }

  lemma OpenTokensPush(stack: seq<Frame>, f: Frame)
    ensures OpenTokens(stack + [f]) == OpenTokens(stack) + Lead(stack) + Open(f) + Body(f)
  {
    var s := stack + [f];
    assert s[..|s| - 1] == stack;
  }

  lemma BodyAdd(f: Frame, m: Member)
    ensures Body(f.(members := f.members + [m])) == Body(f) + (Sep(f.members) + ItemOf(f.kind, m))
  {
    hide ItemTokens;
    hide MemberTokens;
    ValuesAppend(f.members, m);
    ItemTokensAppend(Values(f.members), m.value);
    MemberTokensAppend(f.members, m);
  }

  lemma OpenTokensAdd(stack: seq<Frame>, m: Member)
    requires stack != []
    ensures var top := stack[|stack| - 1];
            OpenTokens(AddMember(stack, m)) == OpenTokens(stack) + (Sep(top.members) + ItemOf(top.kind, m))
  {
    hide OpenTokens;
    hide Body;
    hide ItemOf;
    hide Open;
    hide Lead;
    hide Sep;
    hide AddMember;
    var n := |stack| - 1;
    var top := stack[n];
    var top' := top.(members := top.members + [m]);
    var extra := Sep(top.members) + ItemOf(top.kind, m);
    TopOf(stack, m);
    OpenTokensPush(stack[..n], top);
    OpenTokensPush(stack[..n], top');
    SameOpen(top, m);
    var base := OpenTokens(stack[..n]) + Lead(stack[..n]) + Open(top);
    assert OpenTokens(stack) == base + Body(top);
    assert OpenTokens(AddMember(stack, m)) == base + Body(top');
    BodyAdd(top, m);
    Assoc(base, Body(top), extra);
  }

  lemma TopOf(stack: seq<Frame>, m: Member)
    requires stack != []
    ensures var n := |stack| - 1;
            && stack == stack[..n] + [stack[n]]
            && AddMember(stack, m) == stack[..n] + [stack[n].(members := stack[n].members + [m])]
  {
  }

  lemma SameOpen(f: Frame, m: Member)
    ensures Open(f.(members := f.members + [m])) == Open(f)
  {
  }

  function Closer(kind: Kind): Token {
    if kind == ArrayAttr then RBracket else RBrace
  }

  lemma ClosedTokens(f: Frame, parent: Kind)
    requires f.kind != Document && (f.kind == ElementObject <==> parent == ArrayAttr)
    ensures ItemOf(parent, Member(f.name, Closed(f))) == Open(f) + Body(f) + [Closer(f.kind)]
  {
    var v := Closed(f);
    if parent != ArrayAttr {
      assert OneMember(Member(f.name, v)) == [Str(f.name), Colon] + ValueTokens(v);
    }
    if f.kind == ArrayAttr {
      assert ValueTokens(v) == [LBracket] + Body(f) + [RBracket];
    } else {
      assert ValueTokens(v) == [LBrace] + Body(f) + [RBrace];
    }
  }

  /** The tokens of the text after a call, in the reference semantics. */
  function After(p: Progress): seq<Token> {
    if p.done.Some? then ValueTokens(p.done.value) else OpenTokens(p.stack)
  }

  lemma TokensOpen(p: Progress, call: Call)
    requires Allowed(p, call) && Opens(call)
    ensures var first := p.stack != [] && p.stack[|p.stack| - 1].members == [];
            OpenTokens(p.stack) + ChunkTokens(first, call) == After(Apply(p, call))
  {
    hide OpenTokens;
    var f := Apply(p, call).stack[|p.stack|];
    assert Apply(p, call).stack == p.stack + [f];
    OpenTokensPush(p.stack, f);
    assert Body(f) == [];
    EmptyStack();
    var first := p.stack != [] && p.stack[|p.stack| - 1].members == [];
    assert ChunkTokens(first, call) == Lead(p.stack) + Open(f);
    Assoc(OpenTokens(p.stack), Lead(p.stack), Open(f));
    var t := OpenTokens(p.stack) + Lead(p.stack) + Open(f);
    assert t + [] == t;
  }

  lemma TokensClose(p: Progress, call: Call)
    requires Allowed(p, call) && Closes(call) && WellNested(p.stack)
    ensures OpenTokens(p.stack) + [Closer(p.stack[|p.stack| - 1].kind)] == After(Apply(p, call))
  {
    hide OpenTokens;
    hide ValueTokens;
    hide AddMember;
    hide Closed;
    hide Closer;
    var n := |p.stack| - 1;
    var f, base := p.stack[n], p.stack[..n];
    assert p.stack == base + [f];
    if n == 0 {
      assert p.stack == [f];
      CloseLast(f);
    } else {
      CloseInner(base, f);
    }
  }

  /** Closing the document. */
  lemma CloseLast(f: Frame)
    requires f.kind == Document
    ensures OpenTokens([f]) + [Closer(f.kind)] == ValueTokens(Closed(f))
  {
    hide OpenTokens;
    hide ValueTokens;
    hide Body;
    hide Open;
    hide Closed;
    EmptyStack();
    OpenTokensPush([], f);
    DocumentTokens(f);
    assert [] + [f] == [f];
    assert [] + [] + Open(f) + Body(f) == Open(f) + Body(f);
  }

  /** Closing a container inside another. */
  lemma CloseInner(base: seq<Frame>, f: Frame)
    requires base != [] && f.kind != Document && (f.kind == ElementObject <==> base[|base| - 1].kind == ArrayAttr)
    ensures OpenTokens(base + [f]) + [Closer(f.kind)] == OpenTokens(AddMember(base, Member(f.name, Closed(f))))
  {
    hide OpenTokens;
    hide Body;
    hide ItemOf;
    hide Open;
    hide Closed;
    hide Closer;
    hide AddMember;
    hide ValueTokens;
    OpenTokensPush(base, f);
    ClosedTokens(f, base[|base| - 1].kind);
    OpenTokensAdd(base, Member(f.name, Closed(f)));
    CloseRegroup(OpenTokens(base), Lead(base), Open(f), Body(f), [Closer(f.kind)]);
  }

  lemma CloseRegroup(a: seq<Token>, l: seq<Token>, o: seq<Token>, b: seq<Token>, c: seq<Token>)
    ensures (a + l + o + b) + c == a + (l + (o + b + c))
  {
  }

  lemma DocumentTokens(f: Frame)
    requires f.kind == Document
    ensures ValueTokens(Closed(f)) == Open(f) + Body(f) + [RBrace]
  {
  }

  lemma ApplyNests(p: Progress, call: Call)
    requires Allowed(p, call) && WellNested(p.stack)
    ensures WellNested(Apply(p, call).stack)
  {
    hide WellNested;
    hide AddMember;
    hide Closed;
    var n := |p.stack| - 1;
    if Opens(call) {
      PushNests(p, call);
      assert [] + [OpenedFrame(call)] == [OpenedFrame(call)];
    } else if Closes(call) {
      PopNests(p.stack);
      if n > 0 { AddNests(p.stack[..n], Member(p.stack[n].name, Closed(p.stack[n]))); }
    } else if call.Attr? {
      AddNests(p.stack, Member(call.name, Denotes(call.value)));
    } else {
      AddNests(p.stack, Member("", Denotes(call.value)));
    }
  }

  function OpenedFrame(call: Call): Frame
    requires Opens(call)
  {
    match call
    case DocumentBegin => Frame(Document, "", [])
    case AttrObjectBegin(name) => Frame(AttrObject, name, [])
    case ArrayBegin(name) => Frame(ArrayAttr, name, [])
    case ElementObjectBegin => Frame(ElementObject, "", [])
  }

  lemma PushNests(p: Progress, call: Call)
    requires Allowed(p, call) && Opens(call) && WellNested(p.stack)
    ensures WellNested(p.stack + [OpenedFrame(call)])
  {
  }

  lemma PopNests(stack: seq<Frame>)
    requires WellNested(stack) && stack != []
    ensures WellNested(stack[..|stack| - 1]) && WellNested([])
  {
  }

  lemma AddNests(stack: seq<Frame>, m: Member)
    requires WellNested(stack) && stack != []
    ensures WellNested(AddMember(stack, m))
  {
  }

  /** What the reference semantics adds is what the emitter writes. */
  lemma TokensStep(p: Progress, call: Call)
    requires Allowed(p, call) && WellNested(p.stack)
    ensures var first := p.stack != [] && p.stack[|p.stack| - 1].members == [];
            OpenTokens(p.stack) + ChunkTokens(first, call) == After(Apply(p, call))
  {
    if Opens(call) {
      TokensOpen(p, call);
    } else if Closes(call) {
      TokensClose(p, call);
      CloserToken(p, call);
    } else {
      TokensScalar(p, call);
    }
  }

  lemma CloserToken(p: Progress, call: Call)
    requires Allowed(p, call) && Closes(call)
    ensures forall first :: ChunkTokens(first, call) == [Closer(p.stack[|p.stack| - 1].kind)]
  {
  }

  lemma TokensScalar(p: Progress, call: Call)
    requires Allowed(p, call) && !Opens(call) && !Closes(call)
    ensures OpenTokens(p.stack) + ChunkTokens(p.stack[|p.stack| - 1].members == [], call) == After(Apply(p, call))
  {
    hide OpenTokens;
    hide ValueTokens;
    hide ChunkTokens;
    hide ItemOf;
    var m := if call.Attr? then Member(call.name, Denotes(call.value)) else Member("", Denotes(call.value));
    OpenTokensAdd(p.stack, m);
    ScalarTokens(p.stack[|p.stack| - 1], call, m);
  }

  lemma ScalarTokens(top: Frame, call: Call, m: Member)
    requires call.Attr? || call.Element?
    requires call.Attr? <==> top.kind != ArrayAttr
    requires m == if call.Attr? then Member(call.name, Denotes(call.value)) else Member("", Denotes(call.value))
    ensures ChunkTokens(top.members == [], call) == Sep(top.members) + ItemOf(top.kind, m)
  {
  }

  lemma EmptyStack()
    ensures OpenTokens([]) == []
  {
  }

  lemma ChunkCut(c: Ctx, p: Progress, call: Call)
    requires Allowed(p, call) && (call.Element? && c.first ==> Bounded(c.out))
    ensures CutOk(c.out, Chunk(c, call))
    ensures Opens(call) ==> Bounded(c.out + Chunk(c, call))
  {
    hide Text;
    var s := Chunk(c, call);
    if !(call.Element? && c.first) {
      assert s != "" && !IsNumberChar(s[0]);
    }
    if Opens(call) {
      assert !IsNumberChar(s[|s| - 1]);
    }
  }

  lemma IndentStep(start: nat, depth: nat)
    ensures Inc((start + depth) % UINT_RANGE) == (start + (depth + 1)) % UINT_RANGE
    ensures depth > 0 ==> Dec((start + depth) % UINT_RANGE) == (start + (depth - 1)) % UINT_RANGE
  {
  }

  /** Depth and emptiness after a call. */
  lemma ApplyShape(p: Progress, call: Call)
    requires Allowed(p, call) && WellNested(p.stack)
    ensures var p', n := Apply(p, call), |p.stack|;
            && |p'.stack| == (if Opens(call) then n + 1 else if Closes(call) then n - 1 else n)
            && (p'.done.Some? <==> call.DocumentEnd?) && (p'.done.Some? ==> p'.stack == [])
            && (p'.done.None? ==> p'.stack != [] && (p'.stack[|p'.stack| - 1].members == [] <==> Opens(call)))
  {
  }

  lemma StepKeepsInv(c: Ctx, p: Progress, call: Call, start: nat)
    requires Inv(c, p, start) && Allowed(p, call)
    ensures Inv(Step(c, call), Apply(p, call), start)
  {
    hide Lex;
    hide OpenTokens;
    hide ValueTokens;
    hide Chunk;
    hide ChunkTokens;
    hide CutOk;
    hide Bounded;
    hide WellNested;
    hide Apply;
    hide Inc;
    hide Dec;
    TokensStep(p, call);
    ApplyNests(p, call);
    ApplyShape(p, call);
    LexChunk(c, p, call);
    ChunkCut(c, p, call);
    IndentStep(start, |p.stack|);
    var first := p.stack != [] && p.stack[|p.stack| - 1].members == [];
    assert ChunkTokens(c.first, call) == ChunkTokens(first, call) by { FirstIrrelevant(c.first, first, call, p); }
    LexPair(c.out, OpenTokens(p.stack), Chunk(c, call), ChunkTokens(first, call),
            OpenTokens(p.stack) + ChunkTokens(first, call));
  }

  lemma FirstIrrelevant(a: bool, b: bool, call: Call, p: Progress)
    requires Allowed(p, call) && (p.stack == [] || a == b)
    ensures ChunkTokens(a, call) == ChunkTokens(b, call)
  {
  }

  /** In every properly nested run the bit says whether the innermost container
      is empty, the text so far is the tokens of the open containers, and the
      indentation is the start plus the depth. */
  lemma {:induction false} RunKeepsInv(c: Ctx, p: Progress, calls: seq<Call>, start: nat)
    requires Inv(c, p, start) && Nested(p, calls)
    ensures Inv(Run(c, calls), Described(p, calls), start)
    decreases |calls|
  {
    if calls == [] {
    } else {
      StepKeepsInv(c, p, calls[0], start);
      RunKeepsInv(Step(c, calls[0]), Apply(p, calls[0]), calls[1..], start);
    }
  }

  /** Round trip: a document emitted by properly nested calls parses back to the
      value the calls describe, and the indentation level is restored. */
  lemma RoundTrip(start: nat, calls: seq<Call>)
    requires start < UINT_RANGE && Nested(START, calls) && Described(START, calls).done.Some?
    ensures var c := Run(Ctx("", start, true), calls);
            && Parse(c.out) == Described(START, calls).done
            && c.indent == start
  {
    hide Run;
    hide Described;
    hide Nested;
    hide ValueTokens;
    hide ParseValue;
    hide OpenTokens;
    assert Inv(Ctx("", start, true), START, start) by {
      EmptyStack();
      LexNothing();
    }
    hide Lex;
    RunKeepsInv(Ctx("", start, true), START, calls, start);
    var v := Described(START, calls).done.value;
    ParseTokens(v, []);
    assert ValueTokens(v) + [] == ValueTokens(v);
  }
}
