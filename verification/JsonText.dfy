/** JSON texts as sections 2 to 7 of RFC 8259 define them, restricted to strings
    without escapes: a lexer from characters to tokens and a recursive-descent
    parser from tokens to values.  Nothing here knows how texts are emitted. */
module JsonText {
  import opened Basics

  datatype Token = LBrace | RBrace | LBracket | RBracket | Comma | Colon | Str(s: string) | Num(text: string)

  datatype Value =
    | JString(s: string)
    | JNumber(text: string)
    | JArray(items: seq<Value>)
    | JObject(members: seq<Member>)

  datatype Member = Member(name: string, value: Value)

  // ---- Lexer -----------------------------------------------------------

  predicate IsBlank(c: char) {
    c == ' ' || c == '\t' || c == '\n' || c == '\r'
  }

  predicate IsDigit(c: char) {
    '0' <= c <= '9'
  }

  predicate IsNumberChar(c: char) {
    IsDigit(c) || c == '-' || c == '+' || c == '.' || c == 'e' || c == 'E'
  }

  /** A string body that needs no escapes. */
  predicate Plain(s: string) {
    forall i :: 0 <= i < |s| ==> s[i] != '"' && s[i] != '\\' && s[i] >= ' '
  }

  /** First index from `i` on that holds no digit. */
  function SkipDigits(s: string, i: nat): (j: nat)
    requires i <= |s|
    ensures i <= j <= |s| && (j < |s| ==> !IsDigit(s[j]))
    ensures forall k :: i <= k < j ==> IsDigit(s[k])
    decreases |s| - i
  {
    if i < |s| && IsDigit(s[i]) then SkipDigits(s, i + 1) else i
  }

  /** number = [ minus ] int [ frac ] [ exp ], section 6. */
  predicate IsNumber(s: string) {
    && (forall i :: 0 <= i < |s| ==> IsNumberChar(s[i]))
    && var a := if s != "" && s[0] == '-' then 1 else 0;
    && a < |s| && IsDigit(s[a])
    && var b := if s[a] == '0' then a + 1 else SkipDigits(s, a);
    && var c := if b < |s| && s[b] == '.' then SkipDigits(s, b + 1) else b;
    && (c == b || c > b + 1)
    && (c == |s| || IsExponent(s[c..]))
  }

  predicate IsExponent(s: string) {
    && |s| >= 2 && (s[0] == 'e' || s[0] == 'E')
    && var a := if s[1] == '-' || s[1] == '+' then 2 else 1;
    && a < |s| && SkipDigits(s, a) == |s|
  }

  /** Index of the quotation mark that closes a string, or |s|. */
  function CloseQuote(s: string, i: nat): (j: nat)
    requires i <= |s|
    ensures i <= j <= |s|
    decreases |s| - i
  {
    if i == |s| || s[i] == '"' then i else CloseQuote(s, i + 1)
  }

  /** Length of the longest prefix of number characters. */
  function NumberRun(s: string): (n: nat)
    ensures n <= |s|
  {
    if s != "" && IsNumberChar(s[0]) then 1 + NumberRun(s[1..]) else 0
  }

  function Punctuation(c: char): Option<Token> {
    match c
    case '{' => Some(LBrace)
    case '}' => Some(RBrace)
    case '[' => Some(LBracket)
    case ']' => Some(RBracket)
    case ',' => Some(Comma)
    case ':' => Some(Colon)
    case _ => None
  }

  /** The first lexeme of a text: its tokens (none for a blank) and its length. */
  function First(s: string): (r: Option<(seq<Token>, nat)>)
    requires s != ""
    ensures r.Some? ==> 0 < r.value.1 <= |s|
  {
    if IsBlank(s[0]) then Some(([], 1))
    else if Punctuation(s[0]).Some? then Some(([Punctuation(s[0]).value], 1))
    else if s[0] == '"' then
      var j := CloseQuote(s, 1);
      if j < |s| && Plain(s[1..j]) then Some(([Str(s[1..j])], j + 1)) else None
    else
      var n := NumberRun(s);
      if n > 0 && IsNumber(s[..n]) then Some(([Num(s[..n])], n)) else None
  }

  function Lex(s: string): Option<seq<Token>>
    decreases |s|
  {
    if s == "" then Some([])
    else match First(s)
      case None => None
      case Some((ts, n)) =>
        match Lex(s[n..])
        case None => None
        case Some(more) => Some(ts + more)
  }

  // ---- Parser ----------------------------------------------------------

  /** value = object / array / string / number, section 3. */
  function ParseValue(ts: seq<Token>): (r: Option<(Value, seq<Token>)>)
    ensures r.Some? ==> |r.value.1| < |ts|
    decreases |ts|, 1
  {
    if ts == [] then None
    else match ts[0]
      case Str(s) => Some((JString(s), ts[1..]))
      case Num(n) => Some((JNumber(n), ts[1..]))
      case LBracket =>
        if |ts| > 1 && ts[1] == RBracket then Some((JArray([]), ts[2..]))
        else (match ParseItems(ts[1..])
              case Some((xs, rest)) => Some((JArray(xs), rest))
              case None => None)
      case LBrace =>
        if |ts| > 1 && ts[1] == RBrace then Some((JObject([]), ts[2..]))
        else (match ParseMembers(ts[1..])
              case Some((ms, rest)) => Some((JObject(ms), rest))
              case None => None)
      case _ => None
  }

  /** value *( value-separator value ) end-array, section 5. */
  function ParseItems(ts: seq<Token>): (r: Option<(seq<Value>, seq<Token>)>)
    ensures r.Some? ==> |r.value.1| < |ts|
    decreases |ts|, 2
  {
    match ParseValue(ts)
    case None => None
    case Some((v, rest)) =>
      if rest == [] then None
      else if rest[0] == RBracket then Some(([v], rest[1..]))
      else if rest[0] == Comma then
        (match ParseItems(rest[1..])
         case Some((vs, after)) => Some(([v] + vs, after))
         case None => None)
      else None
  }

  /** member = string name-separator value, section 4. */
  function ParseMember(ts: seq<Token>): (r: Option<(Member, seq<Token>)>)
    ensures r.Some? ==> |r.value.1| < |ts|
    decreases |ts|, 2
  {
    if |ts| < 3 || !ts[0].Str? || ts[1] != Colon then None
    else match ParseValue(ts[2..])
      case None => None
      case Some((v, rest)) => Some((Member(ts[0].s, v), rest))
  }

  /** member *( value-separator member ) end-object, section 4. */
  function ParseMembers(ts: seq<Token>): (r: Option<(seq<Member>, seq<Token>)>)
    ensures r.Some? ==> |r.value.1| < |ts|
    decreases |ts|, 3
  {
    match ParseMember(ts)
    case None => None
    case Some((m, rest)) =>
      if rest == [] then None
      else if rest[0] == RBrace then Some(([m], rest[1..]))
      else if rest[0] == Comma then
        (match ParseMembers(rest[1..])
         case Some((ms, after)) => Some(([m] + ms, after))
         case None => None)
      else None
  }

  /** JSON-text = ws value ws, section 2. */
  function Parse(text: string): Option<Value> {
    match Lex(text)
    case None => None
    case Some(ts) =>
      match ParseValue(ts)
      case Some((v, rest)) => if rest == [] then Some(v) else None
      case None => None
  }

  // ---- Token sequences of values ---------------------------------------

  function ValueTokens(v: Value): seq<Token>
    decreases v, 1
  {
    match v
    case JString(s) => [Str(s)]
    case JNumber(n) => [Num(n)]
    case JArray(xs) => [LBracket] + ItemTokens(xs) + [RBracket]
    case JObject(ms) => [LBrace] + MemberTokens(ms) + [RBrace]
  }

  function ItemTokens(xs: seq<Value>): seq<Token>
    decreases xs, 0
  {
    if xs == [] then []
    else if |xs| == 1 then ValueTokens(xs[0])
    else ValueTokens(xs[0]) + [Comma] + ItemTokens(xs[1..])
  }

  function OneMember(m: Member): seq<Token>
    decreases m
  {
    [Str(m.name), Colon] + ValueTokens(m.value)
  }

  function MemberTokens(ms: seq<Member>): seq<Token>
    decreases ms, 0
  {
    if ms == [] then []
    else if |ms| == 1 then OneMember(ms[0])
    else OneMember(ms[0]) + [Comma] + MemberTokens(ms[1..])
  }

  /** The parser inverts the token grammar, whatever follows. */
  lemma {:induction false} ParseTokens(v: Value, rest: seq<Token>)
    ensures ParseValue(ValueTokens(v) + rest) == Some((v, rest))
    decreases v, 1
  {
    var ts := ValueTokens(v) + rest;
    match v
    case JString(s) => assert ts[1..] == rest;
    case JNumber(n) => assert ts[1..] == rest;
    case JArray(xs) =>
      if xs == [] {
        assert ItemTokens(xs) == [];
        assert ts == [LBracket, RBracket] + rest;
        assert ts[2..] == rest;
      } else {
        ParseItemTokens(xs, rest);
        assert ts[1..] == ItemTokens(xs) + [RBracket] + rest;
        ValueStarts(xs[0]);
        assert ts[1] == ValueTokens(xs[0])[0];
      }
    case JObject(ms) =>
      if ms == [] {
        assert MemberTokens(ms) == [];
        assert ts == [LBrace, RBrace] + rest;
        assert ts[2..] == rest;
      } else {
        ParseMemberTokens(ms, rest);
        assert ts[1..] == MemberTokens(ms) + [RBrace] + rest;
        assert ts[1] == Str(ms[0].name);
      }
  }

  lemma ValueStarts(v: Value)
    ensures |ValueTokens(v)| > 0 && ValueTokens(v)[0] != RBracket
  {
  }

  lemma {:induction false} ParseItemTokens(xs: seq<Value>, rest: seq<Token>)
    requires xs != []
    ensures ParseItems(ItemTokens(xs) + [RBracket] + rest) == Some((xs, rest))
    decreases xs, 0
  {
    hide ParseValue;
    hide ValueTokens;
    var ts := ItemTokens(xs) + [RBracket] + rest;
    if |xs| == 1 {
      assert ts == ValueTokens(xs[0]) + ([RBracket] + rest);
      ParseTokens(xs[0], [RBracket] + rest);
      assert ([RBracket] + rest)[1..] == rest;
      assert xs == [xs[0]];
    } else {
      var more := ItemTokens(xs[1..]) + [RBracket] + rest;
      assert ts == ValueTokens(xs[0]) + ([Comma] + more);
      ParseTokens(xs[0], [Comma] + more);
      assert ([Comma] + more)[1..] == more;
      ParseItemTokens(xs[1..], rest);
      assert xs == [xs[0]] + xs[1..];
    }
  }

  lemma {:induction false} ParseOneMember(m: Member, rest: seq<Token>)
    ensures ParseMember(OneMember(m) + rest) == Some((m, rest))
    decreases m
  {
    hide ParseValue;
    ParseTokens(m.value, rest);
    ValueStarts(m.value);
    var ts := OneMember(m) + rest;
    assert ts[0] == Str(m.name) && ts[1] == Colon;
    assert ts[2..] == ValueTokens(m.value) + rest;
  }

  lemma {:induction false} ParseMemberTokens(ms: seq<Member>, rest: seq<Token>)
    requires ms != []
    ensures ParseMembers(MemberTokens(ms) + [RBrace] + rest) == Some((ms, rest))
    decreases ms, 0
  {
    hide ParseMember;
    hide OneMember;
    var ts := MemberTokens(ms) + [RBrace] + rest;
    if |ms| == 1 {
      assert ts == OneMember(ms[0]) + ([RBrace] + rest);
      ParseOneMember(ms[0], [RBrace] + rest);
      assert ([RBrace] + rest)[1..] == rest;
      assert ms == [ms[0]];
    } else {
      var more := MemberTokens(ms[1..]) + [RBrace] + rest;
      assert ts == OneMember(ms[0]) + ([Comma] + more);
      ParseOneMember(ms[0], [Comma] + more);
      assert ([Comma] + more)[1..] == more;
      ParseMemberTokens(ms[1..], rest);
      assert ms == [ms[0]] + ms[1..];
    }
  }

  lemma {:induction false} ItemTokensAppend(xs: seq<Value>, x: Value)
    ensures ItemTokens(xs + [x]) == ItemTokens(xs) + (if xs == [] then [] else [Comma]) + ValueTokens(x)
  {
    if xs == [] {
    } else {
      assert (xs + [x])[1..] == xs[1..] + [x];
      ItemTokensAppend(xs[1..], x);
    }
  }

  lemma {:induction false} MemberTokensAppend(ms: seq<Member>, m: Member)
    ensures MemberTokens(ms + [m]) == MemberTokens(ms) + (if ms == [] then [] else [Comma]) + OneMember(m)
  {
    if ms == [] {
    } else {
      assert (ms + [m])[1..] == ms[1..] + [m];
      MemberTokensAppend(ms[1..], m);
    }
  }

  // ---- Lexing text piece by piece --------------------------------------

  /** Texts may be cut anywhere except between two number characters. */
  predicate CutOk(a: string, b: string) {
    a == "" || b == "" || !IsNumberChar(a[|a| - 1]) || !IsNumberChar(b[0])
  }

  lemma {:induction false} CloseQuoteAppend(a: string, b: string, i: nat)
    requires i <= |a| && CloseQuote(a, i) < |a|
    ensures CloseQuote(a + b, i) == CloseQuote(a, i)
    decreases |a| - i
  {
    if a[i] != '"' { CloseQuoteAppend(a, b, i + 1); }
  }

  lemma {:induction false} NumberRunAppend(a: string, b: string)
    requires CutOk(a, b) && a != ""
    ensures NumberRun(a + b) == NumberRun(a)
    decreases |a|
  {
    assert (a + b)[1..] == a[1..] + b;
    if IsNumberChar(a[0]) {
      if |a| == 1 {
        assert (a + b)[1..] == b;
      } else {
        NumberRunAppend(a[1..], b);
      }
    }
  }

  lemma FirstAppend(a: string, b: string)
    requires a != "" && First(a).Some? && CutOk(a, b)
    ensures First(a + b) == First(a)
  {
    var s := a + b;
    if IsBlank(a[0]) || Punctuation(a[0]).Some? {
    } else if a[0] == '"' {
      CloseQuoteAppend(a, b, 1);
      assert s[1..CloseQuote(a, 1)] == a[1..CloseQuote(a, 1)];
    } else {
      NumberRunAppend(a, b);
      assert s[..NumberRun(a)] == a[..NumberRun(a)];
    }
  }

  lemma {:induction false} LexAppend(a: string, b: string)
    requires Lex(a).Some? && Lex(b).Some? && CutOk(a, b)
    ensures Lex(a + b) == Some(Lex(a).value + Lex(b).value)
    decreases |a|
  {
    hide First;
    if a == "" {
      assert a + b == b && Lex(a).value + Lex(b).value == Lex(b).value;
    } else {
      FirstAppend(a, b);
      var (ts, n) := First(a).value;
      assert (a + b)[n..] == a[n..] + b;
      LexAppend(a[n..], b);
      assert ts + (Lex(a[n..]).value + Lex(b).value) == (ts + Lex(a[n..]).value) + Lex(b).value;
    }
  }

  /** A text that is one lexeme. */
  lemma LexWhole(s: string, ts: seq<Token>)
    requires s != "" && First(s) == Some((ts, |s|))
    ensures Lex(s) == Some(ts)
  {
    hide First;
    assert s[|s|..] == "" && ts + [] == ts;
  }

  lemma {:induction false} CloseQuotePlain(s: string, t: string, i: nat)
    requires Plain(s) && 1 <= i <= |s| + 1 && t == "\"" + s + "\""
    ensures CloseQuote(t, i) == |s| + 1
    decreases |s| + 1 - i
  {
    if i <= |s| {
      assert t[i] == s[i - 1];
      CloseQuotePlain(s, t, i + 1);
    }
  }

  lemma LexQuoted(s: string)
    requires Plain(s)
    ensures Lex("\"" + s + "\"") == Some([Str(s)])
  {
    var t := "\"" + s + "\"";
    CloseQuotePlain(s, t, 1);
    assert t[1..|s| + 1] == s;
    LexWhole(t, [Str(s)]);
  }

  lemma {:induction false} NumberRunWhole(s: string)
    requires forall i :: 0 <= i < |s| ==> IsNumberChar(s[i])
    ensures NumberRun(s) == |s|
  {
    if s != "" { NumberRunWhole(s[1..]); }
  }

  lemma LexNumber(s: string)
    requires IsNumber(s)
    ensures Lex(s) == Some([Num(s)])
  {
    NumberRunWhole(s);
    assert s[..|s|] == s;
    LexWhole(s, [Num(s)]);
  }

  lemma {:induction false} LexBlanks(s: string)
    requires forall i :: 0 <= i < |s| ==> IsBlank(s[i])
    ensures Lex(s) == Some([])
  {
    if s != "" {
      LexBlanks(s[1..]);
      assert Lex(s).value == [] + [];
    }
  }
}
