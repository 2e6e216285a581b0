/** What getopt is told about the arguments of options: the colons behind a letter
    in the short-option string, and has_arg in the long-option table. */
module ParserArguments {
  import opened Basics
  import opened Argp
  import opened ArgpTree
  import opened ParserTables

  /** How many colons stand together from `i` on. */
  function Colons(s: seq<int>, i: nat): nat
    decreases |s| - i
  {
    if i < |s| && s[i] == ':' as int then 1 + Colons(s, i + 1) else 0
  }

  /** getopt takes no argument after a lone letter, one after a letter with a
      colon, and an optional one after a letter with two colons. */
  function ColonsFor(base: Opt): nat {
    if !base.hasArg then 0 else if base.argOptional then 2 else 1
  }

  lemma {:induction false} ColonsOfTail(s: seq<int>, i: nat)
    requires i <= |s|
    ensures Colons(s, i) == Colons(s[i..], 0)
    decreases |s| - i
  {
    if i < |s| && s[i] == ':' as int {
      ColonsOfTail(s, i + 1);
      ColonsOfTail(s[i..], 1);
      assert s[i..][1..] == s[i + 1..];
    }
  }

  /** No option has the colon as its letter. */
  predicate NoColon(os: seq<Owned>) {
    forall o :: o in os && Listed(o) && Short(o) ==> o.opt.key != ':' as int
  }

  lemma {:induction false} TextStarts(os: seq<Owned>)
    requires NoColon(os)
    ensures TextOf(os) == [] || TextOf(os)[0] != ':' as int
    decreases |os|
  {
    if os != [] {
      var n := |os| - 1;
      assert NoColon(os[..n]) by { forall o | o in os[..n] ensures o in os { } }
      TextStarts(os[..n]);
      assert os[n] in os;
    }
  }

  lemma ColonsBehind(o: Owned, rest: seq<int>)
    requires ShortText(o) != [] && (rest == [] || rest[0] != ':' as int)
    ensures Colons(ShortText(o) + rest, 1) == ColonsFor(o.base)
  {
    var s := ShortText(o) + rest;
    var n := |ShortText(o)|;
    assert Colons(s, n) == 0;
    assert n > 1 ==> Colons(s, n - 1) == 1;
    assert n > 2 ==> Colons(s, n - 2) == 2;
  }

  /** Behind the first occurrence of a letter stand the colons of the first option
      in pre-order that declares it. */
  lemma LetterArgument(prefix: seq<int>, os: seq<Owned>, k: int, j: nat)
    requires Letter(k) && k !in prefix && FirstParsed(os, k, j) && NoColon(os)
    ensures var s := prefix + TextOf(os);
            var i := IndexFrom(s, k, 0);
            i < |s| && Colons(s, i + 1) == ColonsFor(os[j].base)
  {
    hide TextOf;
    hide ShortText;
    var s := prefix + TextOf(os);
    var i := |prefix| + |TextOf(os[..j])|;
    LetterPlace(prefix, os, k, j);
    FirstAtUnique(s, k, i, IndexFrom(s, k, 0));
    var rest := TextOf(os[j + 1..]);
    TextInThree(os, j);
    assert s[i..] == ShortText(os[j]) + rest;
    assert NoColon(os[j + 1..]) by { forall o | o in os[j + 1..] ensures o in os { } }
    TextStarts(os[j + 1..]);
    assert ShortText(os[j]) != [] by { ListedHasText(os[j], k); }
    ColonsOfTail(s, i + 1);
    ColonsOfTail(s[i..], 1);
    assert s[i..][1..] == s[i + 1..];
    ColonsBehind(os[j], rest);
  }

  lemma ListedHasText(o: Owned, k: int)
    requires Parsed(o, k)
    ensures ShortText(o) != []
  {
  }

  lemma TextInThree(os: seq<Owned>, j: nat)
    requires j < |os|
    ensures TextOf(os) == TextOf(os[..j]) + (ShortText(os[j]) + TextOf(os[j + 1..]))
  {
    hide TextOf;
    hide ShortText;
    TextConcat(os[..j], os[j..]);
    TextConcat([os[j]], os[j + 1..]);
    TextSnoc([], os[j]);
    EmptyText();
    assert os == os[..j] + os[j..] && os[j..] == [os[j]] + os[j + 1..] && [] + [os[j]] == [os[j]];
    assert [] + ShortText(os[j]) == ShortText(os[j]);
  }

  /** The tables tell getopt for every letter whether it takes an argument. */
  lemma ShortArguments(t: Tables, prefix: seq<int>, gs: seq<Located>, us: seq<bool>, k: int, j: nat)
    requires Holds(t, prefix, gs, us) && Letter(k) && k !in prefix
    requires FirstParsed(AllDeclared(gs), k, j) && NoColon(AllDeclared(gs))
    ensures var i := IndexFrom(t.short, k, 0);
            i < |t.short| && Colons(t.short, i + 1) == ColonsFor(AllDeclared(gs)[j].base)
  {
    hide TextOf;
    hide AllDeclared;
    LetterArgument(prefix, AllDeclared(gs), k, j);
  }

  /** The same for every long name. */
  lemma LongArguments(t: Tables, prefix: seq<int>, gs: seq<Located>, us: seq<bool>, name: string, j: int, i: nat)
    requires Holds(t, prefix, gs, us) && i < |t.longs| && t.longs[i].name == name
    requires FirstNamed(AllTagged(gs), name, j)
    ensures var base := AllTagged(gs)[j].o.base;
            && (t.longs[i].hasArg == NoArgument <==> !base.hasArg)
            && (t.longs[i].hasArg == RequiredArgument <==> base.hasArg && !base.argOptional)
            && (t.longs[i].hasArg == OptionalArgument <==> base.hasArg && base.argOptional)
  {
    hide AllTagged;
    hide LongTable;
    hide TextOf;
    hide Encode;
    LongTableIsFirst(AllTagged(gs), name);
  }

  /** The first character tells getopt how to treat arguments among the options:
      '-' hands them over in order, '+' stops at the first. */
  lemma OrderingCharacter(t: Tables, inOrder: bool, noArgs: bool, gs: seq<Located>, us: seq<bool>)
    requires Holds(t, Prefix(inOrder, noArgs), gs, us)
    ensures inOrder ==> t.short != [] && t.short[0] == '-' as int
    ensures !inOrder && noArgs ==> t.short != [] && t.short[0] == '+' as int
    ensures !inOrder && !noArgs ==> t.short == TextOf(AllDeclared(gs))
  {
    hide TextOf;
    hide AllDeclared;
  }
}
