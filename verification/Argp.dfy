/** The declarations of <argp.h>: options and trees of argps. */
module Argp {
  import opened Basics

  /** struct argp_option; the OPTION_* flags are separate fields. */
  datatype Opt = Opt(
    name: Option<string>, key: int, hasArg: bool, doc: Option<string>, group: int,
    argOptional: bool, hidden: bool, isAlias: bool, isDoc: bool)

  /** struct argp, together with the struct argp_child entry that lists it:
      `group` and `header` are where and how the parent shows it.  `options` is
      None for a null pointer and otherwise the entries before the end marker;
      a null and an empty `children` list behave alike. */
  datatype Argp = Argp(
    options: Option<seq<Opt>>, hasParser: bool, argsDoc: Option<string>, children: seq<Argp>,
    group: int, header: Option<string>)

  /** isprint in the C locale */
  predicate IsPrint(c: int) {
    0x20 <= c <= 0x7e
  }

  /** __option_is_short */
  predicate IsShort(o: Opt) {
    !o.isDoc && o.key > 0 && o.key <= 0xff && IsPrint(o.key)
  }

  /** A short option is an option whose key is a printable character. */
  lemma ShortExactly(o: Opt)
    ensures IsShort(o) <==> !o.isDoc && ' ' as int <= o.key <= '~' as int
  {
  }

  function Opts(a: Argp): seq<Opt> {
    if a.options.Some? then a.options.value else []
  }

  /** A pointer to an argp in a tree: the child indices that lead to it. */
  type Node = seq<nat>
}
