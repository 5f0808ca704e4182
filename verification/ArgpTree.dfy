/** A tree of option parsers, as argp users describe it. */
module ArgpTree {
  import opened Options

  /** struct argp_option.  `arg` says whether the option takes an argument; the
      flags are those the parser and the help list look at. */
  datatype Opt = Opt(name: Option<string>, key: int, arg: bool, argOptional: bool,
                     alias: bool, doc: bool, hidden: bool)

  /** struct argp.  A null `options` differs from an empty one: the latter still
      gives the parser a group. */
  datatype Argp = Argp(options: Option<seq<Opt>>, hasParser: bool, argsDoc: Option<string>, children: seq<Argp>)
}
