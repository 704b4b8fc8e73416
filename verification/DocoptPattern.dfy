/** Pattern trees of the usage-pattern engine (core/deps/fmt-5.3.0/support/docopt.py). */
module DocoptPattern {

  /** A terminal of a usage pattern, with the name its class is matched by. */
  datatype Leaf =
    | Argument(name: string)
    | Command(name: string)
    | Option(name: string)

  datatype Pattern =
    | Tip(leaf: Leaf)
    | Required(children: seq<Pattern>)
    | Optional(children: seq<Pattern>)
    | OptionsShortcut(children: seq<Pattern>)
    | Either(children: seq<Pattern>)
    | OneOrMore(children: seq<Pattern>)
}
