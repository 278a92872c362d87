/** Parsed script commands, as the external SMT-LIB parser hands them to
    the translator, and the errors the translator can raise. */
module Commands {

  /** A parsed expression. The translator never looks inside one. */
  datatype Term = Term(text: string)

  /** A declared symbol: its printed name and its type tag
      (`BV8`, `Real`, `Bool`, `Int`, ...). */
  datatype Symbol = Symbol(name: string, sort: string)

  /** The command names the translator tests for. */
  const DispatchedNames: set<string> :=
    {"push", "pop", "check-sat", "assert", "assert-soft", "declare-fun",
     "set-option", "maximize", "minimize"}

  /** The name of a command the translator does not single out. */
  type OtherName = n: string | n !in DispatchedNames

  /** One command of the script. The source dispatches on the command
      name; each name it tests for has its own variant here, and every other
      command name (set-logic, get-model, exit, ...) is an `Other`, whose
      name is never one of the dispatched ones. Argument lists are kept as
      lists because the source inspects their length. */
  datatype Command =
    | Push(counts: seq<int>)
    | Pop(counts: seq<int>)
    | CheckSat
    | DeclareFun(symbols: seq<Symbol>)
    | Assert(terms: seq<Term>)
    | AssertSoft(terms: seq<Term>)
    | SetOption(words: seq<string>)
    | Maximize(terms: seq<Term>)
    | Minimize(terms: seq<Term>)
    | Other(name: OtherName, terms: seq<Term>)

  /** The exceptions the core raises. */
  datatype Error =
    /** `IndexError`: a command arrives when every scope has been popped. */
    | EmptyStack
    /** `IndexError`: a set-option with fewer than two arguments has no key. */
    | MissingOptionKey
    /** `ValueError`: the priority option is set to something other than
        `box` or `lex`. */
    | UnsupportedPriority(value: string)
}
