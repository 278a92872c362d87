/** The per-check-sat batch: the stack snapshot is flattened, its commands
    are sorted into variables, hard asserts, soft asserts and objectives,
    the last priority option is kept, and a writer is chosen. */
module OmtToMzn {
  import opened Wrappers
  import opened Seqs
  import opened Commands
  import opened ScopeStack

  const PriorityKey := "opt.priority"
  /** The values the priority option accepts. */
  const PriorityOptions: set<string> := {"box", "lex"}
  const DefaultPriority := "box"
  const LexPriority := "lex"

  datatype Direction = Max | Min

  /** An objective directive with the arguments of its command. */
  datatype Objective = Objective(direction: Direction, terms: seq<Term>)

  /** `OmtCommandsStack`: the collections of `CommandsStack` and the priority
      option. The source stores each variable's type in a one-element list;
      here it is the type itself. */
  datatype Batch = Batch(
    variables: map<string, string>,
    commands: seq<Objective>,
    asserts: seq<seq<Term>>,
    assertsSoft: seq<seq<Term>>,
    priorityOption: string)

  /** A fresh batch: no entries, priority `box`. */
  const EmptyBatch := Batch(map[], [], [], [], DefaultPriority)

  /** The batch after an attempt to set the priority option, and the error
      the attempt raised, if any. */
  datatype Assignment = Assignment(batch: Batch, raised: Option<Error>)

  /** The priority option's setter: a value outside {box, lex} is refused
      and leaves the batch as it was; any other value is stored. */
  function SetPriority(b: Batch, value: string): (r: Assignment)
    ensures r.raised.None? <==> value in PriorityOptions
    ensures r.raised.Some? ==> r.raised.value == UnsupportedPriority(value) && r.batch == b
    ensures r.raised.None? ==> r.batch.priorityOption == value
    ensures r.batch.variables == b.variables && r.batch.commands == b.commands
    ensures r.batch.asserts == b.asserts && r.batch.assertsSoft == b.assertsSoft
    ensures b.priorityOption in PriorityOptions ==> r.batch.priorityOption in PriorityOptions
  {
    if value !in PriorityOptions then Assignment(b, Some(UnsupportedPriority(value)))
    else Assignment(b.(priorityOption := value), None)
  }

  /** The effect of one flattened command on the batch. */
  function Step(b: Batch, c: Command): (r: Result<Batch, Error>)
    ensures r.Failure? <==> Fault(c).Some?
    ensures r.Failure? ==> r.error == Fault(c).value
    ensures r.Success? ==>
      && r.value.asserts == b.asserts + HardOf(c)
      && r.value.assertsSoft == b.assertsSoft + SoftOf(c)
      && r.value.commands == b.commands + ObjectiveOf(c)
      && r.value.priorityOption == (if SetsPriority(c) then LastWord(c) else b.priorityOption)
      && r.value.variables == (if c.DeclareFun? && |c.symbols| == 1
                               then b.variables[c.symbols[0].name := c.symbols[0].sort]
                               else b.variables)
    ensures Ignored(c) ==> r == Success(b)
  {
    match c
    case DeclareFun(symbols) =>
      if |symbols| == 1 then Success(b.(variables := b.variables[symbols[0].name := symbols[0].sort]))
      else Success(b)
    case Assert(terms) => Success(b.(asserts := b.asserts + [terms]))
    case AssertSoft(terms) => Success(b.(assertsSoft := b.assertsSoft + [terms]))
    case SetOption(words) =>
      if |words| < 2 then Failure(MissingOptionKey)
      else if words[1] == PriorityKey then
        (var outcome := SetPriority(b, words[|words| - 1]);
         if outcome.raised.Some? then Failure(outcome.raised.value) else Success(outcome.batch))
      else Success(b)
    case Maximize(terms) => Success(b.(commands := b.commands + [Objective(Max, terms)]))
    case Minimize(terms) => Success(b.(commands := b.commands + [Objective(Min, terms)]))
    case _ => Success(b)
  }

  /** The loop of `write_stack` over the flattened commands, from batch `b`;
      the first command that raises ends it. */
  function Classify(cmds: seq<Command>, b: Batch): (r: Result<Batch, Error>)
    decreases |cmds|
    ensures r.Failure? ==> r.error == MissingOptionKey || r.error.UnsupportedPriority?
    ensures r.Success? && b.priorityOption in PriorityOptions ==> r.value.priorityOption in PriorityOptions
    ensures r.Success? ==> |r.value.asserts| + |r.value.assertsSoft| + |r.value.commands|
                           <= |b.asserts| + |b.assertsSoft| + |b.commands| + |cmds|
  {
    if |cmds| == 0 then Success(b)
    else
      match Step(b, cmds[0])
      case Failure(e) => Failure(e)
      case Success(b') => Classify(cmds[1..], b')
  }

  /** The writer `write_stack` hands the batch to. */
  datatype Writer = Sat | Lex | Box

  /** No objective: the satisfiability writer; otherwise lex when the
      priority option says so, box by default. */
  function ChooseWriter(b: Batch): (w: Writer)
    ensures w == Sat <==> |b.commands| == 0
    ensures b.priorityOption in PriorityOptions && |b.commands| > 0 ==>
      (w == Box <==> b.priorityOption == DefaultPriority)
  {
    if |b.commands| == 0 then Sat
    else if b.priorityOption == LexPriority then Lex
    else Box
  }

  /** The batch of one check-sat and the writer chosen for it. */
  datatype Plan = Plan(batch: Batch, writer: Writer)

  /** `write_stack`: flatten bottom to top, classify, dispatch. */
  function WriteStack(stack: Stack): (r: Result<Plan, Error>)
    ensures r.Failure? ==> r.error != EmptyStack
    ensures r.Success? ==> r.value.batch.priorityOption in PriorityOptions
    ensures r.Success? ==> (r.value.writer == Sat <==> r.value.batch.commands == [])
    ensures r.Success? && r.value.writer != Sat ==>
      (r.value.writer == Lex <==> r.value.batch.priorityOption == LexPriority)
  {
    match Classify(Flatten(stack), EmptyBatch)
    case Failure(e) => Failure(e)
    case Success(b) => Success(Plan(b, ChooseWriter(b)))
  }

  // Reference definitions: each collection described on its own.

  function HardOf(c: Command): seq<seq<Term>> {
    if c.Assert? then [c.terms] else []
  }

  function SoftOf(c: Command): seq<seq<Term>> {
    if c.AssertSoft? then [c.terms] else []
  }

  function ObjectiveOf(c: Command): seq<Objective> {
    match c
    case Maximize(terms) => [Objective(Max, terms)]
    case Minimize(terms) => [Objective(Min, terms)]
    case _ => []
  }

  /** The arguments of the assert commands, in order. */
  function Hards(cmds: seq<Command>): seq<seq<Term>>
    decreases |cmds|
  {
    if |cmds| == 0 then [] else HardOf(cmds[0]) + Hards(cmds[1..])
  }

  /** The arguments of the assert-soft commands, in order. */
  function Softs(cmds: seq<Command>): seq<seq<Term>>
    decreases |cmds|
  {
    if |cmds| == 0 then [] else SoftOf(cmds[0]) + Softs(cmds[1..])
  }

  /** The maximize and minimize commands, in order. */
  function Objectives(cmds: seq<Command>): seq<Objective>
    decreases |cmds|
  {
    if |cmds| == 0 then [] else ObjectiveOf(cmds[0]) + Objectives(cmds[1..])
  }

  /** A one-symbol declare-fun of `name`. */
  predicate Declares(c: Command, name: string) {
    c.DeclareFun? && |c.symbols| == 1 && c.symbols[0].name == name
  }

  /** The type given to `name` by its last one-symbol declaration. */
  function LastDeclaration(cmds: seq<Command>, name: string): Option<string>
    decreases |cmds|
  {
    if |cmds| == 0 then None
    else
      var later := LastDeclaration(cmds[1..], name);
      if later.Some? then later
      else if Declares(cmds[0], name) then Some(cmds[0].symbols[0].sort)
      else None
  }

  /** A set-option whose key is the priority key. */
  predicate SetsPriority(c: Command) {
    c.SetOption? && |c.words| >= 2 && c.words[1] == PriorityKey
  }

  /** The last argument of a set-option: the value it sets. */
  function LastWord(c: Command): string
    requires c.SetOption? && |c.words| > 0
  {
    c.words[|c.words| - 1]
  }

  /** The value of the last set-option with the priority key. */
  function LastPriority(cmds: seq<Command>): Option<string>
    decreases |cmds|
  {
    if |cmds| == 0 then None
    else
      var later := LastPriority(cmds[1..]);
      if later.Some? then later
      else if SetsPriority(cmds[0]) then Some(LastWord(cmds[0]))
      else None
  }

  /** The error a single command raises during classification, if any. */
  function Fault(c: Command): Option<Error> {
    if !c.SetOption? then None
    else if |c.words| < 2 then Some(MissingOptionKey)
    else if c.words[1] == PriorityKey && LastWord(c) !in PriorityOptions then
      Some(UnsupportedPriority(LastWord(c)))
    else None
  }

  /** The error of the first faulty command. */
  function FirstFault(cmds: seq<Command>): Option<Error>
    decreases |cmds|
  {
    if |cmds| == 0 then None
    else if Fault(cmds[0]).Some? then Fault(cmds[0])
    else FirstFault(cmds[1..])
  }

  /** Commands that leave the batch untouched. */
  predicate Ignored(c: Command) {
    || c.Push? || c.Pop? || c.CheckSat? || c.Other?
    || (c.DeclareFun? && |c.symbols| != 1)
    || (c.SetOption? && |c.words| >= 2 && c.words[1] != PriorityKey)
  }

  lemma {:induction false} ClassifyFailure(cmds: seq<Command>, b: Batch)
    ensures Classify(cmds, b).Failure? <==> FirstFault(cmds).Some?
    ensures Classify(cmds, b).Failure? ==> Classify(cmds, b).error == FirstFault(cmds).value
    decreases |cmds|
  {
    if |cmds| > 0 && Step(b, cmds[0]).Success? {
      ClassifyFailure(cmds[1..], Step(b, cmds[0]).value);
    }
  }

  /** The batch after classification: what it held, plus every hard assert,
      soft assert and objective, each in command order. */
  lemma {:induction false} ClassifyCollects(cmds: seq<Command>, b: Batch)
    ensures Classify(cmds, b).Success? ==>
      && Classify(cmds, b).value.asserts == b.asserts + Hards(cmds)
      && Classify(cmds, b).value.assertsSoft == b.assertsSoft + Softs(cmds)
      && Classify(cmds, b).value.commands == b.commands + Objectives(cmds)
    decreases |cmds|
  {
    if |cmds| > 0 && Step(b, cmds[0]).Success? {
      var c := cmds[0];
      var next := Step(b, c).value;
      ClassifyCollects(cmds[1..], next);
      assert b.asserts + HardOf(c) + Hards(cmds[1..]) == b.asserts + Hards(cmds);
      assert b.assertsSoft + SoftOf(c) + Softs(cmds[1..]) == b.assertsSoft + Softs(cmds);
      assert b.commands + ObjectiveOf(c) + Objectives(cmds[1..]) == b.commands + Objectives(cmds);
    }
  }

  /** Last write wins: after classification a name is declared when it was
      before or some one-symbol declare-fun names it, and its type is the
      one of the last such declaration. */
  lemma {:induction false} ClassifyVariables(cmds: seq<Command>, b: Batch, name: string)
    ensures Classify(cmds, b).Success? ==>
      var vars := Classify(cmds, b).value.variables;
      var last := LastDeclaration(cmds, name);
      && (name in vars <==> name in b.variables || last.Some?)
      && (name in vars ==> vars[name] == if last.Some? then last.value else b.variables[name])
    decreases |cmds|
  {
    if |cmds| > 0 && Step(b, cmds[0]).Success? {
      ClassifyVariables(cmds[1..], Step(b, cmds[0]).value, name);
    }
  }

  /** The priority after classification is the value of the last set-option
      with the priority key, or what the batch held when there is none. */
  lemma {:induction false} ClassifyPriority(cmds: seq<Command>, b: Batch)
    ensures Classify(cmds, b).Success? ==>
      Classify(cmds, b).value.priorityOption
        == if LastPriority(cmds).Some? then LastPriority(cmds).value else b.priorityOption
    decreases |cmds|
  {
    if |cmds| > 0 && Step(b, cmds[0]).Success? {
      ClassifyPriority(cmds[1..], Step(b, cmds[0]).value);
    }
  }

  /** When no command is faulty, the last priority value is an accepted one. */
  lemma {:induction false} LastPriorityAccepted(cmds: seq<Command>)
    requires FirstFault(cmds).None?
    ensures LastPriority(cmds).Some? ==> LastPriority(cmds).value in PriorityOptions
    decreases |cmds|
  {
    if |cmds| > 0 {
      LastPriorityAccepted(cmds[1..]);
    }
  }

  /** A command of any other kind can be taken out of the flattened list
      without changing the outcome. */
  lemma {:induction false} ClassifyIgnores(before: seq<Command>, c: Command, after: seq<Command>, b: Batch)
    requires Ignored(c)
    ensures Classify(before + [c] + after, b) == Classify(before + after, b)
    decreases |before|
  {
    var x := before + [c] + after;
    var y := before + after;
    if |before| == 0 {
      assert x[0] == c && x[1..] == after && y == after;
    } else {
      assert x[0] == before[0] && y[0] == before[0];
      assert x[1..] == before[1..] + [c] + after;
      assert y[1..] == before[1..] + after;
      if Step(b, before[0]).Success? {
        ClassifyIgnores(before[1..], c, after, Step(b, before[0]).value);
      }
    }
  }

  /** Each command lands in at most one of the three lists. */
  lemma {:induction false} CollectedAtMostOnce(cmds: seq<Command>)
    ensures |Hards(cmds)| + |Softs(cmds)| + |Objectives(cmds)| <= |cmds|
    decreases |cmds|
  {
    if |cmds| > 0 {
      CollectedAtMostOnce(cmds[1..]);
    }
  }

  /** `write_stack` on a stack snapshot: it fails exactly when a flattened
      command is faulty, with that command's error; otherwise the batch holds
      the asserts, soft asserts and objectives of the scopes bottom to top,
      and the priority of the last priority option (box when there is none),
      which is always box or lex. */
  lemma WriteStackBatch(stack: Stack)
    ensures var cmds := Flatten(stack);
      && (WriteStack(stack).Failure? <==> FirstFault(cmds).Some?)
      && (WriteStack(stack).Failure? ==> WriteStack(stack).error == FirstFault(cmds).value)
      && (WriteStack(stack).Success? ==>
            var b := WriteStack(stack).value.batch;
            && b.asserts == Hards(cmds)
            && b.assertsSoft == Softs(cmds)
            && b.commands == Objectives(cmds)
            && b.priorityOption == (if LastPriority(cmds).Some? then LastPriority(cmds).value else DefaultPriority)
            && b.priorityOption in PriorityOptions)
  {
    var cmds := Flatten(stack);
    ClassifyFailure(cmds, EmptyBatch);
    ClassifyCollects(cmds, EmptyBatch);
    ClassifyPriority(cmds, EmptyBatch);
    if FirstFault(cmds).None? {
      LastPriorityAccepted(cmds);
    }
  }

  /** The variables of the batch: exactly the names with a one-symbol
      declare-fun in the snapshot, each with the type of its last one. */
  lemma WriteStackVariables(stack: Stack, name: string)
    ensures WriteStack(stack).Success? ==>
      var vars := WriteStack(stack).value.batch.variables;
      var last := LastDeclaration(Flatten(stack), name);
      && (name in vars <==> last.Some?)
      && (name in vars ==> vars[name] == last.value)
  {
    ClassifyVariables(Flatten(stack), EmptyBatch, name);
  }

  /** Dispatch: the sat writer when the snapshot has no objective, the lex
      writer when it has one and its last priority option is lex, the box
      writer otherwise. */
  lemma WriteStackDispatch(stack: Stack)
    ensures WriteStack(stack).Success? ==>
      var cmds := Flatten(stack);
      var w := WriteStack(stack).value.writer;
      && (w == Sat <==> Objectives(cmds) == [])
      && (w == Lex <==> Objectives(cmds) != [] && LastPriority(cmds) == Some(LexPriority))
      && (w == Box <==> Objectives(cmds) != [] && LastPriority(cmds) != Some(LexPriority))
  {
    var cmds := Flatten(stack);
    ClassifyCollects(cmds, EmptyBatch);
    ClassifyPriority(cmds, EmptyBatch);
  }
}
