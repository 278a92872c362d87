/** The translation as a whole: preprocess the text, parse it, run the
    scope interpreter, and at every check-sat classify the stack snapshot
    and choose the writer for its output file. */
module Translator {
  import opened Wrappers
  import opened Commands
  import opened ScopeStack
  import opened OmtToMzn
  import opened Preprocessor

  /** One output file: the check-sat index, the path, and the batch and
      writer that go into it. */
  datatype FileOutput = FileOutput(index: nat, path: string, plan: Plan)

  /** The files produced, in order, and the error that ended the
      translation, if any. */
  datatype Translation = Translation(files: seq<FileOutput>, failure: Option<Error>)

  /** The file written for a snapshot: its index and path, and the plan
      `write_stack` makes of its stack. */
  predicate WrittenFrom(f: FileOutput, snap: Snapshot) {
    f.index == snap.index && f.path == snap.path && WriteStack(snap.stack) == Success(f.plan)
  }

  /** `write_stack` on each snapshot in turn; the first failing one raises,
      so nothing after it is written. */
  function WriteAll(snapshots: seq<Snapshot>): (r: Translation)
    decreases |snapshots|
    ensures |r.files| <= |snapshots|
    ensures forall i :: 0 <= i < |r.files| ==> WrittenFrom(r.files[i], snapshots[i])
    ensures r.failure.None? <==> |r.files| == |snapshots|
    ensures r.failure.Some? ==> WriteStack(snapshots[|r.files|].stack) == Failure(r.failure.value)
  {
    if |snapshots| == 0 then Translation([], None)
    else
      match WriteStack(snapshots[0].stack)
      case Failure(e) => Translation([], Some(e))
      case Success(p) =>
        var rest := WriteAll(snapshots[1..]);
        Translation([FileOutput(snapshots[0].index, snapshots[0].path, p)] + rest.files, rest.failure)
  }

  /** `_parse_stack` with `write_stack` at every check-sat. The stack never
      depends on what is written, so the interpreter's snapshots are taken
      first and written afterwards: a failed write comes before any later
      interpreter error and therefore wins. */
  function TranslateCommands(cmds: seq<Command>, outFile: string): (r: Translation)
    ensures |r.files| <= CountCheckSat(cmds)
    ensures forall i :: 0 <= i < |r.files| ==>
      r.files[i].index == i + 1 && r.files[i].path == OutPath(outFile, i + 1)
    ensures r.failure.Some? && |r.files| == CountCheckSat(cmds) ==> r.failure == Some(EmptyStack)
    ensures var snapshots := ParseStack(cmds, outFile).snapshots;
      |r.files| < |snapshots| ==>
        r.failure.Some? && WriteStack(snapshots[|r.files|].stack) == Failure(r.failure.value)
    ensures |r.files| <= |ParseStack(cmds, outFile).snapshots|
    ensures |r.files| <= CountCheckSat(cmds[..FirstEmpty(cmds, InitialStack)])
    ensures |r.files| == |ParseStack(cmds, outFile).snapshots| ==> r.failure == ParseStack(cmds, outFile).failure
  {
    var t := ParseStack(cmds, outFile);
    ParseStackIndices(cmds, outFile);
    var w := WriteAll(t.snapshots);
    Translation(w.files, if w.failure.Some? then w.failure else t.failure)
  }

  /** A command that meets an empty stack ends the translation: after
      `pop 1` removes the only scope, the assert raises and the later
      check-sat writes no file. */
  lemma EmptyStackStopsTranslation(outFile: string)
    ensures TranslateCommands([Pop([1]), Assert([]), CheckSat], outFile) == Translation([], Some(EmptyStack))
  {
    var cmds := [Pop([1]), Assert([]), CheckSat];
    assert Apply(InitialStack, cmds[0]) == Some([]);
    assert FirstEmpty(cmds, InitialStack) == 1;
    assert cmds[..1] == [Pop([1])];
    assert CountCheckSat([Pop([1])]) == 0;
  }

  /** `translate`: preprocessing, then the parser (given here as `parse`,
      since it is not part of this model), then the interpreter. */
  function Translate(text: string, idType: string, outFile: string,
                     parse: string -> seq<Command>): (r: Translation)
    ensures |r.files| <= CountCheckSat(parse(Preprocess(text, idType)))
  {
    TranslateCommands(parse(Preprocess(text, idType)), outFile)
  }

  /** The translation ends without error exactly when no command meets an
      empty stack and every check-sat got its file. */
  lemma TranslateFiles(cmds: seq<Command>, outFile: string)
    ensures var r := TranslateCommands(cmds, outFile);
      r.failure.None? <==> Replay(cmds, InitialStack).Some? && |r.files| == CountCheckSat(cmds)
  {
    ParseStackFailure(cmds, outFile);
  }

  /** The check-sat at position j, after k earlier check-sats, when the
      commands before it run without error. Its file, the (k+1)-th, holds
      the plan for the stack those commands build. When that stack cannot be
      written, the translation fails and produces no file from the (k+1)-th
      on; if every earlier file was written, it fails with that stack's
      error. */
  lemma TranslateFileAt(cmds: seq<Command>, outFile: string, j: int)
    requires 0 <= j < |cmds| && cmds[j].CheckSat? && Replay(cmds[..j], InitialStack).Some?
    ensures var r := TranslateCommands(cmds, outFile);
      var k := CountCheckSat(cmds[..j]);
      var plan := WriteStack(Replay(cmds[..j], InitialStack).value);
      && (k < |r.files| ==> plan == Success(r.files[k].plan) && r.files[k].index == k + 1)
      && (plan.Failure? ==> |r.files| <= k && r.failure.Some?)
      && (plan.Failure? && |r.files| == k ==> r.failure == Some(plan.error))
  {
    ParseStackSnapshot(cmds, outFile, j);
  }
}
