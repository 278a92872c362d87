/** The push/pop/check-sat interpreter: it replays the command list over a
    stack of command scopes and hands a snapshot of the whole stack to the
    writer at every check-sat. Writing the file is left to the caller; the
    interpreter returns the snapshots with their output index and path. */
module ScopeStack {
  import opened Wrappers
  import opened Text
  import opened Commands

  /** The commands added since the matching push. */
  type Scope = seq<Command>
  /** Bottom scope first, top scope last. */
  type Stack = seq<Scope>

  const Extension := ".mzn"

  /** The stack a translation starts from: one empty scope. */
  const InitialStack: Stack := [[]]

  /** The count of a push or pop: its first argument, 1 when it has none. */
  function Count(counts: seq<int>): (r: int)
    ensures |counts| == 0 ==> r == 1
    ensures |counts| > 0 ==> r == counts[0]
  {
    if |counts| > 0 then counts[0] else 1
  }

  /** `push n`: appends n empty scopes (none when n is not positive, as
      `range(n)` is then empty). */
  function PushScopes(s: Stack, n: int): (r: Stack)
    decreases n
    ensures |r| == |s| + (if n > 0 then n else 0)
    ensures r[..|s|] == s
    ensures forall i :: |s| <= i < |r| ==> r[i] == []
  {
    if n <= 0 then s else PushScopes(s, n - 1) + [[]]
  }

  /** Python's normalisation of a slice start against a list of length `len`. */
  function SliceStart(start: int, len: nat): (k: nat)
    ensures k <= len
  {
    if start < 0 then (if start + len < 0 then 0 else start + len)
    else if start > len then len
    else start
  }

  /** `pop n`, that is `del s[-n:]` with Python's slice rules. */
  function PopScopes(s: Stack, n: int): (r: Stack)
    ensures 1 <= n <= |s| ==> r == s[..|s| - n]
    ensures n == 0 || n >= |s| ==> r == []
    ensures n < 0 ==> r == s[..if -n < |s| then -n else |s|]
  {
    s[..SliceStart(-n, |s|)]
  }

  /** Any other command joins the top scope. */
  function AppendTop(s: Stack, c: Command): (r: Stack)
    requires |s| > 0
    ensures |r| == |s|
    ensures r[..|s| - 1] == s[..|s| - 1]
    ensures r[|s| - 1] == s[|s| - 1] + [c]
  {
    s[|s| - 1 := s[|s| - 1] + [c]]
  }

  /** The effect of one command on the stack; None when the command meets
      an empty stack (`current_stack[-1]` raises). */
  function Apply(s: Stack, c: Command): (r: Option<Stack>)
    ensures r.None? <==> |s| == 0 && !(c.CheckSat? || c.Push? || c.Pop?)
    ensures c.CheckSat? ==> r == Some(s)
    ensures c.Push? ==> r == Some(PushScopes(s, Count(c.counts)))
    ensures c.Pop? ==> r == Some(PopScopes(s, Count(c.counts)))
    ensures r.Some? && !(c.CheckSat? || c.Push? || c.Pop?) ==>
      |r.value| == |s| && r.value[..|s| - 1] == s[..|s| - 1] && r.value[|s| - 1] == s[|s| - 1] + [c]
  {
    match c
    case CheckSat => Some(s)
    case Push(counts) => Some(PushScopes(s, Count(counts)))
    case Pop(counts) => Some(PopScopes(s, Count(counts)))
    case _ => if |s| == 0 then None else Some(AppendTop(s, c))
  }

  /** The file the `index`-th check-sat writes: every `.mzn` of the
      configured path becomes `_<index>.mzn`. */
  function OutPath(outFile: string, index: nat): (r: string)
    ensures !Contains(outFile, Extension) ==> r == outFile
  {
    ReplaceAll(outFile, Extension, "_" + NatToString(index) + Extension)
  }

  /** What one check-sat hands to the writer. */
  datatype Snapshot = Snapshot(index: nat, path: string, stack: Stack)

  /** The snapshots of a run, and the error that ended it early, if any. */
  datatype Trace = Trace(snapshots: seq<Snapshot>, failure: Option<Error>)

  /** The interpreter loop from stack `s`, numbering check-sats from `index`. */
  function Run(cmds: seq<Command>, s: Stack, index: nat, outFile: string): (r: Trace)
    decreases |cmds|
    ensures |r.snapshots| <= CountCheckSat(cmds)
    ensures r.failure.None? || r.failure == Some(EmptyStack)
  {
    if |cmds| == 0 then Trace([], None)
    else if cmds[0].CheckSat? then
      var rest := Run(cmds[1..], s, index + 1, outFile);
      Trace([Snapshot(index, OutPath(outFile, index), s)] + rest.snapshots, rest.failure)
    else
      match Apply(s, cmds[0])
      case None => Trace([], Some(EmptyStack))
      case Some(s') => Run(cmds[1..], s', index, outFile)
  }

  /** `_parse_stack`: one empty scope to start with, check-sats numbered
      from 1. The loop ends at the first command that meets an empty stack,
      so only the check-sats before it are written. */
  function ParseStack(cmds: seq<Command>, outFile: string): (r: Trace)
    ensures |r.snapshots| <= CountCheckSat(cmds)
    ensures r.failure.None? || r.failure == Some(EmptyStack)
    ensures |r.snapshots| == CountCheckSat(cmds[..FirstEmpty(cmds, InitialStack)])
  {
    RunStopsAtFirstEmpty(cmds, InitialStack, 1, outFile);
    Run(cmds, InitialStack, 1, outFile)
  }

  /** Reference: the stack the commands leave behind; None when a command
      meets an empty stack. */
  function Replay(cmds: seq<Command>, s: Stack): Option<Stack>
    decreases |cmds|
  {
    if |cmds| == 0 then Some(s)
    else
      match Apply(s, cmds[0])
      case None => None
      case Some(s') => Replay(cmds[1..], s')
  }

  /** Reference: the position of the first command that meets an empty
      stack, or the number of commands when none does. */
  function FirstEmpty(cmds: seq<Command>, s: Stack): (r: nat)
    decreases |cmds|
    ensures r <= |cmds|
    ensures r < |cmds| <==> Replay(cmds, s).None?
  {
    if |cmds| == 0 then 0
    else
      match Apply(s, cmds[0])
      case None => 0
      case Some(s') => 1 + FirstEmpty(cmds[1..], s')
  }

  /** The command at `FirstEmpty` is an ordinary command, and the commands
      before it leave the stack empty. */
  lemma {:induction false} FirstEmptyMeetsEmpty(cmds: seq<Command>, s: Stack)
    requires FirstEmpty(cmds, s) < |cmds|
    ensures var k := FirstEmpty(cmds, s);
            && Replay(cmds[..k], s) == Some([])
            && !(cmds[k].CheckSat? || cmds[k].Push? || cmds[k].Pop?)
    decreases |cmds|
  {
    var k := FirstEmpty(cmds, s);
    if Apply(s, cmds[0]).None? {
      assert k == 0 && cmds[..k] == [];
    } else {
      var next := Apply(s, cmds[0]).value;
      FirstEmptyMeetsEmpty(cmds[1..], next);
      var prefix := cmds[..k];
      assert prefix[0] == cmds[0];
      assert prefix[1..] == cmds[1..][..k - 1];
      assert cmds[k] == cmds[1..][k - 1];
    }
  }

  function CountCheckSat(cmds: seq<Command>): nat
    decreases |cmds|
  {
    if |cmds| == 0 then 0 else (if cmds[0].CheckSat? then 1 else 0) + CountCheckSat(cmds[1..])
  }

  /** `push n` then `pop n` gives back the stack, for every positive n. */
  lemma PushPopRoundTrip(s: Stack, n: int)
    requires n >= 1
    ensures PopScopes(PushScopes(s, n), n) == s
  {
  }

  /** A `push` without argument adds one empty scope on top. */
  lemma PushDefault(s: Stack)
    ensures Apply(s, Push([])) == Some(s + [[]])
  {
    var r := PushScopes(s, 1);
    assert r == s + [[]];
  }

  /** A `pop` without argument removes the top scope when there is one,
      and leaves the empty stack empty. */
  lemma PopDefault(s: Stack)
    ensures |s| >= 1 ==> Apply(s, Pop([])) == Some(s[..|s| - 1])
    ensures |s| == 0 ==> Apply(s, Pop([])) == Some([])
  {
  }

  /** After `pop n` a scope is left exactly when 1 <= n < depth, or when n
      is negative and the stack was not empty: `pop 0` and a pop of the
      whole depth or more remove every scope. */
  lemma PopKeepsAScope(s: Stack, n: int)
    ensures |PopScopes(s, n)| >= 1 <==> (1 <= n < |s| || (n < 0 && |s| >= 1))
  {
  }

  /** The snapshots carry consecutive indices from `index`, each with the
      path derived from its own index. */
  predicate Numbered(snapshots: seq<Snapshot>, index: nat, outFile: string) {
    forall k :: 0 <= k < |snapshots| ==>
      snapshots[k].index == index + k && snapshots[k].path == OutPath(outFile, index + k)
  }

  /** A correctly numbered snapshot in front of a list numbered from the
      next index gives a list numbered from its own. */
  lemma NumberedCons(head: Snapshot, rest: seq<Snapshot>, index: nat, outFile: string)
    requires head.index == index && head.path == OutPath(outFile, index)
    requires Numbered(rest, index + 1, outFile)
    ensures Numbered([head] + rest, index, outFile)
  {
    var all := [head] + rest;
    forall k | 0 <= k < |all|
      ensures all[k].index == index + k && all[k].path == OutPath(outFile, index + k)
    {
      if k > 0 {
        assert all[k] == rest[k - 1];
      }
    }
  }

  lemma {:induction false} RunIndices(cmds: seq<Command>, s: Stack, index: nat, outFile: string)
    ensures Numbered(Run(cmds, s, index, outFile).snapshots, index, outFile)
    decreases |cmds|
  {
    if |cmds| > 0 {
      var t := Run(cmds, s, index, outFile);
      if cmds[0].CheckSat? {
        var rest := Run(cmds[1..], s, index + 1, outFile);
        RunIndices(cmds[1..], s, index + 1, outFile);
        var head := Snapshot(index, OutPath(outFile, index), s);
        assert t.snapshots == [head] + rest.snapshots;
        NumberedCons(head, rest.snapshots, index, outFile);
      } else if Apply(s, cmds[0]).Some? {
        var next := Apply(s, cmds[0]).value;
        assert t == Run(cmds[1..], next, index, outFile);
        RunIndices(cmds[1..], next, index, outFile);
      }
    }
  }

  /** The k-th snapshot (from 0) carries index k + 1 and is written to the
      path with `_<k+1>` before `.mzn`. */
  lemma ParseStackIndices(cmds: seq<Command>, outFile: string)
    ensures Numbered(ParseStack(cmds, outFile).snapshots, 1, outFile)
  {
    RunIndices(cmds, InitialStack, 1, outFile);
  }

  /** The loop stops at the first command that meets an empty stack: the
      check-sats before it each yield a snapshot and no later one does. */
  lemma {:induction false} RunStopsAtFirstEmpty(cmds: seq<Command>, s: Stack, index: nat, outFile: string)
    ensures |Run(cmds, s, index, outFile).snapshots| == CountCheckSat(cmds[..FirstEmpty(cmds, s)])
    decreases |cmds|
  {
    if |cmds| > 0 {
      var t := Run(cmds, s, index, outFile);
      var k := FirstEmpty(cmds, s);
      var prefix := cmds[..k];
      if cmds[0].CheckSat? {
        var rest := Run(cmds[1..], s, index + 1, outFile);
        RunStopsAtFirstEmpty(cmds[1..], s, index + 1, outFile);
        assert |t.snapshots| == 1 + |rest.snapshots|;
        assert prefix[0] == cmds[0];
        assert prefix[1..] == cmds[1..][..k - 1];
      } else if Apply(s, cmds[0]).Some? {
        var next := Apply(s, cmds[0]).value;
        RunStopsAtFirstEmpty(cmds[1..], next, index, outFile);
        assert t == Run(cmds[1..], next, index, outFile);
        assert prefix[0] == cmds[0];
        assert prefix[1..] == cmds[1..][..k - 1];
      } else {
        assert prefix == [];
      }
    }
  }

  lemma {:induction false} RunFailure(cmds: seq<Command>, s: Stack, index: nat, outFile: string)
    ensures var t := Run(cmds, s, index, outFile);
            && (t.failure.Some? <==> Replay(cmds, s).None?)
            && (t.failure.Some? ==> t.failure.value == EmptyStack)
            && (t.failure.None? ==> |t.snapshots| == CountCheckSat(cmds))
            && |t.snapshots| == CountCheckSat(cmds[..FirstEmpty(cmds, s)])
    decreases |cmds|
  {
    RunStopsAtFirstEmpty(cmds, s, index, outFile);
    if |cmds| > 0 {
      if cmds[0].CheckSat? {
        RunFailure(cmds[1..], s, index + 1, outFile);
      } else if Apply(s, cmds[0]).Some? {
        RunFailure(cmds[1..], Apply(s, cmds[0]).value, index, outFile);
      }
    }
  }

  /** A run fails exactly when some command meets an empty stack, and the
      failure is then the `IndexError`. It stops there: only the check-sats
      before that command yield a snapshot, and with no failure every
      check-sat does. */
  lemma ParseStackFailure(cmds: seq<Command>, outFile: string)
    ensures var t := ParseStack(cmds, outFile);
            && (t.failure.Some? <==> Replay(cmds, InitialStack).None?)
            && (t.failure.Some? ==> t.failure.value == EmptyStack)
            && (t.failure.None? ==> |t.snapshots| == CountCheckSat(cmds))
            && |t.snapshots| == CountCheckSat(cmds[..FirstEmpty(cmds, InitialStack)])
  {
    RunFailure(cmds, InitialStack, 1, outFile);
  }

  /** The check-sat at position j yields the (k+1)-th snapshot, k being the
      number of earlier check-sats, and it holds the stack built by the
      commands before it. */
  lemma {:induction false} RunStackAt(cmds: seq<Command>, s: Stack, index: nat, outFile: string, j: int)
    requires 0 <= j < |cmds| && cmds[j].CheckSat? && Replay(cmds[..j], s).Some?
    ensures var t := Run(cmds, s, index, outFile);
            var k := CountCheckSat(cmds[..j]);
            k < |t.snapshots| && t.snapshots[k].stack == Replay(cmds[..j], s).value
    decreases j
  {
    var t := Run(cmds, s, index, outFile);
    if j > 0 {
      var prefix := cmds[..j];
      assert prefix[0] == cmds[0];
      assert prefix[1..] == cmds[1..][..j - 1];
      if cmds[0].CheckSat? {
        var rest := Run(cmds[1..], s, index + 1, outFile);
        assert CountCheckSat(prefix) == 1 + CountCheckSat(prefix[1..]);
        assert Replay(prefix, s) == Replay(prefix[1..], s);
        RunStackAt(cmds[1..], s, index + 1, outFile, j - 1);
        assert t.snapshots == [Snapshot(index, OutPath(outFile, index), s)] + rest.snapshots;
      } else {
        var next := Apply(s, cmds[0]).value;
        assert CountCheckSat(prefix) == CountCheckSat(prefix[1..]);
        assert Replay(prefix, s) == Replay(prefix[1..], next);
        RunStackAt(cmds[1..], next, index, outFile, j - 1);
        assert t == Run(cmds[1..], next, index, outFile);
      }
    } else {
      assert cmds[..j] == [];
    }
  }

  /** The snapshot of the check-sat at position j: its number follows the
      earlier check-sats, its path is derived from that number, and its stack
      is the one built by the commands before it. */
  lemma RunSnapshotAt(cmds: seq<Command>, s: Stack, index: nat, outFile: string, j: int)
    requires 0 <= j < |cmds| && cmds[j].CheckSat? && Replay(cmds[..j], s).Some?
    ensures var t := Run(cmds, s, index, outFile);
            var k := CountCheckSat(cmds[..j]);
            && k < |t.snapshots|
            && t.snapshots[k] == Snapshot(index + k, OutPath(outFile, index + k), Replay(cmds[..j], s).value)
  {
    RunStackAt(cmds, s, index, outFile, j);
    RunIndices(cmds, s, index, outFile);
  }

  /** Check-sat leaves the stack alone: the snapshot taken at the check-sat
      in position j is the stack that the commands before it build from one
      empty scope, and it is the (c+1)-th snapshot, c being the number of
      earlier check-sats. */
  lemma ParseStackSnapshot(cmds: seq<Command>, outFile: string, j: int)
    requires 0 <= j < |cmds| && cmds[j].CheckSat? && Replay(cmds[..j], InitialStack).Some?
    ensures var t := ParseStack(cmds, outFile);
            var k := CountCheckSat(cmds[..j]);
            && k < |t.snapshots|
            && t.snapshots[k] == Snapshot(k + 1, OutPath(outFile, k + 1), Replay(cmds[..j], InitialStack).value)
  {
    RunSnapshotAt(cmds, InitialStack, 1, outFile, j);
  }

  lemma {:induction false} RunPushPop(a: seq<Command>, b: seq<Command>, push: seq<int>, pop: seq<int>,
                                      s: Stack, index: nat, outFile: string)
    requires Count(push) >= 1 && Count(pop) == Count(push)
    ensures Run(a + [Push(push), Pop(pop)] + b, s, index, outFile) == Run(a + b, s, index, outFile)
    decreases |a|
  {
    var x := a + [Push(push), Pop(pop)] + b;
    if |a| == 0 {
      assert x[0] == Push(push) && x[1..][0] == Pop(pop);
      assert x[1..][1..] == b && a + b == b;
      PushPopRoundTrip(s, Count(push));
    } else {
      var y := a + b;
      assert x[0] == a[0] && y[0] == a[0];
      assert x[1..] == a[1..] + [Push(push), Pop(pop)] + b;
      assert y[1..] == a[1..] + b;
      if a[0].CheckSat? {
        RunPushPop(a[1..], b, push, pop, s, index + 1, outFile);
      } else if Apply(s, a[0]).Some? {
        RunPushPop(a[1..], b, push, pop, Apply(s, a[0]).value, index, outFile);
      }
    }
  }

  /** A push immediately undone by a pop of the same positive count changes
      nothing anywhere in the run. */
  lemma ParseStackPushPop(a: seq<Command>, b: seq<Command>, n: int, outFile: string)
    requires n >= 1
    ensures ParseStack(a + [Push([n]), Pop([n])] + b, outFile) == ParseStack(a + b, outFile)
  {
    RunPushPop(a, b, [n], [n], InitialStack, 1, outFile);
  }

  /** In `<head>.mzn<tail>`, with no `.mzn` inside the head, the first
      `.mzn` is the one after the head: an occurrence that started inside
      the head and ran into the extension would need a second `.`. */
  lemma ExtensionFirstAt(head: string, tail: string)
    requires !Contains(head, Extension)
    ensures IndexOf(head + Extension + tail, Extension) == Some(|head|)
  {
    var p := head + Extension + tail;
    var n := |head|;
    assert OccursAt(p, Extension, n) by {
      assert p[n..n + 4] == Extension;
    }
    forall j | 0 <= j < n ensures !OccursAt(p, Extension, j) {
      if j + 4 <= n {
        assert head[j..j + 4] == p[j..j + 4];
        assert !OccursAt(head, Extension, j);
      } else {
        assert p[j..j + 4][n - j] == p[n] == '.';
        assert Extension[n - j] != '.';
      }
    }
  }

  /** Every `.mzn` of the configured path is replaced, left to right: the
      part before the first `.mzn` is kept, that `.mzn` becomes
      `_<index>.mzn`, and the rest of the path is treated the same way.
      With `OutPathWithoutExtension` this fixes the path for every input. */
  lemma OutPathSplit(head: string, tail: string, index: nat)
    requires !Contains(head, Extension)
    ensures OutPath(head + Extension + tail, index)
         == head + "_" + NatToString(index) + Extension + OutPath(tail, index)
  {
    var p := head + Extension + tail;
    var n := |head|;
    ExtensionFirstAt(head, tail);
    assert p[..n] == head && p[n + 4..] == tail;
  }

  /** With the usual `<stem>.mzn` path, the k-th file is `<stem>_k.mzn`. */
  lemma OutPathOfStem(stem: string, index: nat)
    requires !Contains(stem, Extension)
    ensures OutPath(stem + Extension, index) == stem + "_" + NatToString(index) + Extension
  {
    OutPathSplit(stem, "", index);
    assert stem + Extension + "" == stem + Extension;
    assert OutPath("", index) == "";
  }

  /** A directory named `<dir>.mzn` is renamed as well: with no `.mzn`
      elsewhere, `<dir>.mzn/<name>.mzn` becomes
      `<dir>_<index>.mzn/<name>_<index>.mzn`. */
  lemma OutPathEveryExtension(dir: string, name: string, index: nat)
    requires !Contains(dir, Extension) && !Contains("/" + name, Extension)
    ensures var k := NatToString(index);
      OutPath(dir + Extension + ("/" + name + Extension), index)
      == dir + "_" + k + Extension + ("/" + name + "_" + k + Extension)
  {
    OutPathSplit(dir, "/" + name + Extension, index);
    OutPathOfStem("/" + name, index);
  }

  /** With the usual `<stem>.mzn` path, different check-sats write
      different files. */
  lemma OutPathDistinct(stem: string, i: nat, j: nat)
    requires !Contains(stem, Extension) && i != j
    ensures OutPath(stem + Extension, i) != OutPath(stem + Extension, j)
  {
    OutPathOfStem(stem, i);
    OutPathOfStem(stem, j);
    if OutPath(stem + Extension, i) == OutPath(stem + Extension, j) {
      NumberedNameInjective(stem, NatToString(i), NatToString(j));
      NatToStringInjective(i, j);
    }
  }

  lemma NumberedNameInjective(stem: string, a: string, b: string)
    requires stem + "_" + a + Extension == stem + "_" + b + Extension
    ensures a == b
  {
    var n := |stem| + 1;
    assert (stem + "_" + a + Extension)[n..n + |a|] == a;
    assert (stem + "_" + b + Extension)[n..n + |b|] == b;
  }

  /** A path without `.mzn` is used unchanged by every check-sat, so each
      file overwrites the previous one. */
  lemma OutPathWithoutExtension(outFile: string, index: nat)
    requires !Contains(outFile, Extension)
    ensures OutPath(outFile, index) == outFile
  {
  }
}
