/** The line rewriting done before the script reaches the SMT-LIB parser:
    comments go, each soft-assert group gets one synthetic declaration, and
    colons in set-option lines are spaced out. */
module Preprocessor {
  import opened Wrappers
  import opened Seqs
  import opened Text

  const SoftAssertName := "assert-soft"
  const IdTag := ":id"
  /** The id test looks for the tag followed by a space ... */
  const IdTagSpaced := ":id "
  /** ... and a soft assertion without it belongs to this group. */
  const DefaultGroup := "I"
  const SetOptionOpen := "(set-option"

  /** Lines that start with `;` are dropped whole. */
  predicate IsCommentLine(line: string) {
    |line| > 0 && line[0] == ';'
  }

  /** Skips up to, not including, the next newline. */
  function RestOfLine(s: string): (r: string)
    decreases |s|
    ensures |r| <= |s| && r == s[|s| - |r|..]
    ensures forall j :: 0 <= j < |s| - |r| ==> s[j] != '\n'
    ensures |r| > 0 ==> r[0] == '\n'
  {
    if |s| == 0 || s[0] == '\n' then s else RestOfLine(s[1..])
  }

  /** `re.sub(r";.*", "", s)`: every `;` goes together with what follows it
      up to the next newline; the newline itself stays. */
  function StripComment(s: string): (r: string)
    decreases |s|
    ensures ';' !in r
    ensures |r| <= |s|
  {
    if |s| == 0 then ""
    else if s[0] == ';' then StripComment(RestOfLine(s[1..]))
    else [s[0]] + StripComment(s[1..])
  }

  /** The newline that ends a line, if it has one. */
  function Terminator(line: string): string {
    if |line| > 0 && line[|line| - 1] == '\n' then "\n" else ""
  }

  /** A line without `;` is left as it is. */
  lemma {:induction false} StripCommentWithoutSemicolon(s: string)
    requires ';' !in s
    ensures StripComment(s) == s
    decreases |s|
  {
    if |s| > 0 {
      assert s == [s[0]] + s[1..];
      StripCommentWithoutSemicolon(s[1..]);
    }
  }

  lemma LineTail(line: string)
    requires IsLine(line) && |line| > 0
    ensures IsLine(line[1..])
    ensures |line| > 1 ==> Terminator(line[1..]) == Terminator(line)
  {
  }

  /** On a line, skipping to the newline leaves just the line's newline. */
  lemma {:induction false} RestOfLineIsTerminator(x: string)
    requires IsLine(x)
    ensures RestOfLine(x) == Terminator(x)
    decreases |x|
  {
    if |x| > 0 && x[0] != '\n' {
      LineTail(x);
      RestOfLineIsTerminator(x[1..]);
    }
  }

  /** A line that starts with `;` keeps only its newline. */
  lemma StripCommentAtSemicolon(line: string)
    requires IsLine(line) && |line| > 0 && line[0] == ';'
    ensures StripComment(line) == Terminator(line)
  {
    var tail := line[1..];
    LineTail(line);
    RestOfLineIsTerminator(tail);
    assert StripComment(line) == StripComment(Terminator(tail));
    if |line| == 1 {
      assert Terminator(line) == "" && Terminator(tail) == "";
    } else {
      assert Terminator(tail) == Terminator(line);
      assert StripComment("\n") == "\n" + StripComment("");
    }
  }

  /** A line loses everything from its first `;` on, except its newline. */
  lemma {:induction false} StripCommentCutsAtFirst(line: string, i: nat)
    requires IsLine(line) && i < |line| && line[i] == ';'
    requires forall j :: 0 <= j < i ==> line[j] != ';'
    ensures StripComment(line) == line[..i] + Terminator(line)
    decreases i
  {
    if i == 0 {
      StripCommentAtSemicolon(line);
      assert line[..i] == [];
    } else {
      var tail := line[1..];
      LineTail(line);
      StripCommentCutsAtFirst(tail, i - 1);
      assert StripComment(line) == [line[0]] + StripComment(tail);
      assert Terminator(tail) == Terminator(line);
      assert line[..i] == [line[0]] + tail[..i - 1];
      AppendAssoc([line[0]], tail[..i - 1], Terminator(tail));
    }
  }

  /** Comment stripping keeps a line a line. */
  lemma {:induction false} StripCommentKeepsLine(line: string)
    requires IsLine(line)
    ensures IsLine(StripComment(line))
    decreases |line|
  {
    if |line| > 0 {
      LineTail(line);
      if line[0] == ';' {
        RestOfLineIsTerminator(line[1..]);
        assert StripComment("\n") == "\n" + StripComment("");
      } else if |line| == 1 {
        assert StripComment(line) == [line[0]] + StripComment("");
      } else {
        StripCommentKeepsLine(line[1..]);
        PrependToLine([line[0]], StripComment(line[1..]));
      }
    }
  }

  /** The group a comment-stripped line's soft assertion belongs to, or
      None when the line has no `assert-soft`. */
  function SoftGroup(line: string): (g: Option<string>)
    ensures g.Some? <==> Contains(line, SoftAssertName)
    ensures g.Some? && !Contains(line, IdTagSpaced) ==> g.value == DefaultGroup
    ensures g.Some? ==> ')' !in g.value
  {
    if !Contains(line, SoftAssertName) then None
    else if Contains(line, IdTagSpaced) then Some(RemoveChar(Strip(SplitLast(line, IdTag)), ')'))
    else Some(DefaultGroup)
  }

  /** Two occurrences of `:id` cannot overlap. */
  lemma IdTagsApart(s: string, p: int, q: int)
    requires OccursAt(s, IdTag, p) && OccursAt(s, IdTag, q) && p < q
    ensures p + |IdTag| <= q
  {
    assert s[p..p + 3] == ":id" && s[q..q + 3] == ":id";
    assert s[p + 1] == 'i' && s[p + 2] == 'd' && s[q] == ':';
  }

  /** A suffix that follows `:id` and holds no `:id` of its own starts
      where the last `:id` ends. */
  lemma AfterLastIdTag(s: string, p: int, q: int)
    requires OccursAt(s, IdTag, p) && !Contains(s[p + |IdTag|..], IdTag)
    requires OccursAt(s, IdTag, q) && !Contains(s[q + |IdTag|..], IdTag)
    ensures p == q
  {
    if p < q {
      IdTagsApart(s, p, q);
      OccursInSuffix(s, p + 3, IdTag, q - p - 3);
      assert false;
    } else if q < p {
      IdTagsApart(s, q, p);
      OccursInSuffix(s, q + 3, IdTag, p - q - 3);
      assert false;
    }
  }

  /** The group named by `:id` is the text after the last `:id` of the
      line, trimmed of whitespace, with every `)` removed. */
  lemma {:induction false} SoftGroupAfterLastId(line: string, before: string, tail: string)
    requires line == before + IdTag + tail && !Contains(tail, IdTag)
    requires Contains(line, SoftAssertName) && Contains(line, IdTagSpaced)
    ensures SoftGroup(line) == Some(RemoveChar(Strip(tail), ')'))
  {
    var p := |before|;
    assert line[p..p + 3] == IdTag;
    assert line[p + 3..] == tail;
    ContainsAt(line, IdTag, p);
    var r := SplitLast(line, IdTag);
    var q := |line| - |r| - 3;
    assert line[q + 3..] == r;
    AfterLastIdTag(line, p, q);
  }

  /** The synthetic declaration inserted for a soft-assert group. */
  function Declaration(group: string, idType: string): string {
    "\n(declare-fun " + group + " () " + idType + ")\n"
  }

  lemma DeclarationInjective(g1: string, g2: string, idType: string)
    requires Declaration(g1, idType) == Declaration(g2, idType)
    ensures g1 == g2
  {
    var d := Declaration(g1, idType);
    assert |g1| == |g2|;
    assert d[14..14 + |g1|] == g1;
    assert Declaration(g2, idType)[14..14 + |g2|] == g2;
  }

  /** A synthetic declaration is never mistaken for a kept line: it starts
      with a newline that is not its last character. */
  lemma DeclarationIsNotLine(group: string, idType: string)
    ensures !IsLine(Declaration(group, idType))
  {
    var d := Declaration(group, idType);
    assert d[..|d| - 1][0] == '\n';
  }

  /** The set-option fix-up applied to a comment-stripped line. */
  function Rewrite(line: string): (r: string)
    ensures !Contains(line, SetOptionOpen) ==> r == line
    ensures Contains(line, SetOptionOpen) ==> UnspaceColons(r) == line
    ensures ':' !in line ==> r == line
    ensures Contains(line, SetOptionOpen) ==>
      r == Flatten(seq(|line|, i requires 0 <= i < |line| => Spaced(line[i])))
    ensures IsLine(line) ==> IsLine(r)
  {
    if Contains(line, SetOptionOpen) then
      UnspaceSpaceColons(line);
      SpaceColonsKeepsLine(line);
      SpaceColons(line)
    else
      line
  }

  /** The group of an input line: None for comment lines and for lines
      without a soft assertion. */
  function LineGroup(line: string): Option<string> {
    if IsCommentLine(line) then None else SoftGroup(StripComment(line))
  }

  function OptionSet(o: Option<string>): set<string> {
    match o
    case None => {}
    case Some(g) => {g}
  }

  /** Every group id the lines use. */
  function GroupsOf(lines: seq<string>): set<string>
    decreases |lines|
  {
    if |lines| == 0 then {} else OptionSet(LineGroup(lines[0])) + GroupsOf(lines[1..])
  }

  /** What the loop appends for one non-comment line: the group's
      declaration if the group is new, then the line itself. */
  function Emitted(line: string, seen: set<string>, idType: string): seq<string> {
    var stripped := StripComment(line);
    var group := SoftGroup(stripped);
    (if group.Some? && group.value !in seen then [Declaration(group.value, idType)] else [])
    + [Rewrite(stripped)]
  }

  /** A line's group is new to `seen` exactly when it adds one to the
      number of groups still to be declared. */
  lemma NewGroupCount(o: Option<string>, later: set<string>, seen: set<string>)
    ensures |(OptionSet(o) + later) - seen|
         == |later - (seen + OptionSet(o))| + (if o.Some? && o.value !in seen then 1 else 0)
  {
    if o.Some? {
      var g := o.value;
      if g in seen {
        assert (OptionSet(o) + later) - seen == later - (seen + OptionSet(o));
      } else {
        var rest := later - (seen + OptionSet(o));
        assert (OptionSet(o) + later) - seen == rest + {g};
        assert g !in rest;
      }
    } else {
      assert (OptionSet(o) + later) - seen == later - (seen + OptionSet(o));
    }
  }

  /** The preprocessing loop, run from a state in which the groups in
      `seen` already have their declaration. */
  function Fold(lines: seq<string>, seen: set<string>, idType: string): (r: seq<string>)
    decreases |lines|
    ensures |r| <= 2 * |lines|
  {
    if |lines| == 0 then []
    else if IsCommentLine(lines[0]) then Fold(lines[1..], seen, idType)
    else Emitted(lines[0], seen, idType) + Fold(lines[1..], seen + OptionSet(LineGroup(lines[0])), idType)
  }

  /** The loop's output holds one entry per non-comment line and one
      declaration per group not yet seen, and nothing else: a comment line
      contributes nothing. */
  lemma {:induction false} FoldLength(lines: seq<string>, seen: set<string>, idType: string)
    ensures |Fold(lines, seen, idType)| == |Rewritten(lines)| + |GroupsOf(lines) - seen|
    decreases |lines|
  {
    if |lines| > 0 {
      var rest := lines[1..];
      if IsCommentLine(lines[0]) {
        assert GroupsOf(lines) == GroupsOf(rest);
        FoldLength(rest, seen, idType);
      } else {
        var seen' := seen + OptionSet(LineGroup(lines[0]));
        NewGroupCount(LineGroup(lines[0]), GroupsOf(rest), seen);
        FoldLength(rest, seen', idType);
      }
    }
  }

  /** The lines handed on to the parser. Apart from the inserted
      declarations they are exactly the non-comment lines, comment-stripped,
      fixed up when they are set-option lines, in their original order. */
  function PreprocessLines(lines: seq<string>, idType: string): (r: seq<string>)
    ensures AllLines(lines) ==> KeptLines(r) == Rewritten(lines)
    ensures |r| == |Rewritten(lines)| + |GroupsOf(lines)|
  {
    var out := Fold(lines, {}, idType);
    assert |out| == |Rewritten(lines)| + |GroupsOf(lines)| by {
      FoldLength(lines, {}, idType);
      assert GroupsOf(lines) - {} == GroupsOf(lines);
    }
    assert AllLines(lines) ==> KeptLines(out) == Rewritten(lines) by {
      if AllLines(lines) {
        FoldKeepsLines(lines, {}, idType);
      }
    }
    out
  }

  /** The whole preprocessing step, text to text: the text is cut into
      lines, the lines are rewritten, and the result is joined again with
      newlines (each kept line still ends in its own). */
  function Preprocess(text: string, idType: string): (r: string)
    ensures var out := PreprocessLines(ReadLines(text), idType);
      && KeptLines(out) == Rewritten(ReadLines(text))
      && |out| == |Rewritten(ReadLines(text))| + |GroupsOf(ReadLines(text))|
      && (|out| == 0 ==> r == "")
      && (|out| > 0 ==> |r| == |Flatten(out)| + |out| - 1 && r[..|out[0]|] == out[0])
  {
    Join(PreprocessLines(ReadLines(text), idType), "\n")
  }

  /** The output lines that are not synthetic declarations. */
  function KeptLines(out: seq<string>): seq<string>
    decreases |out|
  {
    if |out| == 0 then []
    else (if IsLine(out[0]) then [out[0]] else []) + KeptLines(out[1..])
  }

  /** Reference: each non-comment line, stripped and fixed up, in order. */
  function Rewritten(lines: seq<string>): seq<string>
    decreases |lines|
  {
    if |lines| == 0 then []
    else (if IsCommentLine(lines[0]) then [] else [Rewrite(StripComment(lines[0]))]) + Rewritten(lines[1..])
  }

  predicate AllLines(lines: seq<string>) {
    forall i :: 0 <= i < |lines| ==> IsLine(lines[i])
  }

  lemma {:induction false} KeptLinesAppend(a: seq<string>, b: seq<string>)
    ensures KeptLines(a + b) == KeptLines(a) + KeptLines(b)
    decreases |a|
  {
    if |a| == 0 {
      assert a + b == b;
    } else {
      assert (a + b)[1..] == a[1..] + b;
      KeptLinesAppend(a[1..], b);
    }
  }

  /** One step of the loop, with comment lines and other lines alike. */
  lemma FoldStep(lines: seq<string>, seen: set<string>, idType: string)
    requires |lines| > 0
    ensures Fold(lines, seen, idType)
         == (if IsCommentLine(lines[0]) then [] else Emitted(lines[0], seen, idType))
            + Fold(lines[1..], seen + OptionSet(LineGroup(lines[0])), idType)
  {
    if IsCommentLine(lines[0]) {
      assert seen + OptionSet(LineGroup(lines[0])) == seen;
    }
  }

  /** Running the loop over `a + b` is running it over `a`, then over `b`
      with the groups of `a` already declared. */
  lemma {:induction false} FoldAppend(a: seq<string>, b: seq<string>, seen: set<string>, idType: string)
    ensures Fold(a + b, seen, idType) == Fold(a, seen, idType) + Fold(b, seen + GroupsOf(a), idType)
    decreases |a|
  {
    if |a| == 0 {
      assert a + b == b;
      assert seen + GroupsOf(a) == seen;
    } else {
      var ab := a + b;
      var rest := a[1..];
      assert ab[0] == a[0];
      assert ab[1..] == rest + b;
      var head := if IsCommentLine(a[0]) then [] else Emitted(a[0], seen, idType);
      var seen' := seen + OptionSet(LineGroup(a[0]));
      FoldStep(ab, seen, idType);
      assert Fold(ab, seen, idType) == head + Fold(rest + b, seen', idType);
      FoldStep(a, seen, idType);
      assert Fold(a, seen, idType) == head + Fold(rest, seen', idType);
      FoldAppend(rest, b, seen', idType);
      assert seen' + GroupsOf(rest) == seen + GroupsOf(a);
      var x := Fold(rest, seen', idType);
      var y := Fold(b, seen + GroupsOf(a), idType);
      AppendAssoc(head, x, y);
    }
  }

  lemma {:induction false} FoldKeepsLines(lines: seq<string>, seen: set<string>, idType: string)
    requires AllLines(lines)
    ensures KeptLines(Fold(lines, seen, idType)) == Rewritten(lines)
    decreases |lines|
  {
    if |lines| > 0 {
      var seen' := seen + OptionSet(LineGroup(lines[0]));
      if IsCommentLine(lines[0]) {
        FoldKeepsLines(lines[1..], seen, idType);
      } else {
        var line := StripComment(lines[0]);
        var group := SoftGroup(line);
        var decl := if group.Some? && group.value !in seen then [Declaration(group.value, idType)] else [];
        assert Emitted(lines[0], seen, idType) == decl + [Rewrite(line)];
        FoldKeepsLines(lines[1..], seen', idType);
        KeptLinesAppend(decl + [Rewrite(line)], Fold(lines[1..], seen', idType));
        KeptLinesAppend(decl, [Rewrite(line)]);
        if group.Some? && group.value !in seen {
          DeclarationIsNotLine(group.value, idType);
          assert KeptLines(decl) == KeptLines([]);
        }
        StripCommentKeepsLine(lines[0]);
        assert KeptLines([Rewrite(line)]) == [Rewrite(line)] + KeptLines([]);
      }
    }
  }

  /** One non-comment line declares a group exactly when the group is its
      own and not yet seen. */
  lemma EmittedDeclarationCount(line: string, seen: set<string>, idType: string, group: string)
    requires IsLine(line) && !IsCommentLine(line)
    ensures multiset(Emitted(line, seen, idType))[Declaration(group, idType)]
         == if LineGroup(line) == Some(group) && group !in seen then 1 else 0
  {
    var stripped := StripComment(line);
    var g := SoftGroup(stripped);
    var decl := if g.Some? && g.value !in seen then [Declaration(g.value, idType)] else [];
    assert Emitted(line, seen, idType) == decl + [Rewrite(stripped)];
    StripCommentKeepsLine(line);
    DeclarationIsNotLine(group, idType);
    assert Rewrite(stripped) != Declaration(group, idType);
    if g.Some? && Declaration(g.value, idType) == Declaration(group, idType) {
      DeclarationInjective(g.value, group, idType);
    }
  }

  lemma {:induction false} FoldDeclarationCount(lines: seq<string>, seen: set<string>, idType: string, group: string)
    requires AllLines(lines)
    ensures multiset(Fold(lines, seen, idType))[Declaration(group, idType)]
         == if group in GroupsOf(lines) && group !in seen then 1 else 0
    decreases |lines|
  {
    if |lines| > 0 {
      var rest := lines[1..];
      var seen' := seen + OptionSet(LineGroup(lines[0]));
      assert AllLines(rest) by {
        forall i | 0 <= i < |rest| ensures IsLine(rest[i]) {
          assert rest[i] == lines[i + 1];
        }
      }
      FoldDeclarationCount(rest, seen', idType, group);
      if IsCommentLine(lines[0]) {
        assert seen' == seen;
        assert GroupsOf(lines) == GroupsOf(rest);
      } else {
        EmittedDeclarationCount(lines[0], seen, idType, group);
        var e := Emitted(lines[0], seen, idType);
        assert Fold(lines, seen, idType) == e + Fold(rest, seen', idType);
        assert GroupsOf(lines) == OptionSet(LineGroup(lines[0])) + GroupsOf(rest);
      }
    }
  }

  /** Each group id used by some line gets exactly one synthetic
      declaration; no other id gets one. */
  lemma {:induction false} PreprocessDeclaresOnce(lines: seq<string>, idType: string, group: string)
    requires AllLines(lines)
    ensures multiset(PreprocessLines(lines, idType))[Declaration(group, idType)]
         == if group in GroupsOf(lines) then 1 else 0
  {
    FoldDeclarationCount(lines, {}, idType, group);
  }

  /** The loop reaching the first line of a new group emits the group's
      declaration, then the line, then goes on with the group seen. */
  lemma FoldAtFirstUse(after: seq<string>, seen: set<string>, idType: string, group: string)
    requires |after| > 0 && LineGroup(after[0]) == Some(group) && group !in seen
    ensures Fold(after, seen, idType)
         == [Declaration(group, idType), Rewrite(StripComment(after[0]))]
            + Fold(after[1..], seen + {group}, idType)
  {
    var line := StripComment(after[0]);
    assert !IsCommentLine(after[0]) && SoftGroup(line) == Some(group);
    assert Emitted(after[0], seen, idType) == [Declaration(group, idType), Rewrite(line)];
    assert OptionSet(LineGroup(after[0])) == {group};
  }

  /** The declaration of a group sits right before the first line that uses
      the group, after everything produced for the lines before it. */
  lemma {:induction false} PreprocessDeclaresBeforeFirstUse(lines: seq<string>, idType: string, i: int, group: string)
    requires 0 <= i < |lines|
    requires LineGroup(lines[i]) == Some(group) && group !in GroupsOf(lines[..i])
    ensures var out := PreprocessLines(lines, idType);
            var p := |PreprocessLines(lines[..i], idType)|;
            && p + 1 < |out|
            && out[..p] == PreprocessLines(lines[..i], idType)
            && out[p] == Declaration(group, idType)
            && out[p + 1] == Rewrite(StripComment(lines[i]))
  {
    var before := lines[..i];
    var after := lines[i..];
    assert lines == before + after;
    assert after[0] == lines[i];
    var seen := {} + GroupsOf(before);
    FoldAppend(before, after, {}, idType);
    FoldAtFirstUse(after, seen, idType, group);
    var prefix := Fold(before, {}, idType);
    var emitted := [Declaration(group, idType), Rewrite(StripComment(lines[i]))];
    var tail := Fold(after[1..], seen + {group}, idType);
    var out := Fold(lines, {}, idType);
    assert out == prefix + (emitted + tail);
    assert PreprocessLines(lines, idType) == out;
    assert PreprocessLines(before, idType) == prefix;
    PairAfter(prefix, emitted[0], emitted[1], tail);
  }
}
