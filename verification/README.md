# OMT to MiniZinc translator core, modelled in Dafny

This project models the core of pysmt's SMT-LIB/OMT to MiniZinc translator (`pysmt/minizinc`). It covers three pieces that run one after the other:

1. **The line preprocessor** (`_input_preprocessing`), module `Preprocessor`. It turns the script into lines.
   - Lines that start with `;` are dropped.
   - Trailing comments are cut.
   - One synthetic `declare-fun` is inserted for each soft-assert group id; the default group is `I`.
   - Colons in `set-option` lines get a space on each side.
2. **The scope-stack interpreter** (`_parse_stack`), module `ScopeStack`.
   - `push`, `pop` and ordinary commands are replayed over a stack of command scopes.
   - At every `check-sat` the interpreter produces a snapshot of the stack. Each snapshot has a 1-based output index and the path derived from that index.
3. **Batch classification and writer dispatch**, module `OmtToMzn`. This covers `OmtToMzn.write_stack`, `OmtCommandsStack` and `CommandsStack`.
   - A snapshot is flattened bottom to top.
   - Its commands are sorted into a variable map, hard asserts, soft asserts and objectives.
   - The last `opt.priority` option is kept.
   - The sat, lex or box writer is chosen.

The module `Translator` composes the three pieces into `translate`. It produces one `FileOutput` per `check-sat`, in place of the file the source writes. The supporting modules are:

- `Wrappers`: `Option` and `Result`.
- `Seqs`: flattening.
- `Text`: Python's `find`, `split(sep)[-1]`, `strip`, `replace`, `readlines`, `str(n)` and `re.sub(":", " : ", s)`, written out character by character. The other regular expression, `re.sub(r";.*", "", line)`, is `Preprocessor.StripComment`.
- `Commands`: the parsed command and the error kinds. A command the translator does not single out is an `Other`, whose name is never one of the dispatched names.

The source's exceptions are values of `Commands.Error`:

- `EmptyStack` is the `IndexError` of `current_stack[-1]` when no scope is left.
- `MissingOptionKey` is the `IndexError` of `el.args[1]` on a `set-option` with fewer than two arguments.
- `UnsupportedPriority` is the `ValueError` of the priority setter.

Behaviour of the code worth knowing, which the model keeps:

- `pop n` raises nothing itself, and there is no underflow error. It follows Python's `del s[-n:]`: when n is 0, or at least the stack depth, every scope is removed, and when n is negative the first -n scopes are kept. The next ordinary command on an empty stack then fails with `EmptyStack`; a `check-sat` on an empty stack still produces a snapshot.
- A repeated one-symbol `declare-fun` silently overwrites the earlier type; there is no collision error.
- Soft asserts are kept as the command's argument list.

## Model

| member | source | states |
|---|---|---|
| `Seqs.FlattenAppend` | pysmt/minizinc/omtmzn.py:35 | Flattening a concatenation of scope lists is the concatenation of the flattenings. |
| `Seqs.FlattenOrder` | pysmt/minizinc/omtmzn.py:35 | The flattened stack is the scopes below scope i, then scope i's commands in order, then the scopes above it: bottom to top, in order within a scope. |
| `Text.IndexOf` | pysmt/minizinc/translator.py:17-18 | The substring test finds an occurrence exactly when there is one, and it finds the leftmost. |
| `Text.SplitLast` | pysmt/minizinc/translator.py:19 | `split(":id")[-1]` is a suffix with no `:id` of its own. When the line has a `:id`, the suffix starts right after an occurrence; otherwise it is the whole line. |
| `Text.TrimStart` | pysmt/minizinc/translator.py:19 | Only leading whitespace is removed, and the result does not start with whitespace. |
| `Text.TrimEnd` | pysmt/minizinc/translator.py:19 | Only trailing whitespace is removed, and the result does not end with whitespace. |
| `Text.Strip` | pysmt/minizinc/translator.py:19 | `strip()` gives a contiguous piece of the text. Everything before and after that piece is whitespace, and the piece neither starts nor ends with whitespace. |
| `Text.StripIdempotent` | pysmt/minizinc/translator.py:19 | Stripping an already stripped text changes nothing. |
| `Text.RemoveChar` | pysmt/minizinc/translator.py:19 | `replace(")", "")` is the text with each character kept in order, except `)`, which is dropped. The result has no `)`, and every other character keeps its count. |
| `Text.RemoveCharAppend` | pysmt/minizinc/translator.py:19 | Removing `)` from a concatenation removes it from each part. |
| `Text.SpaceColons` | pysmt/minizinc/translator.py:26 | `re.sub(":", " : ", s)` replaces each `:` with ` : ` and keeps every other character in order. So a text without `:` is unchanged, and the result is never shorter. |
| `Text.SpaceColonsAppend` | pysmt/minizinc/translator.py:26 | Re-spacing a concatenation re-spaces each part. |
| `Text.SpaceColonsChar` | pysmt/minizinc/translator.py:26 | A single `:` becomes ` : `, and any other single character is kept. |
| `Text.UnspaceSpaceColons` | pysmt/minizinc/translator.py:26 | Re-spacing colons loses nothing: reading each ` : ` back as `:` gives the original line. |
| `Text.SpaceColonsKeepsLine` | pysmt/minizinc/translator.py:26 | Re-spacing colons keeps a line a line (a newline only at the end). |
| `Text.ReadLines` | pysmt/minizinc/translator.py:14 | `readlines()` cuts the text into non-empty lines whose concatenation is the text. Each line has a newline only at its end, and every line but the last ends with one. |
| `Text.Join` | pysmt/minizinc/translator.py:28 | `"\n".join(parts)` is empty for no parts. Otherwise it has the parts' total length plus one separator between each pair, and it starts with the first part. |
| `Text.JoinAppend` | pysmt/minizinc/translator.py:28 | Joining two non-empty lists puts exactly one separator between their joins. |
| `Text.JoinSingle` | pysmt/minizinc/translator.py:28 | Joining a single part gives that part. |
| `Text.NatToString` | pysmt/minizinc/translator.py:41-42 | `str(file_index)` is the decimal digits of the index, without a leading zero: the digits denote the number itself. |
| `Text.NatToStringInjective` | pysmt/minizinc/translator.py:41-42 | Different indices are written as different strings. |
| `Preprocessor.StripCommentWithoutSemicolon` | pysmt/minizinc/translator.py:16 | A line without `;` passes the comment removal unchanged. |
| `Preprocessor.StripCommentCutsAtFirst` | pysmt/minizinc/translator.py:16 | A line loses everything from its first `;` on, except its final newline. |
| `Preprocessor.StripCommentAtSemicolon` | pysmt/minizinc/translator.py:16 | A line that starts with `;` keeps only its newline. |
| `Preprocessor.StripCommentKeepsLine` | pysmt/minizinc/translator.py:16 | Comment removal keeps a line a line. |
| `Preprocessor.StripComment` | pysmt/minizinc/translator.py:16 | No `;` survives comment removal, and nothing is added. The exact cut is stated by the two lemmas above. |
| `Preprocessor.SoftGroup` | pysmt/minizinc/translator.py:17-21 | A line has a group exactly when it contains `assert-soft`. The group is `I` when there is no `:id `, and a group never contains `)`. |
| `Preprocessor.SoftGroupAfterLastId` | pysmt/minizinc/translator.py:18-19 | With a `:id `, the group is the text after the last `:id`, stripped of whitespace, with every `)` removed. |
| `Preprocessor.DeclarationInjective` | pysmt/minizinc/translator.py:23 | Distinct groups get distinct synthetic declarations. |
| `Preprocessor.DeclarationIsNotLine` | pysmt/minizinc/translator.py:23 | A synthetic declaration can never be taken for a kept input line. |
| `Preprocessor.Rewrite` | pysmt/minizinc/translator.py:25-26 | Only lines containing `(set-option` are changed. In those, each `:` becomes ` : ` and every other character is kept in order. Reading ` : ` back gives the line, and a line stays a line. |
| `Preprocessor.KeptLinesAppend` | pysmt/minizinc/translator.py:27 | Filtering out the synthetic declarations distributes over concatenation. |
| `Preprocessor.FoldAppend` | pysmt/minizinc/translator.py:14-27 | The loop over `a + b` is the loop over `a`, then the loop over `b` with the ids of `a` already declared. |
| `Preprocessor.Fold` | pysmt/minizinc/translator.py:14-27 | Each input line contributes at most two output lines: its declaration and itself. `Preprocessor.FoldLength` gives the exact count. |
| `Preprocessor.FoldLength` | pysmt/minizinc/translator.py:15-27 | The output has exactly one entry per non-comment line plus one per group not yet seen. So a comment line contributes nothing, and with the kept-line and declaration-count lemmas nothing else can appear. |
| `Preprocessor.FoldKeepsLines` | pysmt/minizinc/translator.py:15-27 | From any set of seen ids, the output without declarations is the reference list of stripped and rewritten non-comment lines. |
| `Preprocessor.PreprocessLines` | pysmt/minizinc/translator.py:14-27 | The output lines that are not declarations are exactly the non-comment lines, comment-stripped, fixed up when they are set-option lines, and in their original order. The length is the number of those lines plus the number of groups used, so nothing else is emitted. |
| `Preprocessor.FoldDeclarationCount` | pysmt/minizinc/translator.py:22-24 | From a set of seen ids, a group's declaration appears once if the lines use the group and it was not yet seen, otherwise not at all. |
| `Preprocessor.EmittedDeclarationCount` | pysmt/minizinc/translator.py:17-24 | One non-comment line emits a group's declaration exactly when that group is its own and not yet seen. |
| `Preprocessor.PreprocessDeclaresOnce` | pysmt/minizinc/translator.py:22-24 | Every group id the lines use is declared exactly once, and no other id is declared. |
| `Preprocessor.FoldAtFirstUse` | pysmt/minizinc/translator.py:20-27 | At the first line of a new group, the loop emits the declaration, then the line, and goes on with the group marked as seen. |
| `Preprocessor.PreprocessDeclaresBeforeFirstUse` | pysmt/minizinc/translator.py:22-27 | A group's declaration comes right after the output of the earlier lines and right before the first line that uses the group. |
| `Preprocessor.Preprocess` | pysmt/minizinc/translator.py:11-28 | Text to text. The kept lines of the output are the reference rewriting of its `readlines()` lines, and there is one more line per group used and nothing else. The output is those lines joined with newlines, with the length and first line the join promises. |
| `ScopeStack.Count` | pysmt/minizinc/translator.py:35-38 | The count of a push or pop is its first argument, and 1 when it has none. |
| `ScopeStack.PushScopes` | pysmt/minizinc/translator.py:35-36 | `push n` appends exactly n empty scopes (none when n is not positive) and leaves the existing scopes unchanged. |
| `ScopeStack.PopScopes` | pysmt/minizinc/translator.py:37-39 | For 1 <= n <= depth, `pop n` removes exactly the top n scopes. `pop 0` and a pop of at least the depth empty the stack, and a negative n keeps the first -n scopes. |
| `ScopeStack.AppendTop` | pysmt/minizinc/translator.py:47 | An ordinary command is appended to the top scope, and every lower scope is unchanged. |
| `ScopeStack.Apply` | pysmt/minizinc/translator.py:33-47 | Check-sat leaves the stack alone. `push` adds the count's empty scopes, and `pop` deletes the count's top scopes by the slice rule; neither fails. Any other command fails exactly on an empty stack; otherwise it grows only the top scope. |
| `ScopeStack.PushDefault` | pysmt/minizinc/translator.py:35-36 | A `push` without argument adds exactly one empty scope. |
| `ScopeStack.PopDefault` | pysmt/minizinc/translator.py:38-39 | A `pop` without argument removes exactly the top scope, and leaves an empty stack empty. |
| `ScopeStack.OutPath` | pysmt/minizinc/translator.py:41-42 | A path without `.mzn` is used unchanged. `ScopeStack.OutPathSplit` states the other paths. |
| `ScopeStack.Run` | pysmt/minizinc/translator.py:33-47 | The loop yields at most one snapshot per check-sat, and the only error it can end with is `EmptyStack`. |
| `ScopeStack.ParseStack` | pysmt/minizinc/translator.py:30-47 | Starting from one empty scope with index 1, `EmptyStack` is the only error. The loop stops at the first command that meets an empty stack: exactly the check-sats before it yield a snapshot. The lemmas below state each snapshot. |
| `ScopeStack.FirstEmpty` | pysmt/minizinc/translator.py:33-47 | The position of the first command that meets an empty stack lies within the commands. It is before their end exactly when the reference replay fails. |
| `ScopeStack.FirstEmptyMeetsEmpty` | pysmt/minizinc/translator.py:47 | The command at that position is an ordinary command, and the commands before it leave no scope, so `current_stack[-1]` raises there. |
| `ScopeStack.PushPopRoundTrip` | pysmt/minizinc/translator.py:34-39 | For n >= 1, `push n` followed by `pop n` gives back the stack. |
| `ScopeStack.PopKeepsAScope` | pysmt/minizinc/translator.py:39 | A scope survives `pop n` exactly when 1 <= n < depth, or when n is negative and the stack was not empty. |
| `ScopeStack.RunIndices` | pysmt/minizinc/translator.py:40-45 | From any start index, the snapshots carry consecutive indices, each with the path derived from its own index. |
| `ScopeStack.ParseStackIndices` | pysmt/minizinc/translator.py:32 | The k-th check-sat's snapshot carries index k, counting from 1, and the path with `.mzn` replaced by `_k.mzn`. |
| `ScopeStack.RunFailure` | pysmt/minizinc/translator.py:33-47 | From any stack, the loop fails exactly when the reference replay meets an empty stack. It yields exactly one snapshot per check-sat before the first such command, and with no failure one per check-sat. |
| `ScopeStack.RunStopsAtFirstEmpty` | pysmt/minizinc/translator.py:33-47 | The raised `IndexError` leaves the loop: the snapshots are exactly those of the check-sats before the first command that meets an empty stack. |
| `ScopeStack.ParseStackFailure` | pysmt/minizinc/translator.py:30-47 | Starting from one empty scope, the run fails exactly when some ordinary command meets an empty stack, and then with `EmptyStack`. It stops there, with one snapshot per earlier check-sat; otherwise there is one snapshot per check-sat. |
| `ScopeStack.RunStackAt` | pysmt/minizinc/translator.py:33-45 | The check-sat at position j yields a snapshot, the one after the earlier check-sats, and it holds the stack built by the commands before it. |
| `ScopeStack.RunSnapshotAt` | pysmt/minizinc/translator.py:40-45 | The snapshot of the check-sat at position j is the stack built by the commands before it. |
| `ScopeStack.ParseStackSnapshot` | pysmt/minizinc/translator.py:31-44 | Check-sat leaves the stack alone. The snapshot at the check-sat in position j is the stack that the earlier commands build from one empty scope, numbered after the earlier check-sats. |
| `ScopeStack.RunPushPop` | pysmt/minizinc/translator.py:33-39 | Inserting a `push n`/`pop n` pair with n >= 1 anywhere in the commands leaves the run unchanged. |
| `ScopeStack.ParseStackPushPop` | pysmt/minizinc/translator.py:34-39 | A `push n` directly followed by `pop n` (n >= 1) changes neither the snapshots nor the outcome of the translation. |
| `ScopeStack.OutPathOfStem` | pysmt/minizinc/translator.py:41-42 | For `stem.mzn` with no other `.mzn`, the k-th file is `stem_k.mzn`. |
| `ScopeStack.OutPathDistinct` | pysmt/minizinc/translator.py:41-42 | For `stem.mzn` with no other `.mzn`, different check-sats write different files. |
| `ScopeStack.ExtensionFirstAt` | pysmt/minizinc/translator.py:41 | In `head.mzn…` with no `.mzn` in the head, the first `.mzn` is the one right after the head. |
| `ScopeStack.OutPathSplit` | pysmt/minizinc/translator.py:41-42 | Every `.mzn` is replaced, left to right: the text before the first one is kept, that one becomes `_k.mzn`, and the rest is treated the same way. With the no-`.mzn` case, this fixes the path for every input. |
| `ScopeStack.OutPathEveryExtension` | pysmt/minizinc/translator.py:41-42 | A directory named `dir.mzn` is renamed too: `dir.mzn/name.mzn` becomes `dir_k.mzn/name_k.mzn`. |
| `ScopeStack.NumberedNameInjective` | pysmt/minizinc/translator.py:41-42 | `stem_a.mzn` and `stem_b.mzn` are the same path only when a and b are the same. |
| `ScopeStack.OutPathWithoutExtension` | pysmt/minizinc/translator.py:41-42 | A path without `.mzn` is used unchanged for every check-sat, so each file overwrites the previous one. |
| `OmtToMzn.SetPriority` | pysmt/minizinc/omtmzn.py:16-20 | A value outside {box, lex} is refused with `UnsupportedPriority` and leaves the batch unchanged. A value inside the set is stored. The option stays in {box, lex}. |
| `OmtToMzn.Step` | pysmt/minizinc/omtmzn.py:36-45 | One command adds to the batch: its hard assert, soft assert or objective, its declaration, or its priority. It fails exactly with the command's own fault, and a command of any other kind changes nothing. |
| `OmtToMzn.Classify` | pysmt/minizinc/omtmzn.py:35-45 | The loop keeps the priority within {box, lex} and adds at most one list entry per command. It can only fail with a missing option key or an unsupported priority. |
| `OmtToMzn.ChooseWriter` | pysmt/minizinc/omtmzn.py:49-55 | The sat writer is chosen exactly when there is no objective. For a valid priority with objectives, the box writer is chosen exactly when the priority is the `box` default. |
| `OmtToMzn.WriteStack` | pysmt/minizinc/omtmzn.py:32-55 | On success the priority is box or lex, the sat writer goes with an empty objective list, and otherwise lex is chosen exactly for priority `lex`. It never fails with `EmptyStack`. |
| `OmtToMzn.ClassifyFailure` | pysmt/minizinc/omtmzn.py:35-45 | Classification fails exactly when a set-option lacks its key or sets the priority to an unsupported value, and it fails with the first such command's error. |
| `OmtToMzn.ClassifyCollects` | pysmt/minizinc/omtmzn.py:38-45 | Hard asserts, soft asserts and objectives are each appended in flattened order. Each equals the reference filter of the commands. |
| `OmtToMzn.ClassifyVariables` | pysmt/minizinc/omtmzn.py:36-37 | A name is mapped exactly when some one-symbol `declare-fun` declares it, and it is mapped to the type of the last such declaration. There is no collision error. |
| `OmtToMzn.ClassifyPriority` | pysmt/minizinc/omtmzn.py:42-43 | The priority is the value of the last set-option whose key is `opt.priority`; set-options with other keys have no effect. |
| `OmtToMzn.LastPriorityAccepted` | pysmt/minizinc/omtmzn.py:7 | When classification cannot fail, the last priority value is box or lex. |
| `OmtToMzn.ClassifyIgnores` | pysmt/minizinc/omtmzn.py:35-45 | Commands of any other kind, including a `declare-fun` with more than one symbol, can be removed without changing the result. |
| `OmtToMzn.CollectedAtMostOnce` | pysmt/minizinc/omtmzn.py:38-45 | Together the three lists hold no more entries than there are commands: each command lands in at most one list. |
| `OmtToMzn.WriteStackBatch` | pysmt/minizinc/omtmzn.py:32-45 | For a snapshot, the batch holds its asserts, soft asserts and objectives from the bottom scope to the top. The priority is the last one set, `box` by default, and always box or lex. Failure happens exactly at the first faulty command. |
| `OmtToMzn.WriteStackVariables` | pysmt/minizinc/omtmzn.py:36-37 | A snapshot's variable map is exactly its one-symbol declarations, with the type of the last declaration of each name. |
| `OmtToMzn.WriteStackDispatch` | pysmt/minizinc/omtmzn.py:49-55 | The sat writer is chosen exactly when there is no objective. The lex writer is chosen exactly when there are objectives and the last priority is `lex`, and the box writer otherwise. |
| `Translator.WriteAll` | pysmt/minizinc/translator.py:40-45 | Snapshots are written in order until the first failing one. Each written file keeps its snapshot's index and path and holds that snapshot's plan. There is no failure exactly when every snapshot is written. |
| `Translator.TranslateCommands` | pysmt/minizinc/translator.py:30-47 | Files are numbered 1, 2, … with the path for each number. There is at most one file per snapshot, so none for a check-sat after the first command that meets an empty stack. A snapshot left unwritten makes the translation fail with the error `write_stack` raised on it. When every snapshot is written, the outcome is the interpreter's. |
| `Translator.EmptyStackStopsTranslation` | pysmt/minizinc/translator.py:33-47 | After `pop 1` empties the stack, the next assert raises `EmptyStack` and the later check-sat gets no file. |
| `Translator.TranslateFiles` | pysmt/minizinc/translator.py:30-47 | The translation succeeds exactly when no command meets an empty stack and every check-sat got its file. |
| `Translator.TranslateFileAt` | pysmt/minizinc/translator.py:40-44 | The file of the k-th check-sat holds the plan for the stack the earlier commands build. When that stack cannot be written, the translation fails before that file. When every earlier file was written, it fails with that stack's own error. |
| `Translator.Translate` | pysmt/minizinc/omtmzn.py:27-30 | The full pipeline (preprocess, parse, interpret) produces at most one file per check-sat of the parsed script. |

## Left out

- File I/O: `open(new_out_file, "w")` and the writing itself are replaced by `FileOutput` records. The empty or truncated file that a failing `write_stack` leaves behind is not modelled.
- The SMT-LIB parser `parser.get_script`: it is not part of this model. `Translator.Translate` takes it as a function parameter, and `Commands.Command` is the parsed command. A `set-option`'s `words` is the parser's argument list, in which `words[1]` is the option key once the colons have been re-spaced.
- `modify_type_assert_soft_var`, `add_id_variables_opt` and `write_sat_stack` are called, but their bodies are not part of this model. Their results are unused, and any effect they have on the batch is not modelled.
- `write_box_stack` and `write_lex_stack` are empty stubs. The chosen writer is returned as `OmtToMzn.Writer` instead.
- The abstract `parse` and `write_stack` of the base class: `Translator` composes the OMT subclass directly.
- The setter at omtmzn.py:16 is decorated `@property.setter`, not `@priority_option.setter`. The model gives the setter its evident meaning, validation against {box, lex}, and does not model what the decorator does in Python.
- `asoft_var_type` is not defined in the shown code. It is the `idType` parameter of the preprocessor.
- The type stored for a declared variable is the parser's sort string. The source stores the type object returned by `get_type()`, inside a one-element list.
- `_parse_stack` ignores its `out_file` argument and reads the translator's `out_file`. The model has one `outFile`.
- The two regular expressions are written as explicit string functions, and `strip()` uses Python's whitespace set. Case folding and Unicode normalisation play no part.
- `ScopeStack.OutPath`: its own contract covers only a path without `.mzn`. Paths with one or more `.mzn` (every one is replaced, as in `runs.mzn/out.mzn`) are stated by `ScopeStack.OutPathSplit`, `ScopeStack.OutPathOfStem` and `ScopeStack.OutPathEveryExtension`.
- `Text.ReplaceAll`: its contract only covers text without the pattern. For the one pattern the translator uses, `.mzn`, the lemmas named on the line above state every other case.
