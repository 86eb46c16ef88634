# Editor integration of the chat prompt, in Dafny

This project models the Ctrl+F handler of the Q Developer chat prompt. The handler opens the current prompt line in an external editor. It then reconciles the text the editor leaves behind with the line-editor buffer, and it returns exactly one rustyline command for that.

The model has three modules:

- `Wrappers`: Rust-shaped `Option` and `Result`.
- `Strings`: the parts of Rust's `str`/`char` API that the handler relies on.
  - `char::is_whitespace`, which uses the full Unicode White_Space set.
  - `trim`, `trim_start` and `trim_end`.
  - `trim_end_matches` with a `char` pattern.
  - `len`, which counts UTF-8 bytes.

  `IsWhitespace` lists the exact Unicode White_Space set that `char::is_whitespace` uses, and every trim function is built on it. `Utf8Width` gives the UTF-8 byte width of one character, and `Utf8Len` sums those widths.

  The lemmas each belong to one function:
  - `trim` has padding invariance (`TrimIgnoresPadding`) and a uniqueness characterisation (`TrimIsCore`).
  - `trim_end_matches` has a uniqueness characterisation (`TrimEndMatchesIsPrefix`) and idempotence (`TrimEndMatchesIdempotent`).
  - `TrimAfterTrimEndNewlines` connects the two.
  - `len` has only the bounds in its own contract.
- `EditorIntegration`: the handler's logic.
  - The line-replacement chooser.
  - The normalisation of the edited text.
  - The split of the `EDITOR` command line.
  - The order in which a launch can fail.
  - The handler's decision.
  - Round-trip lemmas that connect these pieces.

The filesystem and the editor process are parameters: a `Host` value says whether the scratch-file write succeeds, what exit status an invocation gets, and what the file holds afterwards. The shell-style tokenizer is also a parameter (`split`), an uninterpreted function. The `EDITOR` variable is an `Option<string>` argument.

In three places the source's own comments describe more than its code does. The model follows the code:

- **Replacement movement:** the comments at editor_integration.rs:17 and :123 say the command replaces the entire line. The code picks `Replace(EndOfLine, …)` when the cursor is at 0 or inside the line, and `Replace(BeginningOfLine, …)` when the cursor is at or past the line's byte length.
- **Trailing newlines:** the comment at :102 speaks of removing one trailing newline. `trim_end_matches('\n')` removes every trailing `'\n'` and leaves `'\r'` alone.
- **Unchanged content:** the comment at :118-121 says unchanged content does nothing. A non-empty line made only of whitespace normalises to nothing, though, so the handler returns `Kill(BeginningOfLine)` for it. `UnchangedEditKeepsLine` states all three cases.

The code gathers every launch error into one `eyre` report. The model keeps the four causes apart (`WriteFailed`, `SpawnFailed`, `NonZeroExit`, `ReadFailed`), and the handler treats all four alike.

In `Insert(1, text)`, the 1 is rustyline's repeat count, not a position in the line.

## Model

| member | source | states |
|---|---|---|
| Strings.TrimStart | crates/cli/src/cli/chat/editor_integration.rs:99 | the result is a suffix of the input; everything dropped is whitespace; the result is empty or does not start with whitespace |
| Strings.TrimEnd | crates/cli/src/cli/chat/editor_integration.rs:99 | the result is a prefix of the input; everything dropped is whitespace; the result is empty or does not end with whitespace |
| Strings.Trim | crates/cli/src/cli/chat/editor_integration.rs:99 | `trim()` is empty exactly when the whole input is whitespace; otherwise it neither starts nor ends with whitespace |
| Strings.TrimEndMatches | crates/cli/src/cli/chat/editor_integration.rs:103 | `trim_end_matches(c)` returns a prefix of the input that does not end in `c`, and only copies of `c` were removed |
| Strings.Utf8Width | crates/cli/src/cli/chat/editor_integration.rs:47 | a character takes 1 to 4 bytes in UTF-8, and exactly 1 when it is ASCII |
| Strings.Utf8Len | crates/cli/src/cli/chat/editor_integration.rs:47 | `len()` is the UTF-8 byte length: at least the character count, equal to it for ASCII text, and zero exactly for the empty string |
| Strings.TrimEndAppendWhitespace | crates/cli/src/cli/chat/editor_integration.rs:119 | whitespace appended to a string does not change its `trim_end` |
| Strings.TrimStartPrependWhitespace | crates/cli/src/cli/chat/editor_integration.rs:119 | whitespace prepended to a string does not change its `trim_start` |
| Strings.TrimEndKeepsPrefix | crates/cli/src/cli/chat/editor_integration.rs:119 | `trim_end` of a prefix followed by a text that is not all whitespace keeps the prefix intact |
| Strings.TrimIgnoresPadding | crates/cli/src/cli/chat/editor_integration.rs:119 | `trim` is invariant under whitespace padding on either side |
| Strings.TrimIsCore | crates/cli/src/cli/chat/editor_integration.rs:119 | reference characterisation: for whitespace padding around a core that is empty or has non-whitespace ends, `trim` returns exactly that core |
| Strings.TrimEndMatchesIsPrefix | crates/cli/src/cli/chat/editor_integration.rs:103 | reference characterisation: a prefix not ending in `c` followed by a run of `c` is exactly what `trim_end_matches(c)` returns |
| Strings.TrimEndMatchesIdempotent | crates/cli/src/cli/chat/editor_integration.rs:103 | `trim_end_matches(c)` applied twice equals applying it once |
| Strings.TrimAfterTrimEndNewlines | crates/cli/src/cli/chat/editor_integration.rs:99-104 | removing trailing newlines does not change what `trim` sees, so the equality test in the handler is unaffected by normalisation |
| EditorIntegration.CreateLineReplacementCommand | crates/cli/src/cli/chat/editor_integration.rs:19-56 | always returns a command. Noop iff both texts are empty. Kill(BeginningOfLine) iff only the new content is empty, whatever the cursor. Insert(1, new content) iff only the current line is empty. Replace iff both are non-empty; its payload is exactly Some(new content), and its movement is BeginningOfLine iff the cursor is at or past the line's byte length |
| EditorIntegration.NormalizeEditedContent | crates/cli/src/cli/chat/editor_integration.rs:98-105 | None iff the edited text is empty or all whitespace. Otherwise the result is a non-empty prefix of the text that does not end in `'\n'`, and only `'\n'` characters were removed |
| EditorIntegration.SplitEditorCommand | crates/cli/src/cli/chat/editor_integration.rs:71-78 | when the tokenizer yields a non-empty list, program followed by arguments rebuilds that list in order; otherwise the program is the whole configured string with no arguments |
| EditorIntegration.EditorInvocation | crates/cli/src/cli/chat/editor_integration.rs:68-84 | the `EDITOR` value, or `vi` when it is unset, is split into program and arguments, and the scratch path is the last argument |
| EditorIntegration.LaunchSystemEditor | crates/cli/src/cli/chat/editor_integration.rs:59-106 | the first failing step decides the error: write, then spawn, then non-zero exit, then read. Success happens exactly when all four steps succeed, and its value is the normalisation of the text read back |
| EditorIntegration.HandleOutcome | crates/cli/src/cli/chat/editor_integration.rs:116-136 | a launch error gives Noop. Ok(None) gives the chooser's result for the empty text. Ok(Some(s)) gives Noop exactly when trim(s) equals trim(line), and otherwise gives the chooser's result for s |
| EditorIntegration.Handle | crates/cli/src/cli/chat/editor_integration.rs:110-137 | always returns a command; any launch failure leaves the line alone (Noop) |
| EditorIntegration.ChooserPayloadIgnoresCursor | crates/cli/src/cli/chat/editor_integration.rs:34-54 | for any two cursor positions, the chooser returns the same command, or two replacements carrying the same payload |
| EditorIntegration.HandleIgnoresWhitespacePadding | crates/cli/src/cli/chat/editor_integration.rs:117-121 | edited text equal to the line plus whitespace padding on either side yields Noop |
| EditorIntegration.EditedContentReachesBuffer | crates/cli/src/cli/chat/editor_integration.rs:117-126 | normalised edited text that differs from the line (after trim) reaches the buffer exactly: as Insert(1, text) into an empty line, otherwise as the Replace payload |
| EditorIntegration.NormalizePaddedLine | crates/cli/src/cli/chat/editor_integration.rs:99-104 | the line followed by trailing whitespace normalises to None iff the line is all whitespace; otherwise it normalises to a text whose trim equals the line's |
| EditorIntegration.UnchangedEditKeepsLine | crates/cli/src/cli/chat/editor_integration.rs:110-137 | round trip: a successful edit that only appends whitespace keeps a line with visible text (Noop) and an empty line (Noop), and clears a whitespace-only line (Kill(BeginningOfLine)) |
| EditorIntegration.ChooserTestScenarios | crates/cli/src/cli/chat/editor_integration.rs:320-364 | the unit tests' chooser cases, with the exact command each one returns |
| EditorIntegration.NormalizeTestScenarios | crates/cli/src/cli/chat/editor_integration.rs:152-232 | the unit tests' normalisation cases: an emptied file gives None, and "Edited: hello world\n" gives Some("Edited: hello world") |

## Left out

- Scratch-file creation and its UUID-based name in the temp directory. The scratch path is a parameter.
- Deletion of the scratch file. Its result is ignored in the source, so it cannot change what the handler returns. The file is deleted only after a non-zero exit (:88) or a successful read (:96). When spawning fails (:84) or reading fails (:93), `?` returns first and the file is left behind. The model does not track the file, so it does not capture that leak.
- Running the editor process and waiting for it. `Host.run` gives the exit status of an invocation, or `None` when the spawn fails.
- Reading the `EDITOR` environment variable. It is the `editorVar` parameter, and `None` stands for "not set or not Unicode".
- The quoting rules of `shlex::split`. The tokenizer is an uninterpreted function parameter; only the way its result is used is modelled.
- How rustyline applies `Kill`, `Insert` and `Replace` to its buffer relative to the cursor. Commands are plain values, so the model does not state that the chosen command actually clears or replaces the whole line.
- `EventContext` and the rest of rustyline's `Movement` and `Cmd` variants. Only the line, the cursor's byte offset and the commands the handler builds are modelled.
- `EditorLauncher::new`. It builds a unit struct and has no logic.
- The test scaffolding that rewrites `EDITOR` and writes mock editor scripts. The concrete expectations of those tests are stated as lemmas instead.
