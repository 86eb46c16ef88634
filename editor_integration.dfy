/**
 * The Ctrl+F "open the prompt in an external editor" handler of the chat line
 * editor: the command that reconciles the edited text with the current line,
 * the normalisation of what the editor leaves in the scratch file, the split of
 * the configured editor command, the order in which the launch steps can fail,
 * and the handler that ties them together.
 *
 * The host line editor's command set is modelled as values only; how the host
 * applies `Kill`, `Insert` and `Replace` to its buffer is not part of this model.
 */
module EditorIntegration {
  import opened Wrappers
  import opened Strings

  /** The cursor movements the handler uses. */
  datatype Movement = BeginningOfLine | EndOfLine

  /** The line-editor commands the handler can return. */
  datatype Cmd =
    | Noop
    | Kill(movement: Movement)
    | Insert(count: nat, text: string)
    | Replace(movement: Movement, replacement: Option<string>)

  /** What the handler reads from the line editor: the line and the cursor's byte offset. */
  datatype EventContext = EventContext(line: string, pos: nat)

  /** A program to run and its arguments. */
  datatype Invocation = Invocation(program: string, args: seq<string>)

  /** The ways launching the editor can fail. */
  datatype EditorError = WriteFailed | SpawnFailed | NonZeroExit | ReadFailed

  /**
   * The filesystem and the process, as seen by one launch: whether writing the
   * scratch file succeeds, the exit status of running an invocation (`None`
   * when it cannot be spawned, `Some(success)` otherwise), and what reading the
   * scratch file back gives for the content that was written (`None` when the
   * read fails).
   */
  datatype Host = Host(
    writeSucceeds: bool,
    run: Invocation -> Option<bool>,
    readBack: string -> Option<string>)

  /** The editor used when `EDITOR` is not set. */
  const DefaultEditor: string := "vi"

  /**
   * The single command that turns the current line into the new content. Which
   * command is chosen depends only on which of the two texts are empty; for a
   * replacement, the movement depends on whether the cursor is at or past the
   * end of the line (in bytes).
   */
  function CreateLineReplacementCommand(newContent: string, currentText: string, cursorPos: nat): (r: Option<Cmd>)
    ensures r.Some?
    ensures r == Some(Noop) <==> newContent == [] && currentText == []
    ensures r == Some(Kill(BeginningOfLine)) <==> newContent == [] && currentText != []
    ensures r == Some(Insert(1, newContent)) <==> newContent != [] && currentText == []
    ensures r.value.Replace? <==> newContent != [] && currentText != []
    ensures r.value.Replace? ==> r.value.replacement == Some(newContent)
    ensures r.value.Replace? ==> (r.value.movement == BeginningOfLine <==> cursorPos >= Utf8Len(currentText))
  {
    if newContent == [] then
      if currentText == [] then Some(Noop) else Some(Kill(BeginningOfLine))
    else if currentText == [] then
      Some(Insert(1, newContent))
    else if cursorPos == 0 then
      Some(Replace(EndOfLine, Some(newContent)))
    else if cursorPos >= Utf8Len(currentText) then
      Some(Replace(BeginningOfLine, Some(newContent)))
    else
      Some(Replace(EndOfLine, Some(newContent)))
  }

  /**
   * What the launch returns for the text read back from the scratch file:
   * nothing when that text is empty or all whitespace, otherwise the text with
   * its trailing run of newlines removed.
   */
  function NormalizeEditedContent(edited: string): (r: Option<string>)
    ensures r.None? <==> AllWhitespace(edited)
    ensures r.Some? ==> r.value != []
    ensures r.Some? ==> |r.value| <= |edited| && r.value == edited[..|r.value|]
    ensures r.Some? ==> r.value[|r.value| - 1] != '\n'
    ensures r.Some? ==> forall i :: |r.value| <= i < |edited| ==> edited[i] == '\n'
  {
    if Trim(edited) == [] then None else Some(TrimEndMatches(edited, '\n'))
  }

  /**
   * The program and leading arguments for a configured editor command, given
   * the shell-style tokenizer `split`: the first token and the rest when it
   * yields tokens, otherwise the whole configured string with no arguments.
   */
  function SplitEditorCommand(config: string, split: string -> Option<seq<string>>): (inv: Invocation)
    ensures split(config).Some? && split(config).value != [] ==> [inv.program] + inv.args == split(config).value
    ensures !(split(config).Some? && split(config).value != []) ==> inv == Invocation(config, [])
  {
    match split(config)
    case Some(parts) =>
      if parts != [] then Invocation(parts[0], parts[1..]) else Invocation(config, [])
    case None => Invocation(config, [])
  }

  /**
   * The full editor invocation: the `EDITOR` value (or `vi` when it is unset)
   * split into program and arguments, with the scratch file's path last.
   */
  function EditorInvocation(editorVar: Option<string>, split: string -> Option<seq<string>>, scratchPath: string): (inv: Invocation)
    ensures |inv.args| > 0 && inv.args[|inv.args| - 1] == scratchPath
    ensures var config := if editorVar.Some? then editorVar.value else DefaultEditor;
            var words := if split(config).Some? && split(config).value != [] then split(config).value else [config];
            [inv.program] + inv.args[..|inv.args| - 1] == words
  {
    var config := match editorVar case Some(v) => v case None => DefaultEditor;
    var cmd := SplitEditorCommand(config, split);
    assert cmd.args + [scratchPath] == (cmd.args + [scratchPath])[..|cmd.args|] + [scratchPath];
    Invocation(cmd.program, cmd.args + [scratchPath])
  }

  /**
   * One launch of the external editor: write the scratch file, run the editor
   * on it, and on a successful exit read the file back and normalise it. The
   * first step that fails decides the error.
   */
  function LaunchSystemEditor(
    initialContent: string,
    editorVar: Option<string>,
    split: string -> Option<seq<string>>,
    scratchPath: string,
    host: Host): (r: Result<Option<string>, EditorError>)
    ensures var inv := EditorInvocation(editorVar, split, scratchPath);
            && (r == Err(WriteFailed) <==> !host.writeSucceeds)
            && (r == Err(SpawnFailed) <==> host.writeSucceeds && host.run(inv).None?)
            && (r == Err(NonZeroExit) <==> host.writeSucceeds && host.run(inv) == Some(false))
            && (r == Err(ReadFailed) <==> host.writeSucceeds && host.run(inv) == Some(true) && host.readBack(initialContent).None?)
            && (r.Ok? <==> host.writeSucceeds && host.run(inv) == Some(true) && host.readBack(initialContent).Some?)
    ensures r.Ok? ==> r.value == NormalizeEditedContent(host.readBack(initialContent).value)
  {
    if !host.writeSucceeds then Err(WriteFailed)
    else
      match host.run(EditorInvocation(editorVar, split, scratchPath))
      case None => Err(SpawnFailed)
      case Some(success) =>
        if !success then Err(NonZeroExit)
        else
          match host.readBack(initialContent)
          case None => Err(ReadFailed)
          case Some(edited) => Ok(NormalizeEditedContent(edited))
  }

  /**
   * The handler's decision for a launch outcome: keep the line when the launch
   * failed or the edited text equals the line up to surrounding whitespace,
   * otherwise reconcile the line with the edited text (the empty text when the
   * editor left nothing).
   */
  function HandleOutcome(outcome: Result<Option<string>, EditorError>, currentText: string, cursorPos: nat): (r: Option<Cmd>)
    ensures r.Some?
    ensures outcome.Err? ==> r == Some(Noop)
    ensures outcome == Ok(None) ==> r == CreateLineReplacementCommand([], currentText, cursorPos)
    ensures outcome.Ok? && outcome.value.Some? ==>
              (r == Some(Noop) <==> Trim(outcome.value.value) == Trim(currentText))
    ensures outcome.Ok? && outcome.value.Some? && Trim(outcome.value.value) != Trim(currentText) ==>
              r == CreateLineReplacementCommand(outcome.value.value, currentText, cursorPos)
  {
    match outcome
    case Ok(Some(edited)) =>
      if Trim(edited) == Trim(currentText) then Some(Noop)
      else CreateLineReplacementCommand(edited, currentText, cursorPos)
    case Ok(None) => CreateLineReplacementCommand([], currentText, cursorPos)
    case Err(_) => Some(Noop)
  }

  /** The Ctrl+F handler: launch the editor on the current line and decide the command. */
  function Handle(
    ctx: EventContext,
    editorVar: Option<string>,
    split: string -> Option<seq<string>>,
    scratchPath: string,
    host: Host): (r: Option<Cmd>)
    ensures r.Some?
    ensures LaunchSystemEditor(ctx.line, editorVar, split, scratchPath, host).Err? ==> r == Some(Noop)
  {
    HandleOutcome(LaunchSystemEditor(ctx.line, editorVar, split, scratchPath, host), ctx.line, ctx.pos)
  }

  /**
   * Moving the cursor never changes the kind of command chosen or the text it
   * carries; for a replacement only the movement can differ.
   */
  lemma ChooserPayloadIgnoresCursor(newContent: string, currentText: string, pos1: nat, pos2: nat)
    ensures var r1 := CreateLineReplacementCommand(newContent, currentText, pos1);
            var r2 := CreateLineReplacementCommand(newContent, currentText, pos2);
            || r1 == r2
            || (r1.value.Replace? && r2.value.Replace? && r1.value.replacement == r2.value.replacement)
  {
  }

  /** The edited text equals the line when surrounding whitespace is ignored: the line is kept. */
  lemma HandleIgnoresWhitespacePadding(w1: string, currentText: string, w2: string, cursorPos: nat)
    requires AllWhitespace(w1) && AllWhitespace(w2)
    ensures HandleOutcome(Ok(Some(w1 + currentText + w2)), currentText, cursorPos) == Some(Noop)
  {
    TrimIgnoresPadding(w1, currentText, w2);
  }

  /**
   * Text that came back from the editor and differs from the line reaches the
   * buffer unchanged: inserted into an empty line, otherwise as the replacement.
   */
  lemma EditedContentReachesBuffer(edited: string, currentText: string, cursorPos: nat)
    requires NormalizeEditedContent(edited).Some?
    requires Trim(NormalizeEditedContent(edited).value) != Trim(currentText)
    ensures var c := NormalizeEditedContent(edited).value;
            var r := HandleOutcome(Ok(Some(c)), currentText, cursorPos);
            && (currentText == [] ==> r == Some(Insert(1, c)))
            && (currentText != [] ==> r.value.Replace? && r.value.replacement == Some(c))
  {
  }

  /**
   * The scratch file read back as the line plus trailing whitespace normalises
   * to nothing exactly when the line is all whitespace, and otherwise to a text
   * that equals the line up to surrounding whitespace.
   */
  lemma NormalizePaddedLine(line: string, w: string)
    requires AllWhitespace(w)
    ensures NormalizeEditedContent(line + w).None? <==> AllWhitespace(line)
    ensures NormalizeEditedContent(line + w).Some? ==> Trim(NormalizeEditedContent(line + w).value) == Trim(line)
  {
    var s := line + w;
    if AllWhitespace(line) {
      assert AllWhitespace(s) by {
        forall i | 0 <= i < |s| ensures IsWhitespace(s[i]) {
          if i >= |line| { assert s[i] == w[i - |line|]; }
        }
      }
    } else {
      assert !AllWhitespace(s) by {
        var k :| 0 <= k < |line| && !IsWhitespace(line[k]);
        assert s[k] == line[k];
      }
      assert NormalizeEditedContent(s) == Some(TrimEndMatches(s, '\n'));
      TrimAfterTrimEndNewlines(s);
      TrimEndAppendWhitespace(line, w);
    }
  }

  /**
   * Round trip: when the editor exits successfully and the scratch file comes
   * back as the line plus trailing whitespace (an editor adding a final
   * newline, say), a line with visible text is kept as it is, an empty line
   * too, and a line of only whitespace is cleared.
   */
  lemma UnchangedEditKeepsLine(
    ctx: EventContext,
    editorVar: Option<string>,
    split: string -> Option<seq<string>>,
    scratchPath: string,
    host: Host,
    w: string)
    requires AllWhitespace(w)
    requires host.writeSucceeds
    requires host.run(EditorInvocation(editorVar, split, scratchPath)) == Some(true)
    requires host.readBack(ctx.line) == Some(ctx.line + w)
    ensures var r := Handle(ctx, editorVar, split, scratchPath, host);
            && (!AllWhitespace(ctx.line) ==> r == Some(Noop))
            && (ctx.line == [] ==> r == Some(Noop))
            && (ctx.line != [] && AllWhitespace(ctx.line) ==> r == Some(Kill(BeginningOfLine)))
  {
    var outcome := LaunchSystemEditor(ctx.line, editorVar, split, scratchPath, host);
    assert outcome == Ok(NormalizeEditedContent(ctx.line + w));
    NormalizePaddedLine(ctx.line, w);
  }

  /** The reconciliation scenarios of the source's unit tests. */
  lemma ChooserTestScenarios()
    ensures CreateLineReplacementCommand("new content", "", 0) == Some(Insert(1, "new content"))
    ensures CreateLineReplacementCommand("", "old content", 5) == Some(Kill(BeginningOfLine))
    ensures CreateLineReplacementCommand("new content", "old content", 0) == Some(Replace(EndOfLine, Some("new content")))
    ensures CreateLineReplacementCommand("goodbye world", "hello world", 0) == Some(Replace(EndOfLine, Some("goodbye world")))
    ensures CreateLineReplacementCommand("goodbye world", "hello world", 11) == Some(Replace(BeginningOfLine, Some("goodbye world")))
    ensures CreateLineReplacementCommand("goodbye world", "hello world", 5) == Some(Replace(EndOfLine, Some("goodbye world")))
  {
    assert Utf8Len("hello world") == 11;
  }

  /** The normalisation scenarios of the source's unit tests. */
  lemma NormalizeTestScenarios()
    ensures NormalizeEditedContent("") == None
    ensures NormalizeEditedContent("Edited: hello world\n") == Some("Edited: hello world")
  {
    var s := "Edited: hello world\n";
    assert !IsWhitespace(s[0]);
    TrimEndMatchesIsPrefix("Edited: hello world", "\n", '\n');
    assert "Edited: hello world" + "\n" == s;
  }
}
