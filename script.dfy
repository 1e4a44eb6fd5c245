/** The script runner of internal/start/script_execution.go in VFS mode: LoadScript's split
    into lines, and ExecuteScriptVFS, which walks the lines with an index and stops the whole
    run at the first blank or comment line or at exit. */
module Script {
  import opened Text
  import opened Tree
  import opened VirtualFS
  import opened Shell

  /** What reading the script file gives: its text, or the error os.ReadFile reports. */
  datatype ScriptFile = ScriptText(content: string) | ScriptReadError(message: string)

  /** LoadScript: the content split on "\n" only, so a trailing newline leaves a last "". */
  function LoadScript(content: string): (lines: seq<string>)
    ensures |lines| == Count(content, '\n') + 1
    ensures forall i :: 0 <= i < |lines| ==> '\n' !in lines[i]
    ensures Join(lines, '\n') == content
  {
    SplitCount(content, '\n');
    JoinSplit(content, '\n');
    Split(content, '\n')
  }

  /** The line ends the run before it is echoed: blank after trimming, or a comment. */
  predicate Ends(line: string) {
    var t := TrimSpace(line);
    t == "" || HasPrefix(t, "#")
  }

  /** The verb of a line ("" when it has no fields). */
  function Verb(line: string): string {
    var args := Fields(TrimSpace(line));
    if args == [] then "" else args[0]
  }

  /** The line ends the run: before its echo, or by running exit. */
  predicate Stops(line: string) {
    Ends(line) || Verb(line) == "exit"
  }

  /** A line that survives the blank/comment test always has a verb, so the runner's
      second "no fields" return is never taken. */
  lemma ArgsNeverEmpty(line: string)
    requires !Ends(line)
    ensures Fields(TrimSpace(line)) != []
    ensures Fields(TrimSpace(line)) == Fields(line)
  {
    FieldsTrimSpace(line);
    FieldsEmptyIffBlank(line);
  }

  /** One line of the run: the tree and output after it, whether exit ran, and whether
      the run returns after it. */
  datatype Step = Step(fs: Fs, out: seq<Line>, exited: bool, halted: bool)

  function RunLine(fs: Fs, user: string, out: seq<Line>, raw: string): (s: Step)
    requires WellFormed(fs)
    ensures WellFormed(s.fs)
    ensures s.exited ==> s.halted
    ensures Ends(raw) ==> s.halted && !s.exited && s.fs == fs && s.out == out
  {
    var line := TrimSpace(raw);
    if line == "" || HasPrefix(line, "#") then Step(fs, out, false, true)
    else
      var echoed := out + [Plain("$ " + line)];
      var args := Fields(line);
      if args == [] then Step(fs, echoed, false, true)
      else
        var e := Exec(fs, user, echoed, args);
        Step(e.fs, e.out, e.exit, e.exit)
  }

  /** A line halts the run exactly when it stops it, and it reports exit exactly when
      it is an exit. */
  lemma RunLineStops(fs: Fs, user: string, out: seq<Line>, raw: string)
    requires WellFormed(fs)
    ensures RunLine(fs, user, out, raw).halted <==> Stops(raw)
    ensures RunLine(fs, user, out, raw).exited <==> !Ends(raw) && Verb(raw) == "exit"
  {
    if !Ends(raw) {
      ArgsNeverEmpty(raw);
    }
  }

  /** The outcome of running lines: the tree, the output, whether exit ran, and how many
      lines were read (the final value of ScriptIndex when it starts at 0). */
  datatype Run = Run(fs: Fs, out: seq<Line>, exited: bool, consumed: nat)

  function Shifted(r: Run, k: nat): Run {
    r.(consumed := r.consumed + k)
  }

  /** The run of ExecuteScriptVFS over lines: line by line until one halts it. */
  function RunLines(fs: Fs, user: string, out: seq<Line>, lines: seq<string>): (r: Run)
    requires WellFormed(fs)
    ensures WellFormed(r.fs)
    ensures r.consumed <= |lines|
    ensures lines != [] <==> r.consumed >= 1
    decreases |lines|
  {
    if lines == [] then Run(fs, out, false, 0)
    else
      var s := RunLine(fs, user, out, lines[0]);
      if s.halted then Run(s.fs, s.out, s.exited, 1)
      else Shifted(RunLines(s.fs, user, s.out, lines[1..]), 1)
  }

  /** How the run over lines[i..] continues after line i. */
  lemma RunLinesAfter(fs: Fs, user: string, out: seq<Line>, lines: seq<string>, i: nat, line: string, whole: Run)
    requires WellFormed(fs) && i < |lines| && line == lines[i]
    requires whole == Shifted(RunLines(fs, user, out, lines[i..]), i)
    ensures var s := RunLine(fs, user, out, line);
      && (s.halted ==> whole == Run(s.fs, s.out, s.exited, i + 1))
      && (!s.halted ==> whole == Shifted(RunLines(s.fs, user, s.out, lines[i + 1..]), i + 1))
  {
    var rest := lines[i..];
    assert rest[0] == lines[i] && rest[1..] == lines[i + 1..];
  }

  class Script {
    var isScriptMode: bool
    var scriptLines: seq<string>
    var scriptIndex: int

    constructor (lines: seq<string>)
      ensures isScriptMode && scriptLines == lines && scriptIndex == 0
    {
      isScriptMode, scriptLines, scriptIndex := true, lines, 0;
    }

    /** The index starts at 0, as start.go never sets it.  For a non-empty script, from a start
        k > 0 the loop still makes len(ScriptLines) reads, so it panics unless a stopping line
        among the lines from k on returns first, and a negative start panics at the first read. */
    method ExecuteScriptVFS(vfs: VFS, term: Terminal)
      requires vfs.Valid() && scriptIndex == 0
      modifies this`scriptIndex, vfs, term`output, term`stopped
      ensures vfs.Valid()
      ensures var r := RunLines(old(vfs.State()), vfs.username, old(term.output), scriptLines);
        && vfs.State() == r.fs && term.output == r.out
        && term.stopped == (old(term.stopped) || r.exited)
        && scriptIndex == r.consumed
    {
      ghost var user, lines := vfs.username, scriptLines;
      ghost var whole := RunLines(vfs.State(), user, term.output, lines);
      for i := 0 to |scriptLines|
        invariant vfs.Valid() && scriptIndex == i
        invariant whole == Shifted(RunLines(vfs.State(), user, term.output, lines[i..]), i)
        invariant term.stopped == old(term.stopped)
      {
        ghost var before, shown := vfs.State(), term.output;
        var line := scriptLines[scriptIndex];
        scriptIndex := scriptIndex + 1;
        var halted := ExecuteLine(vfs, term, line);
        RunLinesAfter(before, user, shown, lines, i, line, whole);
        if halted {
          return;
        }
      }
      assert lines[|lines|..] == [];
    }
  }

  /** The body of the loop of ExecuteScriptVFS once the line has been read: trim, return on
      blank or comment, echo, split, dispatch, and return after exit. */
  method ExecuteLine(vfs: VFS, term: Terminal, raw: string) returns (halted: bool)
    requires vfs.Valid()
    modifies vfs, term`output, term`stopped
    ensures vfs.Valid()
    ensures var s := RunLine(old(vfs.State()), vfs.username, old(term.output), raw);
      && vfs.State() == s.fs && term.output == s.out && halted == s.halted
      && term.stopped == (old(term.stopped) || s.exited)
  {
    var line := TrimSpace(raw);
    if line == "" || HasPrefix(line, "#") {
      return true;
    }

    term.output := term.output + [Plain("$ " + line)];

    var args := Fields(line);
    if |args| == 0 {
      return true;
    }

    var exit;
    term.output, exit := Dispatch(vfs, term.output, args);
    if exit {
      term.stopped := true;
      return true;
    }
    return false;
  }
}
