/** How the interactive dispatcher differs from the script runner on the same line, and what
    the start-up reports. */
module StartFacts {
  import opened Text
  import opened Tree
  import opened VirtualFS
  import opened Shell
  import opened Script
  import opened Start
  import ScriptFacts

  /** A line the script would run (not blank, not a comment) has the same effect on the tree
      and on stopping when typed; the output differs only in the echo, which shows the raw
      text where the script shows it trimmed, so the two agree on an already trimmed line. */
  lemma InteractiveAgreesWithScript(fs: Fs, user: string, out: seq<Line>, raw: string)
    requires WellFormed(fs) && !Ends(raw)
    ensures var h := Handle(fs, user, Screen(raw, out, false), Enter);
      var s := RunLine(fs, user, out, raw);
      && h.fs == s.fs && h.screen.stopped == s.exited
      && (raw == TrimSpace(raw) ==> h.screen.out == s.out)
  {
    ArgsNeverEmpty(raw);
  }

  /** The two echo styles on an indented command: the typed line is echoed as typed, the
      script line is echoed trimmed. */
  lemma EchoStyles(fs: Fs, user: string, out: seq<Line>, raw: string)
    requires WellFormed(fs) && !Ends(raw) && Verb(raw) != "clear"
    ensures out + [Plain("$ " + raw)] <= Handle(fs, user, Screen(raw, out, false), Enter).screen.out
    ensures out + [Plain("$ " + TrimSpace(raw))] <= RunLine(fs, user, out, raw).out
  {
    ArgsNeverEmpty(raw);
    ScriptFacts.EchoKept(fs, user, out, raw);
  }

  lemma {:induction false} FieldsOfHash()
    ensures Fields("#") == ["#"]
  {
    assert TrimLeft("#") == "#" && WordLen("#") == 1;
    assert "#"[..1] == "#" && "#"[1..] == "";
  }

  /** A comment line ends a script run with nothing written, but typed at the prompt it is
      dispatched, and "#" is an unknown verb. */
  lemma CommentDiverges(fs: Fs, user: string, out: seq<Line>)
    requires WellFormed(fs)
    ensures RunLine(fs, user, out, "#") == Step(fs, out, false, true)
    ensures Handle(fs, user, Screen("#", out, false), Enter)
      == Reaction(fs, Screen("", out + [Plain("$ #"), Plain("> Unknown command: #"), Plain(AvailableCommands)], false))
  {
    FieldsOfHash();
    assert TrimSpace("#") == "#" by {
      assert TrimRight("#") == "#";
      assert TrimLeft("#") == "#";
    }
    assert HasPrefix("#", "#");
    assert "$ " + "#" == "$ #" && "> Unknown command: " + "#" == "> Unknown command: #";
    var e := Exec(fs, user, out + [Plain("$ #")], ["#"]);
    assert e.out == out + [Plain("$ #")] + [Plain("> Unknown command: #"), Plain(AvailableCommands)];
  }

  /** A failed VFS load selects the OS handler on the fresh tree and writes the two failure
      lines.  Without a script they stay right after what the console already showed; with
      one they precede whatever its preparation writes (the OS-mode run itself, which may
      clear them, is not modelled). */
  lemma LoadFailureReported(vfsPath: string, message: string, scriptPath: string, file: ScriptFile, c: Console)
    requires vfsPath != ""
    ensures Select(vfsPath, LoadOutcome(vfsPath, ReadError(message))).out ==
      [Plain("Error loading VFS: " + message), Plain(" Started in interacive mode")]
    ensures var a := Started(vfsPath, ReadError(message), scriptPath, file, c);
      && a.handler == OsHandler && !a.isVFS && a.fs == Empty
      && (scriptPath == "" ==>
            a.console == c.(out := c.out + [Plain("Error loading VFS: " + message), Plain(" Started in interacive mode")]))
      && (scriptPath != "" ==>
            c.out + [Plain("Error loading VFS: " + message), Plain(" Started in interacive mode")]
              + Prepared(file).out == a.console.out)
  {
    var sel := Select(vfsPath, LoadOutcome(vfsPath, ReadError(message)));
    assert sel.out == [Plain("Error loading VFS: " + message), Plain(" Started in interacive mode")];
  }

  /** A loaded VFS with a readable script: the banner replaces the input, and the script's
      lines run from index 0 against the loaded tree, after the lines already shown. */
  lemma LoadedScriptRuns(vfsPath: string, rows: seq<Record>, scriptPath: string, content: string, c: Console)
    requires vfsPath != "" && scriptPath != "" && LoadOk(Empty, rows)
    ensures var a := Started(vfsPath, Records(rows), scriptPath, ScriptText(content), c);
      var run := RunLines(Load(Empty, rows), DefaultUser, c.out, LoadScript(content));
      && a.handler == VfsHandler && a.isVFS
      && a.fs == run.fs && a.console == Console(Banner, run.out, c.stopped || run.exited, true)
  {
    assert c.out + [] == c.out && c.out + [] + [] == c.out;
  }
}
