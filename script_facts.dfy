/** What a script run promises: where it stops, how far the index gets, that every
    executed line is echoed, and the shape of LoadScript's lines. */
module ScriptFacts {
  import opened Text
  import opened Tree
  import opened Shell
  import opened Script

  /** A trailing newline gives one more, empty, line. */
  lemma LoadScriptTrailingNewline(s: string)
    ensures LoadScript(s + "\n") == LoadScript(s) + [""]
  {
    var r := Split(s, '\n');
    SplitTrailing(s, '\n');
    assert r[..|r| - 1] + [r[|r| - 1]] == r;
  }

  /** The first stopping line ends the run: nothing after it is echoed or dispatched, the
      index ends just past it, and exit is reported exactly when the line was an exit. */
  lemma {:induction false} FirstStop(fs: Fs, user: string, out: seq<Line>, pre: seq<string>, line: string, rest: seq<string>)
    requires WellFormed(fs)
    requires forall i :: 0 <= i < |pre| ==> !Stops(pre[i])
    requires Stops(line)
    ensures var r := RunLines(fs, user, out, pre + [line] + rest);
      && r == RunLines(fs, user, out, pre + [line])
      && r.consumed == |pre| + 1
      && (r.exited <==> !Ends(line))
    decreases |pre|
  {
    if pre == [] {
      HeadTailConcat([line], rest);
      RunLineStops(fs, user, out, line);
    } else {
      var s := RunLine(fs, user, out, pre[0]);
      RunLineStops(fs, user, out, pre[0]);
      HeadTailConcat(pre, [line] + rest);
      HeadTailConcat(pre, [line]);
      assert pre + [line] + rest == pre + ([line] + rest);
      assert pre[1..] + [line] + rest == pre[1..] + ([line] + rest);
      FirstStop(s.fs, user, s.out, pre[1..], line, rest);
    }
  }

  /** Without a stopping line every line is read and exit does not run. */
  lemma {:induction false} NoStopRunsAll(fs: Fs, user: string, out: seq<Line>, lines: seq<string>)
    requires WellFormed(fs)
    requires forall i :: 0 <= i < |lines| ==> !Stops(lines[i])
    ensures RunLines(fs, user, out, lines).consumed == |lines|
    ensures !RunLines(fs, user, out, lines).exited
    decreases |lines|
  {
    if lines != [] {
      assert !Stops(lines[0]);
      RunLineStops(fs, user, out, lines[0]);
      var s := RunLine(fs, user, out, lines[0]);
      NoStopRunsAll(s.fs, user, s.out, lines[1..]);
    }
  }

  /** Without clear, a run only appends to the output. */
  lemma {:induction false} AppendOnly(fs: Fs, user: string, out: seq<Line>, lines: seq<string>)
    requires WellFormed(fs)
    requires forall i :: 0 <= i < |lines| ==> Verb(lines[i]) != "clear"
    ensures out <= RunLines(fs, user, out, lines).out
    decreases |lines|
  {
    if lines != [] {
      assert Verb(lines[0]) != "clear";
      EchoKept(fs, user, out, lines[0]);
      var s := RunLine(fs, user, out, lines[0]);
      if !s.halted {
        AppendOnly(s.fs, user, s.out, lines[1..]);
      }
    }
  }

  /** A line other than clear keeps what was written before it and, if it gets past the
      blank/comment test, writes its trimmed echo right after that. */
  lemma EchoKept(fs: Fs, user: string, out: seq<Line>, line: string)
    requires WellFormed(fs) && Verb(line) != "clear"
    ensures out <= RunLine(fs, user, out, line).out
    ensures !Ends(line) ==> out + [Plain("$ " + TrimSpace(line))] <= RunLine(fs, user, out, line).out
  {
    if !Ends(line) {
      ArgsNeverEmpty(line);
    }
  }

  /** An executed line is echoed, trimmed, right after the output it started from; unless a
      later clear erases it, the echo stays in the final output. */
  lemma EchoFirst(fs: Fs, user: string, out: seq<Line>, line: string, rest: seq<string>)
    requires WellFormed(fs) && !Ends(line)
    requires Verb(line) != "clear"
    requires forall i :: 0 <= i < |rest| ==> Verb(rest[i]) != "clear"
    ensures out + [Plain("$ " + TrimSpace(line))] <= RunLines(fs, user, out, [line] + rest).out
  {
    var all := [line] + rest;
    assert all[0] == line && all[1..] == rest;
    EchoKept(fs, user, out, line);
    var s := RunLine(fs, user, out, line);
    if !s.halted {
      AppendOnly(s.fs, user, s.out, rest);
    }
  }
}
