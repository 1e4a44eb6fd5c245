/** The start-up of the application (StartAPP in internal/start/start.go) and the interactive
    dispatcher of VFS mode (handler_vfs): which backend handles the command line, what the
    output view holds before the first key press, and what one key press does. */
module Start {
  import opened Text
  import opened Tree
  import opened VirtualFS
  import opened Shell
  import opened Script
  import TreeFacts

  /** The command-line handler StartAPP installs: the real filesystem, or the VFS. */
  datatype Backend = OsHandler | VfsHandler

  /** The outcome of the backend choice: the handler, the isVFS flag, and the lines written. */
  datatype Selection = Selection(handler: Backend, isVFS: bool, out: seq<Line>)

  /** What LoadFromCSV reports, given the VFS path and what its file yields. */
  function LoadOutcome(vfsPath: string, csv: CsvInput): (r: LoadResult)
    ensures r.LoadFailed? <==> vfsPath != "" && csv.ReadError?
  {
    if vfsPath != "" && csv.ReadError? then LoadFailed(csv.message) else Loaded
  }

  /** The backend choice: no VFS path, or a VFS that failed to load, selects the OS handler
      (the failure is reported in two lines); a loaded VFS selects the VFS handler. */
  function Select(vfsPath: string, load: LoadResult): (s: Selection)
    ensures s.isVFS <==> vfsPath != "" && load.Loaded?
    ensures s.handler == VfsHandler <==> s.isVFS
    ensures s.out != [] <==> vfsPath != "" && load.LoadFailed?
    ensures vfsPath != "" && load.LoadFailed? ==> s.out[0] == Plain("Error loading VFS: " + load.message)
  {
    if vfsPath == "" then Selection(OsHandler, false, [])
    else if load.LoadFailed? then
      Selection(OsHandler, false, [Plain("Error loading VFS: " + load.message), Plain(" Started in interacive mode")])
    else Selection(VfsHandler, true, [])
  }

  /** The text put into the (then disabled) input field while a script runs. */
  const Banner := " ▁▂▃▅▇    SYSTEM: To exit application, please press `Ctrl + C`    ▇▅▃▂▁"

  /** The script as StartAPP prepares it: its lines (none if it could not be read), the lines
      written about a read failure, and whether the input is replaced by the banner. */
  datatype Prep = Prep(lines: seq<string>, out: seq<Line>, banner: bool)

  function Prepared(file: ScriptFile): (p: Prep)
    ensures p.banner <==> file.ScriptText?
    ensures p.banner ==> p.lines == LoadScript(file.content) && p.out == []
    ensures !p.banner ==> p.lines == [] && |p.out| == 2
  {
    match file
    case ScriptText(content) => Prep(LoadScript(content), [], true)
    case ScriptReadError(message) =>
      Prep([], [Plain("Error loading script: " + message), Plain(" Started in interacive mode")], false)
  }

  /** The console window reduced to its text: the input, the output lines, whether app.Stop
      ran, and whether the input is disabled. */
  datatype Console = Console(input: string, out: seq<Line>, stopped: bool, disabled: bool)

  function Shown(term: Terminal): Console
    reads term
  {
    Console(term.input, term.output, term.stopped, term.disabled)
  }

  /** Everything StartAPP decides before the event loop: the backend, the flag, the tree in
      use and the console. */
  datatype App = App(handler: Backend, isVFS: bool, fs: Fs, console: Console)

  /** The tree in use after loading: the loaded records when the VFS backend is selected,
      else the fresh tree (a failed load leaves it untouched, no path never loads). */
  function Booted(vfsPath: string, csv: CsvInput): (fs: Fs)
    requires vfsPath != "" && csv.Records? ==> LoadOk(Empty, csv.rows)
    ensures WellFormed(fs)
    ensures Select(vfsPath, LoadOutcome(vfsPath, csv)).isVFS ==> fs == Load(Empty, csv.rows)
    ensures !Select(vfsPath, LoadOutcome(vfsPath, csv)).isVFS ==> fs == Empty
  {
    if vfsPath != "" && csv.Records? then
      TreeFacts.LoadWellFormed(Empty, csv.rows);
      Load(Empty, csv.rows)
    else Empty
  }

  datatype Stage = Stage(fs: Fs, console: Console)

  /** The script part of StartAPP.  With no script path nothing happens.  Otherwise the
      script is prepared: it is read and the input shows the banner and is disabled, or the
      read failure is reported and there are no lines.  The lines then run against the VFS
      exactly in VFS mode.  In OS mode they run on the real filesystem (ExecuteScriptOS), which
      is not modelled: the stage then gives the console as it is after preparation, before that
      run writes to the output, clears it or stops the application. */
  function ScriptStage(fs: Fs, isVFS: bool, scriptPath: string, file: ScriptFile, c: Console): (r: Stage)
    requires WellFormed(fs)
    ensures WellFormed(r.fs)
    ensures scriptPath == "" ==> r == Stage(fs, c)
    ensures !isVFS ==> r.fs == fs
    ensures scriptPath != "" && !isVFS ==> r.console == PreparedConsole(file, c)
    ensures scriptPath != "" && file.ScriptText? ==> r.console.input == Banner && r.console.disabled
    ensures scriptPath != "" && file.ScriptReadError? ==> r.console.input == c.input && r.console.disabled == c.disabled
    ensures scriptPath != "" && isVFS ==>
      var run := RunLines(fs, DefaultUser, c.out + Prepared(file).out, Prepared(file).lines);
      r.fs == run.fs && r.console.out == run.out && r.console.stopped == (c.stopped || run.exited)
  {
    if scriptPath == "" then Stage(fs, c)
    else
      var prep := Prepared(file);
      var prepared := PreparedConsole(file, c);
      if isVFS then
        var run := RunLines(fs, DefaultUser, prepared.out, prep.lines);
        Stage(run.fs, prepared.(out := run.out, stopped := c.stopped || run.exited))
      else Stage(fs, prepared)
  }

  /** The console once the script is prepared. */
  function PreparedConsole(file: ScriptFile, c: Console): Console {
    var prep := Prepared(file);
    Console(if prep.banner then Banner else c.input, c.out + prep.out, c.stopped, prep.banner || c.disabled)
  }

  /** The script part of StartAPP before the run: reading the script into lines. */
  method PrepareScript(file: ScriptFile, term: Terminal) returns (lines: seq<string>)
    modifies term`input, term`output, term`disabled
    ensures lines == Prepared(file).lines
    ensures Shown(term) == PreparedConsole(file, old(Shown(term)))
  {
    lines := [];
    match file {
      case ScriptReadError(message) =>
        term.output := term.output + [Plain("Error loading script: " + message), Plain(" Started in interacive mode")];
      case ScriptText(content) =>
        lines := LoadScript(content);
        term.input := Banner;
        term.disabled := true;
    }
  }

  /** StartAPP before the event loop: the backend choice, then the script stage on the tree in
      use, with the selection's lines already written.  In OS mode the console is the one
      before any OS-mode script run (see ScriptStage). */
  function Started(vfsPath: string, csv: CsvInput, scriptPath: string, file: ScriptFile, c: Console): (a: App)
    requires vfsPath != "" && csv.Records? ==> LoadOk(Empty, csv.rows)
    ensures WellFormed(a.fs)
    ensures a.handler == VfsHandler <==> a.isVFS
    ensures a.isVFS <==> vfsPath != "" && csv.Records?
    ensures !a.isVFS ==> a.fs == Empty
    ensures !a.isVFS ==>
      var shown := c.(out := c.out + Select(vfsPath, LoadOutcome(vfsPath, csv)).out);
      a.console == if scriptPath == "" then shown else PreparedConsole(file, shown)
    ensures !a.isVFS && scriptPath == "" ==> a.console.stopped == c.stopped && c.out <= a.console.out
    ensures a.isVFS && scriptPath == "" ==> a.fs == Load(Empty, csv.rows) && a.console == c
  {
    var sel := Select(vfsPath, LoadOutcome(vfsPath, csv));
    var st := ScriptStage(Booted(vfsPath, csv), sel.isVFS, scriptPath, file, c.(out := c.out + sel.out));
    App(sel.handler, sel.isVFS, st.fs, st.console)
  }

  /** The backend choice of StartAPP on the fresh VFS, setting isVFS step by step. */
  method SelectBackend(vfsPath: string, csv: CsvInput, vfs: VFS, term: Terminal) returns (handler: Backend, isVFS: bool)
    requires vfs.Valid() && vfs.State() == Empty
    requires vfsPath != "" && csv.Records? ==> LoadOk(Empty, csv.rows)
    modifies vfs, term`output
    ensures vfs.Valid()
    ensures var sel := Select(vfsPath, LoadOutcome(vfsPath, csv));
      && handler == sel.handler && isVFS == sel.isVFS
      && vfs.State() == Booted(vfsPath, csv) && term.output == old(term.output) + sel.out
  {
    isVFS := false;
    if vfsPath != "" {
      var r := vfs.LoadFromCSV(vfsPath, csv);
      if r.LoadFailed? {
        term.output := term.output + [Plain("Error loading VFS: " + r.message), Plain(" Started in interacive mode")];
        handler := OsHandler;
      } else {
        handler := VfsHandler;
        isVFS := true;
      }
    } else {
      handler := OsHandler;
    }
  }

  /** The script part of StartAPP on the VFS in use. */
  method RunScript(vfs: VFS, isVFS: bool, scriptPath: string, file: ScriptFile, term: Terminal)
    requires vfs.Valid() && vfs.username == DefaultUser
    modifies vfs, term
    ensures vfs.Valid()
    ensures Stage(vfs.State(), Shown(term)) == ScriptStage(old(vfs.State()), isVFS, scriptPath, file, old(Shown(term)))
  {
    if scriptPath != "" {
      var lines := PrepareScript(file, term);
      var s := new Script(lines);
      if isVFS {
        s.ExecuteScriptVFS(vfs, term);
      }
    }
  }

  /** StartAPP up to the event loop (the goroutine only defers the script run). */
  method StartApp(vfsPath: string, csv: CsvInput, scriptPath: string, file: ScriptFile, term: Terminal)
      returns (vfs: VFS, handler: Backend, isVFS: bool)
    requires vfsPath != "" && csv.Records? ==> LoadOk(Empty, csv.rows)
    modifies term
    ensures fresh(vfs) && vfs.Valid() && vfs.username == DefaultUser
    ensures App(handler, isVFS, vfs.State(), Shown(term)) == Started(vfsPath, csv, scriptPath, file, old(Shown(term)))
  {
    vfs := new VFS();
    handler, isVFS := SelectBackend(vfsPath, csv, vfs, term);
    RunScript(vfs, isVFS, scriptPath, file, term);
  }

  // ---------------------------------------------------------------------------
  // handler_vfs: one key press in the input field

  datatype Key = Enter | OtherKey

  /** The console as handler_vfs sees it: the input text, the output lines, and app.Stop. */
  datatype Screen = Screen(input: string, out: seq<Line>, stopped: bool)

  datatype Reaction = Reaction(fs: Fs, screen: Screen)

  /** One key press: only Enter acts; a line without fields only clears the input; otherwise
      the raw text is echoed and the fields are dispatched, and every verb but exit ends by
      clearing the input (exit stops the application and returns before that). */
  function Handle(fs: Fs, user: string, sc: Screen, key: Key): (r: Reaction)
    requires WellFormed(fs)
    ensures WellFormed(r.fs)
    ensures key != Enter ==> r == Reaction(fs, sc)
    ensures key == Enter && Fields(sc.input) == [] ==> r == Reaction(fs, sc.(input := ""))
    ensures r.screen.stopped <==> sc.stopped || (key == Enter && Fields(sc.input) != [] && Fields(sc.input)[0] == "exit")
    ensures key == Enter && Fields(sc.input) != [] ==>
      r.screen.input == (if Fields(sc.input)[0] == "exit" then sc.input else "")
    ensures key == Enter && Fields(sc.input) != [] && Fields(sc.input)[0] != "clear" ==>
      sc.out + [Plain("$ " + sc.input)] <= r.screen.out
  {
    if key != Enter then Reaction(fs, sc)
    else
      var args := Fields(sc.input);
      if args == [] then Reaction(fs, sc.(input := ""))
      else
        var e := Exec(fs, user, sc.out + [Plain("$ " + sc.input)], args);
        Reaction(e.fs, Screen(if e.exit then sc.input else "", e.out, sc.stopped || e.exit))
  }

  /** The SetDoneFunc callback of handler_vfs; UpdateInputLabel and ScrollToEnd are
      presentation and are not modelled. */
  method HandlerVfs(vfs: VFS, term: Terminal, key: Key)
    requires vfs.Valid()
    modifies vfs, term`input, term`output, term`stopped
    ensures vfs.Valid()
    ensures Reaction(vfs.State(), Screen(term.input, term.output, term.stopped))
      == Handle(old(vfs.State()), vfs.username, old(Screen(term.input, term.output, term.stopped)), key)
  {
    if key != Enter {
      return;
    }
    var text := term.input;
    var args := Fields(text);
    if |args| == 0 {
      term.input := "";
      return;
    }
    term.output := term.output + [Plain("$ " + text)];
    var out, exit := Dispatch(vfs, term.output, args);
    term.output := out;
    if exit {
      term.stopped := true;
      return;
    }
    term.input := "";
  }
}
