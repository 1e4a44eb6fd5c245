/** The verb table shared by handler_vfs (internal/start/start.go) and ExecuteScriptVFS
    (internal/start/script_execution.go): the two switch statements are identical, so the
    meaning is given once (Exec) and implemented once against a VFS object (Dispatch). */
module Shell {
  import opened Text
  import opened Tree
  import opened VirtualFS
  import TreeFacts

  /** An ls entry: its name and whether it was coloured as a directory. */
  datatype Item = Item(name: string, isDir: bool)

  /** A line of the output view.  A listing is written as "> " and then its entries, two
      spaces apart, in the order Go's map iteration yields them; that order is unspecified,
      so the line is recorded as the set of its entries (LS lists each name once). */
  datatype Line = Plain(text: string) | Entries(items: set<Item>)

  const AvailableCommands := "> Available commands: cd, ls, whoami, wc, touch, clear, exit"

  function ErrorLine(e: Error): Line {
    Plain("Error: " + Message(e))
  }

  /** The wc report: newline count + 1, field count, byte count, then the operand. */
  function WcLine(content: string, name: string): string {
    "> " + NatToString(Count(content, '\n') + 1) + " " + NatToString(|Fields(content)|) + " "
      + NatToString(|content|) + " " + name
  }

  /** The entries of an ls of names: each is classified by resolving the bare name against
      the cursor, not against the directory that was listed. */
  function Classified(fs: Fs, names: set<string>): set<Item>
    requires WellFormed(fs)
  {
    set n | n in names :: Item(n, ResolvesToDir(fs, n))
  }

  /** The input field and output view of the console window, reduced to their text: the
      input line, the output lines, whether app.Stop ran, and whether input is disabled. */
  class Terminal {
    var input: string
    var output: seq<Line>
    var stopped: bool
    var disabled: bool

    constructor ()
      ensures input == "" && output == [] && !stopped && !disabled
    {
      input, output, stopped, disabled := "", [], false, false;
    }
  }

  /** What one dispatch leaves behind: the tree, the output view, and whether exit ran. */
  datatype Effect = Effect(fs: Fs, out: seq<Line>, exit: bool)

  /** One dispatched command line (args are its fields, args[0] the verb). */
  function Exec(fs: Fs, user: string, out: seq<Line>, args: seq<string>): (e: Effect)
    requires WellFormed(fs) && args != []
    ensures WellFormed(e.fs)
    ensures e.exit <==> args[0] == "exit"
    ensures args[0] != "cd" ==> e.fs.cwd == fs.cwd
    ensures args[0] != "touch" ==> e.fs.nodes == fs.nodes
    ensures args[0] == "clear" ==> e.out == []
    ensures args[0] != "clear" ==> out <= e.out && |e.out| <= |out| + 2
  {
    var verb := args[0];
    if verb == "cd" then
      if |args| > 1 then
        var target := CdTarget(fs, args[1]);
        if target.Ok? then Effect(fs.(cwd := target.value), out, false)
        else Effect(fs, out + [ErrorLine(target.error)], false)
      else Effect(fs.(cwd := []), out, false)
    else if verb == "ls" then
      var names := Listing(fs, if |args| > 1 then args[1] else "");
      if names.Err? then Effect(fs, out + [ErrorLine(names.error)], false)
      else Effect(fs, out + [Entries(Classified(fs, names.value))], false)
    else if verb == "whoami" then
      Effect(fs, out + [Plain("> " + user)], false)
    else if verb == "wc" then
      if |args| > 1 then
        var content := Content(fs, args[1]);
        if content.Err? then Effect(fs, out + [ErrorLine(content.error)], false)
        else Effect(fs, out + [Plain(WcLine(content.value, args[1]))], false)
      else Effect(fs, out + [Plain("Error: wc requires filename argument")], false)
    else if verb == "touch" then
      if |args| > 1 then
        if args[1] == "" then Effect(fs, out + [ErrorLine(EmptyFilename)], false)
        else
          TreeFacts.TouchedWellFormed(fs, args[1]);
          Effect(Touched(fs, args[1]), out + [Plain("> Created file: " + args[1])], false)
      else Effect(fs, out + [Plain("Error: touch requires filename argument")], false)
    else if verb == "clear" then
      Effect(fs, [], false)
    else if verb == "exit" then
      Effect(fs, out, true)
    else
      Effect(fs, out + [Plain("> Unknown command: " + verb), Plain(AvailableCommands)], false)
  }

  /** The switch body run against the VFS object; UpdateInputLabel, the colour markup and
      app.Stop are presentation and are not modelled (exit is reported instead). */
  method Dispatch(vfs: VFS, out: seq<Line>, args: seq<string>) returns (out': seq<Line>, exit: bool)
    requires vfs.Valid() && args != []
    modifies vfs
    ensures vfs.Valid()
    ensures Effect(vfs.State(), out', exit) == Exec(old(vfs.State()), vfs.username, out, args)
  {
    var cmd := args[0];
    out', exit := out, false;
    if cmd == "cd" {
      if |args| > 1 {
        var o := vfs.CD(args[1]);
        if o.Fail? {
          out' := out' + [ErrorLine(o.error)];
        }
      } else {
        vfs.current := [];
      }
    } else if cmd == "ls" {
      var path := "";
      if |args| > 1 {
        path := args[1];
      }
      var files := vfs.LS(path);
      if files.Err? {
        out' := out' + [ErrorLine(files.error)];
      } else {
        var names := files.value;
        var items: seq<Item> := [];
        for i := 0 to |names|
          invariant vfs.Valid() && vfs.State() == old(vfs.State())
          invariant |items| == i
          invariant forall j :: 0 <= j < i ==> items[j] == Item(names[j], ResolvesToDir(vfs.State(), names[j]))
        {
          var node := vfs.FindNode(names[i]);
          items := items + [Item(names[i], node.Ok? && vfs.nodes[node.value].Dir?)];
        }
        ghost var listed := Listing(vfs.State(), path).value;
        assert (set it | it in items) == Classified(vfs.State(), listed) by {
          forall it | it in items ensures it in Classified(vfs.State(), listed) {
            var j :| 0 <= j < |items| && items[j] == it;
            assert names[j] in names;
          }
          forall n | n in listed ensures Item(n, ResolvesToDir(vfs.State(), n)) in items {
            assert n in names;
            var j :| 0 <= j < |names| && names[j] == n;
            assert items[j] == Item(n, ResolvesToDir(vfs.State(), n));
          }
        }
        out' := out' + [Entries(set it | it in items)];
      }
    } else if cmd == "whoami" {
      out' := out' + [Plain("> " + vfs.username)];
    } else if cmd == "wc" {
      if |args| > 1 {
        var content := vfs.GetContent(args[1]);
        if content.Err? {
          out' := out' + [ErrorLine(content.error)];
        } else {
          var lines := Count(content.value, '\n') + 1;
          var words := |Fields(content.value)|;
          var bytes := |content.value|;
          out' := out' + [Plain("> " + NatToString(lines) + " " + NatToString(words) + " "
            + NatToString(bytes) + " " + args[1])];
        }
      } else {
        out' := out' + [Plain("Error: wc requires filename argument")];
      }
    } else if cmd == "touch" {
      if |args| > 1 {
        var o := vfs.Touch(args[1]);
        if o.Fail? {
          out' := out' + [ErrorLine(o.error)];
        } else {
          out' := out' + [Plain("> Created file: " + args[1])];
        }
      } else {
        out' := out' + [Plain("Error: touch requires filename argument")];
      }
    } else if cmd == "clear" {
      out' := [];
    } else if cmd == "exit" {
      exit := true;
    } else {
      out' := out' + [Plain("> Unknown command: " + cmd), Plain(AvailableCommands)];
    }
  }
}
