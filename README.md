# MyCLI virtual filesystem and command interpreter, modelled in Dafny

MyCLI is a terminal emulator written in Go. In VFS mode it keeps an in-memory tree of
directories and files, loaded from a CSV file of `type,path,content` rows, and interprets a small
command language over it: `cd`, `ls`, `whoami`, `wc`, `touch`, `clear` and `exit`. Commands are
typed one line at a time, or read from a script file and run top to bottom.

This project models that core and proves properties of it:

- `text.dfy` (module `Text`): the Go string functions the interpreter relies on, as functions.
  These are `strings.Split`, `strings.Fields`, `strings.TrimSpace`, `strings.HasPrefix`,
  `strings.Count` and `%d` formatting.
- `tree.dfy` (module `Tree`): the tree as a value, a map from each node's path (the sequence of
  child names from the root) to a directory or a file with its content. It also holds the cursor
  and the meaning of every tree operation: creation, path resolution, listing, cd, content,
  touch, and the record loop of the loader.
- `tree_facts.dfy` (module `TreeFacts`): lemmas about the tree operations.
- `vfs.dfy` (module `VirtualFS`): the `VFS` class. Its fields are updated in place by methods that
  follow the Go loops, and each method is proved against the functions of `Tree`.
- `shell.dfy` (module `Shell`): the verb table. The script runner and the interactive handler use
  the same switch. It is given once as the function `Exec` and implemented once, against a `VFS`
  object, as the method `Dispatch`.
- `shell_facts.dfy` (module `ShellFacts`): properties of the verb table and end-to-end scenarios.
- `script.dfy` (module `Script`): `LoadScript`'s split, and the `Script` class with
  `ExecuteScriptVFS`. It is specified by `RunLine` (one script line) and `RunLines` (a whole run).
- `script_facts.dfy` (module `ScriptFacts`): when a run stops, what it echoes, and what it keeps.
- `start.dfy` (module `Start`): `StartAPP`'s backend choice and script preparation, and the
  interactive handler `handler_vfs`.
- `start_facts.dfy` (module `StartFacts`): how the interactive handler and the script runner
  differ on the same line, and what start-up reports.

The model keeps four behaviours of the code that a reader might not expect:

- A path with one leading `/` is resolved from the cursor, not from the root. Resolution strips
  one `/` and then tests for a leading `/` again, so only `//x` starts at the root. "Absolute
  path" resolution therefore agrees with root resolution only while the cursor is at the root.
  The create-then-resolve round trip (`TreeFacts.CreateThenResolve`) is proved under that
  condition, and `TreeFacts.AbsoluteIsNotRootRelative` shows the difference otherwise.
- `wc` of a file holding `a b\nc` reports `> 2 3 5`: `len` counts the newline, so the byte
  count is 5. `ShellFacts.LoadedTwoLineFileWc` proves this for a file loaded from CSV records.
- `ls` classifies each listed name by resolving the bare name against the cursor, not against the
  listed directory. `ShellFacts.LsClassifiesAgainstCursor` shows a subdirectory reported as a
  file because of this.
- A script ends silently at its first blank line or its first line starting with `#`, while the
  same `#` typed at the prompt is reported as an unknown command (`StartFacts.CommentDiverges`).

The output view is modelled as a sequence of lines, but not as plain strings. An `ls` listing
is written in Go's map iteration order, which is unspecified, so a listing line is the *set*
of its entries (`Shell.Line`). Every other line is its text, without the colour markup.

Inputs that come from outside are parameters of the model:

- the decoded CSV records, or a read error;
- the script file's content, or a read error;
- the command-line flags (the VFS path and the script path);
- the key that was pressed.

## Model

| member | source | states |
|---|---|---|
| Text.JoinSplit | internal/start/script_execution.go:27 | joining the pieces of a split on "\n" with "\n" gives back the original content |
| Text.SplitJoin | internal/start/script_execution.go:27 | splitting a join of newline-free pieces gives back the pieces |
| Text.SplitCount | internal/start/script_execution.go:27 | a split has one more piece than the string has separators |
| Text.SplitTrailing | internal/start/script_execution.go:27 | a separator at the end adds one last empty piece and leaves the others as they were |
| Text.Split | internal/start/script_execution.go:27 | a split yields at least one piece and no piece contains the separator |
| Text.Fields | internal/start/script_execution.go:87 | every field is a non-empty run of non-space characters |
| Text.TrimSpace | internal/start/script_execution.go:80 | a trimmed line is empty or starts and ends with a non-space character |
| Text.TrimSpaceIsSlice | internal/start/script_execution.go:80 | the trimmed line is a contiguous slice of the line with only white space outside it, so inner white space is kept as it is |
| Text.FieldsJoin | internal/start/script_execution.go:87 | the fields of words joined by single spaces are exactly those words, in order |
| Text.FieldsSeparator | internal/start/script_execution.go:87 | any white-space character separates fields: the fields of x, one white-space character and y are the fields of x followed by those of y, so runs of white space and tabs or newlines split like single spaces |
| Text.FieldsTrimSpace | internal/start/script_execution.go:80-87 | trimming a line first does not change its fields |
| Text.FieldsEmptyIffBlank | internal/start/script_execution.go:80-90 | a line has no fields exactly when it trims to the empty string |
| Text.FieldsAppendSpace | internal/start/start.go:149 | a trailing white-space character neither adds nor changes a field |
| Text.FieldsTrimRight | internal/start/start.go:149 | trailing white space does not change the fields |
| Text.NatToString | internal/start/script_execution.go:145 | `%d` gives at least one decimal digit, with no leading zero for a positive number |
| Text.ParseNatToString | internal/start/script_execution.go:145 | reading the decimal digits back gives the number printed |
| Tree.Walk | internal/VFS/vfs.go:141-151 | a successful walk ends on an existing node; the only failure is "no such file or directory" naming the path text it was given |
| TreeFacts.WalkFound | internal/VFS/vfs.go:141-151 | a successful walk without ".." went through existing children only, at every depth, and ends at the start path extended by the segments; with `TreeFacts.WalkExisting` this is an if-and-only-if |
| Tree.Resolve | internal/VFS/vfs.go:113-154 | every successful resolution names an existing node |
| Tree.CdTarget | internal/VFS/vfs.go:180-190 | cd succeeds exactly on a directory that the path resolves to; otherwise the path does not resolve or names a file |
| Tree.ReplaceChildren | internal/VFS/vfs.go:96 | a node put under a name has no children, since its old subtree is dropped, and its parent keeps every child it had and gains that name |
| TreeFacts.SegmentsAreNames | internal/VFS/vfs.go:75-81 | every kept segment is non-empty and has no "/" |
| TreeFacts.SegmentsEmptyIff | internal/VFS/vfs.go:75-84 | a path has no segments exactly when it is made only of "/" characters, including "" |
| TreeFacts.CreateNothing | internal/VFS/vfs.go:83-84 | creating at a path made only of "/" (so "", "/" or "//") changes nothing |
| TreeFacts.SegmentsLeadingSlash | internal/VFS/vfs.go:75-81 | a leading "/" does not change the segments |
| TreeFacts.SegmentsOfPair | internal/VFS/vfs.go:75-81 | "a/b" with plain names has exactly the segments a and b |
| TreeFacts.CreatedContents | internal/VFS/vfs.go:84-110 | after creation the node holds the requested kind and content, and every intermediate is a directory. Intermediates that existed keep their nodes and missing ones are new empty directories. Nothing else changes, the old subtree of the final name is gone, and the new node has no children |
| TreeFacts.CreatedWellFormed | internal/VFS/vfs.go:74-111 | when no intermediate is a file and the cursor is not replaced, creation keeps the tree well formed: root and cursor are directories and every node's parent is a directory |
| TreeFacts.RootCursorSafe | internal/VFS/vfs.go:83 | with the cursor at the root, creation is defined whenever no intermediate is a file |
| TreeFacts.WalkExisting | internal/VFS/vfs.go:141-153 | a walk through existing children without ".." ends at the node those children lead to |
| TreeFacts.WalkDotDot | internal/VFS/vfs.go:142-145 | a ".." segment restarts the rest of the walk from the root |
| TreeFacts.WalkThroughFile | internal/VFS/vfs.go:146-150 | walking into a file fails, since a file has no children |
| TreeFacts.ResolveName | internal/VFS/vfs.go:113-154 | a plain name resolves to the cursor's child of that name, or fails naming it |
| TreeFacts.ResolvePair | internal/VFS/vfs.go:128-151 | "a/b" resolves to the cursor's grandchild a/b, or fails naming "a/b" |
| TreeFacts.SingleSlashIsRelative | internal/VFS/vfs.go:124-139 | "/x" resolves exactly as "x" does, from the cursor |
| TreeFacts.DoubleSlashFromRoot | internal/VFS/vfs.go:124-139 | "//x" walks the segments of x from the root |
| TreeFacts.AbsoluteIsNotRootRelative | internal/VFS/vfs.go:124-139 | with the cursor in a sibling directory, "/a" is not found while "//a" finds the root's child a |
| TreeFacts.ResolveAtRoot | internal/VFS/vfs.go:124-139 | with the cursor at the root, any non-special path walks its own segments from the root |
| TreeFacts.CreateThenResolve | internal/VFS/vfs.go:74-154 | with the cursor at the root, a created path without ".." resolves to the new node, which holds what was created |
| TreeFacts.TouchedWellFormed | internal/VFS/vfs.go:203-213 | touch keeps the tree well formed, keeps the cursor, and leaves an empty file under the name in the current directory |
| TreeFacts.TouchedContents | internal/VFS/vfs.go:207-211 | touch adds exactly the name to the current directory's children and leaves every node outside the replaced subtree as it was |
| TreeFacts.TouchThenResolve | internal/VFS/vfs.go:203-213 | after touch of a plain name, the name resolves to the new file and its content is empty |
| TreeFacts.ShortRowsSkipped | internal/VFS/vfs.go:57-59 | records with fewer than two fields change nothing |
| TreeFacts.RowsAppend | internal/VFS/vfs.go:53-69 | the records are applied one after another, in file order |
| TreeFacts.RowsOkPrefix | internal/VFS/vfs.go:53-69 | when a whole record list is defined, every prefix of it is defined and the next record is defined after it |
| TreeFacts.RowsWellFormed | internal/VFS/vfs.go:53-69 | applying defined records keeps the tree well formed and the cursor in place |
| TreeFacts.LoadWellFormed | internal/VFS/vfs.go:53-69 | the whole load (header skipped) keeps the tree well formed and the cursor in place |
| VirtualFS.VFS.constructor | internal/VFS/vfs.go:23-34 | a new VFS is the root directory alone, with the cursor on it and the owner "Default user" |
| VirtualFS.VFS.GetCurrentPath | internal/VFS/vfs.go:215-217 | the current directory's name is "/" at the root and otherwise the last name on its path |
| VirtualFS.VFS.CleanParts | internal/VFS/vfs.go:75-81 | the loop keeps exactly the non-empty pieces of the split, in order |
| VirtualFS.VFS.CreateNode | internal/VFS/vfs.go:74-111 | the loop over the segments leaves the tree described by `Tree.Created`; the cursor is unchanged |
| VirtualFS.VFS.FindNode | internal/VFS/vfs.go:113-154 | the loop returns `Tree.Resolve`: the cursor for "" and ".", the root for ".." and "/" |
| VirtualFS.VFS.LS | internal/VFS/vfs.go:156-178 | listing fails exactly when `Tree.Listing` fails, with its error; otherwise it returns each child name of the target exactly once |
| VirtualFS.VFS.CD | internal/VFS/vfs.go:180-190 | on success the cursor moves to the resolved directory; on failure the cursor stays and the error is reported |
| VirtualFS.VFS.GetContent | internal/VFS/vfs.go:192-201 | content succeeds exactly on a file the path resolves to, and returns that file's content |
| VirtualFS.VFS.Touch | internal/VFS/vfs.go:203-213 | the empty name fails and changes nothing; any other name succeeds and leaves `Tree.Touched` |
| VirtualFS.VFS.LoadRecords | internal/VFS/vfs.go:53-69 | the record loop leaves `Tree.Load` of the records: header skipped, short records skipped, the rest created in order |
| VirtualFS.VFS.LoadFromCSV | internal/VFS/vfs.go:36-72 | no file name succeeds and changes nothing; a read failure is returned and leaves the tree untouched; decoded records are loaded |
| Shell.Exec | internal/start/script_execution.go:94-172 | a dispatch keeps the tree well formed and reports exit exactly for "exit". Only cd moves the cursor and only touch changes the nodes. clear empties the output; every other verb keeps the earlier output and adds at most two lines |
| ShellFacts.ExecVerbs | internal/start/script_execution.go:95-172 | cd alone goes to the root and writes nothing. cd with a path moves to the directory it names, or writes one error line and stays. exit changes nothing. An unknown verb writes exactly its two report lines |
| Shell.Dispatch | internal/start/script_execution.go:94-172 | the switch run against the VFS object leaves the tree, output and exit flag that `Shell.Exec` gives |
| ShellFacts.WcCountsPieces | internal/start/script_execution.go:142-145 | the line count wc reports is the number of newline-separated pieces of the content |
| ShellFacts.WcOfEmpty | internal/start/script_execution.go:142-145 | wc of an empty file reports 1 line, 0 words and 0 bytes |
| ShellFacts.TouchThenWc | internal/start/script_execution.go:136-160 | touch of a plain name followed by wc of it writes "> Created file: name" and then "> 1 0 0 name" |
| ShellFacts.LsClassifiesAgainstCursor | internal/start/script_execution.go:119-128 | listing a from the root reports a's subdirectory b as a file, because b is resolved against the cursor |
| ShellFacts.SampleLoads | internal/VFS/vfs.go:53-69 | loading a header, a file row /d/f and a directory row /b builds exactly the root, d, d/f (with its content) and b |
| ShellFacts.SampleWc | internal/start/script_execution.go:136-146 | from the root, wc of /d/f reports the loaded file's content |
| ShellFacts.SampleLsRoot | internal/start/script_execution.go:108-131 | ls / of the loaded tree lists d and b, both as directories |
| ShellFacts.SampleCdInto | internal/start/script_execution.go:95-102 | cd /b from the root moves the cursor to b and writes nothing |
| ShellFacts.SampleFromInside | internal/VFS/vfs.go:124-139 | with the cursor in b, wc /d/f fails with "no such file or directory: d/f", and cd .. returns to the root |
| ShellFacts.FieldsOfTwoLineText | internal/start/script_execution.go:143 | the fields of "a b\nc" are a, b and c |
| ShellFacts.WcOfTwoLineText | internal/start/script_execution.go:142-145 | wc of "a b\nc" reports 2 lines, 3 words and 5 bytes |
| ShellFacts.LoadedTwoLineFileWc | internal/start/script_execution.go:136-146 | after loading /d/f holding "a b\nc", wc /d/f writes "> 2 3 5 /d/f" |
| Script.LoadScript | internal/start/script_execution.go:21-29 | the lines have no newline, there is one more line than newlines, and joining them with "\n" gives the content back |
| Script.ArgsNeverEmpty | internal/start/script_execution.go:80-90 | a line that passes the blank/comment test always has fields, the same as the untrimmed line's |
| Script.RunLine | internal/start/script_execution.go:77-171 | a line that is blank or starts with "#" after trimming halts the run and changes nothing; a run that exits also halts; the tree stays well formed |
| Script.RunLineStops | internal/start/script_execution.go:80-83 | a line halts the run exactly when it is blank, a comment or an exit, and it exits exactly in the last case |
| Script.RunLines | internal/start/script_execution.go:76-173 | a run consumes at most all lines and at least one line when there is one, and keeps the tree well formed |
| Script.Script.constructor | internal/start/start.go:295-299 | a new script is in script mode, holds the lines and starts at index 0 |
| Script.Script.ExecuteScriptVFS | internal/start/script_execution.go:75-174 | the loop leaves the tree and output of `Script.RunLines`, stops the application exactly when the run exited, and leaves the index at the number of lines consumed |
| Script.ExecuteLine | internal/start/script_execution.go:80-171 | one loop iteration leaves what `Script.RunLine` gives and reports whether the run halts |
| ScriptFacts.LoadScriptTrailingNewline | internal/start/script_execution.go:27 | a trailing newline adds a final empty line |
| ScriptFacts.FirstStop | internal/start/script_execution.go:80-83 | the first blank, comment or exit line ends the run: later lines do not matter, exactly that many lines are consumed, and the run exits only if that line is an exit |
| ScriptFacts.NoStopRunsAll | internal/start/script_execution.go:76-78 | a script with no stopping line consumes every line and does not exit |
| ScriptFacts.AppendOnly | internal/start/script_execution.go:85-171 | without clear, a run only appends to the output |
| ScriptFacts.EchoKept | internal/start/script_execution.go:85 | a run line other than clear keeps the earlier output and is echoed first as "$ " plus the trimmed line |
| ScriptFacts.EchoFirst | internal/start/script_execution.go:85 | the first line of a clear-free run is echoed trimmed right after the earlier output |
| Start.LoadOutcome | internal/start/start.go:276 | the load fails exactly when a VFS path is given and its file cannot be read |
| Start.Select | internal/start/start.go:273-285 | isVFS holds exactly when a path is given and the load succeeded. The VFS handler is chosen exactly then. Lines are written exactly on a load failure, and the first one carries its message |
| Start.Prepared | internal/start/start.go:286-293 | a readable script gives its lines and the banner; an unreadable one gives no lines and two error lines |
| Start.Booted | internal/start/start.go:273-285 | in VFS mode the tree in use is the loaded records; otherwise it is the fresh tree |
| Start.ScriptStage | internal/start/start.go:286-310 | the script runs against the VFS exactly in VFS mode. With no script nothing changes, and a readable script disables the input and shows the banner. In OS mode the tree is unchanged and the console is the one after preparation |
| Start.Started | internal/start/start.go:273-310 | the VFS handler is chosen exactly when isVFS. isVFS holds exactly when a path is given and its records are read. Outside VFS mode the tree is fresh and the console is the selection's output followed by the script preparation. With no script, outside VFS mode the application is not stopped and the earlier output is kept; in VFS mode the tree is the loaded records and the console is unchanged |
| Start.SelectBackend | internal/start/start.go:273-285 | setting isVFS step by step gives the `Start.Select` choice and the `Start.Booted` tree, and appends the selection's lines |
| Start.PrepareScript | internal/start/start.go:287-293 | reading the script gives `Start.Prepared`'s lines and console |
| Start.RunScript | internal/start/start.go:286-310 | the script part leaves what `Start.ScriptStage` gives |
| Start.StartApp | internal/start/start.go:273-310 | start-up leaves the fresh VFS and the console that `Start.Started` gives |
| Start.Handle | internal/start/start.go:143-241 | only Enter acts, and a line with no fields only clears the input. Otherwise the raw line is echoed and its fields are dispatched. exit stops and keeps the input; every other verb clears the input |
| Start.HandlerVfs | internal/start/start.go:142-242 | the callback leaves the tree and console that `Start.Handle` gives |
| StartFacts.InteractiveAgreesWithScript | internal/start/start.go:147-157 | a line the script would run has the same effect on the tree and on stopping when typed. The output is the same when the line is already trimmed |
| StartFacts.EchoStyles | internal/start/start.go:157 | a typed line is echoed as typed, while the script echoes it trimmed |
| StartFacts.CommentDiverges | internal/start/start.go:147-157 | "#" ends a script run with nothing written; typed at the prompt it is echoed and reported as an unknown command |
| StartFacts.LoadFailureReported | internal/start/start.go:276-278 | a failed load selects the OS handler and a fresh tree, and writes exactly the two failure lines. With no script the console is the earlier output plus those lines; with a script, the preparation's lines follow them |
| StartFacts.LoadedScriptRuns | internal/start/start.go:286-307 | with a loaded VFS and a readable script, the banner replaces the input and the script's lines run against the loaded tree |

## Left out

- Start.ScriptStage: in OS mode the console is given only as it is after the script's preparation. The `ExecuteScriptOS` run that follows may write to the output, clear it on `clear` or stop the application on `exit`, and is not modelled. `Start.Started` and `StartFacts.LoadFailureReported` describe the same console.
- OS mode: `handler_os`, `ExecuteScriptOS` and the functions in `internal/commands` act on the real filesystem, the process working directory and the environment. In OS mode the model records only the script preparation, not the run.
- The tview widgets and colours: the theme prompt (`chooseTheme`), the colour maps, the `[#%06X]` markup, `ScrollToEnd`, `UpdateInputLabel` (it shows the OS working directory even in VFS mode), and `SetDisabled`'s effect on key delivery. The model keeps only the input text, the output lines, whether the application stopped, and whether the input is disabled.
- The exact text of an `ls` line: the `"> "` prefix, the two-space separators and the entry order. The order is Go's random map order, so the model records the set of entries, each with its directory flag.
- Concurrency: the goroutine and `QueueUpdateDraw` only defer the script run until the event loop starts, so the model runs the script as one sequential call before any key press.
- File access and decoding: `os.Open`, `encoding/csv` decoding (RFC 4180 quoting) and `os.ReadFile`. The model takes the decoded records, the script content or the error message as inputs.
- The command-line flags (`internal/start/parse_config.go`) and the `[DEBUG]` lines printed to stderr.
- Unicode: `strings.Fields` and `strings.TrimSpace` split on every Unicode space, and `len` counts UTF-8 bytes. The model uses the six ASCII white-space characters and counts characters, which agree on ASCII content.
- Directory content: Go keeps a `Content` string on directories created from a CSV row, but nothing reads it, so a directory carries no content in the model.
- VirtualFS.VFS.CreateNode: requires that no intermediate segment is an existing file, because Go panics writing into a file's nil child map. It also requires that the created path is not the cursor or one of its ancestors, because Go would leave the cursor on a detached node, which the path model cannot represent. Creation only runs at load time with the cursor at the root, where the second condition always holds (`TreeFacts.RootCursorSafe`).
- VirtualFS.VFS.LoadFromCSV: requires that every decoded record is defined for `CreateNode` in the sense above; a record set that drives Go into that panic is not modelled.
- Start.StartApp: requires, like `LoadFromCSV`, that the decoded records are defined for `CreateNode`.
- Script.Script.ExecuteScriptVFS: requires the index to start at 0. `StartAPP` never sets it. For a non-empty script, from a start k > 0 the loop still makes len(lines) reads, so it panics unless a stopping line among lines[k..] returns first; a negative start panics at the first read. An empty script reads nothing and returns from any start.
- The terminal's input-disabled flag is not consulted by `Start.HandlerVfs`. In Go a disabled input field delivers no key presses, which is a property of tview.
