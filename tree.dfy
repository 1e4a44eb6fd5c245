/** The virtual filesystem tree as a value, and the meaning of each of its operations.

    A tree of VFSNode objects, each directory owning a map from child names to nodes, is
    represented by the map from every node's path (the sequence of child names leading to
    it from the root) to what the node holds.  Every node is reachable by exactly one path
    and no node is shared, so the two carry the same information; a node's Name is the
    last name on its path ("/" for the root).  Putting a new node under a name drops the
    whole subtree that was there before, which in the map means removing every key below
    that path.  The cursor (VFS.Current) is the path of the current directory. */
module Tree {
  import opened Text

  type Path = seq<string>

  /** A node: a directory (its children are the keys one name below it) or a file. */
  datatype Entry = Dir | File(content: string)

  datatype Fs = Fs(nodes: map<Path, Entry>, cwd: Path)

  /** Failures of the tree operations; Message gives the text Go's fmt.Errorf produces. */
  datatype Error =
    | NoSuchFile(path: string)
    | NotADirectory(path: string)
    | IsADirectory(path: string)
    | EmptyFilename

  function Message(e: Error): string {
    match e
    case NoSuchFile(p) => "no such file or directory: " + p
    case NotADirectory(p) => "not a directory: " + p
    case IsADirectory(p) => "is a directory: " + p
    case EmptyFilename => "filename cannot be empty"
  }

  datatype Result<T> = Ok(value: T) | Err(error: Error)

  datatype Outcome = Pass | Fail(error: Error)

  /** The owner label NewVFS stores. */
  const DefaultUser := "Default user"

  predicate IsDir(nodes: map<Path, Entry>, p: Path) {
    p in nodes && nodes[p].Dir?
  }

  predicate IsFile(nodes: map<Path, Entry>, p: Path) {
    p in nodes && nodes[p].File?
  }

  function Parent(p: Path): Path
    requires p != []
  {
    p[..|p| - 1]
  }

  /** The parent of every non-root node is a directory. */
  predicate ParentIsDir(nodes: map<Path, Entry>, p: Path) {
    p == [] || IsDir(nodes, Parent(p))
  }

  /** The shape every reachable state has: the root and the cursor are directories, and
      every node hangs below a directory (so a file has no children). */
  predicate WellFormed(fs: Fs) {
    && IsDir(fs.nodes, [])
    && IsDir(fs.nodes, fs.cwd)
    && forall p :: p in fs.nodes ==> ParentIsDir(fs.nodes, p)
  }

  /** The fresh tree of NewVFS: the root directory alone, with the cursor on it. */
  const Empty: Fs := Fs(map[[] := Dir], [])

  /** The names of the children of dir. */
  function Children(nodes: map<Path, Entry>, dir: Path): set<string> {
    set p | p in nodes && |p| == |dir| + 1 && p[..|dir|] == dir :: p[|dir|]
  }

  predicate IsPrefix(p: Path, q: Path) {
    |p| <= |q| && q[..|p|] == p
  }

  predicate StrictlyBelow(p: Path, q: Path) {
    |p| < |q| && q[..|p|] == p
  }

  /** Put e at p, dropping whatever subtree was at p. */
  function Replace(nodes: map<Path, Entry>, p: Path, e: Entry): map<Path, Entry>
  {
    (map q | q in nodes && !StrictlyBelow(p, q) :: nodes[q])[p := e]
  }

  /** Putting a node under a name: the replaced node has no children left, and its parent
      gains the name while keeping every child it had. */
  lemma ReplaceChildren(nodes: map<Path, Entry>, p: Path, e: Entry)
    requires p != []
    ensures Children(Replace(nodes, p, e), p) == {}
    ensures Children(Replace(nodes, p, e), Parent(p)) == Children(nodes, Parent(p)) + {p[|p| - 1]}
  {
    var r := Replace(nodes, p, e);
    var d := Parent(p);
    assert p[..|d|] == d && p[|d|] == p[|p| - 1];
    forall n | n in Children(r, d) ensures n in Children(nodes, d) + {p[|p| - 1]} {
      var q :| q in r && |q| == |d| + 1 && q[..|d|] == d && q[|d|] == n;
      if q != p {
        assert q in nodes;
      }
    }
    forall n | n in Children(nodes, d) ensures n in Children(r, d) {
      var q :| q in nodes && |q| == |d| + 1 && q[..|d|] == d && q[|d|] == n;
      assert !StrictlyBelow(p, q);
      assert q in r;
    }
    assert p in r;
  }

  lemma ReplaceAt(nodes: map<Path, Entry>, p: Path, e: Entry, q: Path)
    ensures q in Replace(nodes, p, e) <==> q == p || (q in nodes && !StrictlyBelow(p, q))
    ensures q in Replace(nodes, p, e) ==> Replace(nodes, p, e)[q] == if q == p then e else nodes[q]
  {
  }

  // ---------------------------------------------------------------------------
  // Path splitting

  /** The non-empty pieces of xs, in order. */
  function NonEmpty(xs: seq<string>): (r: seq<string>)
    ensures forall i :: 0 <= i < |r| ==> r[i] != "" && r[i] in xs
  {
    if xs == [] then []
    else NonEmpty(xs[..|xs| - 1]) + (if xs[|xs| - 1] != "" then [xs[|xs| - 1]] else [])
  }

  /** The segments of a path: split on '/', empty pieces dropped. */
  function Segments(path: string): seq<string> {
    NonEmpty(Split(path, '/'))
  }

  // ---------------------------------------------------------------------------
  // CreateNode (root-anchored creation)

  function NewEntry(isDir: bool, content: string): Entry {
    if isDir then Dir else File(content)
  }

  /** The intermediate paths of segs: its non-empty proper prefixes. */
  function Intermediates(segs: Path): set<Path> {
    set k | 0 < k < |segs| :: segs[..k]
  }

  /** The tree after CreateNode: missing intermediates become empty directories, existing
      ones are kept, and the final segment gets a fresh node (its old subtree is dropped).
      No segments: nothing changes. */
  function Created(nodes: map<Path, Entry>, segs: Path, isDir: bool, content: string): map<Path, Entry> {
    if segs == [] then nodes else Replace(Grown(nodes, segs), segs, NewEntry(isDir, content))
  }

  /** The tree with every missing intermediate of segs added as an empty directory. */
  function Grown(nodes: map<Path, Entry>, segs: Path): map<Path, Entry> {
    map q | q in nodes.Keys + Intermediates(segs) :: if q in nodes then nodes[q] else Dir
  }

  /** When CreateNode is defined: Go panics writing into the nil Children map of a file met as
      an intermediate; and creating a node at the cursor or one of its ancestors would leave the
      cursor on a detached node, which only the load phase could do and it runs at the root. */
  predicate CreateOk(fs: Fs, segs: Path) {
    segs == [] ||
    ((forall k | 0 < k < |segs| :: !IsFile(fs.nodes, segs[..k])) && !IsPrefix(segs, fs.cwd))
  }

  // ---------------------------------------------------------------------------
  // FindNode (path resolution)

  /** Walk segs from at: ".." jumps to the root, every other segment must be a child. */
  function Walk(nodes: map<Path, Entry>, at: Path, segs: seq<string>, shown: string): (r: Result<Path>)
    requires [] in nodes && at in nodes
    ensures r.Ok? ==> r.value in nodes
    ensures r.Err? ==> r.error == NoSuchFile(shown)
    decreases |segs|
  {
    if segs == [] then Ok(at)
    else if segs[0] == ".." then Walk(nodes, [], segs[1..], shown)
    else if at + [segs[0]] in nodes then Walk(nodes, at + [segs[0]], segs[1..], shown)
    else Err(NoSuchFile(shown))
  }

  /** FindNode: the special forms, then one leading '/' removed; the walk starts at the root
      only if what remains still starts with '/'. */
  function Resolve(fs: Fs, path: string): (r: Result<Path>)
    requires WellFormed(fs)
    ensures r.Ok? ==> r.value in fs.nodes
  {
    if path == "" || path == "." then Ok(fs.cwd)
    else if path == ".." || path == "/" then Ok([])
    else
      var p := if HasPrefix(path, "/") then path[1..] else path;
      Walk(fs.nodes, if HasPrefix(p, "/") then [] else fs.cwd, Segments(p), p)
  }

  // ---------------------------------------------------------------------------
  // LS, CD, GetContent, Touch

  function Listing(fs: Fs, path: string): (r: Result<set<string>>)
    requires WellFormed(fs)
  {
    var target := if path == "" then Ok(fs.cwd) else Resolve(fs, path);
    if target.Err? then Err(target.error)
    else if fs.nodes[target.value].File? then Err(NotADirectory(path))
    else Ok(Children(fs.nodes, target.value))
  }

  function CdTarget(fs: Fs, path: string): (r: Result<Path>)
    requires WellFormed(fs)
    ensures r.Ok? ==> IsDir(fs.nodes, r.value) && Resolve(fs, path) == r
    ensures r.Err? ==> Resolve(fs, path).Err? || IsFile(fs.nodes, Resolve(fs, path).value)
  {
    var node := Resolve(fs, path);
    if node.Err? then node
    else if fs.nodes[node.value].File? then Err(NotADirectory(path))
    else node
  }

  function Content(fs: Fs, path: string): (r: Result<string>)
    requires WellFormed(fs)
  {
    var node := Resolve(fs, path);
    if node.Err? then Err(node.error)
    else if fs.nodes[node.value].Dir? then Err(IsADirectory(path))
    else Ok(fs.nodes[node.value].content)
  }

  /** Touch: an empty file under the literal name, directly in the current directory. */
  function Touched(fs: Fs, filename: string): Fs {
    if filename == "" then fs
    else fs.(nodes := Replace(fs.nodes, fs.cwd + [filename], File("")))
  }

  /** "Is this name a directory?" as the ls verb asks it: resolved against the cursor. */
  predicate ResolvesToDir(fs: Fs, name: string)
    requires WellFormed(fs)
  {
    var r := Resolve(fs, name);
    r.Ok? && fs.nodes[r.value].Dir?
  }

  // ---------------------------------------------------------------------------
  // The record loop of LoadFromCSV

  type Record = seq<string>

  /** What one decoded record does: fewer than two fields is skipped, otherwise CreateNode
      with kind "directory" meaning a directory and a missing third field meaning "". */
  function Row(fs: Fs, r: Record): Fs {
    if |r| < 2 then fs
    else fs.(nodes := Created(fs.nodes, Segments(r[1]), r[0] == "directory", if |r| > 2 then r[2] else ""))
  }

  predicate RowOk(fs: Fs, r: Record) {
    |r| < 2 || CreateOk(fs, Segments(r[1]))
  }

  /** The rows applied in file order. */
  function Rows(fs: Fs, rows: seq<Record>): Fs {
    if rows == [] then fs else Row(Rows(fs, rows[..|rows| - 1]), rows[|rows| - 1])
  }

  /** No row makes CreateNode panic, given the rows before it. */
  predicate RowsOk(fs: Fs, rows: seq<Record>) {
    rows == [] || (RowsOk(fs, rows[..|rows| - 1]) && RowOk(Rows(fs, rows[..|rows| - 1]), rows[|rows| - 1]))
  }

  /** The whole record list: the header (record 0) is skipped. */
  function Load(fs: Fs, records: seq<Record>): Fs {
    if records == [] then fs else Rows(fs, records[1..])
  }

  predicate LoadOk(fs: Fs, records: seq<Record>) {
    records == [] || RowsOk(fs, records[1..])
  }
}
