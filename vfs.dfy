/** The VFS object of internal/VFS/vfs.go: the node map and the Current cursor are fields
    that its methods update in place; each method is proved against the value-level meaning
    of the operation in module Tree. */
module VirtualFS {
  import opened Text
  import opened Tree
  import TreeFacts

  /** What LoadFromCSV gets from opening and CSV-decoding its file. */
  datatype CsvInput = Records(rows: seq<Record>) | ReadError(message: string)

  datatype LoadResult = Loaded | LoadFailed(message: string)

  predicate Distinct(s: seq<string>) {
    forall i, j :: 0 <= i < j < |s| ==> s[i] != s[j]
  }

  /** The tree after the first i intermediates of segs have been made to exist. */
  ghost function GrownTo(n0: map<Path, Entry>, segs: Path, i: nat): map<Path, Entry>
    requires i <= |segs|
  {
    map q | q in n0.Keys + (set k | 0 < k <= i :: segs[..k]) :: if q in n0 then n0[q] else Dir
  }

  lemma GrownStep(n0: map<Path, Entry>, segs: Path, i: nat)
    requires i < |segs|
    ensures segs[..i + 1] in GrownTo(n0, segs, i) <==> segs[..i + 1] in n0
    ensures segs[..i + 1] in n0 ==> GrownTo(n0, segs, i + 1) == GrownTo(n0, segs, i)
    ensures segs[..i + 1] !in n0 ==> GrownTo(n0, segs, i + 1) == GrownTo(n0, segs, i)[segs[..i + 1] := Dir]
  {
    var a, b := GrownTo(n0, segs, i), GrownTo(n0, segs, i + 1);
    var q := segs[..i + 1];
    forall k | 0 < k <= i ensures segs[..k] != q {
      assert |segs[..k]| == k;
    }
    if q in n0 {
      assert a.Keys == b.Keys;
    } else {
      assert b.Keys == a.Keys + {q};
    }
  }

  lemma GrownAll(n0: map<Path, Entry>, segs: Path, isDir: bool, content: string)
    requires segs != []
    ensures Created(n0, segs, isDir, content) == Replace(GrownTo(n0, segs, |segs| - 1), segs, NewEntry(isDir, content))
  {
    assert Intermediates(segs) == (set k | 0 < k <= |segs| - 1 :: segs[..k]);
  }

  class VFS {
    /** Every node, by its path from the root (see module Tree). */
    var nodes: map<Path, Entry>
    /** The path of the Current directory. */
    var current: Path
    const username: string

    ghost function State(): Fs
      reads this
    {
      Fs(nodes, current)
    }

    ghost predicate Valid()
      reads this
    {
      WellFormed(State())
    }

    /** NewVFS: an empty root directory named "/", the cursor on it, the default owner. */
    constructor ()
      ensures Valid() && State() == Empty && username == DefaultUser
    {
      nodes := map[[] := Dir];
      current := [];
      username := DefaultUser;
    }

    /** The Name of the Current node: "/" at the root, else the last name on its path. */
    function GetCurrentPath(): (name: string)
      reads this
      ensures current == [] ==> name == "/"
      ensures current != [] ==> current == Parent(current) + [name]
    {
      if current == [] then "/" else current[|current| - 1]
    }

    /** strings.Split on '/' followed by the loop that keeps the non-empty parts. */
    static method CleanParts(path: string) returns (clean: seq<string>)
      ensures clean == Segments(path)
    {
      var parts := Split(path, '/');
      clean := [];
      for j := 0 to |parts|
        invariant clean == NonEmpty(parts[..j])
      {
        assert parts[..j + 1][..j] == parts[..j];
        if parts[j] != "" {
          clean := clean + [parts[j]];
        }
      }
      assert parts[..|parts|] == parts;
    }

    /** Root-anchored creation: walk from the root, reusing or creating intermediate
        directories, then put a fresh node under the last segment. */
    method CreateNode(path: string, isDir: bool, content: string)
      requires Valid() && CreateOk(State(), Segments(path))
      modifies this
      ensures Valid()
      ensures current == old(current)
      ensures nodes == Created(old(nodes), Segments(path), isDir, content)
    {
      var clean := CleanParts(path);
      ghost var n0 := nodes;
      var cur: Path := [];
      for i := 0 to |clean|
        invariant i < |clean| ==> cur == clean[..i]
        invariant current == old(current)
        invariant i < |clean| ==> nodes == GrownTo(n0, clean, i)
        invariant i == |clean| && clean != [] ==> nodes == Created(n0, clean, isDir, content)
        invariant clean == [] ==> nodes == n0
      {
        var part := clean[i];
        assert cur + [part] == clean[..i + 1];
        if i == |clean| - 1 {
          // current.Children[part] = newNode: the old node there, and its subtree, is gone
          GrownAll(n0, clean, isDir, content);
          assert clean[..i + 1] == clean;
          nodes := Replace(nodes, cur + [part], NewEntry(isDir, content));
        } else {
          GrownStep(n0, clean, i);
          if cur + [part] in nodes {
            cur := cur + [part];
          } else {
            nodes := nodes[cur + [part] := Dir];
            cur := cur + [part];
          }
        }
      }
      TreeFacts.CreatedWellFormed(old(State()), clean, isDir, content);
    }

    /** Path resolution, with the quirks of the Go code kept (see Tree.Resolve). */
    method FindNode(path: string) returns (r: Result<Path>)
      requires Valid()
      ensures r == Resolve(State(), path)
      ensures r.Ok? ==> r.value in nodes
      ensures path == "" || path == "." ==> r == Ok(current)
      ensures path == ".." || path == "/" ==> r == Ok([])
    {
      if path == "" || path == "." {
        return Ok(current);
      }
      if path == ".." {
        return Ok([]);
      }
      if path == "/" {
        return Ok([]);
      }
      var p := path;
      if HasPrefix(p, "/") {
        p := p[1..];
      }
      var clean := CleanParts(p);
      var cur := current;
      if HasPrefix(p, "/") {
        cur := [];
      }
      for i := 0 to |clean|
        invariant cur in nodes
        invariant Walk(nodes, cur, clean[i..], p) == Resolve(State(), path)
      {
        var part := clean[i];
        if part == ".." {
          cur := [];
          continue;
        }
        if cur + [part] in nodes {
          cur := cur + [part];
        } else {
          return Err(NoSuchFile(p));
        }
      }
      return Ok(cur);
    }

    /** The names of the resolved directory's children, each once, in map order. */
    method LS(path: string) returns (r: Result<seq<string>>)
      requires Valid()
      ensures r.Err? <==> Listing(State(), path).Err?
      ensures r.Err? ==> r.error == Listing(State(), path).error
      ensures r.Ok? ==> Distinct(r.value)
      ensures r.Ok? ==> forall name :: name in r.value <==> name in Listing(State(), path).value
    {
      var target: Path;
      if path == "" {
        target := current;
      } else {
        var found := FindNode(path);
        if found.Err? {
          return Err(found.error);
        }
        target := found.value;
      }
      if nodes[target].File? {
        return Err(NotADirectory(path));
      }
      var children := Children(nodes, target);
      var remaining := children;
      var files: seq<string> := [];
      while remaining != {}
        invariant remaining <= children
        invariant forall name :: name in files ==> name in children && name !in remaining
        invariant forall name :: name in children ==> name in files || name in remaining
        invariant Distinct(files)
        decreases |remaining|
      {
        var name :| name in remaining;
        files := files + [name];
        remaining := remaining - {name};
      }
      return Ok(files);
    }

    /** Moves the cursor to the resolved directory; on any failure it stays put. */
    method CD(path: string) returns (o: Outcome)
      requires Valid()
      modifies this`current
      ensures Valid()
      ensures CdTarget(old(State()), path).Ok? ==> o == Pass && current == CdTarget(old(State()), path).value
      ensures CdTarget(old(State()), path).Err? ==> o == Fail(CdTarget(old(State()), path).error) && current == old(current)
    {
      var node := FindNode(path);
      if node.Err? {
        return Fail(node.error);
      }
      if nodes[node.value].File? {
        return Fail(NotADirectory(path));
      }
      current := node.value;
      return Pass;
    }

    /** The content of the resolved file. */
    method GetContent(path: string) returns (r: Result<string>)
      requires Valid()
      ensures r == Content(State(), path)
      ensures r.Ok? <==> (Resolve(State(), path).Ok? && IsFile(nodes, Resolve(State(), path).value))
      ensures r.Ok? ==> r.value == nodes[Resolve(State(), path).value].content
    {
      var node := FindNode(path);
      if node.Err? {
        return Err(node.error);
      }
      if nodes[node.value].Dir? {
        return Err(IsADirectory(path));
      }
      return Ok(nodes[node.value].content);
    }

    /** An empty file under the literal name, directly in the current directory. */
    method Touch(filename: string) returns (o: Outcome)
      requires Valid()
      modifies this`nodes
      ensures Valid()
      ensures o == if filename == "" then Fail(EmptyFilename) else Pass
      ensures State() == Touched(old(State()), filename)
    {
      if filename == "" {
        return Fail(EmptyFilename);
      }
      TreeFacts.TouchedWellFormed(State(), filename);
      nodes := Replace(nodes, current + [filename], File(""));
      return Pass;
    }

    /** The record loop of LoadFromCSV over already-decoded records. */
    method LoadRecords(records: seq<Record>)
      requires Valid() && LoadOk(State(), records)
      modifies this
      ensures Valid()
      ensures State() == Load(old(State()), records)
    {
      for i := 0 to |records|
        invariant Valid()
        invariant i == 0 ==> State() == old(State())
        invariant i > 0 ==> State() == Rows(old(State()), records[1..i])
      {
        if i == 0 {
          continue;
        }
        var record := records[i];
        assert records[1..i + 1] == records[1..i] + [record];
        TreeFacts.RowsOkPrefix(old(State()), records[1..], i);
        assert records[1..][..i] == records[1..i + 1];
        if |record| < 2 {
          continue;
        }
        var content := "";
        if |record| > 2 {
          content := record[2];
        }
        CreateNode(record[1], record[0] == "directory", content);
      }
      if records != [] {
        assert records[1..|records|] == records[1..];
      }
    }

    /** LoadFromCSV: no file name is a successful no-op; a file that cannot be opened or
        decoded is a failure and the tree is untouched; otherwise the records are applied. */
    method LoadFromCSV(filename: string, input: CsvInput) returns (r: LoadResult)
      requires Valid()
      requires filename != "" && input.Records? ==> LoadOk(State(), input.rows)
      modifies this
      ensures Valid()
      ensures filename == "" ==> r == Loaded && State() == old(State())
      ensures filename != "" && input.ReadError? ==> r == LoadFailed(input.message) && State() == old(State())
      ensures filename != "" && input.Records? ==> r == Loaded && State() == Load(old(State()), input.rows)
    {
      if filename == "" {
        return Loaded;
      }
      if input.ReadError? {
        return LoadFailed(input.message);
      }
      LoadRecords(input.rows);
      return Loaded;
    }
  }
}
