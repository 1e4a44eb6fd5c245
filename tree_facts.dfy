/** Properties of the tree operations: what CreateNode builds, how paths resolve, what Touch
    and the loader change, and that every operation keeps the tree well formed. */
module TreeFacts {
  import opened Text
  import opened Tree

  // ---------------------------------------------------------------------------
  // Segments

  /** Every segment is a non-empty name without '/'. */
  lemma SegmentsAreNames(path: string)
    ensures forall i :: 0 <= i < |Segments(path)| ==> Segments(path)[i] != "" && '/' !in Segments(path)[i]
  {
    var pieces := Split(path, '/');
    var segs := NonEmpty(pieces);
    assert Segments(path) == segs;
    forall i | 0 <= i < |segs| ensures segs[i] != "" && '/' !in segs[i] {
      assert segs[i] in pieces;
      var j :| 0 <= j < |pieces| && pieces[j] == segs[i];
      assert '/' !in pieces[j];
    }
  }

  lemma {:induction false} NonEmptyConcat(xs: seq<string>, ys: seq<string>)
    ensures NonEmpty(xs + ys) == NonEmpty(xs) + NonEmpty(ys)
  {
    if ys == [] {
      assert xs + ys == xs;
    } else {
      var init := ys[..|ys| - 1];
      assert (xs + ys)[..|xs + ys| - 1] == xs + init;
      NonEmptyConcat(xs, init);
    }
  }

  lemma {:induction false} NonEmptyNil(xs: seq<string>)
    ensures NonEmpty(xs) == [] <==> forall i :: 0 <= i < |xs| ==> xs[i] == ""
  {
    if xs != [] {
      var init := xs[..|xs| - 1];
      NonEmptyNil(init);
      assert forall i :: 0 <= i < |init| ==> init[i] == xs[i];
    }
  }

  lemma {:induction false} SplitAllSeparators(s: string, sep: char)
    requires forall i :: 0 <= i < |s| ==> s[i] == sep
    ensures forall i :: 0 <= i < |Split(s, sep)| ==> Split(s, sep)[i] == ""
  {
    if s != [] {
      SplitAllSeparators(s[1..], sep);
    }
  }

  lemma {:induction false} JoinEmptyPieces(parts: seq<string>, sep: char)
    requires |parts| >= 1
    requires forall i :: 0 <= i < |parts| ==> parts[i] == ""
    ensures forall i :: 0 <= i < |Join(parts, sep)| ==> Join(parts, sep)[i] == sep
  {
    if |parts| > 1 {
      JoinEmptyPieces(parts[1..], sep);
    }
  }

  /** A path has no segments exactly when it is made of '/' only ("", "/", "//", ...). */
  lemma SegmentsEmptyIff(path: string)
    ensures Segments(path) == [] <==> forall i :: 0 <= i < |path| ==> path[i] == '/'
  {
    var pieces := Split(path, '/');
    NonEmptyNil(pieces);
    if forall i :: 0 <= i < |path| ==> path[i] == '/' {
      SplitAllSeparators(path, '/');
    }
    if Segments(path) == [] {
      JoinSplit(path, '/');
      JoinEmptyPieces(pieces, '/');
    }
  }

  /** One leading '/' contributes no segment. */
  lemma SegmentsLeadingSlash(s: string)
    ensures Segments("/" + s) == Segments(s)
  {
    var t := "/" + s;
    assert t != [] && t[0] == '/' && t[1..] == s;
    assert Split(t, '/') == [""] + Split(t[1..], '/');
    NonEmptyConcat([""], Split(s, '/'));
    assert [""][..0] == [];
    assert NonEmpty([""]) == [];
    assert NonEmpty([""] + Split(s, '/')) == NonEmpty(Split(s, '/'));
    assert Segments(t) == NonEmpty(Split(t, '/'));
  }

  /** A name without '/' is its own single segment. */
  lemma SegmentsOfName(name: string)
    requires name != "" && '/' !in name
    ensures Segments(name) == [name]
  {
    SplitNoSep(name, '/');
    assert Segments(name) == NonEmpty([name]);
    assert [name][..0] == [];
    assert NonEmpty([name]) == NonEmpty([]) + [name];
  }

  // ---------------------------------------------------------------------------
  // CreateNode

  /** A path made of '/' only ("", "/", "//") leaves the tree as it is. */
  lemma CreateNothing(nodes: map<Path, Entry>, path: string, isDir: bool, content: string)
    requires forall i :: 0 <= i < |path| ==> path[i] == '/'
    ensures Created(nodes, Segments(path), isDir, content) == nodes
  {
    SegmentsEmptyIff(path);
  }

  /** What CreateNode builds: the final node is fresh with the requested kind and content;
      every intermediate is a directory, kept if it existed; a re-created directory is empty;
      nothing outside the new node's subtree and the intermediates changes. */
  lemma CreatedContents(fs: Fs, segs: Path, isDir: bool, content: string)
    requires WellFormed(fs) && CreateOk(fs, segs) && segs != []
    ensures var n := Created(fs.nodes, segs, isDir, content);
      && segs in n && n[segs] == NewEntry(isDir, content)
      && (forall k | 0 < k < |segs| :: IsDir(n, segs[..k]))
      && (forall q | q in fs.nodes && !IsPrefix(segs, q) :: q in n && n[q] == fs.nodes[q])
      && (forall q | q in n && !IsPrefix(segs, q) && q !in fs.nodes :: q in Intermediates(segs))
      && (forall q | StrictlyBelow(segs, q) :: q !in n)
      && Children(n, segs) == {}
  {
    var grown := Grown(fs.nodes, segs);
    var n := Created(fs.nodes, segs, isDir, content);
    assert n == Replace(grown, segs, NewEntry(isDir, content));
    forall k | 0 < k < |segs| ensures IsDir(n, segs[..k]) {
      assert segs[..k] in Intermediates(segs);
      assert !StrictlyBelow(segs, segs[..k]) && segs[..k] != segs;
    }
    forall q | q in fs.nodes && !IsPrefix(segs, q) ensures q in n && n[q] == fs.nodes[q] {
      assert !StrictlyBelow(segs, q) && q != segs;
    }
    assert Children(n, segs) == {} by {
      forall p | p in n && |p| == |segs| + 1 ensures p[..|segs|] != segs {
        assert p != segs;
        assert p in grown && !StrictlyBelow(segs, p);
      }
    }
  }

  /** CreateNode keeps the tree well formed and the cursor where it is. */
  lemma CreatedWellFormed(fs: Fs, segs: Path, isDir: bool, content: string)
    requires WellFormed(fs) && CreateOk(fs, segs)
    ensures WellFormed(Fs(Created(fs.nodes, segs, isDir, content), fs.cwd))
  {
    if segs != [] {
      var n := Created(fs.nodes, segs, isDir, content);
      ReplaceAt(Grown(fs.nodes, segs), segs, NewEntry(isDir, content), []);
      ReplaceAt(Grown(fs.nodes, segs), segs, NewEntry(isDir, content), fs.cwd);
      assert !StrictlyBelow(segs, []);
      assert !StrictlyBelow(segs, fs.cwd) && fs.cwd != segs;
      forall p | p in n ensures ParentIsDir(n, p) {
        if p != [] {
          CreatedParent(fs, segs, isDir, content, p);
        }
      }
    }
  }

  lemma CreatedParent(fs: Fs, segs: Path, isDir: bool, content: string, p: Path)
    requires WellFormed(fs) && CreateOk(fs, segs) && segs != []
    requires p in Created(fs.nodes, segs, isDir, content) && p != []
    ensures IsDir(Created(fs.nodes, segs, isDir, content), Parent(p))
  {
    var nodes := fs.nodes;
    var grown := Grown(nodes, segs);
    var n := Created(nodes, segs, isDir, content);
    assert n == Replace(grown, segs, NewEntry(isDir, content));
    var q := Parent(p);
    ReplaceAt(grown, segs, NewEntry(isDir, content), q);
    if p == segs {
      if |segs| > 1 {
        assert q in Intermediates(segs);
        assert !StrictlyBelow(segs, q) && q != segs;
      }
    } else if p in nodes {
      ReplaceAt(grown, segs, NewEntry(isDir, content), p);
      assert !StrictlyBelow(segs, p);
      assert IsDir(nodes, q);
      if |segs| < |q| {
        assert p[..|segs|] == q[..|segs|];
      }
      assert q != segs;
    } else {
      ReplaceAt(grown, segs, NewEntry(isDir, content), p);
      assert p in Intermediates(segs);
      var k :| 0 < k < |segs| && p == segs[..k];
      if k > 1 {
        assert q == segs[..k - 1];
        assert q in Intermediates(segs);
      }
      assert !StrictlyBelow(segs, q) && q != segs;
    }
  }

  // ---------------------------------------------------------------------------
  // FindNode

  /** A walk along existing names, none of them "..", ends at the node they spell. */
  lemma {:induction false} WalkExisting(nodes: map<Path, Entry>, at: Path, segs: seq<string>, shown: string)
    requires [] in nodes && at in nodes
    requires forall k :: 0 < k <= |segs| ==> at + segs[..k] in nodes
    requires forall i :: 0 <= i < |segs| ==> segs[i] != ".."
    ensures Walk(nodes, at, segs, shown) == Ok(at + segs)
    decreases |segs|
  {
    if segs == [] {
      assert at + segs == at;
    } else {
      assert at + segs[..1] == at + [segs[0]];
      forall k | 0 < k <= |segs[1..]| ensures (at + [segs[0]]) + segs[1..][..k] in nodes {
        assert (at + [segs[0]]) + segs[1..][..k] == at + segs[..k + 1];
      }
      WalkExisting(nodes, at + [segs[0]], segs[1..], shown);
      assert (at + [segs[0]]) + segs[1..] == at + segs;
    }
  }

  /** Every ".." on the way sends the walk back to the root, whatever came before it. */
  /** The converse of WalkExisting: a ".."-free walk that succeeds went through existing
      children only, and ends at the node they lead to. */
  lemma {:induction false} WalkFound(nodes: map<Path, Entry>, at: Path, segs: seq<string>, shown: string)
    requires [] in nodes && at in nodes
    requires forall i :: 0 <= i < |segs| ==> segs[i] != ".."
    requires Walk(nodes, at, segs, shown).Ok?
    ensures Walk(nodes, at, segs, shown) == Ok(at + segs)
    ensures forall k :: 0 < k <= |segs| ==> at + segs[..k] in nodes
    decreases |segs|
  {
    if segs != [] {
      var c := at + [segs[0]];
      assert segs[0] != "..";
      assert c in nodes;
      WalkFound(nodes, c, segs[1..], shown);
      assert c + segs[1..] == at + segs;
      forall k | 0 < k <= |segs| ensures at + segs[..k] in nodes {
        if k == 1 {
          assert segs[..1] == [segs[0]];
        } else {
          assert at + segs[..k] == c + segs[1..][..k - 1];
        }
      }
    } else {
      assert at + segs == at;
    }
  }

  lemma {:induction false} WalkDotDot(nodes: map<Path, Entry>, at: Path, xs: seq<string>, ys: seq<string>, shown: string)
    requires [] in nodes && at in nodes
    ensures Walk(nodes, at, xs + [".."] + ys, shown) ==
      if Walk(nodes, at, xs, shown).Err? then Walk(nodes, at, xs, shown) else Walk(nodes, [], ys, shown)
    decreases |xs|
  {
    if xs == [] {
      assert xs + [".."] + ys == [".."] + ys;
      assert ([".."] + ys)[1..] == ys;
    } else {
      var s := xs + [".."] + ys;
      assert s[0] == xs[0];
      assert s[1..] == xs[1..] + [".."] + ys;
      if xs[0] == ".." {
        WalkDotDot(nodes, [], xs[1..], ys, shown);
      } else if at + [xs[0]] in nodes {
        WalkDotDot(nodes, at + [xs[0]], xs[1..], ys, shown);
      }
    }
  }

  /** A file has no children, so a walk cannot pass through one. */
  lemma WalkThroughFile(fs: Fs, at: Path, segs: seq<string>, shown: string)
    requires WellFormed(fs) && IsFile(fs.nodes, at)
    requires segs != [] && segs[0] != ".."
    ensures Walk(fs.nodes, at, segs, shown) == Err(NoSuchFile(shown))
  {
    var child := at + [segs[0]];
    assert Parent(child) == at;
    assert child in fs.nodes ==> ParentIsDir(fs.nodes, child);
  }

  /** One leading '/' is ignored: "/x" resolves from the cursor exactly as "x" does. */
  lemma SingleSlashIsRelative(fs: Fs, s: string)
    requires WellFormed(fs)
    requires s != "" && s != "." && !HasPrefix(s, "/")
    ensures Resolve(fs, "/" + s) == Resolve(fs, s)
  {
    assert HasPrefix("/" + s, "/");
    assert ("/" + s)[1..] == s;
    assert "/" + s != "/" && "/" + s != "..";
    if s == ".." {
      assert Segments("..") == [".."] by { SegmentsOfName(".."); }
    }
  }

  /** Only a doubled leading '/' starts the walk at the root. */
  lemma DoubleSlashFromRoot(fs: Fs, s: string)
    requires WellFormed(fs)
    ensures Resolve(fs, "//" + s) == Walk(fs.nodes, [], Segments(s), "/" + s)
  {
    assert HasPrefix("//" + s, "/");
    assert ("//" + s)[1..] == "/" + s;
    assert HasPrefix("/" + s, "/");
    SegmentsLeadingSlash(s);
    assert "//" + s != "/" && "//" + s != "..";
  }

  /** So "/a" names the root's child a only while the cursor is at the root: with the
      cursor in a sibling directory b, "/a" is not found while "//a" is. */
  lemma AbsoluteIsNotRootRelative(a: string, b: string)
    requires a != "" && '/' !in a && a != "." && a != ".."
    requires b != "" && a != b
    ensures var fs := Fs(map[[] := Dir, [a] := Dir, [b] := Dir], [b]);
      && WellFormed(fs)
      && Resolve(fs, "/" + a) == Err(NoSuchFile(a))
      && Resolve(fs, "//" + a) == Ok([a])
  {
    var fs := Fs(map[[] := Dir, [a] := Dir, [b] := Dir], [b]);
    assert WellFormed(fs) by {
      forall p | p in fs.nodes ensures ParentIsDir(fs.nodes, p) {
        if p != [] { assert Parent(p) == []; }
      }
    }
    assert !HasPrefix(a, "/") by { assert a[0] != '/'; }
    SingleSlashIsRelative(fs, a);
    ResolveName(fs, a);
    assert ([b] + [a])[0] == b && |[b] + [a]| == 2;
    assert [b] + [a] !in fs.nodes;
    DoubleSlashFromRoot(fs, a);
    SegmentsOfName(a);
    assert [] + [a] == [a] && [a][1..] == [];
    assert Walk(fs.nodes, [], [a], "/" + a) == Walk(fs.nodes, [a], [], "/" + a);
  }

  /** With the cursor at the root, a path other than the special forms walks its own segments
      from the root, whatever its leading slashes. */
  lemma ResolveAtRoot(fs: Fs, path: string)
    requires WellFormed(fs) && fs.cwd == []
    requires path != "" && path != "." && path != ".." && path != "/"
    ensures var p := if HasPrefix(path, "/") then path[1..] else path;
      Resolve(fs, path) == Walk(fs.nodes, [], Segments(path), p)
  {
    var p := if HasPrefix(path, "/") then path[1..] else path;
    if HasPrefix(path, "/") {
      assert path == "/" + p;
      SegmentsLeadingSlash(p);
    }
  }

  /** Round trip of the loader: with the cursor at the root, a created path (one without
      ".." segments, and not the special ".") resolves to the node just created. */
  lemma CreateThenResolve(fs: Fs, path: string, isDir: bool, content: string)
    requires WellFormed(fs) && fs.cwd == []
    requires Segments(path) != [] && path != "."
    requires forall i :: 0 <= i < |Segments(path)| ==> Segments(path)[i] != ".."
    requires CreateOk(fs, Segments(path))
    ensures var after := Fs(Created(fs.nodes, Segments(path), isDir, content), []);
      && WellFormed(after)
      && Resolve(after, path) == Ok(Segments(path))
      && after.nodes[Segments(path)] == NewEntry(isDir, content)
  {
    var segs := Segments(path);
    var after := Fs(Created(fs.nodes, segs, isDir, content), []);
    CreatedWellFormed(fs, segs, isDir, content);
    CreatedContents(fs, segs, isDir, content);
    assert path != "" && path != "/" by { SegmentsEmptyIff(path); }
    assert path != ".." by {
      SegmentsOfName("..");
      assert segs[0] != "..";
    }
    ResolveAtRoot(after, path);
    forall k | 0 < k <= |segs| ensures [] + segs[..k] in after.nodes {
      assert [] + segs[..k] == segs[..k];
      if k == |segs| { assert segs[..k] == segs; }
    }
    WalkExisting(after.nodes, [], segs, if HasPrefix(path, "/") then path[1..] else path);
    assert [] + segs == segs;
  }

  // ---------------------------------------------------------------------------
  // Touch

  /** Touch keeps the tree well formed and puts an empty file under the name. */
  lemma TouchedWellFormed(fs: Fs, filename: string)
    requires WellFormed(fs) && filename != ""
    ensures WellFormed(Touched(fs, filename))
    ensures Touched(fs, filename).cwd == fs.cwd
    ensures Touched(fs, filename).nodes[fs.cwd + [filename]] == File("")
  {
    var c := fs.cwd;
    var p := c + [filename];
    var after := Touched(fs, filename);
    assert after.nodes == Replace(fs.nodes, p, File(""));
    assert IsDir(after.nodes, []) by { assert !StrictlyBelow(p, []) && [] != p; }
    assert IsDir(after.nodes, c) by { assert !StrictlyBelow(p, c) && c != p; }
    forall q | q in after.nodes ensures ParentIsDir(after.nodes, q) {
      if q == p {
        assert Parent(q) == c;
      } else if q != [] {
        assert q in fs.nodes && !StrictlyBelow(p, q);
        var r := Parent(q);
        assert IsDir(fs.nodes, r);
        if |p| < |r| {
          assert q[..|p|] == r[..|p|];
        }
        assert r != p;
      }
    }
  }

  /** Touch adds exactly one name to the current directory and changes nothing outside the
      subtree it replaces. */
  lemma TouchedContents(fs: Fs, filename: string)
    requires WellFormed(fs) && filename != ""
    ensures var after := Touched(fs, filename);
      && Children(after.nodes, fs.cwd) == Children(fs.nodes, fs.cwd) + {filename}
      && (forall q | q in fs.nodes && !IsPrefix(fs.cwd + [filename], q) :: q in after.nodes && after.nodes[q] == fs.nodes[q])
      && (forall q | q in after.nodes && q != fs.cwd + [filename] :: q in fs.nodes)
  {
    var c := fs.cwd;
    var p := c + [filename];
    var after := Touched(fs, filename);
    assert after.nodes == Replace(fs.nodes, p, File(""));
    forall q | q in fs.nodes && !IsPrefix(p, q) ensures q in after.nodes && after.nodes[q] == fs.nodes[q] {
      assert !StrictlyBelow(p, q) && q != p;
    }
    assert Children(after.nodes, c) == Children(fs.nodes, c) + {filename} by {
      assert p[..|c|] == c && p[|c|] == filename;
      forall x | x in Children(after.nodes, c) ensures x in Children(fs.nodes, c) + {filename} {
        var q :| q in after.nodes && |q| == |c| + 1 && q[..|c|] == c && q[|c|] == x;
        if q != p {
          assert q in fs.nodes;
        }
      }
      forall x | x in Children(fs.nodes, c) ensures x in Children(after.nodes, c) {
        var q :| q in fs.nodes && |q| == |c| + 1 && q[..|c|] == c && q[|c|] == x;
        if q != p {
          assert !IsPrefix(p, q);
        }
      }
    }
  }

  /** A plain name (no '/', not a special form) resolves to the child of that name of the
      current directory, or fails naming it. */
  lemma ResolveName(fs: Fs, name: string)
    requires WellFormed(fs)
    requires name != "" && '/' !in name && name != "." && name != ".."
    ensures Resolve(fs, name) == if fs.cwd + [name] in fs.nodes then Ok(fs.cwd + [name]) else Err(NoSuchFile(name))
  {
    SegmentsOfName(name);
    assert name != "/" by { assert name[0] != '/'; }
    assert !HasPrefix(name, "/") by { assert name[0] != '/'; }
    assert Resolve(fs, name) == Walk(fs.nodes, fs.cwd, [name], name);
    assert [name][0] == name && [name][1..] == [];
    var child := fs.cwd + [name];
    if child in fs.nodes {
      assert Walk(fs.nodes, fs.cwd, [name], name) == Walk(fs.nodes, child, [], name);
    }
  }

  lemma SplitPair(a: string, b: string)
    requires '/' !in a && '/' !in b
    ensures Split(a + "/" + b, '/') == [a, b]
  {
    assert a + "/" + b == a + (['/'] + b);
    SplitPrefix(a, b, '/');
    SplitNoSep(b, '/');
  }

  lemma NonEmptyPair(a: string, b: string)
    requires a != "" && b != ""
    ensures NonEmpty([a, b]) == [a, b]
  {
    assert [a, b][..1] == [a] && [a][..0] == [];
    assert NonEmpty([a]) == NonEmpty([]) + [a];
    assert NonEmpty([a, b]) == NonEmpty([a]) + [b];
  }

  /** A path of two plain names has those two segments. */
  lemma SegmentsOfPair(a: string, b: string)
    requires a != "" && '/' !in a && b != "" && '/' !in b
    ensures Segments(a + "/" + b) == [a, b]
  {
    SplitPair(a, b);
    NonEmptyPair(a, b);
  }

  /** A path of two plain names walks both from the cursor, failing with the whole path. */
  lemma ResolvePair(fs: Fs, a: string, b: string)
    requires WellFormed(fs)
    requires a != "" && '/' !in a && a != ".." && b != "" && '/' !in b && b != ".."
    ensures Resolve(fs, a + "/" + b) ==
      if fs.cwd + [a] in fs.nodes && fs.cwd + [a, b] in fs.nodes then Ok(fs.cwd + [a, b])
      else Err(NoSuchFile(a + "/" + b))
  {
    var p := a + "/" + b;
    SegmentsOfPair(a, b);
    assert p[0] == a[0] && |p| >= 3;
    assert !HasPrefix(p, "/");
    assert Resolve(fs, p) == Walk(fs.nodes, fs.cwd, [a, b], p);
    var at := fs.cwd + [a];
    assert at + [b] == fs.cwd + [a, b];
    assert [a, b][1..] == [b] && [b][1..] == [];
    if at in fs.nodes {
      assert Walk(fs.nodes, fs.cwd, [a, b], p) == Walk(fs.nodes, at, [b], p);
    }
  }

  /** After touch of a plain name, the name resolves to that empty file. */
  lemma TouchThenResolve(fs: Fs, filename: string)
    requires WellFormed(fs)
    requires filename != "" && '/' !in filename && filename != "." && filename != ".."
    ensures var after := Touched(fs, filename);
      WellFormed(after) && Resolve(after, filename) == Ok(fs.cwd + [filename])
      && Content(after, filename) == Ok("")
  {
    TouchedWellFormed(fs, filename);
    var after := Touched(fs, filename);
    ReplaceAt(fs.nodes, fs.cwd + [filename], File(""), fs.cwd + [filename]);
    assert fs.cwd + [filename] in after.nodes && after.cwd == fs.cwd;
    ResolveName(after, filename);
  }

  // ---------------------------------------------------------------------------
  // The loader

  /** Records with fewer than two fields change nothing. */
  lemma {:induction false} ShortRowsSkipped(fs: Fs, rows: seq<Record>)
    requires forall i :: 0 <= i < |rows| ==> |rows[i]| < 2
    ensures Rows(fs, rows) == fs
  {
    if rows != [] {
      ShortRowsSkipped(fs, rows[..|rows| - 1]);
    }
  }

  /** Loading a + b is loading a, then b. */
  lemma {:induction false} RowsAppend(fs: Fs, a: seq<Record>, b: seq<Record>)
    ensures Rows(fs, a + b) == Rows(Rows(fs, a), b)
  {
    if b == [] {
      assert a + b == a;
    } else {
      assert (a + b)[..|a + b| - 1] == a + b[..|b| - 1];
      RowsAppend(fs, a, b[..|b| - 1]);
    }
  }

  /** If no row of a list panics, no row of a prefix of it does; and the row after the
      prefix is safe on the tree the prefix leaves. */
  lemma {:induction false} RowsOkPrefix(fs: Fs, rows: seq<Record>, k: nat)
    requires RowsOk(fs, rows) && k <= |rows|
    ensures RowsOk(fs, rows[..k])
    ensures k < |rows| ==> RowOk(Rows(fs, rows[..k]), rows[k])
    decreases |rows|
  {
    if k < |rows| {
      var init := rows[..|rows| - 1];
      if k < |rows| - 1 {
        RowsOkPrefix(fs, init, k);
        assert init[..k] == rows[..k];
      } else {
        assert rows[..k] == init;
      }
    } else {
      assert rows[..k] == rows;
    }
  }

  /** Loading keeps the tree well formed and never moves the cursor. */
  lemma {:induction false} RowsWellFormed(fs: Fs, rows: seq<Record>)
    requires WellFormed(fs) && RowsOk(fs, rows)
    ensures WellFormed(Rows(fs, rows)) && Rows(fs, rows).cwd == fs.cwd
  {
    if rows != [] {
      var init := rows[..|rows| - 1];
      RowsWellFormed(fs, init);
      var mid := Rows(fs, init);
      var r := rows[|rows| - 1];
      if |r| >= 2 {
        CreatedWellFormed(mid, Segments(r[1]), r[0] == "directory", if |r| > 2 then r[2] else "");
      }
    }
  }

  /** A load whose rows are all defined keeps the tree well formed and the cursor in place. */
  lemma LoadWellFormed(fs: Fs, records: seq<Record>)
    requires WellFormed(fs) && LoadOk(fs, records)
    ensures WellFormed(Load(fs, records)) && Load(fs, records).cwd == fs.cwd
  {
    if records != [] {
      RowsWellFormed(fs, records[1..]);
    }
  }

  /** At the root every record is safe as far as the cursor goes: only a file met as an
      intermediate can make CreateNode fail. */
  lemma RootCursorSafe(fs: Fs, segs: Path)
    requires fs.cwd == []
    requires forall k | 0 < k < |segs| :: !IsFile(fs.nodes, segs[..k])
    ensures CreateOk(fs, segs)
  {
  }
}
