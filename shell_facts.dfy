/** Properties of the shared verb table: the wc report, what ls marks as a directory, and
    the end-to-end scenarios of a loaded tree and of touch followed by wc. */
module ShellFacts {
  import opened Text
  import opened Tree
  import opened Shell
  import TreeFacts

  /** The verbs whose whole effect is fixed: cd alone goes to the root and writes nothing;
      cd with a path moves to the directory it names or writes one error line and stays;
      exit changes nothing; an unknown verb writes exactly its two report lines. */
  lemma ExecVerbs(fs: Fs, user: string, out: seq<Line>, args: seq<string>)
    requires WellFormed(fs) && args != []
    ensures args == ["cd"] ==> Exec(fs, user, out, args) == Effect(fs.(cwd := []), out, false)
    ensures args[0] == "cd" && |args| > 1 ==>
      var t := CdTarget(fs, args[1]);
      Exec(fs, user, out, args) ==
        if t.Ok? then Effect(fs.(cwd := t.value), out, false) else Effect(fs, out + [ErrorLine(t.error)], false)
    ensures args[0] == "exit" ==> Exec(fs, user, out, args) == Effect(fs, out, true)
    ensures args[0] !in {"cd", "ls", "whoami", "wc", "touch", "clear", "exit"} ==>
      Exec(fs, user, out, args) ==
        Effect(fs, out + [Plain("> Unknown command: " + args[0]), Plain(AvailableCommands)], false)
  {
  }

  /** The line count wc reports is the number of newline-separated pieces of the content. */
  lemma WcCountsPieces(content: string, name: string)
    ensures WcLine(content, name) == "> " + NatToString(|Split(content, '\n')|) + " "
      + NatToString(|Fields(content)|) + " " + NatToString(|content|) + " " + name
  {
    SplitCount(content, '\n');
  }

  /** wc of an empty file: one line, no words, no bytes. */
  lemma WcOfEmpty(name: string)
    ensures WcLine("", name) == "> 1 0 0 " + name
  {
    assert Fields("") == [] && Count("", '\n') == 0;
    assert NatToString(1) == "1" && NatToString(0) == "0";
    assert "> " + "1" + " " + "0" + " " + "0" + " " + name == "> 1 0 0 " + name;
  }

  /** touch then wc of the same plain name: an empty file, reported as one line, no words
      and no bytes. */
  lemma TouchThenWc(fs: Fs, user: string, out: seq<Line>, name: string)
    requires WellFormed(fs)
    requires name != "" && '/' !in name && name != "." && name != ".."
    ensures var t := Exec(fs, user, out, ["touch", name]);
      var w := Exec(t.fs, user, t.out, ["wc", name]);
      w.out == out + [Plain("> Created file: " + name), Plain("> 1 0 0 " + name)]
  {
    TreeFacts.TouchThenResolve(fs, name);
    var t := Exec(fs, user, out, ["touch", name]);
    assert t.fs == Touched(fs, name) && t.out == out + [Plain("> Created file: " + name)];
    WcOfEmpty(name);
    assert Exec(t.fs, user, t.out, ["wc", name]).out == t.out + [Plain(WcLine("", name))];
  }

  /** A root with a directory a holding a directory b. */
  function Nested(a: string, b: string): Fs {
    Fs(map[[] := Dir, [a] := Dir, [a, b] := Dir], [])
  }

  lemma NestedWellFormed(a: string, b: string)
    ensures WellFormed(Nested(a, b))
  {
    var fs := Nested(a, b);
    forall p | p in fs.nodes ensures ParentIsDir(fs.nodes, p) {
      if p == [a] { assert Parent(p) == []; }
      if p == [a, b] { assert Parent(p) == [a]; }
    }
  }

  lemma NestedResolvesA(a: string, b: string)
    requires PlainName(a)
    ensures WellFormed(Nested(a, b)) && Resolve(Nested(a, b), a) == Ok([a])
  {
    NestedWellFormed(a, b);
    TreeFacts.ResolveName(Nested(a, b), a);
    assert [] + [a] == [a];
  }

  lemma NestedResolvesB(a: string, b: string)
    requires PlainName(b) && a != b
    ensures WellFormed(Nested(a, b)) && Resolve(Nested(a, b), b) == Err(NoSuchFile(b))
  {
    NestedWellFormed(a, b);
    TreeFacts.ResolveName(Nested(a, b), b);
    assert [] + [b] == [b];
    assert [b] != [a] && [b] != [a, b];
  }

  lemma NestedChildren(a: string, b: string)
    ensures Children(Nested(a, b).nodes, [a]) == {b}
  {
    var fs := Nested(a, b);
    assert [a, b][..1] == [a];
    forall p | p in fs.nodes && |p| == 2 ensures p == [a, b] { }
  }

  /** ls classifies each listed name by resolving it against the cursor: listing a from the
      root marks its subdirectory b as a file, because there is no b at the root. */
  lemma LsClassifiesAgainstCursor(user: string, a: string, b: string)
    requires PlainName(a) && PlainName(b) && a != b
    ensures WellFormed(Nested(a, b)) && IsDir(Nested(a, b).nodes, [a, b])
    ensures Exec(Nested(a, b), user, [], ["ls", a]).out == [Entries({Item(b, false)})]
  {
    var fs := Nested(a, b);
    NestedResolvesA(a, b);
    NestedResolvesB(a, b);
    NestedChildren(a, b);
    assert Listing(fs, a) == Ok({b});
    ClassifiedOne(fs, b);
    ExecLs(fs, user, [], a);
  }

  lemma ClassifiedOne(fs: Fs, name: string)
    requires WellFormed(fs)
    ensures Classified(fs, {name}) == {Item(name, ResolvesToDir(fs, name))}
  {
  }

  lemma ExecLs(fs: Fs, user: string, out: seq<Line>, path: string)
    requires WellFormed(fs)
    ensures Listing(fs, path).Ok? ==>
      Exec(fs, user, out, ["ls", path]).out == out + [Entries(Classified(fs, Listing(fs, path).value))]
  {
  }

  // ---------------------------------------------------------------------------
  // A loaded tree: a header, a file /d/f holding c, then a directory /b

  /** A name that resolves as a single child: non-empty, no '/', not a special form. */
  predicate PlainName(n: string) {
    n != "" && '/' !in n && n != "." && n != ".."
  }

  function SampleRecords(d: string, f: string, b: string, c: string): seq<Record> {
    [["type", "path", "content"], ["file", "/" + (d + "/" + f), c], ["directory", "/" + b, ""]]
  }

  function SampleTree(d: string, f: string, b: string, c: string): map<Path, Entry> {
    map[[] := Dir, [d] := Dir, [d, f] := File(c), [b] := Dir]
  }

  lemma SampleSegments(d: string, f: string, b: string)
    requires PlainName(d) && PlainName(f) && PlainName(b)
    ensures Segments("/" + (d + "/" + f)) == [d, f]
    ensures Segments("/" + b) == [b]
  {
    TreeFacts.SegmentsOfPair(d, f);
    TreeFacts.SegmentsLeadingSlash(d + "/" + f);
    TreeFacts.SegmentsLeadingSlash(b);
    TreeFacts.SegmentsOfName(b);
  }

  lemma SampleFirstRow(d: string, f: string, c: string)
    ensures Created(Empty.nodes, [d, f], false, c) == map[[] := Dir, [d] := Dir, [d, f] := File(c)]
  {
    var segs := [d, f];
    assert Intermediates(segs) == {[d]} by {
      assert segs[..1] == [d];
    }
    var grown := Grown(Empty.nodes, segs);
    assert grown == map[[] := Dir, [d] := Dir];
    forall q | q in grown ensures !StrictlyBelow(segs, q) { }
  }

  lemma SampleSecondRow(d: string, f: string, b: string, c: string)
    requires d != b
    ensures Created(map[[] := Dir, [d] := Dir, [d, f] := File(c)], [b], true, "") == SampleTree(d, f, b, c)
  {
    var nodes := map[[] := Dir, [d] := Dir, [d, f] := File(c)];
    assert Intermediates([b]) == {};
    assert Grown(nodes, [b]) == nodes;
    assert [d, f][..1] == [d];
    forall q | q in nodes ensures !StrictlyBelow([b], q) {
      if |q| > 1 { assert q == [d, f] && q[..1] == [d]; }
    }
  }

  lemma SampleFirstRowOk(d: string, f: string, c: string)
    ensures CreateOk(Empty, [d, f])
  {
    assert [d, f][..1] == [d];
  }

  /** Loading the records (header skipped, rows in order) builds exactly the sample tree. */
  lemma SampleLoads(d: string, f: string, b: string, c: string)
    requires PlainName(d) && PlainName(f) && PlainName(b) && d != b
    ensures LoadOk(Empty, SampleRecords(d, f, b, c))
    ensures Load(Empty, SampleRecords(d, f, b, c)) == Fs(SampleTree(d, f, b, c), [])
  {
    var records := SampleRecords(d, f, b, c);
    var r1, r2 := records[1], records[2];
    SampleSegments(d, f, b);
    var rows := records[1..];
    assert rows == [r1, r2] && rows[..1] == [r1] && rows[..1][..0] == [];
    SampleFirstRowOk(d, f, c);
    assert RowOk(Empty, r1);
    assert RowsOk(Empty, rows[..1]);
    SampleFirstRow(d, f, c);
    var first := Fs(map[[] := Dir, [d] := Dir, [d, f] := File(c)], []);
    assert Row(Empty, r1) == first;
    assert Rows(Empty, rows[..1]) == first;
    assert RowOk(first, r2);
    SampleSecondRow(d, f, b, c);
    assert Row(first, r2) == Fs(SampleTree(d, f, b, c), []);
  }

  lemma SampleWellFormed(d: string, f: string, b: string, c: string)
    ensures WellFormed(Fs(SampleTree(d, f, b, c), []))
  {
    var nodes := SampleTree(d, f, b, c);
    forall p | p in nodes ensures ParentIsDir(nodes, p) {
      if |p| == 2 { assert p == [d, f] && Parent(p) == [d]; }
      if |p| == 1 { assert Parent(p) == []; }
    }
  }

  /** How the absolute file path of the sample resolves: from the cursor, as d/f. */
  lemma SampleResolveFile(fs: Fs, d: string, f: string)
    requires WellFormed(fs) && PlainName(d) && PlainName(f)
    ensures Resolve(fs, "/" + (d + "/" + f)) ==
      if fs.cwd + [d] in fs.nodes && fs.cwd + [d, f] in fs.nodes then Ok(fs.cwd + [d, f])
      else Err(NoSuchFile(d + "/" + f))
  {
    var p := d + "/" + f;
    assert p[0] == d[0] && |p| >= 3;
    TreeFacts.SingleSlashIsRelative(fs, p);
    TreeFacts.ResolvePair(fs, d, f);
  }

  /** wc of the absolute file path from the root reports the file's content. */
  lemma SampleWc(d: string, f: string, b: string, c: string, user: string)
    requires PlainName(d) && PlainName(f)
    ensures WellFormed(Fs(SampleTree(d, f, b, c), []))
    ensures var path := "/" + (d + "/" + f);
      Exec(Fs(SampleTree(d, f, b, c), []), user, [], ["wc", path]).out == [Plain(WcLine(c, path))]
  {
    var fs := Fs(SampleTree(d, f, b, c), []);
    SampleWellFormed(d, f, b, c);
    SampleResolveFile(fs, d, f);
    assert [] + [d] == [d] && [] + [d, f] == [d, f];
  }

  lemma SampleRootChildren(d: string, f: string, b: string, c: string)
    ensures Children(SampleTree(d, f, b, c), []) == {d, b}
  {
    assert [d][..0] == [] && [b][..0] == [];
  }

  lemma SampleTopIsDir(d: string, f: string, b: string, c: string, n: string)
    requires PlainName(n) && (n == d || n == b)
    ensures WellFormed(Fs(SampleTree(d, f, b, c), []))
    ensures ResolvesToDir(Fs(SampleTree(d, f, b, c), []), n)
  {
    var fs := Fs(SampleTree(d, f, b, c), []);
    SampleWellFormed(d, f, b, c);
    TreeFacts.ResolveName(fs, n);
    assert [] + [n] == [n] && [n] in fs.nodes;
  }

  lemma ClassifiedTwo(fs: Fs, x: string, y: string)
    requires WellFormed(fs)
    ensures Classified(fs, {x, y}) == {Item(x, ResolvesToDir(fs, x)), Item(y, ResolvesToDir(fs, y))}
  {
  }

  lemma SampleRootClassified(d: string, f: string, b: string, c: string)
    requires PlainName(d) && PlainName(b)
    ensures WellFormed(Fs(SampleTree(d, f, b, c), []))
    ensures Classified(Fs(SampleTree(d, f, b, c), []), {d, b}) == {Item(d, true), Item(b, true)}
  {
    SampleTopIsDir(d, f, b, c, d);
    SampleTopIsDir(d, f, b, c, b);
    ClassifiedTwo(Fs(SampleTree(d, f, b, c), []), d, b);
  }

  /** ls of "/" lists the two top-level directories, both marked as directories. */
  lemma SampleLsRoot(d: string, f: string, b: string, c: string, user: string)
    requires PlainName(d) && PlainName(b)
    ensures WellFormed(Fs(SampleTree(d, f, b, c), []))
    ensures Exec(Fs(SampleTree(d, f, b, c), []), user, [], ["ls", "/"]).out == [Entries({Item(d, true), Item(b, true)})]
  {
    var fs := Fs(SampleTree(d, f, b, c), []);
    SampleWellFormed(d, f, b, c);
    SampleRootChildren(d, f, b, c);
    assert Listing(fs, "/") == Ok({d, b});
    SampleRootClassified(d, f, b, c);
    ExecLs(fs, user, [], "/");
  }

  /** cd /b from the root moves the cursor to b. */
  lemma SampleCdInto(d: string, f: string, b: string, c: string, user: string)
    requires PlainName(b)
    ensures WellFormed(Fs(SampleTree(d, f, b, c), []))
    ensures var moved := Exec(Fs(SampleTree(d, f, b, c), []), user, [], ["cd", "/" + b]);
      moved.fs == Fs(SampleTree(d, f, b, c), [b]) && moved.out == []
  {
    var fs := Fs(SampleTree(d, f, b, c), []);
    SampleWellFormed(d, f, b, c);
    assert !HasPrefix(b, "/") by { assert b[0] != '/'; }
    TreeFacts.SingleSlashIsRelative(fs, b);
    TreeFacts.ResolveName(fs, b);
    assert [] + [b] == [b];
  }

  /** Once the cursor is in b, the single-slash path /d/f is resolved against b and not found,
      and cd .. goes back to the root. */
  lemma SampleFromInside(d: string, f: string, b: string, c: string, user: string)
    requires PlainName(d) && PlainName(f) && d != b
    ensures var inside := Fs(SampleTree(d, f, b, c), [b]);
      && WellFormed(inside)
      && Exec(inside, user, [], ["wc", "/" + (d + "/" + f)]).out == [ErrorLine(NoSuchFile(d + "/" + f))]
      && Exec(inside, user, [], ["cd", ".."]).fs.cwd == []
  {
    var inside := Fs(SampleTree(d, f, b, c), [b]);
    SampleWellFormed(d, f, b, c);
    SampleResolveFile(inside, d, f);
    assert ([b] + [d])[0] == b && |[b] + [d]| == 2;
    assert [b] + [d] !in inside.nodes;
  }

  /** The fields of "a b\nc" are a, b and c. */
  lemma FieldsOfTwoLineText()
    ensures Fields("a b\nc") == ["a", "b", "c"]
  {
    var s := "a b\nc";
    assert TrimLeft(s) == s && WordLen(s) == 1 && s[..1] == "a" && s[1..] == " b\nc";
    var t := " b\nc";
    assert TrimLeft(t) == t[1..] && t[1..] == "b\nc";
    var u := "b\nc";
    assert WordLen(u) == 1 && u[..1] == "b" && u[1..] == "\nc";
    var v := "\nc";
    assert TrimLeft(v) == v[1..] && v[1..] == "c";
    assert WordLen("c") == 1 && "c"[..1] == "c" && "c"[1..] == "";
  }

  /** The report for the file holding "a b\nc": two lines, three words, five bytes. */
  lemma WcOfTwoLineText(name: string)
    ensures WcLine("a b\nc", name) == "> 2 3 5 " + name
  {
    var content := "a b\nc";
    FieldsOfTwoLineText();
    assert Count(content, '\n') + 1 == 2 && |Fields(content)| == 3 && |content| == 5;
    assert NatToString(2) == "2" && NatToString(3) == "3" && NatToString(5) == "5";
    assert "> " + "2" + " " + "3" + " " + "5" + " " == "> 2 3 5 ";
  }

  /** The loaded-tree scenario with the file content "a b\nc": after loading, wc of the
      file's absolute path reports two lines, three words and five bytes. */
  lemma LoadedTwoLineFileWc(d: string, f: string, b: string, user: string)
    requires PlainName(d) && PlainName(f) && PlainName(b) && d != b
    ensures var fs := Load(Empty, SampleRecords(d, f, b, "a b\nc"));
      var path := "/" + (d + "/" + f);
      && LoadOk(Empty, SampleRecords(d, f, b, "a b\nc"))
      && WellFormed(fs)
      && Exec(fs, user, [], ["wc", path]).out == [Plain("> 2 3 5 " + path)]
  {
    SampleLoads(d, f, b, "a b\nc");
    SampleWc(d, f, b, "a b\nc", user);
    WcOfTwoLineText("/" + (d + "/" + f));
  }
}
