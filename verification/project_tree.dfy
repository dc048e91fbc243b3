/** The directory walk of MainWindow::addFilesRecursive, over a directory tree
    given as data instead of read from disk. */
module ProjectTree {
  import opened Text
  import opened Seqs

  /** A directory entry as the file system holds it. `readable` is what the
      QDir::Readable filter asks for; `hidden` marks the entries QDir leaves
      out unless QDir::Hidden or QDir::System is given: hidden names (a leading
      `.` on Unix) and system entries such as FIFOs, sockets and devices. */
  datatype Entry =
    | File(name: string, readable: bool, hidden: bool)
    | Dir(name: string, readable: bool, hidden: bool, children: seq<Entry>)

  /** The entries `entryInfoList(Files | Dirs | NoDotAndDotDot | Readable)` returns. */
  predicate Listed(e: Entry) {
    e.readable && !e.hidden
  }

  /** The endings the file-name expression accepts, already lower-case. */
  const SourceExtensions: seq<string> := [".h", ".hpp", ".c", ".cpp", ".txt", ".md"]

  /** The file-name test of addFilesRecursive: one of the extensions at the
      end, or the whole name `makefile`, ignoring case. */
  predicate IsSourceName(name: string) {
    || (exists k :: 0 <= k < |SourceExtensions| && EndsWith(Lower(name), SourceExtensions[k]))
    || Lower(name) == "makefile"
  }

  /** The path of `name` relative to the project root, below `prefix`. */
  function ChildPath(prefix: string, name: string): string {
    if prefix == [] then name else prefix + "/" + name
  }

  /** addFilesRecursive over the entries of one directory, in listing order. */
  function Collect(prefix: string, entries: seq<Entry>): seq<string>
    decreases entries
  {
    if entries == [] then []
    else CollectEntry(prefix, entries[0]) + Collect(prefix, entries[1..])
  }

  function CollectEntry(prefix: string, e: Entry): seq<string>
    decreases e
  {
    if !Listed(e) then []
    else match e
      case File(name, _, _) => if IsSourceName(name) then [ChildPath(prefix, name)] else []
      case Dir(name, _, _, children) => Collect(ChildPath(prefix, name), children)
  }

  /** A file reached by the walk: its relative path and its own name. */
  datatype FileRef = FileRef(path: string, name: string)

  /** Every listed file under listed directories, in listing order,
      accepted or not. Directories contribute their files, never themselves. */
  function Walk(prefix: string, entries: seq<Entry>): seq<FileRef>
    decreases entries
  {
    if entries == [] then []
    else WalkEntry(prefix, entries[0]) + Walk(prefix, entries[1..])
  }

  function WalkEntry(prefix: string, e: Entry): seq<FileRef>
    decreases e
  {
    if !Listed(e) then []
    else match e
      case File(name, _, _) => [FileRef(ChildPath(prefix, name), name)]
      case Dir(name, _, _, children) => Walk(ChildPath(prefix, name), children)
  }

  predicate IsSourceFile(f: FileRef) {
    IsSourceName(f.name)
  }

  function Paths(fs: seq<FileRef>): (ps: seq<string>)
    ensures |ps| == |fs|
    ensures forall k :: 0 <= k < |fs| ==> ps[k] == fs[k].path
  {
    seq(|fs|, k requires 0 <= k < |fs| => fs[k].path)
  }

  /** The collected list is exactly the paths of the walked files whose name
      passes the test, in walk order. */
  lemma {:induction false} CollectIsFilteredWalk(prefix: string, entries: seq<Entry>)
    ensures Collect(prefix, entries) == Paths(Filter(Walk(prefix, entries), IsSourceFile))
    decreases entries
  {
    if entries != [] {
      CollectEntryIsFilteredWalk(prefix, entries[0]);
      CollectIsFilteredWalk(prefix, entries[1..]);
      FilterConcat(WalkEntry(prefix, entries[0]), Walk(prefix, entries[1..]), IsSourceFile);
      PathsConcat(Filter(WalkEntry(prefix, entries[0]), IsSourceFile),
                  Filter(Walk(prefix, entries[1..]), IsSourceFile));
    }
  }

  lemma PathsConcat(a: seq<FileRef>, b: seq<FileRef>)
    ensures Paths(a + b) == Paths(a) + Paths(b)
  {
  }

  lemma {:induction false} CollectEntryIsFilteredWalk(prefix: string, e: Entry)
    ensures CollectEntry(prefix, e) == Paths(Filter(WalkEntry(prefix, e), IsSourceFile))
    decreases e
  {
    if Listed(e) {
      match e
      case File(name, _, _) =>
        var one := [FileRef(ChildPath(prefix, name), name)];
        assert one[1..] == [];
        assert Filter(one, IsSourceFile) == (if IsSourceName(name) then one else []) + Filter([], IsSourceFile);
      case Dir(name, _, _, children) =>
        CollectIsFilteredWalk(ChildPath(prefix, name), children);
    }
  }

  /** So a path is collected exactly when the walk reaches a file of that path
      whose name passes the test. */
  lemma CollectedIff(prefix: string, entries: seq<Entry>, p: string)
    ensures p in Collect(prefix, entries) <==>
      exists k :: 0 <= k < |Walk(prefix, entries)| && Walk(prefix, entries)[k].path == p
                  && IsSourceName(Walk(prefix, entries)[k].name)
  {
    CollectIsFilteredWalk(prefix, entries);
    var w := Walk(prefix, entries);
    var f := Filter(w, IsSourceFile);
    if p in Collect(prefix, entries) {
      var m :| 0 <= m < |f| && f[m].path == p;
      FilterMembership(w, IsSourceFile, f[m]);
      var k :| 0 <= k < |w| && w[k] == f[m];
    }
    if exists k :: 0 <= k < |w| && w[k].path == p && IsSourceName(w[k].name) {
      var k :| 0 <= k < |w| && w[k].path == p && IsSourceName(w[k].name);
      FilterMembership(w, IsSourceFile, w[k]);
      var m :| 0 <= m < |f| && f[m] == w[k];
      assert Paths(f)[m] == p;
    }
  }

  /** Every path collected below a non-empty prefix is longer than the prefix. */
  lemma {:induction false} CollectBelow(q: string, entries: seq<Entry>)
    requires q != []
    ensures forall p :: p in Collect(q, entries) ==> |p| > |q|
    decreases entries
  {
    if entries != [] {
      CollectEntryBelow(q, entries[0]);
      CollectBelow(q, entries[1..]);
    }
  }

  lemma {:induction false} CollectEntryBelow(q: string, e: Entry)
    requires q != []
    ensures forall p :: p in CollectEntry(q, e) ==> |p| > |q|
    decreases e
  {
    if Listed(e) {
      match e
      case File(name, _, _) =>
      case Dir(name, _, _, children) =>
        CollectBelow(ChildPath(q, name), children);
    }
  }

  /** A directory is walked into when it is listed, but never collected
      itself, whatever its name: only paths strictly below it are. */
  lemma DirectoryNotCollected(prefix: string, name: string, readable: bool, hidden: bool, children: seq<Entry>)
    requires name != []
    ensures CollectEntry(prefix, Dir(name, readable, hidden, children)) ==
      if readable && !hidden then Collect(ChildPath(prefix, name), children) else []
    ensures ChildPath(prefix, name) !in CollectEntry(prefix, Dir(name, readable, hidden, children))
  {
    CollectBelow(ChildPath(prefix, name), children);
  }

  /** A mixed-case header name is accepted, and so is any spelling of `makefile`. */
  lemma AcceptedNameExamples()
    ensures IsSourceName("Main.CPP")
    ensures IsSourceName("MakeFile")
  {
    assert Lower("Main.CPP") == "main.cpp";
    assert EndsWith(Lower("Main.CPP"), SourceExtensions[3]);
    assert Lower("MakeFile") == "makefile";
  }

  /** A name that only carries an extension in the middle is refused. */
  lemma RefusedNameExample()
    ensures !IsSourceName("notes.md.bak")
  {
    var n := Lower("notes.md.bak");
    assert n == "notes.md.bak";
    assert n[|n| - 4..] == ".bak";
    assert n[|n| - 2..] == "ak";
    assert n[|n| - 3..] == "bak";
  }
}
