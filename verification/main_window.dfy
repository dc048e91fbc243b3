/** The project side of src/mainwindow.cpp: the sorted list of collected files,
    the sidebar filtered by case-insensitive substrings of the whole path, and
    the tabs opened from it. */
module MainWindow {
  import opened Options
  import opened Text
  import opened Seqs
  import opened CaseInsensitiveSort
  import opened ProjectTree

  /** An editor tab: the relative path as title and the file's text. */
  datatype Tab = Tab(title: string, text: string)

  /** The window's model state; `current` is the tab widget's current index (-1 for none). */
  datatype Window = Window(projectDir: string, allFiles: seq<string>, sidebar: seq<string>,
                           tabs: seq<Tab>, current: int, excludeText: string, showText: string)

  /** The exclude field: trimmed, then split on `;` with empty parts dropped. */
  function ExcludeTokens(excludeText: string): seq<string> {
    var trimmed := Trim(excludeText);
    if trimmed == [] then [] else SplitSkipEmpty(trimmed, ';')
  }

  /** Some token that is not blank after trimming occurs, ignoring case,
      anywhere in the whole relative path. */
  predicate ExcludedBy(rel: string, tokens: seq<string>) {
    exists t :: t in tokens && Trim(t) != [] && ContainsIgnoringCase(rel, Trim(t))
  }

  /** The per-file decision of MainWindow::updateFileList; `show` is the trimmed show field. */
  predicate SidebarKeep(rel: string, tokens: seq<string>, show: string) {
    !ExcludedBy(rel, tokens) && (show == [] || ContainsIgnoringCase(rel, show))
  }

  function SidebarKeepFn(tokens: seq<string>, show: string): string -> bool {
    rel => SidebarKeep(rel, tokens, show)
  }

  /** The list the sidebar shows for these fields. */
  function SidebarFiles(allFiles: seq<string>, excludeText: string, showText: string): seq<string> {
    Filter(allFiles, SidebarKeepFn(ExcludeTokens(excludeText), Trim(showText)))
  }

  /** The invariant every operation keeps: the current index names a tab (or
      is -1 exactly when there are none), and the sidebar is the filtered file list. */
  ghost predicate Valid(w: Window) {
    && -1 <= w.current < |w.tabs|
    && (w.current == -1 <==> w.tabs == [])
    && w.sidebar == SidebarFiles(w.allFiles, w.excludeText, w.showText)
  }

  /** The state the constructor sets up before asking for a directory. */
  function Init(): (w: Window)
    ensures Valid(w)
    ensures w.projectDir == [] && w.allFiles == [] && w.tabs == []
    ensures w.excludeText == "build" && w.showText == []
  {
    Window([], [], [], [], -1, "build", [])
  }

  /** The exclude scan of updateFileList for one path. */
  method ScanExcludeTokens(rel: string, tokens: seq<string>) returns (excluded: bool)
    ensures excluded == ExcludedBy(rel, tokens)
  {
    var k := 0;
    while k < |tokens|
      invariant 0 <= k <= |tokens|
      invariant forall m :: 0 <= m < k ==> !(Trim(tokens[m]) != [] && ContainsIgnoringCase(rel, Trim(tokens[m])))
    {
      var ex := Trim(tokens[k]);
      if ex != [] && ContainsIgnoringCase(rel, ex) {
        return true;
      }
      k := k + 1;
    }
    return false;
  }

  /** MainWindow::updateFileList: rebuilds the sidebar from the file list. */
  method UpdateFileList(w: Window) returns (r: Window)
    ensures r.sidebar == SidebarFiles(w.allFiles, w.excludeText, w.showText)
    ensures r == w.(sidebar := r.sidebar)
  {
    var tokens := ExcludeTokens(w.excludeText);
    var show := Trim(w.showText);
    ghost var keep := SidebarKeepFn(tokens, show);
    var items: seq<string> := [];
    var n := 0;
    while n < |w.allFiles|
      invariant 0 <= n <= |w.allFiles|
      invariant items == Filter(w.allFiles[..n], keep)
    {
      var rel := w.allFiles[n];
      var excluded := ScanExcludeTokens(rel, tokens);
      FilterPrefixStep(w.allFiles, n, keep);
      if !excluded && (show == [] || ContainsIgnoringCase(rel, show)) {
        items := items + [rel];
      }
      n := n + 1;
    }
    assert w.allFiles[..n] == w.allFiles;
    r := w.(sidebar := items);
  }

  /** `needle` occurs somewhere in `rel` once both are lower-cased. */
  ghost predicate OccursIgnoringCase(rel: string, needle: string) {
    exists i :: OccursAt(Lower(rel), Lower(needle), i)
  }

  /** A path is in the sidebar exactly when it is in the file list, passes
      the exclude test and passes the show test. */
  lemma SidebarIff(allFiles: seq<string>, excludeText: string, showText: string, rel: string)
    ensures rel in SidebarFiles(allFiles, excludeText, showText) <==>
      && rel in allFiles
      && !ExcludedBy(rel, ExcludeTokens(excludeText))
      && (Trim(showText) == [] || OccursIgnoringCase(rel, Trim(showText)))
  {
    FilterMembership(allFiles, SidebarKeepFn(ExcludeTokens(excludeText), Trim(showText)), rel);
    ContainsIffOccurs(Lower(rel), Lower(Trim(showText)));
  }

  /** The exclude test: some part of the trimmed exclude field, itself not
      blank once trimmed, occurs in the whole path ignoring case. */
  lemma ExcludedByMeaning(rel: string, excludeText: string)
    ensures ExcludedBy(rel, ExcludeTokens(excludeText)) <==>
      exists p :: p in SplitSkipEmpty(Trim(excludeText), ';') && Trim(p) != [] && OccursIgnoringCase(rel, Trim(p))
  {
    var tokens := ExcludeTokens(excludeText);
    if Trim(excludeText) == [] {
      SplitSkipEmptySingle([], ';');
    }
    assert tokens == SplitSkipEmpty(Trim(excludeText), ';');
    if ExcludedBy(rel, tokens) {
      var t :| t in tokens && Trim(t) != [] && ContainsIgnoringCase(rel, Trim(t));
      ContainsIffOccurs(Lower(rel), Lower(Trim(t)));
    }
    if exists p :: p in tokens && Trim(p) != [] && OccursIgnoringCase(rel, Trim(p)) {
      var p :| p in tokens && Trim(p) != [] && OccursIgnoringCase(rel, Trim(p));
      ContainsIffOccurs(Lower(rel), Lower(Trim(p)));
    }
  }

  /** The sidebar lists files in the file list's order. */
  lemma SidebarIsSubsequence(allFiles: seq<string>, excludeText: string, showText: string)
    ensures IsSubsequence(SidebarFiles(allFiles, excludeText, showText), allFiles)
  {
    FilterIsSubsequence(allFiles, SidebarKeepFn(ExcludeTokens(excludeText), Trim(showText)));
  }

  /** Exclude parts are matched against the whole path, across `/`: the part
      "src/gen" removes "SRC/Gen/a.h". */
  lemma ExcludeSpansSegments()
    ensures !SidebarKeep("SRC/Gen/a.h", ExcludeTokens("src/gen"), [])
  {
    var part := "src/gen";
    TrimUnpadded(part);
    SplitSkipEmptySingle(part, ';');
    assert ExcludeTokens(part) == [part];
    SpanningPartOccurs();
    assert part in ExcludeTokens(part) && Trim(part) != [] && ContainsIgnoringCase("SRC/Gen/a.h", Trim(part));
  }

  lemma SpanningPartOccurs()
    ensures ContainsIgnoringCase("SRC/Gen/a.h", "src/gen")
  {
    var hay := Lower("SRC/Gen/a.h");
    assert hay == "src/gen/a.h";
    assert Lower("src/gen") == "src/gen";
    assert StartsWith(hay, "src/gen");
  }

  /** MainWindow::closeDirectory: no project, no files, no sidebar, no tabs. */
  function CloseDirectory(w: Window): (r: Window)
    requires Valid(w)
    ensures Valid(r)
    ensures r.projectDir == [] && r.allFiles == [] && r.sidebar == [] && r.tabs == []
    ensures r.excludeText == w.excludeText && r.showText == w.showText
  {
    w.(projectDir := [], allFiles := [], sidebar := [], tabs := [], current := -1)
  }

  /** MainWindow::loadFiles over the directory's entries: clears the tabs,
      collects, sorts ignoring case, and refreshes the sidebar. */
  method LoadFiles(w: Window, entries: seq<Entry>) returns (r: Window)
    ensures Valid(r)
    ensures multiset(r.allFiles) == multiset(Collect([], entries))
    ensures SortedIgnoringCase(r.allFiles)
    ensures r.tabs == [] && r.current == -1
    ensures r == w.(allFiles := r.allFiles, sidebar := r.sidebar, tabs := [], current := -1)
  {
    var files := Collect([], entries);
    var cleared := w.(sidebar := [], tabs := [], current := -1, allFiles := []);
    r := UpdateFileList(cleared.(allFiles := SortIgnoringCase(files)));
  }

  /** MainWindow::openDirectory with the dialog's answer and the chosen
      directory's entries: an empty answer changes nothing. */
  method OpenDirectory(w: Window, chosen: string, entries: seq<Entry>) returns (r: Window)
    requires Valid(w)
    ensures Valid(r)
    ensures chosen == [] ==> r == w
    ensures chosen != [] ==> r.projectDir == chosen && r.tabs == []
    ensures chosen != [] ==> r.excludeText == w.excludeText && r.showText == w.showText
    ensures chosen != [] ==> multiset(r.allFiles) == multiset(Collect([], entries)) && SortedIgnoringCase(r.allFiles)
  {
    if chosen == [] {
      return w;
    }
    r := LoadFiles(w.(projectDir := chosen), entries);
  }

  /** MainWindow::openFileInTab with the outcome of reading the file: nothing
      happens without a project or when the file cannot be read; otherwise a
      new tab titled with the relative path becomes current. */
  function OpenFileInTab(w: Window, relPath: string, read: Option<string>): (r: Window)
    requires Valid(w)
    ensures Valid(r)
    ensures w.projectDir == [] || read.None? ==> r == w
    ensures w.projectDir != [] && read.Some? ==>
      && r.tabs == w.tabs + [Tab(relPath, read.value)]
      && r.current == |w.tabs| && r.tabs[r.current] == Tab(relPath, read.value)
      && r == w.(tabs := r.tabs, current := r.current)
  {
    if w.projectDir == [] then w
    else match read
      case None => w
      case Some(text) => w.(tabs := w.tabs + [Tab(relPath, text)], current := |w.tabs|)
  }

  /** Editing the exclude field re-runs the filter at once. */
  method SetExcludeText(w: Window, text: string) returns (r: Window)
    requires Valid(w)
    ensures Valid(r)
    ensures r.excludeText == text
    ensures r == w.(excludeText := text, sidebar := r.sidebar)
  {
    r := UpdateFileList(w.(excludeText := text));
  }

  /** Editing the show field re-runs the filter at once. */
  method SetShowText(w: Window, text: string) returns (r: Window)
    requires Valid(w)
    ensures Valid(r)
    ensures r.showText == text
    ensures r == w.(showText := text, sidebar := r.sidebar)
  {
    r := UpdateFileList(w.(showText := text));
  }
}
