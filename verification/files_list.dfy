/** The glob-filtered file list of src/FilesList.cpp: a list of relative paths,
    an exclude field of `;`-separated globs matched against whole path
    segments, and a show field of `;`-separated substrings looked for inside
    segments. */
module FilesList {
  import opened Options
  import opened Text
  import opened Glob
  import opened GlobRegex
  import opened Seqs

  /** QDir::fromNativeSeparators only rewrites `\` on Windows. */
  datatype Platform = Posix | Windows

  function NormalizePath(path: string, platform: Platform): (r: string)
    ensures |r| == |path|
    ensures platform == Posix ==> r == path
    ensures platform == Windows ==> '\\' !in r
    ensures platform == Windows ==>
      forall i :: 0 <= i < |path| ==> r[i] == (if path[i] == '\\' then '/' else path[i])
  {
    match platform
    case Posix => path
    case Windows => seq(|path|, i requires 0 <= i < |path| => if path[i] == '\\' then '/' else path[i])
  }

  /** Normalizing an already normalized path changes nothing. */
  lemma NormalizePathIdempotent(path: string, platform: Platform)
    ensures NormalizePath(NormalizePath(path, platform), platform) == NormalizePath(path, platform)
  {
  }

  /** The non-empty `/`-separated segments of the normalized path. */
  function Segments(path: string, platform: Platform): seq<string> {
    SplitSkipEmpty(NormalizePath(path, platform), '/')
  }

  /** The exclude matchers built from the exclude field. */
  function ExcludeGlobs(excludeText: string): seq<Regex> {
    ToRegexList(SplitSkipEmpty(excludeText, ';'))
  }

  /** The show tokens: the lower-cased show field split on `;`, not trimmed. */
  function ShowTokens(showText: string): seq<string> {
    SplitSkipEmpty(Lower(showText), ';')
  }

  /** Some matcher accepts some whole segment. */
  predicate IsExcluded(segments: seq<string>, globs: seq<Regex>) {
    exists i, j :: 0 <= i < |globs| && 0 <= j < |segments| && RegexMatch(globs[i], segments[j])
  }

  /** Some lower-cased segment contains some token. */
  predicate ShowMatched(segments: seq<string>, tokens: seq<string>) {
    exists i, j :: 0 <= i < |tokens| && 0 <= j < |segments| && Contains(Lower(segments[j]), tokens[i])
  }

  /** The per-file decision of FilesList::updateList. */
  predicate Keep(rel: string, globs: seq<Regex>, tokens: seq<string>, platform: Platform) {
    var segments := Segments(rel, platform);
    !IsExcluded(segments, globs) && (tokens == [] || ShowMatched(segments, tokens))
  }

  function KeepFn(globs: seq<Regex>, tokens: seq<string>, platform: Platform): string -> bool {
    rel => Keep(rel, globs, tokens, platform)
  }

  /** The list the widget ends up showing for these filters. */
  function Shown(allFiles: seq<string>, excludeText: string, showText: string, platform: Platform): seq<string> {
    Filter(allFiles, KeepFn(ExcludeGlobs(excludeText), ShowTokens(showText), platform))
  }

  /** The widget's model state. */
  datatype View = View(directory: string, allFiles: seq<string>, shown: seq<string>,
                       excludeText: string, showText: string)

  /** The state right after construction: the exclude field holds its default. */
  function Init(): (v: View)
    ensures v.allFiles == [] && v.shown == [] && v.directory == []
    ensures v.excludeText == "build;.vs;cbuild*" && v.showText == []
  {
    View([], [], [], "build;.vs;cbuild*", [])
  }

  /** FilesList::clear: forgets the files, the shown list and the directory. */
  function Clear(v: View): (r: View)
    ensures r.allFiles == [] && r.shown == [] && r.directory == []
    ensures r.excludeText == v.excludeText && r.showText == v.showText
  {
    v.(allFiles := [], shown := [], directory := [])
  }

  /** FilesList::setFiles: replaces the file list; the shown list is only
      recomputed when the update runs. */
  function SetFiles(v: View, files: seq<string>): (r: View)
    ensures r.allFiles == files
    ensures r.shown == v.shown && r.directory == v.directory
    ensures r.excludeText == v.excludeText && r.showText == v.showText
  {
    v.(allFiles := files)
  }

  /** The exclude scan of FilesList::updateList: every matcher against every
      segment, stopping at the first acceptance. */
  method ScanExcluded(segments: seq<string>, globs: seq<Regex>) returns (excluded: bool)
    ensures excluded == IsExcluded(segments, globs)
  {
    excluded := false;
    var i := 0;
    while i < |globs|
      invariant 0 <= i <= |globs|
      invariant forall a, b :: 0 <= a < i && 0 <= b < |segments| ==> !RegexMatch(globs[a], segments[b])
    {
      var j := 0;
      while j < |segments|
        invariant 0 <= j <= |segments|
        invariant forall b :: 0 <= b < j ==> !RegexMatch(globs[i], segments[b])
      {
        if RegexMatch(globs[i], segments[j]) {
          return true;
        }
        j := j + 1;
      }
      i := i + 1;
    }
  }

  /** The show scan of FilesList::updateList: every token against every
      lower-cased segment, stopping at the first hit. */
  method ScanShow(segments: seq<string>, tokens: seq<string>) returns (matched: bool)
    ensures matched == ShowMatched(segments, tokens)
  {
    matched := false;
    var t := 0;
    while t < |tokens|
      invariant 0 <= t <= |tokens|
      invariant forall a, b :: 0 <= a < t && 0 <= b < |segments| ==> !Contains(Lower(segments[b]), tokens[a])
    {
      var j := 0;
      while j < |segments|
        invariant 0 <= j <= |segments|
        invariant forall b :: 0 <= b < j ==> !Contains(Lower(segments[b]), tokens[t])
      {
        if Contains(Lower(segments[j]), tokens[t]) {
          return true;
        }
        j := j + 1;
      }
      t := t + 1;
    }
  }

  /** FilesList::updateList: walks the file list once, dropping excluded files
      and, when there are show tokens, files none of whose segments contains one. */
  method UpdateList(v: View, platform: Platform) returns (r: View)
    ensures r.shown == Shown(v.allFiles, v.excludeText, v.showText, platform)
    ensures r.allFiles == v.allFiles && r.directory == v.directory
    ensures r.excludeText == v.excludeText && r.showText == v.showText
  {
    var globs := ExcludeGlobs(v.excludeText);
    var tokens := ShowTokens(v.showText);
    ghost var keep := KeepFn(globs, tokens, platform);
    var chunk: seq<string> := [];
    var n := 0;
    while n < |v.allFiles|
      invariant 0 <= n <= |v.allFiles|
      invariant chunk == Filter(v.allFiles[..n], keep)
    {
      var rel := v.allFiles[n];
      var segments := Segments(rel, platform);
      var excluded := ScanExcluded(segments, globs);
      var kept := !excluded;
      if kept && tokens != [] {
        kept := ScanShow(segments, tokens);
      }
      assert kept == keep(rel);
      FilterPrefixStep(v.allFiles, n, keep);
      if kept {
        chunk := chunk + [rel];
      }
      n := n + 1;
    }
    assert v.allFiles[..n] == v.allFiles;
    r := v.(shown := chunk);
  }

  /** A file is shown exactly when it is in the list, no matcher accepts any of
      its segments, and (when there are show tokens) one of its segments
      contains a token. */
  lemma ShownIff(allFiles: seq<string>, excludeText: string, showText: string, platform: Platform, rel: string)
    ensures rel in Shown(allFiles, excludeText, showText, platform) <==>
      && rel in allFiles
      && !IsExcluded(Segments(rel, platform), ExcludeGlobs(excludeText))
      && (ShowTokens(showText) == [] || ShowMatched(Segments(rel, platform), ShowTokens(showText)))
  {
    FilterMembership(allFiles, KeepFn(ExcludeGlobs(excludeText), ShowTokens(showText), platform), rel);
  }

  /** Exclusion wins: an excluded file is never shown, whatever the show field says. */
  lemma ExcludedNeverShown(allFiles: seq<string>, excludeText: string, showText: string, platform: Platform, rel: string)
    ensures IsExcluded(Segments(rel, platform), ExcludeGlobs(excludeText)) ==>
      rel !in Shown(allFiles, excludeText, showText, platform)
  {
    ShownIff(allFiles, excludeText, showText, platform, rel);
  }

  /** With no show tokens every file that is not excluded is shown. */
  lemma NoShowTokensShowsAllUnexcluded(allFiles: seq<string>, excludeText: string, showText: string, platform: Platform, rel: string)
    ensures ShowTokens(showText) == [] && rel in allFiles && !IsExcluded(Segments(rel, platform), ExcludeGlobs(excludeText)) ==>
      rel in Shown(allFiles, excludeText, showText, platform)
  {
    ShownIff(allFiles, excludeText, showText, platform, rel);
  }

  /** An exclude part, trimmed and read as a glob, matches the segment ignoring case. */
  ghost predicate PartExcludes(p: string, segment: string) {
    Trim(p) != [] && Denotes(GlobOf(Trim(p)), segment, true)
  }

  /** What an exclusion means in glob terms: some non-blank exclude part,
      trimmed and read as a glob, matches some whole segment, ignoring case. */
  lemma ExcludedMeaning(excludeText: string, segments: seq<string>)
    ensures IsExcluded(segments, ExcludeGlobs(excludeText)) <==>
      exists p, j :: p in SplitSkipEmpty(excludeText, ';') && 0 <= j < |segments| && PartExcludes(p, segments[j])
  {
    if IsExcluded(segments, ExcludeGlobs(excludeText)) {
      ExcludedHasPart(excludeText, segments);
    }
    if exists p, j :: p in SplitSkipEmpty(excludeText, ';') && 0 <= j < |segments| && PartExcludes(p, segments[j]) {
      var p, j :| p in SplitSkipEmpty(excludeText, ';') && 0 <= j < |segments| && PartExcludes(p, segments[j]);
      PartExcludesMeansExcluded(excludeText, segments, p, j);
    }
  }

  lemma ExcludedHasPart(excludeText: string, segments: seq<string>)
    requires IsExcluded(segments, ExcludeGlobs(excludeText))
    ensures exists p, j :: p in SplitSkipEmpty(excludeText, ';') && 0 <= j < |segments| && PartExcludes(p, segments[j])
  {
    var parts := SplitSkipEmpty(excludeText, ';');
    var globs := ExcludeGlobs(excludeText);
    var i, j :| 0 <= i < |globs| && 0 <= j < |segments| && RegexMatch(globs[i], segments[j]);
    ToRegexListMembership(parts, globs[i]);
    var p :| p in parts && ToRegex(p) == Some(globs[i]);
    RegexMatchIffGlob(p, segments[j]);
    MatchesIffDenotes(GlobOf(Trim(p)), segments[j], true);
    assert PartExcludes(p, segments[j]);
  }

  lemma PartExcludesMeansExcluded(excludeText: string, segments: seq<string>, p: string, j: int)
    requires p in SplitSkipEmpty(excludeText, ';') && 0 <= j < |segments| && PartExcludes(p, segments[j])
    ensures IsExcluded(segments, ExcludeGlobs(excludeText))
  {
    var globs := ExcludeGlobs(excludeText);
    MatchesIffDenotes(GlobOf(Trim(p)), segments[j], true);
    RegexMatchIffGlob(p, segments[j]);
    var rx := ToRegex(p).value;
    ToRegexListMembership(SplitSkipEmpty(excludeText, ';'), rx);
    assert rx in globs;
    var i :| 0 <= i < |globs| && globs[i] == rx;
    assert RegexMatch(globs[i], segments[j]);
  }

  /** The shown list is a subsequence of the file list, in the file list's order. */
  lemma ShownIsSubsequence(allFiles: seq<string>, excludeText: string, showText: string, platform: Platform)
    ensures IsSubsequence(Shown(allFiles, excludeText, showText, platform), allFiles)
  {
    FilterIsSubsequence(allFiles, KeepFn(ExcludeGlobs(excludeText), ShowTokens(showText), platform));
  }

  /** Filtering the shown list again with the same fields leaves it unchanged. */
  lemma ShownIdempotent(allFiles: seq<string>, excludeText: string, showText: string, platform: Platform)
    ensures Shown(Shown(allFiles, excludeText, showText, platform), excludeText, showText, platform)
         == Shown(allFiles, excludeText, showText, platform)
  {
    FilterIdempotent(allFiles, KeepFn(ExcludeGlobs(excludeText), ShowTokens(showText), platform));
  }

  /** After clear and an update nothing is shown; after setFiles and an update
      exactly the filtered new list is shown, whatever was there before. */
  method ClearThenUpdate(v: View, platform: Platform) returns (r: View)
    ensures r.shown == [] && r.allFiles == []
  {
    r := UpdateList(Clear(v), platform);
  }

  method SetFilesThenUpdate(v: View, files: seq<string>, platform: Platform) returns (r: View)
    ensures r.allFiles == files
    ensures forall rel :: rel in r.shown <==>
      rel in files && Keep(rel, ExcludeGlobs(v.excludeText), ShowTokens(v.showText), platform)
  {
    r := UpdateList(SetFiles(v, files), platform);
    forall rel
      ensures rel in r.shown <==> rel in files && Keep(rel, ExcludeGlobs(v.excludeText), ShowTokens(v.showText), platform)
    {
      ShownIff(files, v.excludeText, v.showText, platform, rel);
    }
  }

  /** Show tokens keep their spaces: " cpp" looks for a space before "cpp". */
  lemma ShowTokensNotTrimmed()
    ensures ShowTokens(" Cpp") == [" cpp"]
  {
    assert Lower(" Cpp") == " cpp";
    SplitSkipEmptySingle(" cpp", ';');
  }
}
