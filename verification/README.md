# Project file lists and the loading bar, in Dafny

This project models the logic of a small Qt code editor that never touches a widget.

- **The glob-filtered file list** (`FilesList`).
  - The exclude field is split on `;`. Each part is trimmed and rewritten, one character at a time, into an anchored, case-insensitive regular expression: `*` becomes `.*`, `?` becomes `.`, a metacharacter gets a backslash, and anything else is copied.
  - A path is dropped when such an expression accepts one of its whole `/`-segments.
  - The show field is lower-cased and split on `;`. Its parts are not trimmed. A path stays only if some lower-cased segment contains one of them.
  - The regex engine is not modelled. Instead, a reader for exactly the expression forms the translator emits turns the text back into glob tokens (`Star`, `AnyChar`, `Lit`). A backtracking glob matcher then runs them. The matcher is proved equal to a declarative "cut the string into one piece per token" meaning.
- **The main window's sidebar** (`MainWindow`).
  - The trimmed exclude field is split on `;`. Each part is trimmed again and looked for, ignoring case, anywhere in the whole relative path.
  - The trimmed show field is a single substring, looked for the same way.
  - Loading a project walks the directory tree (`ProjectTree`), entering only the readable, non-hidden entries the directory listing returns. A file is kept when its name ends in `.h`, `.hpp`, `.c`, `.cpp`, `.txt` or `.md`, or is `makefile`, in any case.
  - The kept paths are sorted ignoring case (`CaseInsensitiveSort`) and filtered into the sidebar.
  - Closing the project, opening a directory, opening a file in a tab, and editing either field are state transitions that keep the window invariant.
- **The loading bar** (`LoadingBar`). The setters clamp to their minima. `start` resets the bar. One timer tick moves the bar and turns it round at either edge.

Supporting modules:
- `Text`: ASCII lower-casing, `QString::trimmed`, `split`, `contains`.
- `Seqs`: an order-preserving filter and the subsequence relation.
- `Glob`: glob tokens, the matcher and its reference meaning.
- `GlobRegex`: the translator and the reader for its output.
- `Options`: the `Option` type for steps that may produce nothing.

## Model

| member | source | states |
|---|---|---|
| Text.TrimIsInfix | src/mainwindow.cpp:161-162 | trimming removes exactly a white-space prefix and a white-space suffix and keeps the middle |
| Text.TrimEmptyIffBlank | src/FilesList.cpp:22-33 | a pattern trims to nothing exactly when it is all white-space, so only blank patterns give no expression |
| Text.TrimIdempotent | src/mainwindow.cpp:161-171 | trimming an already trimmed exclude part changes nothing |
| Text.JoinSplit | src/FilesList.cpp:149-150 | splitting on `;` loses no text: joining the parts with `;` gives back the field |
| Text.SplitJoin | src/FilesList.cpp:157 | `;`-free parts joined with `;` split back into exactly those parts |
| Text.SplitSkipEmpty | src/FilesList.cpp:149-150 | a string is a kept part exactly when it is a non-empty piece between separators; every kept part is non-empty and contains no separator |
| Text.SplitSkipEmptyInOrder | src/FilesList.cpp:149-150 | the kept parts are exactly the non-empty pieces between separators, in the order they appear in the text |
| Text.SplitSkipEmptySingle | src/mainwindow.cpp:164-166 | a field with no `;` becomes itself alone, or nothing when it is empty |
| Text.ContainsIffOccurs | src/mainwindow.cpp:171 | the left-to-right containment scan succeeds exactly when the needle occurs at some index |
| Seqs.FilterMembership | src/FilesList.cpp:155-196 | an item is in the filtered list exactly when it is in the input and passes the per-item test |
| Seqs.FilterEmbeds | src/FilesList.cpp:155-203 | the filtered list embeds into the input at strictly increasing indices, so order is kept |
| Seqs.FilterConcat | src/mainwindow.cpp:168-181 | filtering a concatenation is concatenating the filtered halves |
| Seqs.FilterIdempotent | src/FilesList.cpp:155-196 | filtering twice with the same test gives the same list as filtering once |
| Glob.MatchesIffDenotes | src/FilesList.cpp:22-34 | the matcher accepts a string exactly when it can be cut into one piece per token: any run for `*`, one character for `?`, the character itself (ignoring case) for a literal |
| Glob.StarMatchesAll | src/FilesList.cpp:23-24 | the glob `*` matches every segment, the empty one included |
| Glob.LiteralPrefixThenStar | src/FilesList.cpp:23-30 | a run of literals followed by `*` (such as `cbuild*`) matches exactly the strings starting with those characters, ignoring case |
| GlobRegex.ToRegex | src/FilesList.cpp:21-35 | a pattern gives no expression exactly when it trims to nothing; otherwise the expression is case-insensitive and wrapped in `^` and `$` |
| GlobRegex.ToRegexList | src/FilesList.cpp:18-38 | at most one expression per pattern, and every one is case-insensitive |
| GlobRegex.ToRegexListSound | src/FilesList.cpp:20-35 | every expression in the list is the translation of some pattern |
| GlobRegex.ToRegexListComplete | src/FilesList.cpp:20-35 | every pattern that is not blank contributes its expression |
| GlobRegex.ToRegexListMembership | src/FilesList.cpp:18-38 | an expression is in the list exactly when some pattern translates to it |
| GlobRegex.ToRegexListConcat | src/FilesList.cpp:20-36 | patterns are translated one by one, so the list follows the patterns' order |
| GlobRegex.RegexBodyConcat | src/FilesList.cpp:22-32 | the translation of a pattern is the concatenation of the translations of its characters |
| GlobRegex.RegexBodyPlain | src/FilesList.cpp:29-30 | a pattern with no wildcard and no metacharacter is copied unchanged |
| GlobRegex.ParseRegexBody | src/FilesList.cpp:22-32 | reading back the emitted text gives one glob token per pattern character: `.*` reads as `*`, `.` as `?`, an escaped metacharacter as that literal, any other character as itself |
| GlobRegex.RegexMatchIffGlob | src/FilesList.cpp:34 | an emitted expression accepts a string exactly when the trimmed pattern, read as a glob, matches the whole string ignoring case |
| FilesList.NormalizePath | src/FilesList.cpp:15 | the path is unchanged on POSIX; on Windows every `\` becomes `/`, every other character is kept in place, and no backslash is left |
| FilesList.NormalizePathIdempotent | src/FilesList.cpp:15 | normalizing an already normalized path changes nothing |
| FilesList.Init | src/FilesList.cpp:83 | a new list has no files, shows nothing, and its exclude field holds `build;.vs;cbuild*` |
| FilesList.Clear | src/FilesList.cpp:130-134 | clear forgets the files, the shown list and the directory but keeps both fields |
| FilesList.SetFiles | src/FilesList.cpp:125-128 | setFiles replaces the file list and leaves the shown list for the next update |
| FilesList.ScanExcluded | src/FilesList.cpp:160-172 | the nested exclude loop, with its early exits, answers whether some expression accepts some segment |
| FilesList.ScanShow | src/FilesList.cpp:177-190 | the nested show loop, with its early exits, answers whether some lower-cased segment contains some token |
| FilesList.UpdateList | src/FilesList.cpp:146-205 | the loop leaves exactly the filtered file list on show and changes nothing else |
| FilesList.ShownIff | src/FilesList.cpp:155-196 | a path is shown exactly when it is listed, no expression accepts any of its segments, and, if there are show tokens, a segment contains one |
| FilesList.ExcludedNeverShown | src/FilesList.cpp:173-178 | exclusion wins: an excluded path is never shown, whatever the show field says |
| FilesList.NoShowTokensShowsAllUnexcluded | src/FilesList.cpp:178 | with no show tokens every listed path that is not excluded is shown |
| FilesList.ExcludedMeaning | src/FilesList.cpp:149-175 | a path is excluded exactly when some non-blank part of the exclude field, trimmed and read as a glob, matches a whole segment ignoring case |
| FilesList.ShownIsSubsequence | src/FilesList.cpp:155-203 | the shown list is a subsequence of the file list, of the original strings, in their order |
| FilesList.ShownIdempotent | src/FilesList.cpp:155-196 | filtering the shown list again with the same fields leaves it unchanged |
| FilesList.ClearThenUpdate | src/FilesList.cpp:130-134 | after clear and an update nothing is listed and nothing is shown |
| FilesList.SetFilesThenUpdate | src/FilesList.cpp:125-128 | after setFiles and an update exactly the new files that pass the filter are shown |
| FilesList.ShowTokensNotTrimmed | src/FilesList.cpp:150 | show tokens keep their spaces: ` Cpp` becomes the token ` cpp` |
| CaseInsensitiveSort.LexLeTotal | src/mainwindow.cpp:93 | any two names are comparable |
| CaseInsensitiveSort.LexLeTransitive | src/mainwindow.cpp:93 | the comparison is transitive |
| CaseInsensitiveSort.LexLeAntisymmetric | src/mainwindow.cpp:93 | names that compare both ways are equal |
| CaseInsensitiveSort.Insert | src/mainwindow.cpp:93 | inserting into a sorted list gives a sorted list with the same elements plus the new one |
| CaseInsensitiveSort.SortIgnoringCase | src/mainwindow.cpp:93 | the result is a permutation of the input, sorted ignoring case |
| CaseInsensitiveSort.SortSortedIsIdentity | src/mainwindow.cpp:93 | the model's stable sort gives back an already sorted list unchanged |
| CaseInsensitiveSort.SortedPermutationUnique | src/mainwindow.cpp:93 | when no two names differ only in case, any two sorted permutations of a list are the same list |
| CaseInsensitiveSort.AnySortAgrees | src/mainwindow.cpp:93 | when no two names differ only in case, every correct case-insensitive sort, stable or not, gives exactly the model's result |
| ProjectTree.CollectIsFilteredWalk | src/mainwindow.cpp:97-112 | the collected list is exactly the paths of the listed files the walk reaches whose names pass the test, in walk order |
| ProjectTree.CollectEntryIsFilteredWalk | src/mainwindow.cpp:101-110 | the same, for one entry: a file contributes its path if its name passes, a directory contributes what its walk collects |
| ProjectTree.CollectedIff | src/mainwindow.cpp:97-112 | a path is collected exactly when the walk reaches a file with that path whose name passes the test |
| ProjectTree.CollectBelow | src/mainwindow.cpp:101-108 | every path collected below a non-empty directory path is longer than that path |
| ProjectTree.DirectoryNotCollected | src/mainwindow.cpp:99-103 | a listed directory contributes exactly what is collected inside it, an unlisted one nothing, and its own path is never collected, whatever its name |
| ProjectTree.AcceptedNameExamples | src/mainwindow.cpp:100-106 | `Main.CPP` and `MakeFile` pass the name test |
| ProjectTree.RefusedNameExample | src/mainwindow.cpp:100 | `notes.md.bak` is refused: the extension has to end the name |
| MainWindow.Init | src/mainwindow.cpp:26-27 | the window starts with no project, no files, no tabs, `build` in the exclude field and an empty show field, and satisfies the invariant |
| MainWindow.ScanExcludeTokens | src/mainwindow.cpp:169-175 | the exclude loop, with its early exit, answers whether some non-blank trimmed token occurs in the path ignoring case |
| MainWindow.UpdateFileList | src/mainwindow.cpp:159-182 | the loop leaves exactly the filtered file list in the sidebar and changes nothing else |
| MainWindow.SidebarIff | src/mainwindow.cpp:168-181 | a path is in the sidebar exactly when it is listed, not excluded, and (unless the trimmed show field is empty) contains that field ignoring case |
| MainWindow.ExcludedByMeaning | src/mainwindow.cpp:161-171 | a path is excluded exactly when some part of the trimmed exclude field, non-blank once trimmed, occurs in it ignoring case |
| MainWindow.SidebarIsSubsequence | src/mainwindow.cpp:168-181 | the sidebar lists files in the file list's order |
| MainWindow.ExcludeSpansSegments | src/mainwindow.cpp:171 | exclude parts are matched across `/`: `src/gen` hides `SRC/Gen/a.h` |
| MainWindow.CloseDirectory | src/mainwindow.cpp:80-86 | closing leaves no project, no files, no sidebar and no tabs, keeps both fields, and keeps the invariant |
| MainWindow.LoadFiles | src/mainwindow.cpp:88-95 | loading leaves no tabs and a file list that is a permutation of the collected paths, sorted ignoring case, with the sidebar filtered from it; the project and both fields are kept |
| MainWindow.OpenDirectory | src/mainwindow.cpp:69-78 | an empty answer from the dialog changes nothing; otherwise the chosen directory becomes the project, its files are loaded sorted, no tab is left, and both fields are kept |
| MainWindow.OpenFileInTab | src/mainwindow.cpp:118-131 | with no project, or when the file cannot be read, nothing changes; otherwise one tab titled with the relative path is added at the end and becomes current, and nothing else changes |
| MainWindow.SetExcludeText | src/mainwindow.cpp:48 | editing the exclude field refilters the sidebar at once; nothing but the field and the sidebar changes |
| MainWindow.SetShowText | src/mainwindow.cpp:49 | editing the show field refilters the sidebar at once; nothing but the field and the sidebar changes |
| LoadingBar.Init | src/LoadingWidget.hpp:28-33 | a new bar lasts 2000 ms, is 40 pixels wide, sits at 0 with velocity 1, is stopped, and meets the minima |
| LoadingBar.SetDuration | src/LoadingWidget.cpp:15 | the duration becomes the larger of 100 and the argument; nothing else changes |
| LoadingBar.DurationRoundTrip | src/LoadingWidget.cpp:15-17 | duration() returns what setDuration was given exactly when that was at least 100, and is never below 100 |
| LoadingBar.SetLineWidth | src/LoadingWidget.cpp:30-31 | the line width becomes the larger of 10 and the argument; nothing else changes |
| LoadingBar.SettersKeepValid | src/LoadingWidget.cpp:15-31 | both setters keep the duration at least 100 and the width at least 10 |
| LoadingBar.Start | src/LoadingWidget.cpp:19-23 | start runs the timer, puts the bar at 0 and sets the velocity to 5 |
| LoadingBar.Stop | src/LoadingWidget.cpp:25-28 | stop halts the timer and leaves the bar where it is |
| LoadingBar.UpdatePosition | src/LoadingWidget.cpp:35-50 | one tick keeps the speed; at or past the edge it is moving toward, the bar is clamped to that edge and turned round; otherwise it moves by its velocity; a bar inside the track stays inside |
| LoadingBar.TicksStayInTrack | src/LoadingWidget.cpp:36-48 | a bar inside the track stays inside it after any number of ticks |
| LoadingBar.TicksKeepSpeed | src/LoadingWidget.cpp:37-48 | no number of ticks changes the speed |
| LoadingBar.SpeedAfterStart | src/LoadingWidget.cpp:19-48 | after start the bar always moves 5 pixels per tick, one way or the other |
| LoadingBar.ArrivesAtRightEdge | src/LoadingWidget.cpp:36-42 | a bar moving right reaches the right edge exactly and is turned round, after full strides |
| LoadingBar.ArrivesAtLeftEdge | src/LoadingWidget.cpp:43-47 | a bar moving left reaches 0 exactly and is turned round, after full strides |

## Left out

- The language-server client (src/LspClientImpl.cpp): message framing, request ids and dispatch live in an external `lsp` library that is not part of this model. What remains is process I/O and a polling thread.
- Directory scanning on a worker thread (`FileScannerWorker`, `FilesList::setDir`), the 300 ms debounce timer, and `processEvents` every 200 files. These are filesystem, thread and event-loop I/O. `UpdateList` is the update the timer eventually runs.
- Reading directories from disk. `addFilesRecursive` runs over an `Entry` tree given as data. Two flags on each entry say whether the listing returns it: `readable` for the `QDir::Readable` filter, and `hidden` for hidden names and system entries, which the listing omits without `QDir::Hidden` and `QDir::System`. Symbolic-link cycles cannot occur in a finite tree.
- Widget construction and layout, the dock title, the file dialog, reading a file's text (passed in as an `Option`), `LoadingWidget::paintEvent`, `closeCurrentTab`, the clangd start and `setDocumentRoot` in `openDirectory`, src/AppOutputRedirector.cpp and src/CodeEditor.cpp. These are I/O or widget plumbing.
- Symbols that are declared but never defined (`updateListChunked`, `requestFiltering`, `FileFilterWorker`, `filesChunkFound`). The header declares `fullList`/`filteredList`, but the code uses `allFiles` and the list widget, so the model follows the code.
- Text.Lower: folds ASCII letters only. Qt's `toLower` and case-insensitive comparison fold all of Unicode.
- Text.IsSpace: covers the white-space characters below U+0100. Other Unicode spaces that `QString::trimmed` also removes are not modelled.
- GlobRegex.RegexMatchIffGlob: treats `.` as any character and `$` as the end of the string. In PCRE `.` does not match a line feed, and `$` also matches before a final line feed. File names with line feeds are not modelled. The same holds for the extension expression in `ProjectTree.IsSourceName`.
- CaseInsensitiveSort.SortSortedIsIdentity: describes the model's stable sort. `QStringList::sort` may swap names that differ only in case, such as `README.md` and `readme.md`, even in sorted input. For lists without such pairs, AnySortAgrees carries the result over to any sort.
- CaseInsensitiveSort.SortIgnoringCase: names that compare equal ignoring case keep their input order. `QStringList::sort` uses an unstable sort, so their order there is unspecified. Strings are compared by code point, not by UTF-16 unit.
- LoadingBar.UpdatePosition: `position` and `velocity` are `qreal` in the widget. They start whole, and every value assigned to them is whole, so they are integers here. The widget width is a parameter.
