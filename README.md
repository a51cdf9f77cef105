# Speaker-diarization labelling tool: a verified model of its core logic

The labelling tool shows the segments of an RTTM transcript (NIST Rich
Transcription Time-Marked: `SPEAKER file_id channel start duration <NA> <NA>
speaker_id <NA> <NA>`) next to the audio. Annotators add segments and then
save the edited list back as RTTM. This project models:

- **`PathUtils`** (static/path-utils.js). These are string functions that
  accept `\` or `/` as separators. The host probe `isWindows()` becomes the
  parameter `win`.
- **Backend RTTM handling** (app.py):
  - `parse_rttm`: tokenise, filter, sort by start time, and merge
    same-speaker segments separated by gaps of at most 0.5 s.
  - `write_rttm`.
  - The file id, the saved-labels path and the audio URL derived from a
    relative RTTM path.
  - The category of a file, and the sorted, de-duplicated category list.
- **The add-segment dialog** (static/add-segment.js). It holds four form
  fields, validates a new segment, and pushes it onto the shared segment list
  before sorting.
- **The folder configuration panel** (static/folder-config.js). It covers the
  popup message dispatch, the fallback folder pickers, submit validation, and
  the reset of the loaded file after the folders change.

Layout:

| file | module | what |
|---|---|---|
| optional.dfy | `Optional` | `Option` (null, NaN, or a Python call that raised) |
| text.dfy | `Text` | trimming, splitting on separator runs and on single characters, joining, lexicographic order, ordered insertion without duplicates |
| path_utils.dfy | `PathUtils` | static/path-utils.js |
| segments.dfy | `Segments` | the segment record and the stable sort by start time |
| rttm.dfy | `Rttm` | `parse_rttm` and `write_rttm` |
| backend_paths.dfy | `BackendPaths` | POSIX `os.path`, file id, saved path, audio URL, categories |
| session.dfy | `BrowserSession` | the page variables `segments`, `currentFileId`, `currentRttmPath` as one object |
| add_segment.dfy | `AddSegment` | static/add-segment.js |
| folder_config.dfy | `FolderConfig` | static/folder-config.js |

Modelling choices:

- Times are exact `real`s.
- Python's `float()` and JavaScript's `parseFloat` are an oracle
  `string -> Option<real>`, where `None` stands for an exception or NaN.
  `toFixed(2)` is an oracle `real -> string`.
- `:.2f` is written out as rounding to hundredths followed by explicit decimal
  digits.
- File contents are the sequence of their lines.
- `os.path` is `posixpath`.
- Python's `list.sort` and JavaScript's `Array.prototype.sort` are both
  stable. ECMAScript has required a stable sort since its 2019 edition. So both
  are modelled by one insertion sort that keeps equal start times in list order.
- The code was followed throughout.
  - The comparator at static/add-segment.js:172 has no tie-break. Because the
    sort is stable, equal start times keep their order after the push rather
    than being reordered arbitrarily.
  - `isAbsolute` on Windows also accepts `\\` prefixes.
  - `normalize` keeps a leading separator run as one separator.

## Model

| member | source | states |
|---|---|---|
| PathUtils.GetSeparator | static/path-utils.js:11-13 | the separator is `\` exactly on Windows and `/` otherwise |
| PathUtils.GetDefaultRoot | static/path-utils.js:16-18 | the root is `C:\` exactly on Windows and `/` exactly otherwise; either root is absolute |
| PathUtils.Normalize | static/path-utils.js:21-26 | the empty path is returned unchanged; every separator in the result is the platform's; no two separators are adjacent; the result starts with a separator iff the input does |
| PathUtils.Collapse | static/path-utils.js:25 | every maximal run of `\`/`/` becomes one given separator: non-empty iff the input is; the first character is kept or becomes the separator; no foreign or doubled separator remains |
| PathUtils.CollapseIsJoinOfFields | static/path-utils.js:25 | replacing separator runs equals splitting on runs and joining with the separator, with no field dropped |
| PathUtils.NormalizeIdempotent | static/path-utils.js:21-26 | normalising twice is normalising once |
| PathUtils.NormalizeKeepsSegments | static/path-utils.js:21-33 | `split(normalize(p)) == split(p)` on both platforms |
| PathUtils.Split | static/path-utils.js:29-33 | every element is non-empty and contains neither `\` nor `/` |
| PathUtils.SplitEmptyIffOnlySeparators | static/path-utils.js:29-33 | `split` gives `[]` exactly for the empty path and for paths made only of separators |
| PathUtils.SplitJoin | static/path-utils.js:29-39 | for separator-free parts, `split(join(parts))` gives the non-empty parts back; when all parts are non-empty this equals `parts`, on both platforms |
| PathUtils.Join | static/path-utils.js:36-39 | `join` gives "" iff every part is empty |
| PathUtils.JoinShape | static/path-utils.js:36-39 | for separator-free parts, the joined result neither starts nor ends with a separator |
| PathUtils.PosixJoinIsRelative | static/path-utils.js:36-39 | on POSIX a join of separator-free parts is never absolute |
| PathUtils.ToUrl | static/path-utils.js:42-45 | the result has the same length, has no `\`, turns each `\` into `/` and keeps every other character, so "" maps to "" |
| PathUtils.ToUrlIdempotent | static/path-utils.js:42-45 | `toUrl` is idempotent |
| PathUtils.ToUrlKeepsSegments | static/path-utils.js:42-45 | `toUrl` leaves the segments that `split` sees unchanged |
| PathUtils.UrlOfWindowsForm | static/path-utils.js:42-45 | the URL of a Windows-normalised path is the POSIX-normalised path |
| PathUtils.GetFirstDir | static/path-utils.js:48-51 | the first directory contains no separator, and it is "" iff `split` finds no segment |
| PathUtils.FirstDirIsLeadingSegment | static/path-utils.js:48-51 | `getFirstDir` is the first segment of `split` (the non-separator run after the leading separators), and it is "" iff the path is made only of separators |
| PathUtils.FirstDirOfJoin | static/path-utils.js:48-51 | the first directory of a join of non-empty, separator-free parts is the first part |
| PathUtils.IsAbsolute | static/path-utils.js:54-61 | an absolute path is non-empty and starts with a separator or an `A:`–`Z:` drive prefix; a path with a drive prefix is absolute iff the platform is Windows |
| PathUtils.NormalizedPosixAbsolute | static/path-utils.js:54-61 | on POSIX a normalised path is absolute iff the original started with either separator, and never when it is empty |
| PathUtils.NormalizedWindowsAbsolute | static/path-utils.js:54-61 | on Windows a normalised path is absolute iff the original had an `A:`–`Z:` drive prefix followed by a separator, because normalising removes a `\\` prefix |
| Text.Trim | app.py:69 | the result of `strip()` is an inner slice `s[i..j]` of the input with only whitespace before `i` and after `j`; it neither starts nor ends with whitespace, and it is "" exactly for all-whitespace input |
| Text.InsertUnique | app.py:207-211 | inserting into a strictly ascending list keeps it strictly ascending, and its elements become the old ones plus the new one |
| Segments.SortByStart | app.py:84 | the sorted list is ordered by start time and is a permutation of the input |
| Segments.SortSortedIsIdentity | app.py:84 | sorting a list that is already sorted leaves it unchanged, because the sort is stable |
| Rttm.ReadLine | app.py:69-81 | a segment read from one line has non-empty file and speaker ids and ends at its start plus its duration |
| Rttm.ReadLineFields | app.py:69-80 | a line gives a segment iff it has at least 8 whitespace fields, field 0 is `SPEAKER` and fields 3 and 4 parse; the file id, start, duration and speaker then come from fields 1, 3, 4 and 7, and the end is start plus duration |
| Rttm.ReadSegmentsConsistent | app.py:75-81 | every raw segment has `end_time = start_time + duration` |
| Rttm.ReadRaw | app.py:66-81 | the reading loop gives the raw segments in line order, or nothing once `float()` fails |
| Rttm.MergeAdjacent | app.py:87-107 | the merging loop computes the fold `Merge` of the sorted raw list |
| Rttm.ParseRttm | app.py:64-113 | the result is `[]` when a time fails to parse. Otherwise: it is empty iff there are no raw segments; it has at most as many segments as the raw list; it is sorted by start time; no adjacent pair has the same speaker with a gap of 0.5 s or less; every duration is end minus start; the first segment starts at the start of some raw segment, and no raw segment starts earlier; the result is the run-by-run merge `MergeRuns` of the sorted raw list |
| Rttm.MergeFrom | app.py:91-107 | the loop from a current segment and n remaining raw segments yields between 1 and n + 1 segments |
| Rttm.Merge | app.py:87-107 | merging is empty only for an empty list, never lengthens it, and starts with the first raw segment's start and speaker |
| Rttm.MergeFromShape | app.py:91-107 | the first merged segment keeps the start, speaker and file of the raw segment the loop started from |
| Rttm.MergeFromSeparated | app.py:96-104 | every adjacent merged pair has different speakers or a gap over 0.5 s |
| Rttm.MergeFromSorted | app.py:84-107 | merging a sorted list gives a sorted list in which no segment starts before the first raw start |
| Rttm.MergeFromEnds | app.py:96-100 | every merged segment has duration = end − start, and its end is the end of a raw segment |
| Rttm.MergeFromLastEnd | app.py:96-107 | the last merged segment ends where the last raw segment ends |
| Rttm.RunEnd | app.py:92-104 | the end of the run that began at `lo` lies between the position looked from and the end of the list |
| Rttm.RunEndShape | app.py:92-104 | runs are maximal: every segment inside the run has the run's speaker and starts at most 0.5 s after its predecessor ends, and the segment just after the run does not |
| Rttm.RunSegment | app.py:96-104 | a run becomes one segment with the file, speaker and start of its first raw segment and the end of its LAST raw segment; a single-segment run is that segment unchanged, and a longer one has duration = end − start |
| Rttm.MergeIsRuns | app.py:87-107 | the merge loop equals the run-by-run merge: the raw list is cut into maximal runs at boundaries 0 = b0 < b1 < … < |raw|, and merged segment i takes its start, speaker and file from `raw[b_i]` and its end from `raw[b_(i+1) − 1]` |
| Rttm.MergeCanEndEarlier | app.py:96-100 | the merged end is that of the last absorbed segment, not the maximum: `[0,5)` followed by `[1,2)` of the same speaker merges into `[0,2)` |
| Rttm.MergeFixedPoints | app.py:87-107 | merging leaves a list unchanged iff no adjacent pair would merge; merging is idempotent |
| Rttm.MergeSorted | app.py:84-107 | for a sorted, consistent raw list, the merged list has the bounds, order, separation, start and duration properties above |
| Rttm.MergedBounds | app.py:84-107 | sorting then merging a consistent raw list yields no more segments than were read, and the first merged segment starts at the start of some raw segment and no later than any raw segment |
| Rttm.FormatTime | app.py:120 | `:.2f` gives a non-empty string without whitespace, so it stays one field; it reads as the time rounded to hundredths, starts with `-` exactly when that value is negative, and after the sign has digits with no leading zero (except a lone `0`), a point and two digits |
| Rttm.RoundHundredths | app.py:120 | rounding to hundredths lands within half a hundredth of the time |
| Rttm.RoundWhole | app.py:120 | for a time that is a whole number of hundredths, rounding gives exactly that number of hundredths |
| Rttm.FormatParses | app.py:120 | the digits printed for a number of hundredths read back, as a decimal numeral, as that number |
| Rttm.DecimalReaderReadsDecimals | app.py:72-73 | the assumption made about `float()` (it reads a numeral of the printed shape as its exact value) is satisfiable |
| Rttm.FormatTimeReadsBack | app.py:120 | a time that is a whole number of hundredths, written with `:.2f`, is read back by `float()` as itself |
| Rttm.RttmLines | app.py:118-121 | one line per segment, in list order |
| Rttm.WriteRttm | app.py:115-126 | the writing loop emits exactly those lines |
| Rttm.RttmLineFields | app.py:120 | for non-empty, whitespace-free ids, each emitted line has exactly 10 fields: `SPEAKER`, the file id, `1`, the two times, `<NA>`, `<NA>`, the speaker, `<NA>`, `<NA>` |
| Rttm.RttmLineReadsBack | app.py:120 | an emitted line passes the reader's filter and reads back as its segment, for times that are whole hundredths and a `float()` that reads decimal numerals exactly |
| Rttm.ReadBackWritten | app.py:115-121 | reading a written file gives the written segments back in order |
| Rttm.SaveThenLoad | app.py:64-126 | `parse_rttm(write_rttm(segs)) == segs` for a sorted, already-merged list of consistent segments of that file |
| BackendPaths.Basename | app.py:150 | `basename` has no `/`, is a suffix of the path, and is preceded by a `/` when shorter than the path |
| BackendPaths.Dirname | app.py:151 | `dirname` is a prefix of the path that ends before the basename; only `/` lies between the two; it is "" iff the path has no `/`; and it ends with `/` only when it is made of slashes, and then it is the whole head before the basename |
| BackendPaths.Join2 | app.py:155 | `os.path.join(a, b)` ends with `b`; an absolute `b` is the result; a relative `b` gives `a + "/" + b` exactly when `a` is non-empty and does not end with `/`, and `a + b` otherwise |
| BackendPaths.RemoveExtension | app.py:150 | removing `.rttm` never lengthens a string and never adds a `/` |
| BackendPaths.FileId | app.py:150 | the file id contains no `/` |
| BackendPaths.FileIdOfRttmFile | app.py:150 | the id of `dir/name.rttm` (or of `name.rttm`) is `name` when the name contains neither `/` nor `.rttm` |
| BackendPaths.FileIdRemovesInnerExtension | app.py:348 | every occurrence of `.rttm` is removed, not only the extension: for a and b holding neither `/` nor `.rttm`, the id of `dir/a.rttmb.rttm` is `ab` (so `data/my.rttmfile.rttm` has id `myfile`) |
| BackendPaths.JoinEmptyComponent | app.py:517-518 | joining an empty relative directory adds nothing that the next component would not add anyway |
| BackendPaths.SavedPathOf | app.py:154-157 | for a `LABELS_DIR` without a trailing `/`, a `rel_dir` that neither starts nor ends with `/` and a non-empty `/`-free `file_id`, the path is `LABELS_DIR/rel_dir/file_id/file_id.rttm`, or `LABELS_DIR/file_id/file_id.rttm` when `rel_dir` is empty; its last component is `file_id.rttm`, so its own file id is `file_id` when that id holds no `.rttm` |
| BackendPaths.SavedRttmPath | app.py:150-157 | for a relative RTTM path with a non-empty file id and a `LABELS_DIR` without a trailing `/`, the saved copy is `LABELS_DIR/dirname(rttm_file)/file_id/file_id.rttm`, with the directory part left out when the RTTM path has none; it is named `file_id.rttm` and has the original's file id, when that id holds no `.rttm` |
| BackendPaths.SaveOutputDir | app.py:515-520 | the directory `save_labels` writes to is named after the file id and has no trailing `/` |
| BackendPaths.SaveOutputPath | app.py:529 | the main saved file is `file_id.rttm` inside the output directory, as `os.path.split` sees it |
| BackendPaths.SaveThenFind | app.py:515-529 | given the derived file id, `save_labels` writes exactly the path that `check_saved_edits` and `load_rttm` look up |
| BackendPaths.SavedPathUnderLabels | app.py:150-157 | for a relative RTTM path, the saved path lies under `LABELS_DIR/` |
| BackendPaths.AbsoluteRttmPathEscapes | app.py:348-357 | for an absolute RTTM path, `LABELS_DIR` plays no part and the saved path lies under the RTTM file's own directory |
| BackendPaths.AudioUrlPath | app.py:389-390 | the last component of the audio URL path is `file_id.wav` |
| BackendPaths.AudioUrl | app.py:389-390 | the audio URL starts with `/audio/` |
| BackendPaths.AudioUrlSplits | app.py:389-390 | splitting the URL path gives the RTTM directory with forward slashes and the name `file_id.wav` |
| BackendPaths.Category | app.py:195-196 | a path with a `/` maps to its first component, which is `/`-free and followed by `/` in the path; a path without one maps to `root` |
| BackendPaths.CategoryList | app.py:310-319 | the category list is strictly ascending (sorted, no duplicates) and holds exactly the categories of the listed files |
| AddSegment.NewSegment | static/add-segment.js:129-161 | an accepted segment belongs to the current file, has the parsed non-negative start and positive duration, the trimmed non-empty speaker, and ends at start plus duration |
| AddSegment.NewSegmentChecks | static/add-segment.js:129-161 | each rejection happens iff its check is the first to fail, in the order: no file loaded, start NaN or negative, duration NaN or not positive, empty trimmed speaker; a segment is accepted iff all checks pass |
| AddSegment.PushThenSort | static/add-segment.js:169-172 | push followed by sort gives a sorted list one longer than before, a permutation of the old list plus the new segment |
| AddSegment.SegmentForm.OpenForm | static/add-segment.js:40-52 | with no file loaded nothing changes; otherwise the four fields are cleared and the dialog is shown |
| AddSegment.SegmentForm.OnStartInput | static/add-segment.js:58-64 | when start and duration both parse, end becomes their sum; otherwise end is unchanged; duration and speaker never change |
| AddSegment.SegmentForm.OnDurationInput | static/add-segment.js:67-73 | when start and duration both parse, end becomes their sum; otherwise end is unchanged |
| AddSegment.SegmentForm.OnEndInput | static/add-segment.js:76-82 | when end and start both parse, duration becomes end minus start; otherwise duration is unchanged |
| AddSegment.SegmentForm.SetFromPosition | static/add-segment.js:89-104 | without a player position nothing changes; otherwise start takes the position, and end becomes position plus duration when duration parses and is otherwise unchanged |
| AddSegment.SegmentForm.Save | static/add-segment.js:129-183 | the outcome is the one `NewSegment` decides from the file id and the fields; a rejection leaves the segment list and the dialog as they were; an acceptance makes the list one longer, sorted by start time, a permutation of the old list plus the new segment, and closes the dialog; the fields, file id and RTTM path never change |
| FolderConfig.ParentPath | static/folder-config.js:105-110 | the popped-and-joined path is the current path before its last `/`, or "" when the path has no `/` |
| FolderConfig.FirstComponent | static/folder-config.js:101-102 | the picked folder is the part of the relative path before its first `/`, or the whole path when it has none |
| FolderConfig.RebuiltPath | static/folder-config.js:101-110 | the rebuilt path's last component is the picked folder, and what precedes it is the current path's parent and a `/` |
| FolderConfig.RebuildFrom | static/folder-config.js:101-110 | the picker's loop-free body computes the rebuilt path `parent + "/" + folder` |
| FolderConfig.FolderForm.OnRttmFolderPicked | static/folder-config.js:98-118 | with no picked files nothing changes; otherwise only the RTTM folder changes, to the rebuilt path |
| FolderConfig.FolderForm.OnAudioFolderPicked | static/folder-config.js:121-141 | with no picked files nothing changes; otherwise only the audio folder changes, to the rebuilt path |
| FolderConfig.FolderForm.OnMessage | static/folder-config.js:73-90 | `folderSelected` with `rttm-browser` sets only the RTTM folder; with `audio-browser` it sets only the audio folder; any other message changes nothing |
| FolderConfig.FolderForm.Submit | static/folder-config.js:148-162 | submission is refused iff the trimmed RTTM folder is empty (checked first) or then the trimmed audio folder is empty; the request is sent iff both are non-empty, and it carries the trimmed values |
| FolderConfig.FolderForm.OnUpdateReply | static/folder-config.js:184-227 | an error reply or a failed request changes nothing. A success sets the category options and one file option per file with its category; if a file was loaded, it clears `segments` and nulls `currentFileId` and `currentRttmPath`; otherwise the session is untouched. The folder inputs never change |
| FolderConfig.OptionCategoriesListed | static/folder-config.js:205-206 | when the reply's categories are those of its files, every file option's category is among the category options |

## Left out

- I/O and HTTP are not modelled:
  - Flask routing, request parsing and JSON responses;
  - `os.walk`, `listdir`, `makedirs` and `exists`, and the existence checks
    that choose between saved and original RTTM files and between audio
    locations;
  - file reading and writing, `json.dump`, timestamps and backup file names,
    and logging.
  - `parse_rttm` works on the lines of the file, and `write_rttm` returns the
    lines it would write.
- `cleanup_temp_files` and `extract_audio_segment` are not modelled; they
  depend on the clock, the file system and audio libraries.
- Floating point is not modelled. Times are exact reals.
  - Parsing is an oracle, so the model assumes nothing about which strings
    `float()` accepts. JavaScript's `Infinity` is treated as a parse failure.
  - `:.2f` rounds halves up, whereas Python rounds the binary value, and the
    model never prints `-0.00`.
  - `toFixed(2)` is an oracle.
- Rttm.RttmLineReadsBack, Rttm.ReadBackWritten, Rttm.SaveThenLoad: these
  hold for times that are whole hundredths, and for a `float()` that reads a
  numeral of the shape `:.2f` prints (`ReadsDecimals`) as its exact value.
  Other times are rounded when written, so they do not read back exactly.
- `Trim` strips ASCII whitespace (space, tab, LF, CR, VT, FF). Unicode
  whitespace is not modelled, for Python `strip()`/`split()` or JavaScript
  `trim()`. Python also counts the separators `\x1c`–`\x1f` as whitespace,
  and JavaScript does not; one shared `IsSpace` cannot follow both, so both
  sides leave these four characters in place.
- `os.path` on Windows (`ntpath`, `os.sep == '\\'`) is not modelled. The
  category rule splits on `/`.
- The listing order of `rttm_files` is not modelled, and neither is the file
  list's own `sort()`.
- The host probe inside `isWindows` (navigator, window location) becomes the
  parameter `win`.
- The `if (!path)` guards of `PathUtils` for `null` and `undefined` are not
  modelled: paths are strings, and the empty string takes the same branch.
- The DOM is not modelled: modal visibility beyond one flag, button states,
  notifications, alerts and focus, and popup windows. Also left out are the
  browse buttons that open the folder dialog, `encodeURIComponent`, and the
  check that page elements exist.
- AddSegment.SegmentForm.Save: `displaySegments` is not modelled, and
  `window.segments` and `segments` are treated as one list.
- Asynchrony is not modelled. Fetch replies are handled one at a time, in
  arrival order.
- FolderConfig.FolderForm.OnUpdateReply:
  - an error reply whose message is the empty string is not modelled; it
    would fall through to the success path;
  - the fixed first options ("All Categories" and the placeholder file
    option) are not stored.
- static/directory-selection.js and static/folder-selection.js are not part
  of this model. Their path rules reuse `PathUtils` and the first-component
  rule.
