# bview, modelled in Dafny

bview walks a directory tree. In every directory it visits it keeps a hidden
`.bview/` folder, which holds two things:

- `data.json`, a snapshot `{dirs, files}` of what the directory held last time;
- `thumbs/`, a cache of thumbnails made by `qlmanage`.

An HTML listing, `bview.html`, is rewritten only when the directory has
changed since its snapshot. This project models the code that makes those
decisions and proves what it does. The modelled code is:

- the skip lists;
- the scan of a directory in sorted order;
- the thumbnail cache decision of `process_file`;
- the change detector of `process_metadata` (`_dir_changes`, `_file_changes`);
- the snapshot store (`read_metadata`, `write_metadata`);
- the rows `write_index` writes;
- the recursive walk of `process_dir` and `process_dir_work`, including the
  pruning of a directory whose only entry is `.bview`.

Modules, in dependency order:

- `Names`: Python's code-point order on `str`; `sorted` as an insertion sort,
  proved to sort and to permute; and paths built by joining a directory and a
  name with `/`, with what lies inside what.
- `Records`: the values the code passes around.
  - `FileRecord` is the per-file dict. An optional key is an `Option` field.
  - `Snapshot` is the stored document.
  - `Json` is the JSON value model, with Python subscripting and truthiness.
  - A Python exception is an `Err` value.
- `Changes`: `_dir_changes`, `_file_changes` and the overall verdict, as pure
  functions with quantified postconditions.
- `Thumbnails`: the decision of `process_file` on one record. `qlmanage` is an
  oracle: after a call the `.png` either exists with some mtime or does not.
- `Index`: a listing as an ordered list of rows.
- `Walker`: class `BView`.
  - The user's tree is fixed: its directories, their entries, and the mtimes
    of its files.
  - The fields the walker changes are what bview owns: the `.bview/` folders
    (`admin`) and the `bview.html` files (`indexes`).
  - A ghost log (`trace`) records the order of the steps taken.
  - `process_file`, the loop over the files, `process_metadata` and
    `write_index` are methods. Each is proved against a specification
    function and states its whole new state.
  - `process_dir` and `process_dir_work` are recursive methods. Each is
    proved equal to a reference walk written as ghost functions over the maps:
    - `Walk` is `process_dir` on one directory;
    - `WorkSpec` is `process_dir_work`;
    - `WalkWork` is the part after the scan;
    - `WalkSubdirs` is the loop over the subdirectories, each walked by `Walk`;
    - `FinishSpec` is the directory's own steps after that loop.

    These functions recurse through the whole tree. So the top call's
    contract fixes the status and every `.bview/` folder and index the run
    leaves, in every directory beneath the top. Beside that equation,
    predicates over the maps and the log say what the walk means:
    - `SubdirVisits` says each sorted subdirectory is processed in turn as a
      non-top directory, and the loop stops at the first one that raises.
    - `Completes` says what a directory holds after its processing finishes.
    - `Stops` says what it holds when an exception escapes, and where the
      exception came from.
    - `Confined` is the frame: nothing outside the directory changes.
  - `process_dir_work` is split into several methods so that each proof
    stays small. They keep the Python function's steps in their order.

## Model

| member | source | states |
|---|---|---|
| `Walker.MissingCommaInSkipList` | bview/bview.py:19-23 | the missing comma joins two literals: `.TemporaryItems` and `.ssh` are not skipped, `.TemporaryItems.ssh` is; `.bview` is a skipped directory and `bview.html` a skipped file |
| `Names.SortSorts` | bview/bview.py:297 | the model of `sorted` returns a list in Python's string order |
| `Names.SortPermutes` | bview/bview.py:297 | the model of `sorted` returns the same names with the same multiplicities |
| `Names.SortKeepsDistinct` | bview/bview.py:297 | sorting a list without repeats gives a list without repeats |
| `Names.SortOfSorted` | bview/bview.py:325 | `sorted` of an already sorted list is that list, so re-sorting the sorted `subdirs` changes nothing |
| `Names.JoinKeepsOrder` | bview/bview.py:298 | paths `d/a` and `d/b` compare exactly as the names `a` and `b` do |
| `Walker.BView.Scan` | bview/bview.py:297-316 | the scan loop builds exactly the listing its specification gives for `sorted(os.listdir(d))`: paths of kept directories appended in order, kept files added with their name, path and mtime |
| `Walker.BView.ScanClassifies` | bview/bview.py:297-316 | a path is in `subdirs` iff its entry is a directory not in `dirs_to_skip`; a name is in `files` iff it is not a directory, not in `files_to_skip` and exists; every kept file starts as `{filename, abs_filename, stat_mtime}`; the key order lists exactly the dict's keys |
| `Walker.BView.ScanClassifiesFiles` | bview/bview.py:298-316 | the file half of `ScanClassifies`: which names become files, with what record, and the key order |
| `Walker.BView.ScanClassifiesDirs` | bview/bview.py:297-306 | the directory half of `ScanClassifies`: which paths become subdirectories, each the join of `d` and a listed name |
| `Walker.BView.ScanKeepsOrder` | bview/bview.py:297-316 | scanning sorted names without repeats yields `subdirs` and file names sorted and without repeats |
| `Walker.BView.ScanOfListing` | bview/bview.py:297-316 | on a real listing the scan's lists are already sorted and repeat-free, each subdirectory is a user directory strictly inside `d`, and each file is keyed by its own name |
| `Walker.BView.ListDirDistinct` | bview/bview.py:297 | a listing never repeats a name |
| `Records.ReadMetadata` | bview/bview.py:74-82 | a stored document is returned as is; a missing or unparsable file gives `{dirs: [], files: {}}` and never raises |
| `Walker.BView.WriteMetadata` | bview/bview.py:65-72 | `data.json` of `d` is replaced by exactly `{dirs: subdirs, files: files}`, and nothing else changes |
| `Changes.SomeMissing` | bview/bview.py:165-168 | the early-return loop is true iff some element of the first list is missing from the second |
| `Changes.DirChanges` | bview/bview.py:150-179 | differing lengths mean changed; both empty means unchanged; otherwise changed iff some current path is not stored or some stored path is not current |
| `Changes.DirChangesIsSetDifference` | bview/bview.py:150-179 | for lists without repeats, `_dir_changes` is true iff the stored and current paths differ as sets |
| `Changes.SameSizeDifferentDirs` | bview/bview.py:150-179 | stored `{A, B}` against current `{B, C}` counts as changed |
| `Changes.FileScan` | bview/bview.py:196-215 | the outer loop in key order reports a change iff some current name is new or has a `thumb_exists` key with a thumbnail mtime above the stored source mtime, or the list is non-empty and some stored name is no longer current |
| `Changes.FileChanges` | bview/bview.py:183-219 | differing sizes mean changed; both empty means unchanged; otherwise changed iff some current file is new or freshly thumbnailed, or some stored file is gone |
| `Changes.FileChangesIsNameDifference` | bview/bview.py:183-219 | without a freshly stamped thumbnail, `_file_changes` is true iff the stored and current file names differ |
| `Changes.Changed` | bview/bview.py:223-226 | a stored snapshot with no files and no dirs means changed, whatever the directory holds now |
| `Changes.UnchangedExactly` | bview/bview.py:223-226 | a directory counts as unchanged iff its snapshot is not the empty document, its paths and file names are the stored ones, and no current thumbnail is newer than the stored source mtime |
| `Changes.UnreadableSnapshotIsChanged` | bview/bview.py:74-82 | a missing or unreadable `data.json` always makes its directory count as changed |
| `Walker.BView.ProcessMetadata` | bview/bview.py:148-232 | returns the verdict of the change detector; the snapshot is replaced by `{dirs: subdirs, files: files}` exactly when it says changed, and is otherwise left alone |
| `Thumbnails.ProcessFileDecision` | bview/bview.py:236-287 | `thumbname` is always set; a thumbnail at least as new as the source is kept without a `qlmanage` call and stamped with its mtime; an older one is regenerated; a missing one is regenerated exactly when the lookup in `metadata` asks for it, and an exception in that lookup propagates; without a call a missing thumbnail adds no `thumb_*` key; after a call `thumb_generated` is set and `thumb_exists`/`thumb_stat_mtime` say what is on disk (True and its mtime, or False and 0), whatever `qlmanage` returned |
| `Thumbnails.RecordJsonKeys` | bview/bview.py:275-285 | a record as written to `data.json` has `thumb_generated` iff it was set, then True, and `thumb_exists` iff the pair was set, with its value |
| `Thumbnails.RetryLookupOnWholeDocument` | bview/bview.py:258-262 | with the whole `{dirs, files}` document as `metadata` (line 336), the lookup raises TypeError for a file named `dirs`, and for one named `files` it subscripts the stored files dict by `thumb_generated` and `thumb_exists` (raising KeyError for whichever is missing); for every other name it does not ask for a retry |
| `Thumbnails.MissingThumbnailNotGenerated` | bview/bview.py:253-262 | as called from the walker, a file with no cached thumbnail that is not named `dirs` or `files` is never sent to `qlmanage` and only gains its `thumbname` |
| `Thumbnails.RetryLookupOnStoredFiles` | bview/bview.py:254-262 | on the stored files dict that the comment describes, a missing thumbnail asks for a retry iff its stored record has both `thumb_generated` and `thumb_exists` True; a stored record without `thumb_generated` raises KeyError |
| `Thumbnails.NoRetryAfterFailedGeneration` | bview/bview.py:254-262 | on the stored files dict, a file whose last `qlmanage` call made no thumbnail is not resubmitted |
| `Walker.BView.ProcessFile` | bview/bview.py:236-287 | the returned record (or exception) is the decision on the cached thumbnail's mtime and the oracle's artifact; the filesystem changes only at this file's `.png`, and only when `qlmanage` ran and produced one |
| `Walker.BView.RunFiles` | bview/bview.py:335-336 | the loop over the files keeps the dict's keys and stops after at most one step per file; it processes every file when no exception escapes |
| `Walker.BView.ProcessFiles` | bview/bview.py:335-336 | the loop `files[f] = process_file(...)` in order ends with the records, the thumbnails and the exception of `RunFiles`, and changes nothing else |
| `Walker.BView.RunFilesOutcome` | bview/bview.py:335-336 | with distinct names, the files done hold their `process_file` record computed on the thumbnails from before the loop, the files not reached are as scanned with their thumbnails untouched, and the loop stops exactly at a file whose `process_file` raises |
| `Walker.BView.RunFilesOnListing` | bview/bview.py:335-336 | over a whole listing the loop completes iff no file's `process_file` raises, with each file then holding its own record; otherwise the exception is that of the first file in order that raises |
| `Walker.BView.RunFilesStops` | bview/bview.py:335-336 | once a file has raised, the remaining files do not change the outcome |
| `Index.FolderRows` | bview/bview.py:129-132 | one folder row per subdirectory, in order, linking to its own `bview.html` |
| `Index.FileRows` | bview/bview.py:134-138 | one file row per name, in the dict's key order, linking to the file's `abs_filename` |
| `Index.BodyLayout` | bview/bview.py:129-138 | the folder rows then the file rows: their count, each subdirectory's row in place, each file's type, text and link, and a thumbnail shown iff its path is non-empty and exists on disk |
| `Index.IndexLayout` | bview/bview.py:86-144 | an index starts with the parent row exactly when a parent link is asked for, followed by the subdirectory and file rows laid out as above |
| `Walker.BView.WriteIndex` | bview/bview.py:86-144 | `bview.html` of `d` is replaced by the rows for its subdirectories and files, with the thumbnails that exist when it is written, and nothing else changes |
| `Walker.BView.ProcessDir` | bview/bview.py:347-364 | the status, the `.bview/` folders and the indexes afterwards are exactly those of the reference walk `Walk` from the state before, which recurses into every directory beneath `d`. Also: an empty directory is left alone; one whose only entry is `.bview` loses that folder and nothing else changes; any other is processed by `process_dir_work` from its stored `.bview/` folder (or a new one), with the outcome `Completes` or `Stops` describes. In every case nothing outside the directory is touched, the log reports where an exception escaped, and only the top directory's own index lacks a parent link |
| `Walker.BView.ProcessDirWork` | bview/bview.py:291-345 | the end state is that of `WorkSpec`: the scan, then `.bview/` made if missing, then `WalkWork`. When it completes, every sorted subdirectory was walked in order and none raised. Then `thumbs/` is made iff there is a file, every file holds its `process_file` record, and the snapshot and the index are rewritten exactly when the directory changed, the index with a parent row iff it is not the top directory. When an exception escapes, the directory's snapshot and index are unchanged, and the exception is the first raising subdirectory's, or else the first raising file's |
| `Walker.BView.WorkOnListing` | bview/bview.py:322-345 | the end state is that of `WalkWork`, from the point where the scan is done and `.bview/` exists: the snapshot read before the subdirectories, then `WalkSubdirs` over the sorted subdirectories, stopping on the first exception, then `FinishSpec`. The subdirectories come before any of the directory's own steps |
| `Walker.BView.WalkSubdirsStops` | bview/bview.py:324-326 | once a subdirectory has raised, the loop's outcome is fixed: the subdirectories after it are not walked |
| `Walker.BView.SubdirsRaised` | bview/bview.py:324-326 | when a subdirectory raises, the directory's files, snapshot and index are never reached, and the exception escapes unchanged |
| `Walker.BView.DirFinished` | bview/bview.py:328-345 | when the subdirectories and then every file complete, the directory's processing completes with the outcome `Completes` describes, and the end state is `FinishSpec`'s on the snapshot read before the subdirectories |
| `Walker.BView.DirFailed` | bview/bview.py:335-336 | when a file raises, the snapshot and index stay as they were, that file's exception is the directory's, and the end state is `FinishSpec`'s |
| `Walker.BView.FinishDir` | bview/bview.py:328-345 | after the subdirectories: an exception from a file leaves the snapshot and the index as they were; otherwise the snapshot and the index are rewritten exactly when the change detector says so, on the processed records |
| `Walker.BView.ProcessDirFiles` | bview/bview.py:328-336 | `thumbs/` is made iff there is a file, then the files are processed in sorted order |
| `Walker.BView.RecordDir` | bview/bview.py:338-345 | the change decision on the processed records, then the snapshot and the index exactly when it says changed |
| `Walker.BView.ProcessSubdirs` | bview/bview.py:324-326 | the end state is that of `WalkSubdirs`: the sorted subdirectories are walked in order by `Walk` with `topdir` false, each from the state the previous one left, until the first that raises, whose exception is the result. Each logs one segment: empty for an empty subdirectory, just the prune for one holding only `.bview`, and beginning with the subdirectory otherwise. The loop touches nothing outside `d`, leaves `d`'s own `.bview/` and index alone, and every index it rewrites starts with the parent row |
| `Walker.BView.VisitSubdir` | bview/bview.py:325-326 | one turn of the loop: `process_dir(c)` with `topdir` false ends in the state `Walk` gives for `c`. It touches only `c`, logs one segment matching `c`'s listing, removes `c`'s `.bview/` when that was its only entry, and writes only indexes with a parent row |
| `Walker.BView.LoopStep` | bview/bview.py:325-326 | one more subdirectory visited keeps what the loop has established: siblings processed earlier are untouched, since no entry of `d` lies inside another |
| `Walker.BView.ScannedSubdirsAreBeneath` | bview/bview.py:298-306 | every subdirectory the scan keeps is a user directory and an entry of `d` |
| `Walker.BView.ListDirNames` | bview/bview.py:297 | no name `os.listdir` returns holds a `/` |
| `Names.SiblingsApart` | bview/bview.py:298 | two different entries of one directory are apart: neither lies within the other, so processing one leaves the other alone |
| `Names.JoinIsChild` | bview/bview.py:298 | joining a directory and a name without `/` gives an entry of that directory |

## Left out

- Command-line parsing, the directory check and `exit(1)` (lines 27-49, 370-371) are process plumbing. The walk starts from a call of `ProcessDir` with `topdir` true.
- The `verbose`/`debug` printing and the global `args` are output only. Not redirecting `qlmanage`'s output to `/dev/null` in debug mode has no effect on state.
- The HTML text of `write_index`: the model keeps the ordered rows (type, text, link, image) and not the markup.
- JSON encoding and decoding: `data.json` is a `Stored` value, which is absent, unreadable or a snapshot. A file that parses but lacks `dirs` or `files` is not modelled. The JSON view that `process_file` subscripts is derived from the snapshot.
- The `qlmanage` process is replaced by a fixed oracle from source path to the mtime of the `.png` it writes. Its exit status is never looked at, by either the code or the model.
- `os.path.realpath`, symbolic links and concurrent changes to the tree are not modelled. The user's tree is a fixed map, and only what bview owns changes during a run.
- Float mtimes are integers; they are only ever compared.
- The `contents` parameter of `process_dir_work` is unused by the code and absent from the model.
- `process_file` mutates the caller's dict in place. The model returns the new record, which the loop stores back at the same key. No other reference to that dict exists.
- The per-file steps are not logged. Only an exception from a file is logged, as `Failed`. The order and effects of the file steps are captured by `RunFiles`, the specification of the file loop.
- Failures of the filesystem calls are not modelled. `os.listdir` (lines 297, 351), `os.makedirs` (lines 320, 333), opening `data.json` or `bview.html` for writing (lines 71, 143) and `shutil.rmtree` (line 358) always succeed in the model. In the code, an `OSError` from any of them would escape and end the walk, like the exceptions that are modelled.

## Behaviour of the code worth knowing

Each of these follows from the code as written, and the model follows the code.

- **The retry lookup.** The comment at lines 254-257 describes looking up the stored files dict. But line 336 passes the whole `{dirs, files}` document as `metadata`.
  - The "tried last time" branch therefore fires only for a file literally named `files`.
  - A file named `dirs` with no cached thumbnail raises a TypeError and stops the walk (`RetryLookupOnWholeDocument`).
  - Even on the stored files dict, a stored record without `thumb_generated` would raise a KeyError (`RetryLookupOnStoredFiles`).
- **New files are never thumbnailed.** A file whose thumbnail does not exist yet is not sent to `qlmanage` unless it is named `files` (`MissingThumbnailNotGenerated`). Only an existing thumbnail that is older than its source is regenerated.
- **The first-run rule fires every time for an empty directory snapshot.** The test at lines 223-224 is meant to catch a first run, but it only looks at whether the stored snapshot is empty. So a directory whose snapshot has no files and no subdirectories counts as changed on every run (`Changes.Changed`). The same holds for a missing or unreadable snapshot (`UnreadableSnapshotIsChanged`).
- **Pruning rarely applies.** The message at line 357 says the directory "is now empty", but once a directory has been indexed, its listing also contains `bview.html`, which the scan skips but `os.listdir` still returns. The "only `.bview` left" case therefore fires only for a directory without an index, for example one whose processing stopped on an exception (`ProcessDir`).
- **The skip list.** The missing comma at line 19 makes `.TemporaryItems` and `.ssh` ordinary directories, and skips `.TemporaryItems.ssh` instead (`MissingCommaInSkipList`).
