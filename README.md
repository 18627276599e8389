# System cleaner engine, modelled in Dafny

This project models the cleanup engine of a desktop system-cleaning utility
(`system_clean.py`). The engine is the `Worker` thread. It is started with a
list of task names and a mode: analysis or cleanup.

For each task in order, the worker:

- logs a "Running task" line;
- calls the handler for that task name;
- stores the handler's result under one of five fixed labels of `analysis_results`;
- emits a progress percentage.

After the loop it logs "Analysis finished." or "Cleanup process finished.". An
exception that escapes a handler ends the loop. It is logged once as "An
unexpected error occurred". The `task_finished` signal is emitted in every case,
and it is always the last signal.

The seven tasks are:

- temporary files;
- trash;
- caches;
- Windows Prefetch;
- defragmentation;
- large and old files;
- empty directories.

Each task has an analysis handler that measures bytes and a cleanup handler that
removes things. The exceptions are defragmentation and empty directories, which
have no analysis handler and only log a fixed line in analysis mode.

Besides the worker, the model covers:

- the unit index `convert_bytes` picks;
- the canonical order in which `get_selected_tasks` lists the ticked boxes;
- `start_cleanup`'s refusal to start with nothing ticked. `analyze_system` starts a worker even then.

How the model is built:

- **Filesystem.** It is an in-memory tree (`FileTree`). Each entry carries what `stat()` does to it:
  - it succeeds;
  - it raises PermissionError or FileNotFoundError, which the size loops catch;
  - it raises another OSError, which escapes.
  
  Each entry also records whether `os.remove`, `os.rmdir` or `os.listdir` succeeds on it.
- **Environment.** The platform, the environment variables, the home directory, the recycle bin's items, how external commands end and the current time are all parameters (`Platforms.Env`).
- **Signals.** The worker's three signals are one ordered stream of `Events.Signal` values.
- **Structure.** Each handler is a specification function in `Handlers`. A `Workers.Worker` method carries out the same loop item by item on the object's fields, and it is proved equal to that function. The run loop has the same two layers: `Engine.RunSpec` is the function and `Workers.Worker.Run` is the method.

## Model

| member | source | states |
|---|---|---|
| Workers.Worker.constructor | system_clean.py:194-199 | A new worker keeps its task list, mode, platform and environment, has emitted nothing and has an empty result dictionary |
| Workers.Worker.Run | system_clean.py:201-244 | The worker's new state is `RunSpec`: the tasks run in order until one raises, followed by exactly one closing line and then `task_finished` |
| Workers.Worker.RunTasks | system_clean.py:203-235 | The loop runs task positions 0..n-1 in order and stops right after the first task whose handler raised |
| Workers.Worker.RunTask | system_clean.py:204-234 | One iteration: the "Running task" line, the handler's effect on disk and log, then either the escaping exception, or the result stored under the task's label followed by the progress value `100*(i+1)/n` |
| Workers.Worker.Handle | system_clean.py:207-231 | The if-chain runs the analysis or the cleanup handler the task name and mode select; an unknown name does nothing |
| Engine.RunSignals | system_clean.py:201-244 | The signals a run adds: the loop's signals, then exactly one closing line, then one `task_finished` that appears nowhere earlier. The closing line is the "unexpected error" line exactly when a handler raised. The progress values are a prefix of `Percents(n)` and are all of it exactly when no handler raised, so an empty task list emits no progress yet still finishes |
| Engine.RunUpToStops | system_clean.py:241-242 | After the first exception that escapes, the remaining tasks change nothing |
| Engine.RunUpToProgress | system_clean.py:233-234 | The progress values emitted by the first k tasks are the percentages of the tasks that completed, in order, and all k of them unless a handler raised |
| Engine.RunUpToExtends | system_clean.py:204-235 | The loop only appends signals and never emits `task_finished` |
| Engine.PercentsShape | system_clean.py:233-234 | For n tasks the progress values stay within 0..100, never go down, and the last one is 100 |
| Engine.DispatchShape | system_clean.py:207-231 | Analysis handlers leave the disk unchanged. A labelled handler that returns gives a size in analysis mode and None in cleanup mode |
| Engine.RunUpToResults | system_clean.py:207-226 | The loop writes results only under the labels of tasks it ran. A value it writes is a size in analysis mode and None in cleanup mode |
| Engine.RunResults | system_clean.py:201-231 | A whole run adds or changes results only under the five labels of tasks in its list, each None in cleanup mode and a size in analysis mode, and an analysis run leaves the disk as it was. When no handler raised, every labelled task's entry is present: None in cleanup mode, and in analysis mode the result of that task's handler on the starting disk |
| Engine.RunUpToStores | system_clean.py:207-226 | When no handler raised, every labelled task among those run has an entry under its label. In analysis mode the entry is the size its handler measures on the disk the run started from; in cleanup mode it is None |
| Engine.AnalysisReport | system_clean.py:207-226 | After an analysis run in which no handler raised, each selected category's entry equals its analysis handler's result on the starting disk: the temp total, the trash total, the cache total, the Prefetch total and the large-and-old total |
| Engine.KeepsFiles | system_clean.py:204-235 | A loop whose handlers leave the disk unchanged leaves it unchanged as a whole |
| Platforms.TempRoots | system_clean.py:248-256 | The temp handlers visit at most two roots: TEMP and TMP on Windows, /tmp on Linux, /tmp and ~/Library/Caches on macOS |
| Platforms.CacheRoots | system_clean.py:294-301 | The cache handlers visit at most two roots: the Chrome and Firefox directories on Windows, ~/Library/Caches on macOS, ~/.cache on Linux |
| Workers.Worker.AnalyzeTempFiles | system_clean.py:247-269 | The result is the guarded size total over the platform's temp roots |
| Handlers.SumRoots | system_clean.py:258-269 | The nested loop over roots and walked files returns the root-by-root total; the first stat failure that escapes ends it |
| Handlers.SumRoot | system_clean.py:259-268 | A root that does not exist adds 0. Otherwise the root adds the guarded total of its walk |
| Handlers.SumOverRootsStops | system_clean.py:258-269 | Once a root's walk raises, the later roots are not visited and the handler raises that exception |
| Handlers.SumOverRootsIsTreeBytes | system_clean.py:258-269 | The temp and cache totals raise exactly when some existing root reaches a file whose stat raises an uncaught OSError. Otherwise they equal the bytes of the readable files below every existing root |
| Handlers.SameTempCountedTwice | system_clean.py:249-251 | On Windows, when TEMP and TMP name the same directory, its size is counted twice |
| Scan.SumFiles | system_clean.py:262-268 | The size loop raises at the first file whose stat raises an uncaught error. Otherwise it returns the sum of the sizes of the files that pass the filter, and files whose stat raises PermissionError or FileNotFoundError add 0 |
| Scan.GuardedSumAppend | system_clean.py:262-268 | Sizing two runs of files one after the other is the same as sizing the first and then, unless it raised, adding the second |
| Scan.WalkSumIsTreeBytes | system_clean.py:262-268 | A guarded walk of a tree raises exactly when the tree holds a faulty file, and otherwise sums the readable files below it |
| Scan.FirstFaultyIs | system_clean.py:265-268 | The first file whose stat raises an uncaught error is characterised by its position: every earlier file is readable or caught |
| Workers.Worker.TrashItems | system_clean.py:274-288 | The items sized are the recycle bin's on Windows, the files of a walk of the trash directory on Linux and macOS, and none on other platforms or when the directory does not exist |
| Workers.Worker.AnalyzeTrash | system_clean.py:271-291 | The result and the lines logged are those of `TrashSize` |
| Scan.TrashSum | system_clean.py:275-288 | The unguarded trash loop returns the sum of the sizes before the first item whose size lookup fails, and that item's failure |
| Scan.FirstUnreadable | system_clean.py:275-288 | The first item whose size lookup fails comes after only items whose lookups succeed |
| Scan.TrashTotalBounded | system_clean.py:271-291 | The partial trash total never exceeds the guarded total of the same items, and equals it when every lookup succeeds |
| Handlers.TrashSizeBounded | system_clean.py:271-291 | Trash analysis never raises. It logs an error line exactly when some lookup fails, and its total is at most the guarded total, and equal to it when no lookup fails |
| Workers.Worker.AnalyzeCaches | system_clean.py:293-314 | The result is the guarded size total over the platform's cache roots |
| Workers.Worker.AnalyzePrefetch | system_clean.py:316-331 | Prefetch analysis returns 0 off Windows or when the directory is missing. A failed listing escapes. Otherwise the result is the guarded total of the `.pf` entries only |
| Scan.PfFiles | system_clean.py:325-326 | The prefetch items sized are entries directly inside the directory whose names end in `.pf` |
| Scan.PfFilesComplete | system_clean.py:325-328 | Every `.pf` entry of the listing is among the items sized, under its own path |
| Scan.PfSum | system_clean.py:325-330 | The size loop over the `.pf` entries raises exactly when one of them has a stat that raises an uncaught error. Otherwise it returns the bytes of the readable `.pf` entries |
| Handlers.PrefetchSizeCounts | system_clean.py:316-331 | Prefetch analysis returns 0 off Windows or without the directory, and raises the listing's failure when the directory cannot be listed. Otherwise it raises exactly when some `.pf` entry is faulty, and when none is it returns the bytes of every readable `.pf` entry |
| Workers.Worker.AnalyzeLargeOldFiles | system_clean.py:333-351 | The result is the guarded total of the files under home that are strictly over 100 MiB and modified strictly before now minus 30 days |
| Scan.MatchesAgreeWithTotal | system_clean.py:339-348 | Every file reported as large and old is in the walk, readable and matches both strict thresholds, and the sizes of the reported files add up to the analysis total |
| Handlers.LargeOldReportAgrees | system_clean.py:467-492 | The finder deletes nothing and raises exactly when the analysis does. Otherwise it logs the scanning line, one "Found:" line per file the analysis counts, and exactly one summary line after them. The summary gives the count when it is positive and says none were found otherwise |
| Workers.Worker.ReportLargeOld | system_clean.py:475-487 | The finder's loop logs one "Found:" line per match before the first uncaught stat failure and returns how many it logged, plus that failure |
| Workers.Worker.FindLargeOldFiles | system_clean.py:467-492 | The lines logged and the outcome are those of `LargeOldReport` |
| Workers.Worker.SweepItem | system_clean.py:371-381 | One item of a removal loop: temp rmtree's a directory and always counts it, and counts a file only when os.remove succeeds. Prefetch touches `.pf` entries only. A failed remove logs one line and keeps the entry |
| Workers.Worker.SweepDir | system_clean.py:370-381 | The loop over a snapshot of the listing counts and logs exactly as the items do one by one, and leaves the directory listing the survivors |
| Cleanup.TempSweepCounts | system_clean.py:370-381 | The temp count is the number of directories plus unlinkable files. Every other item logs exactly one "Permission error deleting" line naming it, so count plus lines equals the number of items |
| Cleanup.RmTreeRemovesAll | system_clean.py:374 | rmtree with ignore_errors leaves nothing of a tree whose every entry can be removed |
| Workers.Worker.CleanTempRoot | system_clean.py:366-381 | A temp root that does not exist is skipped. A root whose listing fails raises. Otherwise the root gets the removal loop over its listing |
| Workers.Worker.CleanTempFiles | system_clean.py:354-382 | The disk, lines and outcome are those of `TempCleanup` |
| Handlers.RootsFoldStops | system_clean.py:366-370 | When a root's listing raises, the later roots are not visited |
| Handlers.TempFoldLines | system_clean.py:378-379 | Temp cleanup logs only "Permission error deleting" lines, each for an entry directly inside one of its roots |
| Handlers.TempRootCounts | system_clean.py:366-381 | One temp root: a missing root adds nothing, and an unlistable one raises. Otherwise its count is the number of directories and unlinkable files in its listing, and count plus lines equals the number of items |
| Handlers.TempCleanupOneRoot | system_clean.py:354-382 | With a single temp directory (Linux), a missing directory gives `Cleaned 0`. An unlistable one raises. Otherwise the closing line reports the number of directories and unlinkable files in the listing, after one line for each other item |
| Workers.Worker.EmptyTrash | system_clean.py:384-400 | The new filesystem is `TrashEmptied` of the old one, and the lines logged are those of `TrashEmptying` |
| Handlers.TrashEmptiedClears | system_clean.py:389-398 | After a successful empty on Linux or macOS, the trash directory (if it was one) is still there with no entries, so a trash walk of the new filesystem finds nothing |
| Handlers.TrashEmptyingReports | system_clean.py:384-400 | On the three supported platforms, emptying the trash logs exactly one line and on others none. That line is the error line exactly when the command failed, except that a missing trash-empty on Linux gets its own line |
| Workers.Worker.CleanCacheDir | system_clean.py:418-425 | The cache loop stops at the first failed os.remove. It reports success exactly when no item failed, and the directory keeps what rmtree could not remove plus the untouched rest |
| Cleanup.CacheCountedIffAllItemsHandled | system_clean.py:418-425 | A cache directory is reported cleaned iff every item in it is a directory or a file that can be unlinked |
| Cleanup.CacheFailureKeepsRest | system_clean.py:418-427 | After the first failing item, every later item stays in the listing untouched |
| Workers.Worker.CleanCacheRoot | system_clean.py:413-427 | A cache root that does not exist is skipped. Otherwise the root logs one "Cleaned cache" or "Error cleaning cache" line and counts 1 only for the first. It never raises |
| Workers.Worker.CleanCaches | system_clean.py:402-428 | The disk, lines and outcome are those of `CacheCleanup` |
| Handlers.CacheFoldAccounting | system_clean.py:412-428 | Cache cleanup never raises. Each of its lines concerns one of its roots. Its count is the number of "Cleaned cache" lines, which is at most the number of lines, which is at most the number of roots |
| Handlers.CacheRootCounts | system_clean.py:413-427 | One cache root: a missing root adds nothing. An existing root logs exactly one line and counts 1 iff it can be listed and holds only directories and unlinkable files; it counts 0 iff its line is the error line |
| Handlers.CacheCleanupOneRoot | system_clean.py:402-428 | With a single cache directory (Linux, macOS), the closing line reports 1 iff the directory exists, can be listed and holds only directories and unlinkable files, and 0 otherwise. It logs one line for the root if it exists, then the closing line |
| Workers.Worker.CleanPrefetch | system_clean.py:430-452 | The disk and lines are those of `PrefetchCleanup`: a skip line off Windows, a not-found line, an access-error line for a failed listing, or the removal loop over `.pf` entries and its count |
| Cleanup.PrefetchSweepCounts | system_clean.py:442-450 | The Prefetch loop removes exactly the unlinkable `.pf` files. Every other `.pf` file logs one line, and the count is the number removed |
| Handlers.PrefetchCleanupRemovesPf | system_clean.py:440-450 | After Prefetch cleanup the directory lists what it listed before minus exactly the unlinkable `.pf` files, and the last line reports their number |
| Workers.Worker.DefragmentDisk | system_clean.py:454-465 | Off Windows one skip line. On Windows the start line, then the finished line or the error line with the administrator hint |
| Workers.Worker.RemoveEmptyDirs | system_clean.py:494-508 | The disk and lines are those of `EmptyDirRemoval` over a bottom-up walk of home |
| Handlers.EmptyDirRemovalCounts | system_clean.py:494-508 | The count reported is the number of readable directories below home (home included) whose listing was empty and whose os.rmdir succeeds. There is one line per directory listed empty, plus the opening and closing lines |
| Cleanup.PruneCountsEmptyDirs | system_clean.py:499-506 | A bottom-up walk removes the directories that were listed empty and removable, and logs one line for every directory listed empty |
| Cleanup.RootRemovedIffListedEmpty | system_clean.py:499-504 | The start directory is removed iff it was readable, listed empty and removable. A directory emptied during the walk is not re-checked |
| Cleanup.PrunedPathsFrom | system_clean.py:500-504 | Every directory removed is one the walk yielded with an empty listing and a removable flag |
| App.UnitIndex | system_clean.py:22-30 | The unit chosen is the largest of B..YB not exceeding the count, bytes for counts under 1024, and capped at YB, with the divisions done exactly |
| App.UnitIndexUnique | system_clean.py:22-30 | Exactly one unit index satisfies that characterisation |
| App.SelectedTasks | system_clean.py:623-639 | The task list is `Chosen(s, 7)`, the ticked boxes in canonical order |
| App.SelectionCanonical | system_clean.py:623-639 | The selected list holds every ticked task and nothing else, with no duplicates, in canonical order, at most seven of them, and is empty exactly when no box is ticked |
| App.Launch | system_clean.py:687-692 | A worker is started unless this is a cleanup with no box ticked. Analysis starts one even with an empty selection, and the task list handed over is the canonical selection |

## Left out

- The Qt window, its widgets, style sheet, message boxes and timestamps on log lines are not modelled; only the task ordering and the empty-selection guard are.
- `on_analysis_finished`'s report (summing `analysis_results` and formatting each size) is not modelled beyond the unit index of `convert_bytes`.
- App.UnitIndex: divides exactly, where convert_bytes divides floats, and does not model the two-decimal formatting of the value. The two agree below 2^53 bytes, where every division by 1024 is exact in floating point. Above that, the float can round up past the next power of 1024 and pick the larger unit. For example, 2^60 − 1 bytes gives EB (index 6) in the source and PB (index 5) here; 2^70 − 1 and 2^80 − 1 behave the same way.
- Threads, `QThread` scheduling and `time.sleep(0.5)` are left out; the worker is modelled as one sequential run.
- Engine.Percent: models `int((i + 1) / total_tasks * 100)` as the exact integer `100 * (i + 1) / n`. The two agree for every n up to 49; from n = 50 the float product can round down one below the exact value (first at n = 50, after the 29th task: 57 against 58).
- Workers.Worker.RunTask: the "Running task" line keeps the raw task name; the underscore replacement and title-casing of the display text are not modelled.
- External commands (winshell's recycle-bin emptying, `trash-empty`, `osascript`, `defrag`) and the recycle-bin enumeration are parameters of the environment: how each command ends, and the items the bin lists.
- Workers.Worker.EmptyTrash: a successful command is modelled as clearing the trash's files and info directories on Linux and ~/.Trash on macOS. It does not model trash directories on other volumes, or a failing command that removes part of the trash before it fails; that command changes nothing in the model. The Windows recycle bin is not part of the tree, so emptying it changes nothing there.
- Dates: a file's mtime and the current time are integer seconds; `datetime.fromtimestamp`, time zones and the `.2f` / `date()` formatting of "Found:" lines are left out.
- Symbolic links, mount points and hard links are not modelled; the tree has no sharing, and a path resolves to at most one entry.
- Workers.Worker.SweepItem: `shutil.rmtree(ignore_errors=True)` is modelled as removing every file it can unlink and every directory it can empty and remove, in one step; the order of its internal calls is not modelled.
- The generic `except Exception` branch of clean_temp_files ("Error deleting") is not modelled: `os.remove` only raises OSError, which the first branch catches.
- Walks are taken as snapshots: the model's os.walk sees the tree as it is when the handler starts, and a bottom-up walk lists each directory before its subdirectories are visited (so a directory emptied by the walk is not re-checked).
- Workers.Worker.SweepDir: the directory's new listing is written once, after the loop; the intermediate trees during the loop are not exposed.
- Concurrent changes to the filesystem by other processes during a walk are not modelled.

## Code over description

Where the written description of the program and its code differ, the model follows the code:

- An exception that escapes a handler is caught by the `try` around the whole loop of `run`, so it ends the remaining tasks as well, not only the current one.
- `remove_empty_dirs` removes a directory only if its own listing was empty when the walk scanned it; a parent emptied by the removal of its children is not removed in the same pass.
- In cleanup mode the cleanup handlers return None, and that None is stored under the task's label in `analysis_results`.
