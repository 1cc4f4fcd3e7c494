# Screenshot cleaner, modelled in Dafny

The program looks for macOS screenshots (`Screenshot*.png`) in `~/Desktop`,
`~/Downloads` and `~/Pictures`. It prints how many it found, their total size
and their suffixes. Then it performs one action chosen from a menu:

- move every file into `~/Pictures/Screenshots/YYYY-MM`, by the month of its
  `st_ctime`;
- delete them all, after a confirmation;
- list them with their sizes;
- cancel.

This project models that logic over an abstract file store. It proves the
properties of each part:

- `Sizes` (sizes.dfy) models `human_size`. The loop walks the unit ladder
  B, KB, MB, GB and divides by 1024 while the magnitude is at least 1024. The
  magnitude is an exact `real`. The `%.2f` rendering is modelled as rounding
  that exact value to hundredths, ties to even.
- `Paths` (paths.dfy) holds paths, file entries (size and `st_ctime` month),
  pathlib's `suffix`, and the `YYYY-MM` folder name with its parser.
- `Discovery` (discovery.dfy) models `find_screenshots`. The glob is a
  prefix/suffix predicate on the name. The three locations are walked in
  order, and a missing location is skipped.
- `Stats` (stats.dfy) models `get_size_ext`: a sum of sizes and a set of
  suffixes, read from the store.
- `Batch` (batch.dfy) is the file store `Disk`. It also holds the modelled
  `mkdir`, `move` and `unlink` calls, whose failures come from a failure
  oracle. The move, delete and list loops are functions of the store they
  start from, and the lemmas about them are here.
- `Organizer` (organizer.dfy) models `organize_screenshots`. `FileStore` is a
  class whose `files` map and `dirs` set the methods update in place. Its
  loops are proved equal to the `Batch` functions. `Organize` does the
  dispatch on the menu string and the delete confirmation.

Three behaviours of the code that are easy to misread:

- The delete confirmation is `answer.lower() == "yes"`, and the answer is not
  trimmed. So `"YES"` confirms and `" yes"` does not.
- Only the `move` and `unlink` calls are inside `try`. Reading a file's
  `st_ctime` and creating its month folder are outside it. A failure of
  either ends the whole move batch at that file, and the error goes to the
  top level (`MoveAbortsAt`). A failed `move` or `unlink` is only reported.
- Menu input `"4"` is not treated differently from any other
  unrecognised line: each of them cancels.

A successful move replaces whatever is already at the destination path, as
`rename` does on macOS. Two screenshots with the same name and the same
`st_ctime` month, from two locations, therefore end in one file.
`MoveLoopArrives` states the arrival property only for destinations that are
all distinct.

## Model

| member | source | states |
|---|---|---|
| `Sizes.HumanSize` | main.py:28-34 | below 1024 bytes the text is the size itself with " B"; for 1024^k <= size < 1024^(k+1), k = 1..3, it is size/1024^k with the k-th unit; from 1024^4 bytes on, a fourth division still happens and the unit stays "GB" |
| `Sizes.UnitIndexUnique` | main.py:30-33 | the bracket 1024^i <= size < 1024^(i+1) where the unit loop stops is the only bracket the size falls in, so the unit is determined by the size |
| `Sizes.MagnitudeInRange` | main.py:30-33 | the magnitude shown for units KB, MB and GB (below 1024^4) lies in [1, 1024); past 1024^4 bytes the GB magnitude is at least 1 and unbounded |
| `Sizes.FormatFixed2` | main.py:34 | `%.2f`: a sign for negatives, the integer part, a '.', then exactly two digits of the value rounded to hundredths |
| `Sizes.RoundHalfEven` | main.py:34 | the rounding of `%.2f`: the nearest integer, and on a tie the even one |
| `Sizes.FormatFixed2Accurate` | main.py:34 | the two-decimal text reads back within half a hundredth of the value, and exactly when the value is a whole number of hundredths |
| `Sizes.NatToStringRoundTrip` | main.py:34 | the printed integer part reads back as the number |
| `Sizes.KnownRenderings` | main.py:34 | 0, 1.5 and 1.0 print as "0.00", "1.50" and "1.00" |
| `Sizes.HumanSizeSmallExamples` | main.py:28-34 | 0 bytes give "0.00 B" and 1536 bytes give "1.50 KB" |
| `Sizes.HumanSizeLargeExamples` | main.py:28-34 | 1048576 bytes give "1.00 MB"; 1024^4 bytes give "1.00 GB", the fourth division keeping the unit "GB" |
| `Paths.Suffix` | main.py:40 | a suffix is empty or starts with '.', has no other dot, is at least two characters long and is a proper ending of the name |
| `Paths.SuffixOfEnding` | main.py:40 | a name ending in '.' plus dot-free text, with something before the dot, has exactly that ending as its suffix |
| `Paths.MonthFolder` | main.py:72 | the `%Y-%m` folder name has 7 characters, digits everywhere except a '-' at index 4, and a month tens digit of 0 or 1 |
| `Paths.MonthFolderRoundTrip` | main.py:72 | parsing a month folder's name gives back its year and month |
| `Paths.MonthFolderInjective` | main.py:72 | two months get the same folder name iff they are the same month |
| `Paths.MonthDir` | main.py:57-72 | the destination folder of a month is the root, a '/', then the 7-character `YYYY-MM` name |
| `Paths.MonthDirInjective` | main.py:57-72 | under one root, distinct months give distinct destination folders |
| `Discovery.MatchesGlob` | main.py:23 | `Screenshot*.png` on one name: it starts with "Screenshot" and ends with ".png", case-sensitively |
| `Discovery.Locations` | main.py:13-17 | three distinct locations, Desktop, Downloads and Pictures below home, in that order |
| `Discovery.NoOverlap` | main.py:23 | a name that starts with "Screenshot" and ends with ".png" has at least 14 characters, because the two literals cannot overlap |
| `Discovery.GlobIffPattern` | main.py:23 | a name matches `Screenshot*.png` iff it is "Screenshot" + X + ".png" for some X, case-sensitively |
| `Discovery.MatchSuffix` | main.py:23 | every matching name has the suffix ".png" |
| `Discovery.Matches` | main.py:22-24 | the glob over one directory yields exactly the paths in that directory whose listed names match, and no more of them than there are names |
| `Discovery.Found` | main.py:21-24 | a location that does not exist contributes nothing; one that exists contributes exactly its matching entries |
| `Discovery.Discovered` | main.py:19-24 | a path is found iff its directory is one of the given locations, exists, lists the name, and the name matches |
| `Discovery.FindScreenshots` | main.py:10-26 | the result is the Desktop matches, then Downloads, then Pictures; it holds exactly the matching entries of existing locations, each with suffix ".png" |
| `Stats.TotalSize` | main.py:39 | the sum of the listed sizes: 0 for no files, and at least the size of every listed file |
| `Stats.Extensions` | main.py:40 | the set of the suffixes of the listed files |
| `Stats.FirstMissing` | main.py:39 | the sum stops at the first listed file that is not in the store, and every file before it is present |
| `Stats.SizeExt` | main.py:36-41 | aggregation succeeds iff every listed file is in the store; a failure names a listed missing file; an empty list gives (0, {}) |
| `Stats.TotalAppend` | main.py:39 | the total of two lists one after the other is the sum of their totals |
| `Stats.TotalPermutation` | main.py:39 | reordering the list does not change the total |
| `Stats.SizeExtPermutation` | main.py:36-41 | a permutation of the list aggregates to the same total and suffix set and fails in the same cases |
| `Stats.ExtensionsSameElements` | main.py:40 | the suffix set depends only on which paths are listed, not on order or duplicates |
| `Stats.ScreenshotExtensions` | main.py:40 | a non-empty list of discovered screenshots reports exactly the suffix set {".png"} |
| `Batch.Mkdir` | main.py:67 | mkdir with exist_ok never fails on an existing directory, and fails only as the oracle says; success adds the directory and leaves files alone |
| `Batch.Move` | main.py:77 | a move fails only as the oracle says and then changes nothing; on success the entry is at the destination and no longer at the source, and no other path changes |
| `Batch.Unlink` | main.py:87 | an unlink succeeds iff the file is in the store and the oracle lets it; only then is the file removed, and directories never change |
| `Batch.MoveStepEffect` | main.py:69-80 | one file of the move loop: after an earlier error nothing happens; a gone file or an uncreatable month folder raises that error with the store unchanged; otherwise the folder is created, the move is tried and one line with its outcome is added |
| `Batch.MoveLoop` | main.py:69-80 | after an error the loop changes nothing; directories only grow; the report keeps its earlier lines and gains at most one line per file |
| `Batch.MoveAction` | main.py:66-80 | a root folder that is missing and cannot be created raises before any file is looked at; without an error the root exists afterwards; at most one line per file |
| `Batch.MoveAbortPersists` | main.py:69-80 | once an error has escaped the move loop, the remaining files change nothing |
| `Batch.MoveLoopShape` | main.py:69-80 | report line k is about the k-th file; without an abort there is one line per file, and an abort leaves fewer lines than files; directories only grow |
| `Batch.MoveLoopFrame` | main.py:69-80 | a path that is neither listed nor below the destination root is left as it was |
| `Batch.MoveActionFrame` | main.py:66-80 | the same frame for the whole action, including creation of the root |
| `Batch.MoveLoopClean` | main.py:69-80 | on a clean prefix of the list there is no abort and one line per file with its own month folder and the oracle's verdict; files not yet reached are untouched; the root and each month folder reached exist |
| `Batch.MoveActionClean` | main.py:66-80 | with distinct, present files outside the root and no folder failure, every file is reported in order with folder root/YYYY-MM of its `st_ctime` month; a failed move does not stop the later ones |
| `Batch.MoveLoopArrives` | main.py:69-80 | with distinct destinations, a file whose move succeeded is at root/YYYY-MM/name with its entry and gone from its old place; a file whose move failed stays where it was |
| `Batch.MoveAbortsAt` | main.py:69-80 | when the first k files go through cleanly and file k is gone or its month folder cannot be created, the error escapes at file k with exactly the k earlier lines in the report |
| `Batch.MoveAbortsOnMkdir` | main.py:71-77 | when the first file's month folder cannot be created, the error escapes before any move: no lines, store unchanged |
| `Batch.DeleteStep` | main.py:85-90 | one file of the delete loop: exactly one line is added, naming the file, reported deleted iff the file was in the store and its unlink did not fail; directories and the error state are unchanged; no file appears |
| `Batch.DeleteRun` | main.py:85-90 | the delete loop never lets an error escape, reports one line per file, leaves directories alone and only removes files |
| `Batch.DeleteRunShape` | main.py:85-90 | each listed file gets exactly one unlink attempt, in order, and no error escapes; only listed files can disappear; directories and remaining entries are unchanged |
| `Batch.DeleteRunOutcomes` | main.py:85-90 | with each file listed once, a file is reported deleted iff it was in the store and its unlink did not fail; otherwise the reason is reported |
| `Batch.DeleteRunStore` | main.py:85-90 | with each file listed once, the store after the batch is the old one without exactly the listed files whose unlink did not fail |
| `Batch.DeleteAllSucceed` | main.py:84-90 | when every listed file exists and no unlink fails, each file is reported deleted and none of them remains |
| `Batch.ListRunLines` | main.py:94-97 | the listing shows each file's name and size in order, up to the first file missing from the store, where an error ends it |
| `Batch.ListRun` | main.py:94-97 | listing never changes the store |
| `Organizer.ParseChoice` | main.py:59-100 | "1", "2" and "3", and only these exact strings, select move, delete and list; anything else cancels |
| `Organizer.NearMissesCancel` | main.py:66-100 | " 1", "1 ", "01", "4" and "" all cancel |
| `Organizer.Lower` | main.py:84 | ASCII lowering: keeps the length and lowers A-Z, each character on its own |
| `Organizer.Confirmed` | main.py:84 | the confirmation test: the answer, lowered and not trimmed, equals "yes" |
| `Organizer.ConfirmedIff` | main.py:84 | a delete is confirmed iff the answer is "yes" in one of its eight capitalisations, with nothing around it |
| `Organizer.ConfirmationExamples` | main.py:84 | "YES" confirms; " yes", "yes ", "y" and "no" do not |
| `Organizer.ExitCode` | main.py:102-112 | the exit code is 1 exactly when an error escaped, and 0 otherwise |
| `Organizer.FileStore.MakeDir` | main.py:67-73 | the store after mkdir is the one `Batch.Mkdir` gives, and it is unchanged on failure |
| `Organizer.FileStore.MoveFile` | main.py:77 | the store and outcome after the move are those of `Batch.Move` |
| `Organizer.FileStore.UnlinkFile` | main.py:87 | the store and outcome after the unlink are those of `Batch.Unlink` |
| `Organizer.FileStore.MoveAll` | main.py:66-80 | the store, the report and the escaped error are those of `Batch.MoveAction` on the old store |
| `Organizer.FileStore.DeleteAll` | main.py:85-90 | the store and the report are those of `Batch.DeleteRun` on the old store |
| `Organizer.FileStore.ListAll` | main.py:94-97 | the report and the escaped error are those of `Batch.ListRun`; nothing is modified |
| `Batch.ListAbortPersists` | main.py:96-97 | once the listing has stopped at a missing file, later files add nothing |
| `Organizer.FileStore.Organize` | main.py:43-100 | no files: nothing is shown or changed. A failing size read escapes before the prompt. Otherwise the summary counts the files. Cancel, unconfirmed delete and list leave the store unchanged; confirmed delete and move leave it as their batch functions give |

## Left out

- The platform check at import time, which refuses to run except on macOS.
  It is an environment check.
- Real file-system calls (`exists`, `glob`, `stat`, `mkdir`, `shutil.move`,
  `unlink`) are replaced by an abstract store and a failure oracle:
  - A directory's entry order is a parameter (a `Listing`), because the
    operating system leaves it unspecified.
  - The listing is a separate view from the store that the actions work on.
- A failed move is modelled as changing nothing. A real cross-device
  `shutil.move` can fail after copying.
- `mkdir(parents=True)` creates missing ancestors. The model records only
  the directory itself.
- Conversion of `st_ctime` to a local date is left out. It depends on the
  timezone and the platform. The month is an input (`Entry.ctime`), with the
  year in 1000..9999. On macOS `st_ctime` is the time of the last status
  change, not the creation time: a rename, a chmod or a write updates it.
  `Entry.ctime` stands for the month of that timestamp.
- Console text, `print` and `input` are left out. The two typed lines are
  parameters, and the output is the summary, a status and report lines. A
  listed line holds the byte size, which `Sizes.HumanSize` renders. The
  summary's sorted, comma-joined suffix list is kept as a set.
- The `KeyboardInterrupt` handler is left out. Only the exit-code mapping is
  modelled.
- `Sizes.HumanSize`: its `%.2f` rendering is exact rounding of the exact
  quotient. This is what CPython prints while the size is below 2^53 bytes,
  where every quotient by a power of 1024 is an exact double. Above that, the
  int-to-float conversion may round first, and the model does not follow it.
- `Organizer.Lower`: models `str.lower` on the ASCII letters A-Z only.
  Python also lowers non-ASCII letters ('Ä' to 'ä'), and it can lengthen a
  string ('İ' becomes 'i' followed by U+0307). `Organizer.ConfirmedIff` is
  unaffected, because no character other than y/Y, e/E and s/S lowers to text
  containing 'y', 'e' or 's'. So `Organizer.Confirmed` accepts exactly the
  answers `confirm.lower() == "yes"` accepts.
