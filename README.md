# DICOM Translator — a Dafny model of the naming rule and the placement

DICOM Translator files every DICOM file found below a directory into a tree
`<target>/<PatientName>_<PatientID>/<StudyDate>_<StudyTime>/<SeriesNumber>_<tag>/<tag>_dyn_<SL>.dcm`.
It does this in a `<path>_translated` folder or directly in a ZIP archive (the
ZIP branch only once the unpacking at DicomTranslator.py:82 is corrected, see
"## Findings"). The tag is the cleaned SeriesDescription and the last five
characters of the text of the SeriesInstanceUID before its first `.0.0`; SL is
the InstanceNumber padded to five digits. A file that
is not DICOM, or whose patient has no usable name, counts as non-DICOM and is
left alone. The run reports how many DICOM and non-DICOM files it saw.

The model has eight modules:

- `Common` (`common.dfy`): `Option`, `Path` and the `(file, target_dir, mode)` task.
- `PyText` (`pytext.dfy`): the Python `str` operations the naming is built from.
  These are `replace`, `split(sep, 1)[0]`, the slices `[:n]` and `[-n:]`, and `str()` of an int.
- `PosixPath` (`posixpath.dfy`): `os.path.join`, `dirname` and `basename` with POSIX separators.
- `DicomNaming` (`dicom_naming.dfy`): `extract_series` and `rename_dicom_file`, as pure functions.
  The parsed dataset is a record of optional fields.
  InstanceNumber and SeriesNumber are three-way: absent, present without a value, or an integer.
- `Saving` (`saving.dfy`): the filesystem and the placement.
  - The filesystem is a value `Fs`: a set of directories and a map from file path to contents.
  - `os.mkdir`, `shutil.copy2` and `os.rename` are functions of that value.
  - A `FileSystem` class holds the same state in fields. Its methods `Mkdir`, `Copy2` and `Rename` update it in place.
  - `DirMake` and `MoveDicomFile` are module-level methods that take a `FileSystem` and update it. Each is proved to leave exactly the state, and give back exactly the result, of its specification function (`DirMakeEffect`, `Place`).
- `SavingFacts` (`saving_facts.dfy`): what the placement promises, as lemmas on those functions.
- `Loading` (`loading.dfy`): `list_all_files`. It is a method with the source's nested loops, proved against `Listing`.
  The walk is an input.
- `Translator` (`translator.dfy`): the rest of `run_translation`.
  - The output location.
  - The archive, a class whose entries `write_to_zip` appends to.
  - Both branches run sequentially over the listed files.
  - The tally of the 0/1 results.

`dcmread` is a parameter `read: Path -> Parse`. A file is either `InvalidDicom` or parses to a `DataSet`.
Whether `os.rename` replaces an existing destination is the parameter `replaceExisting`.
It is true on POSIX. On Windows it is false, and FileExistsError is raised and then swallowed.

Points of the code's behaviour the model keeps as they are:

- `:` is removed only from PatientID (`utilities/saving.py:47`) and SeriesDescription (`utilities/utils_DICOM.py:13`). A `:` in PatientName, StudyDate, StudyTime or SeriesInstanceUID (`utilities/saving.py:39-52`, `utilities/utils_DICOM.py:15`) reaches the path.
- An exception escaping a task is not caught. `future.result()` (DicomTranslator.py:116) and the iteration over `imap_unordered` (DicomTranslator.py:164-171) re-raise it, and the run ends. The model's runs stop with `Aborted`.
- On POSIX, a MOVE onto an existing destination replaces it. Only where `os.rename` refuses does the existing file stay. Both cases are modelled.
- A present but empty PatientName is accepted. It gives a patient level that starts with `_`.

## Model

| member | source | states |
|---|---|---|
| PyText.ReplaceAllChars | utilities/saving.py:39-43 | every character of a `replace` result comes from the subject or the replacement |
| PyText.ReplaceAllRemoves | utilities/saving.py:47 | replacing a character by text without it leaves no occurrence of that character |
| PyText.ReplaceAllUnchanged | utilities/utils_DICOM.py:17-18 | a pattern with a character absent from the subject leaves the subject unchanged |
| PyText.ReplaceCharPointwise | utilities/saving.py:47 | replacing one character by one character keeps the length and works position by position |
| PyText.ReplaceAllConcat | utilities/saving.py:58 | a one-character pattern is replaced independently in each part of a concatenation |
| PyText.ReplaceAllKeeps | utilities/utils_DICOM.py:17-18 | a `replace` keeps every character of the subject that the pattern does not contain |
| PyText.ReplaceAll | utilities/saving.py:40 | `str.replace`: leftmost, non-overlapping occurrences of the pattern replaced, scanning from the left; its properties are the `ReplaceAll…` lemmas above |
| PyText.ReplaceAllAbsent | utilities/utils_DICOM.py:17-18 | a pattern that occurs nowhere in the subject leaves it unchanged |
| PyText.ReplaceAllPrefixFree | utilities/utils_DICOM.py:17-18 | when no occurrence starts inside `a`, replacing in `a + t` keeps `a` and replaces in `t` alone |
| PyText.ReplaceAllLeading | utilities/utils_DICOM.py:17-18 | an occurrence at the start is replaced and the scan continues after it |
| PyText.ReplaceAllAfter | utilities/saving.py:40 | in `a + pat + b`, with the first character of `pat` absent from `a`, `a` is kept, that `pat` replaced, and `b` replaced on its own |
| PyText.Delete | utilities/utils_DICOM.py:17-18 | the reference for deleting one character: exactly the other characters remain, in order |
| PyText.ReplaceAllDeletes | utilities/utils_DICOM.py:17-18 | `s.replace(c, "")` for one character `c` is `Delete(s, c)` |
| PyText.BeforeFirst | utilities/utils_DICOM.py:15 | `split(p, 1)[0]` is a prefix with no occurrence of `p` before its end, followed by `p` unless it is the whole subject |
| PyText.BeforeFirstAt | utilities/utils_DICOM.py:15 | text before an occurrence with none earlier is exactly what `split(p, 1)[0]` returns |
| PyText.Take | utilities/saving.py:51 | `[:n]` is the prefix of length min(n, len) |
| PyText.TakeLast | utilities/utils_DICOM.py:15 | `[-n:]` is the suffix of length min(n, len) |
| PyText.NatToString | utilities/utils_DICOM.py:36-44 | `str(n)` is a decimal numeral worth n, with a leading zero only for 0, as long as n has digits |
| PyText.NatToStringWidth | utilities/utils_DICOM.py:35-42 | a number in [10^(k-1), 10^k) prints with exactly k digits |
| PyText.LeadingZeros | utilities/utils_DICOM.py:36-42 | prepending zeros keeps a numeral's value |
| PyText.IntToString | utilities/utils_DICOM.py:46 | `str()` of an int: the numeral of n for n ≥ 0, `-` followed by the numeral of -n for n < 0 |
| PosixPath.JoinShape | utilities/utils_DICOM.py:46-48 | `os.path.join(a, b)` ends with `b`, is `b` for an absolute `b`, and otherwise starts with all of `a` |
| PosixPath.Join | utilities/saving.py:54-59 | `os.path.join(a, b)`: an absolute `b` replaces `a`, otherwise one `/` is inserted unless `a` is empty or ends in `/`; properties in `JoinShape`, `JoinAssoc`, `SplitJoin` |
| PosixPath.Basename | utilities/saving.py:61 | the base name is the slash-free tail of the path (by `BasenameAfterSlash` the one starting just after its last `/`, all of it when there is none), the name `shutil.copy2` gives a file copied into an existing directory |
| PosixPath.BasenameAfterSlash | utilities/saving.py:61 | a base name shorter than the path is preceded by a `/`, so it is everything after the last `/` |
| PosixPath.Dirname | utilities/saving.py:59 | the directory name is a prefix of the path |
| PosixPath.JoinAssoc | DicomTranslator.py:102-106 | joining three parts either way names the same path |
| PosixPath.SplitJoin | utilities/saving.py:59 | a directory joined with a plain name splits back into exactly that directory and that name |
| PosixPath.JoinPlainName | utilities/saving.py:54-59 | joining a plain name gives a longer path ending with that name's last character |
| PosixPath.PlainPair | utilities/utils_DICOM.py:46-48 | two slash-free names join to `dir/base`, whose dirname is `dir` and basename is `base` |
| DicomNaming.ScrubCleans | utilities/utils_DICOM.py:17-18 | the cleaning chain leaves no space, `.` or `/`, and keeps only characters of its input |
| DicomNaming.ScrubKeepsClean | utilities/utils_DICOM.py:17-18 | a description already free of those characters passes unchanged |
| DicomNaming.Scrub | utilities/utils_DICOM.py:17-18 | the chain deleting spaces, `d.v.`, dots and slashes in that order; stated by `ScrubCleans`, `ScrubKeeps`, `ScrubDeletes`, `ScrubDropsDv`, `ScrubInnerDv` |
| DicomNaming.ScrubKeeps | utilities/utils_DICOM.py:17-18 | every character other than space, `.`, `/`, `d` and `v` survives the cleaning |
| DicomNaming.ScrubDeletes | utilities/utils_DICOM.py:17-18 | where no `d.v.` occurs once the spaces are gone, the cleaning deletes exactly the spaces, dots and slashes and keeps the rest in order |
| DicomNaming.ScrubDropsDv | utilities/utils_DICOM.py:17-18 | a leading `d.v.` is removed whole, its `d` and `v` included |
| DicomNaming.ScrubInnerDv | utilities/utils_DICOM.py:17-18 | a `d.v.` between two clean words is deleted whole, wherever it stands: `Ad.v.B` gives `AB` |
| DicomNaming.ScrubSpace | utilities/utils_DICOM.py:17-18 | a space between two clean words is deleted and the words are kept as they are |
| DicomNaming.ScrubExample | utilities/utils_DICOM.py:17-18 | `Scan A` becomes `ScanA` |
| DicomNaming.DescriptionPart | utilities/utils_DICOM.py:13-18 | colons deleted from a present SeriesDescription, `NoSeriesDescription` otherwise, then scrubbed; stated by `DescriptionPartClean`, `DescriptionPartIdempotent` |
| DicomNaming.DescriptionPartClean | utilities/utils_DICOM.py:13-18 | the description part has no `:`, space, `.` or `/`; an absent description gives `NoSeriesDescription`; a clean one is kept |
| DicomNaming.PresentDescriptionClean | utilities/utils_DICOM.py:13-18 | a present description comes out free of `:`, space, `.` and `/`, and unchanged when it already was |
| DicomNaming.DescriptionPartIdempotent | utilities/utils_DICOM.py:13-18 | cleaning an already cleaned description changes nothing |
| DicomNaming.UidPartShape | utilities/utils_DICOM.py:15-16 | the UID part is the suffix, at most five long, of the text before the first `.0.0`; `0042` when the UID is absent |
| DicomNaming.UidPartPlain | utilities/utils_DICOM.py:15 | the UID part has no `/` when the UID has none |
| DicomNaming.UidPart | utilities/utils_DICOM.py:15-16 | the last five characters of SeriesInstanceUID before its first `.0.0`, `0042` when absent; stated by `UidPartShape` |
| DicomNaming.ExtractSeriesShape | utilities/utils_DICOM.py:19 | the tag is the description part, one `_`, the UID part; `NoSeriesDescription_0042` with both absent; no `/` when the UID has none |
| DicomNaming.ExtractSeries | utilities/utils_DICOM.py:5-19 | `extract_series`: description part, `_`, UID part; stated by `ExtractSeriesShape` |
| DicomNaming.SeriesLabel | utilities/utils_DICOM.py:31 | `str(Series)`: `0` when SeriesNumber is missing, `None` when it is empty, otherwise the number; stated by `SeriesLabelPlain`, `NamingDefaults` |
| DicomNaming.PaddedNumber | utilities/utils_DICOM.py:35-44 | the if/elif chain padding InstanceNumber with 4, 3, 2, 1 or no zeros; stated by `PaddedNumberValue` |
| DicomNaming.InstanceLabel | utilities/utils_DICOM.py:30-44 | SL: the padding of 0 when InstanceNumber is missing, `0` when it is empty; stated by `NamingDefaults`, `InstanceLabelInjective` |
| DicomNaming.RenameDicomFile | utilities/utils_DICOM.py:22-48 | `rename_dicom_file`: the join of `<Series>_<tag>` and `<tag>_dyn_<SL>.dcm`; stated by `RenameComponents` |
| DicomNaming.SeriesDirName | utilities/utils_DICOM.py:46 | the folder component `str(Series)_<tag>`; stated by `RenameComponents`, `NamingDefaults` |
| DicomNaming.InstanceFileName | utilities/utils_DICOM.py:47-48 | the file component `<tag>_dyn_<SL>.dcm`; stated by `RenameComponents` |
| DicomNaming.PaddedNumberValue | utilities/utils_DICOM.py:33-44 | for 0 ≤ n < 10000 SL is five digits worth n; from 10000 on it is `str(n)` |
| DicomNaming.ZeroPadded | utilities/utils_DICOM.py:35-42 | a number of w ≤ 4 digits padded with 5 - w zeros is five digits worth the number |
| DicomNaming.InstanceLabelInjective | utilities/utils_DICOM.py:33-44 | distinct non-negative instance numbers give distinct SL, none equal to the `0` of an empty InstanceNumber |
| DicomNaming.NamingDefaults | utilities/utils_DICOM.py:30-34 | a missing InstanceNumber gives `00000`, an empty one `0`, a missing SeriesNumber the prefix `0_` |
| DicomNaming.PaddedNumberChars | utilities/utils_DICOM.py:35-44 | SL consists of digits and `-` only |
| DicomNaming.NumeralConcat | utilities/utils_DICOM.py:36-42 | a concatenation of two texts of digits and `-` (the padding and `str()` of the number) is again digits and `-` only |
| DicomNaming.SeriesLabelPlain | utilities/utils_DICOM.py:31 | `str(Series)` is non-empty and has no `/` |
| DicomNaming.InstanceLabelPlain | utilities/utils_DICOM.py:30-44 | SL is non-empty and has no `/` |
| DicomNaming.RenameComponents | utilities/utils_DICOM.py:46-48 | with a UID free of `/`, the name is exactly `str(Series)_<tag>` / `<tag>_dyn_<SL>.dcm`, the same tag in both |
| Saving.FileSystem.Mkdir | utilities/saving.py:18 | the in-place `os.mkdir` leaves the state and error of `OsMkdir` |
| Saving.FileSystem.Copy2 | utilities/saving.py:61 | the in-place `shutil.copy2` leaves the state and error of `Copy2Effect` |
| Saving.FileSystem.Rename | utilities/saving.py:64 | the in-place `os.rename` leaves the state and error of `RenameEffect` |
| Saving.DirMake | utilities/saving.py:10-20 | `dir_make` leaves the state and error of `DirMakeEffect` |
| Saving.MoveDicomFile | utilities/saving.py:23-67 | `move_dicom_file` leaves the state and outcome of `Place` |
| Saving.OsMkdir | utilities/saving.py:18 | `os.mkdir`: FileExistsError for an existing entry, FileNotFoundError or NotADirectoryError for a missing or non-directory parent, otherwise the directory is added; stated by `SavingFacts.DirMakeIdempotent` |
| Saving.ParentError | utilities/saving.py:18 | the error a creating call gets when the parent is missing (FileNotFoundError) or a file (NotADirectoryError); stated through `SavingFacts.DirMakeIdempotent`, `SavingFacts.DirMakeBelow` |
| Saving.DirMakeEffect | utilities/saving.py:10-20 | `dir_make`: `os.mkdir` with FileExistsError swallowed; stated by `SavingFacts.DirMakeIdempotent`, `SavingFacts.DirMakeBelow` |
| Saving.Copy2Effect | utilities/saving.py:61 | `shutil.copy2` on contents: a directory destination receives the file under its base name; FileNotFoundError for a missing source, IsADirectoryError for a directory source or destination, SameFileError, parent errors; stated by `SavingFacts.TransferFrame`, `SavingFacts.TransferLands` |
| Saving.RenameEffect | utilities/saving.py:63-66 | `os.rename`: the source moves to the destination, replacing it or refused per `replaceExisting`; stated by `SavingFacts.TransferFrame`, `SavingFacts.TransferLands` |
| Saving.PatientName | utilities/saving.py:39-43 | the three replaces on PatientName, `UnknownName` when absent; stated by `SavingFacts.PatientNameClean`, `SavingFacts.PatientNameRunDropped`, `SavingFacts.PatientNameCarets`, `SavingFacts.PatientNameUnitSep`, `SavingFacts.PatientNameKeeps` |
| Saving.PatientId | utilities/saving.py:47 | PatientID with `:` turned into `_`, `NA` when absent; stated by `SavingFacts.PatientIdShape` |
| Saving.StudyTimePart | utilities/saving.py:50-51 | StudyTime (default `0000000.0`) before its first `.`, cut to four characters; stated by `SavingFacts.TimePartShape`, `SavingFacts.DateDirShape` |
| Saving.DateDir | utilities/saving.py:49-52 | StudyDate (default `0000000`), `_`, the time part; stated by `SavingFacts.DateDirShape` |
| Saving.StripAngles | utilities/saving.py:58 | the two replaces deleting `<` and `>`; stated by `SavingFacts.FileNameClean`, `SavingFacts.StripAnglesChars` |
| Saving.PatientDir | utilities/saving.py:54 | the patient level name_id; stated by `Translator.ArcNameShape` |
| Saving.FileName | utilities/saving.py:58 | `rename_dicom_file` with `<` and `>` deleted; stated by `SavingFacts.FileNameClean`, `SavingFacts.FileNameSplit` |
| Saving.PatientPath | utilities/saving.py:54 | target / name_id, the first level created; stated by `SavingFacts.PlaceDicomFrame`, `SavingFacts.PlaceLandsAtDestination` |
| Saving.DatePath | utilities/saving.py:56 | patient level / date_time, the second level created; stated by `SavingFacts.PlaceDicomFrame`, `SavingFacts.PlaceLandsAtDestination` |
| Saving.SeriesPath | utilities/saving.py:59 | date level / series folder, the third level created; stated by `SavingFacts.DestinationInSeries`, `SavingFacts.PlaceLandsAtDestination` |
| Saving.Destination | utilities/saving.py:54-61 | target / name_id / date_time / stripped name, the path the file is copied or renamed to; stated by `SavingFacts.DestinationInSeries` |
| Saving.TransferEffect | utilities/saving.py:60-66 | copy for `COPY`, otherwise rename with FileExistsError swallowed; stated by `SavingFacts.TransferFrame`, `SavingFacts.TransferLands` |
| Saving.Steps | utilities/saving.py:54-67 | the three `dir_make` calls then the transfer, the first error ending the call; stated by `SavingFacts.StepsFrame`, `SavingFacts.StepsLand` |
| Saving.Place | utilities/saving.py:23-67 | `move_dicom_file` as a function of the state; stated by `SavingFacts.PlaceOutcomes`, `SavingFacts.PlaceLandsAtDestination` |
| SavingFacts.PatientNameClean | utilities/saving.py:39-43 | the sanitised name has no `^` and no 0x1F; an absent PatientName gives `UnknownName` |
| SavingFacts.PatientNameKeeps | utilities/saving.py:40 | every character of PatientName other than `^` and 0x1F survives |
| SavingFacts.PatientNamePlain | utilities/saving.py:40 | a PatientName without `^` and 0x1F is kept as it is |
| SavingFacts.PatientNameCarets | utilities/saving.py:40 | without a `^^^` run and 0x1F, each `^` becomes `_` in place and every other character is kept |
| SavingFacts.PatientNameCaret | utilities/saving.py:40 | family and given name separated by one `^` are joined by `_` |
| SavingFacts.PatientNameRunDropped | utilities/saving.py:40 | a `^^^` run between two caret-free parts is deleted whole: `A^^^B` gives `AB` |
| SavingFacts.RunDeleted | utilities/saving.py:40 | the first replace deletes a `^^^` run between two caret-free parts |
| SavingFacts.PatientNameUnitSep | utilities/saving.py:40 | in a caret-free PatientName exactly the 0x1F characters are deleted, the rest kept in order |
| SavingFacts.PatientNameExample | utilities/saving.py:40 | `DOE^JOHN` becomes `DOE_JOHN` |
| SavingFacts.PatientIdShape | utilities/saving.py:47 | the id has no `:`, is PatientID with each `:` turned into `_`, and `NA` when absent |
| SavingFacts.BeforeDotPlain | utilities/saving.py:51 | the time text before the first `.` has no `.` |
| SavingFacts.DefaultTimeCut | utilities/saving.py:50-51 | the default time `0000000.0` cuts to `0000000` before the slice |
| SavingFacts.TimePartShape | utilities/saving.py:51 | the cut time is exactly the first min(4, k) characters of the time, k the position of its first `.` or its length |
| SavingFacts.StudyTimeExample | utilities/saving.py:50-52 | the StudyTime `093000.5` gives the time part `0930` |
| SavingFacts.TimeCutAt | utilities/saving.py:51 | with the first `.` at n, the time part is the first four characters of the text before n |
| SavingFacts.DefaultTimePart | utilities/saving.py:50-51 | without StudyTime the time part is `0000` |
| SavingFacts.DefaultDateDir | utilities/saving.py:49-52 | without StudyDate and StudyTime the date level is `0000000_0000` |
| SavingFacts.DateDirShape | utilities/saving.py:49-52 | the date level is StudyDate, `_`, and exactly the first min(4, k) characters of StudyTime, k the position of its first `.` (its length without one); `0000000_0000` with both absent |
| SavingFacts.FileNameClean | utilities/saving.py:58 | the file part has no `<` and no `>` |
| SavingFacts.StripAnglesConcat | utilities/saving.py:58 | deleting `<` and `>` distributes over concatenation |
| SavingFacts.StripAnglesKeeps | utilities/saving.py:58 | text without `<` or `>` is left unchanged |
| SavingFacts.StripAnglesChars | utilities/saving.py:58 | deleting `<` and `>` adds no `/` and keeps every other character present |
| SavingFacts.StripAroundSlash | utilities/saving.py:58 | deleting `<` and `>` keeps the `/` between the two components and works on each side |
| SavingFacts.ComponentsSurvive | utilities/saving.py:58 | both components stay non-empty and slash-free after the deletion |
| SavingFacts.FileNameSplit | utilities/saving.py:58-59 | the stripped name is series level `/` file name, and its dirname is the series level |
| SavingFacts.DirMakeIdempotent | utilities/saving.py:10-20 | a second `dir_make` changes nothing; an existing path changes nothing and raises nothing; a fresh one under an existing directory adds exactly it; errors change nothing |
| SavingFacts.TransferFrame | utilities/saving.py:60-66 | the copy or rename never touches directories, changes nothing when it raises, and writes only the source and the destination |
| SavingFacts.StepsFrame | utilities/saving.py:54-67 | the three `dir_make` calls then the transfer return 1 or raise, raise with every file unchanged, add only the three levels, and write only the source and the destination |
| SavingFacts.PlaceDicomFrame | utilities/saving.py:54-67 | with a usable name the call returns 1 or raises, adds only the three levels, and changes only source and destination |
| SavingFacts.PlaceOutcomes | utilities/saving.py:23-67 | the result is 0 or 1 or an exception; 0 exactly for non-DICOM input or an `UnknownName` name, with no change; an exception changes no file |
| SavingFacts.DirMakeBelow | utilities/saving.py:10-20 | `dir_make` of a path that is not a file, under an existing directory, adds exactly that path and raises nothing |
| SavingFacts.LevelBelow | utilities/saving.py:55 | `dir_make` of a plain name below an existing directory adds exactly that path |
| SavingFacts.ThreeLevels | utilities/saving.py:54-59 | the three `dir_make` calls in order add exactly the patient, date and series levels |
| SavingFacts.DestinationInSeries | utilities/saving.py:59-61 | the destination is the file name joined below the series directory |
| SavingFacts.TransferLands | utilities/saving.py:60-66 | COPY puts the contents at the destination and keeps the source; MOVE moves them, or changes nothing on a refused collision |
| SavingFacts.StepsLand | utilities/saving.py:54-67 | below an existing target, the steps return 1, add the three levels and transfer the file |
| SavingFacts.StepsAt | utilities/saving.py:59-67 | once the three levels exist, the transfer to a name just below the series level returns 1 and puts the file there |
| SavingFacts.StepsThrough | utilities/saving.py:54-67 | proof scaffolding (one-step unfolding): when no `dir_make` raises and the transfer raises nothing, the call returns 1 with the transfer's state |
| SavingFacts.PlaceLandsAtDestination | utilities/saving.py:39-67 | on success the call returns 1, creates exactly the three levels, and the file is at target/name_id/date_time/series/file |
| Loading.EntryListing | utilities/loading.py:14-18 | one element per file of a walk entry |
| Loading.ListedFor | utilities/loading.py:15-18 | the tuple (path, target, mode) when a target is given, the bare path otherwise; stated by `ListingShape`, `ListingAt` |
| Loading.ListAllFiles | utilities/loading.py:12-19 | the nested loops return exactly `Listing` of the walk |
| Loading.Listing | utilities/loading.py:12-19 | the entries' elements in walk order; stated by `ListingLength`, `ListingAt`, `ListingShape` |
| Loading.FileCount | utilities/loading.py:13-14 | the number of files the walk reports; stated by `ListingLength` |
| Loading.ListingLength | utilities/loading.py:12-19 | one element per reported file |
| Loading.ListingPrefix | utilities/loading.py:13-18 | the listing of a prefix of the walk is a prefix of the listing |
| Loading.ListingAt | utilities/loading.py:13-18 | file j of walk entry i is listed at position (files before entry i) + j, joined below its root |
| Loading.ListingShape | utilities/loading.py:15-18 | with a target every element is (path, target, mode); without one every element is a bare path |
| Loading.ListingSamePaths | utilities/loading.py:15-18 | the target only decorates: the same paths in the same order either way |
| Translator.PlanFor | DicomTranslator.py:61-67 | direct ZIP forces NIfTI off and defaults the archive to `path_translated.zip`; otherwise the target is `path_translated` (line 131) |
| Translator.DefaultOutputs | DicomTranslator.py:61-67 | the default archive and target extend the input path and differ from it and from each other |
| Translator.ZipArchive.constructor | DicomTranslator.py:75 | a new archive at its location has no members |
| Translator.ZipArchive.Write | DicomTranslator.py:109 | a write appends exactly one member |
| Translator.WriteToZip | DicomTranslator.py:76-110 | `write_to_zip` appends the member of `ZipEntryFor`, if any, and returns 1 exactly when it did |
| Translator.ArchiveNameMatchesPlacement | DicomTranslator.py:102-106 | the archive name joined below a target is the destination `move_dicom_file` uses |
| Translator.JoinPlain | DicomTranslator.py:102-106 | joining plain names inserts exactly one `/` each time |
| Translator.ArcNameShape | DicomTranslator.py:102-106 | the archive name is name_id/date_time/series/file |
| Translator.ArcName | DicomTranslator.py:87-106 | the archive name name_id / date_time / stripped name; stated by `ArcNameShape`, `ArchiveNameMatchesPlacement` |
| Translator.ZipEntryFor | DicomTranslator.py:83-110 | the member written for a file: none for non-DICOM input or `UnknownName`; stated by `ZipMatchesPlacement` |
| Translator.ZipMatchesPlacement | DicomTranslator.py:83-110 | `write_to_zip` skips a file exactly when `move_dicom_file` returns 0; its member holds the file under the placement's relative path |
| Translator.CountIsMultiplicity | DicomTranslator.py:127-128 | `results.count(v)` is the multiplicity of v |
| Translator.CountOrderFree | DicomTranslator.py:115-117 | the order in which results arrive does not change the counts |
| Translator.CountsAddUp | DicomTranslator.py:126-128 | with 0/1 results, the two counts add up to the number of results |
| Translator.Count | DicomTranslator.py:127-128 | `results.count(v)`; stated by `CountIsMultiplicity` |
| Translator.Tally | DicomTranslator.py:126-128 | the reported numbers: detected files, count of 1, count of 0; stated by `ZipSummaryFacts`, `FolderSummaryFacts` |
| Translator.ZipUnpackLosesPaths | DicomTranslator.py:82 | unpacking a bare listed path as a 3-tuple never yields that path |
| Translator.ZipUnpackExample | DicomTranslator.py:71 | the one-file walk `scan/a.dcm` lists a bare path that the unpacking rejects |
| Translator.UnpackAsWritten | DicomTranslator.py:82 | `file, _, _ = input_tuple` as written: a task yields its path, a bare path only when three characters long, then its first character; stated by `ZipUnpackLosesPaths` |
| Translator.TaskUnpacks | DicomTranslator.py:82 | a task tuple unpacks to its path |
| Translator.ZipResults | DicomTranslator.py:114-117 | one result per listed file |
| Translator.ZipFlag | DicomTranslator.py:83-110 | what `write_to_zip` returns for a file: 1 when it writes a member, 0 otherwise; stated by `WriteToZip`, `PlaceFlag` |
| Translator.ArchiveOf | DicomTranslator.py:109-117 | the archive after handling the listed files in order; stated by `TranslateToZip`, `ArchiveCount` |
| Translator.ArchiveStep | DicomTranslator.py:109-117 | proof scaffolding (one-step unfolding): handling one more file appends exactly its member, if any, to the archive |
| Translator.ResultsStep | DicomTranslator.py:114-117 | proof scaffolding (one-step unfolding): handling one more file appends exactly its result |
| Translator.TranslateToZip | DicomTranslator.py:66-129 | with line 82's unpacking corrected (see ## Findings): the ZIP branch writes `ArchiveOf` the listing into a new archive at the planned location and tallies `ZipResults` |
| Translator.ZipVisitsEveryFile | DicomTranslator.py:71-117 | with line 82's unpacking corrected (see ## Findings): every walked file is handed to `write_to_zip` under its joined path |
| Translator.ArchiveCount | DicomTranslator.py:109-127 | the number of members equals the DICOM count |
| Translator.ZipSummaryFacts | DicomTranslator.py:114-128 | with line 82's unpacking corrected (see ## Findings): detected equals the files walked, DICOM plus non-DICOM equals detected, DICOM equals the members |
| Translator.FolderTasks | DicomTranslator.py:134 | the listed tasks, one per listed element |
| Translator.PlaceAllStep | DicomTranslator.py:163-171 | proof scaffolding (one-step unfolding): a run is the first placement followed by the run over the rest |
| Translator.PlaceNext | DicomTranslator.py:163-171 | `move_dicom_file` on the next task is one step of the run: it ends the run when it raises, and its result precedes the rest otherwise |
| Translator.PlaceTasks | DicomTranslator.py:163-171 | placing the tasks in order leaves the state, results and error of `PlaceAll` |
| Translator.PlaceAll | DicomTranslator.py:163-171 | `move_dicom_file` over the tasks in order, the first exception ending the run; stated by `PlaceAllStep`, `PlaceAllResults` |
| Translator.TranslateToFolder | DicomTranslator.py:131-171 | the folder branch leaves the state and report of `FolderRun` |
| Translator.FolderRun | DicomTranslator.py:131-171 | the folder branch as a function of the state: target, listing, placements, tally; stated by `FolderSummaryFacts` |
| Translator.PlaceAllResults | DicomTranslator.py:164-171 | a run gives one result per placed task, all tasks when it completes, each equal to the ZIP branch's result for that file |
| Translator.PlaceFlag | DicomTranslator.py:83-110 | the result `move_dicom_file` returns for a file is the result `write_to_zip` returns for it |
| Translator.FolderSummaryFacts | DicomTranslator.py:198-200 | a completed folder run detects every walked file and its counts add up; its tally equals the one the ZIP branch computes with line 82's unpacking corrected (see ## Findings) |

## Left out

- The GUI (`FileDialogDemo`, the message box, the settings store, DicomTranslator.py:214-362): it holds no logic beyond the arguments it passes.
- The thread and process pools, the archive lock and the progress-polling thread (DicomTranslator.py:113-120, 145-171). Both branches run their tasks in listing order. `CountOrderFree` shows the reported counts do not depend on the order in which results arrive.
- Translator.TranslateToFolder: stops at the first exception that escapes a task. A pool lets the other tasks run on before the exception reaches the caller, so the filesystem state after an aborted run is not modelled.
- The progress percentage (DicomTranslator.py:119, 141): float arithmetic.
- `read_last_line` (imported from `utilities/loading.py`) is not part of this model.
- `dcmread` and pydicom: the parse is a parameter. An exception other than InvalidDicomError (an unreadable file, say) is not modelled. The text fields are given as the strings pydicom renders them.
- SeriesNumber and InstanceNumber (pydicom IS values) are taken as integers and rendered canonically by `str(int)`. pydicom's `str()` of an IS value returns its stored text, so a stored `07` gives SL `000007` in the program but `00007` in the model. `DicomNaming.PaddedNumberValue` and `DicomNaming.InstanceLabelInjective` hold for the canonical rendering only.
- Saving.ParentError and Saving.OsMkdir: paths are compared as plain strings and never normalised. The real calls resolve a trailing `/`, `//`, `.` and `..`, so two spellings name one entry there and two entries in the model. For example a PatientID `x/` gives the patient level `N_x/`: `os.mkdir("t/N_x/")` creates `t/N_x` and `move_dicom_file` returns 1, while the model's `OsMkdir` reports FileNotFoundError (no parent `t/N_x/`) and `Place` raises. Only the immediate parent is examined: `os.mkdir("t/f/x/y")` below a regular file `t/f` raises NotADirectoryError, where the model reports FileNotFoundError (an exception either way).
- Saving.FileSystem.Copy2: copies contents only. The metadata `copy2` preserves (times, permissions) is not modelled.
- `os.rename` across filesystems and permission errors: not modelled.
- The MOVE-mode reshuffle (`rmtree`, `move`, `glob`, DicomTranslator.py:172-181): plain filesystem plumbing. It deletes the input, moves the output into its place, and deletes it again at line 180. The model makes no claim about the tree after it.
- GoNifti `convert` (DicomTranslator.py:184-192): an external library.
- `os.walk` (utilities/loading.py:13): I/O. Its entries are the input `walk`.
- Timing values and the summary text (DicomTranslator.py:121-129, 193-213): floats and formatting. The model returns the three counts.
- The DEBUG branch (DicomTranslator.py:136-143): switched off by a constant.
- Translator.ZipArchive: a sequence of (name, source) members. Compression, `zipfile`'s normalisation of member names, and the archive file itself on disk are not modelled. A write never fails in the model.
- Windows path handling (`ntpath`, `os.sep`): paths are POSIX.

## Findings

| source | as written | input that shows it | evidently intended | confidence | as-written member | corrected member |
|---|---|---|---|---|---|---|
| DicomTranslator.py:71 | the direct-ZIP branch lists files without a target directory, so it gets bare path strings, but `write_to_zip` unpacks each one as a `(file, _, _)` tuple at line 82 | a walk with the single file `scan/a.dcm`: its listing is the string `scan/a.dcm`, and unpacking it into three names raises ValueError (a three-character path would unpack to its first character) | `write_to_zip` receives the path of each listed file | high; not executed | Translator.ZipUnpackLosesPaths | Translator.TranslateToZip |
