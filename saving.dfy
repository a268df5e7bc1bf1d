/** Placement of one file (`dir_make` and `move_dicom_file`): the patient, date
    and series levels are derived from the dataset, the three directories are
    created, and the file is copied or renamed into them. */
module Saving {
  import opened Common
  import opened PyText
  import opened PosixPath
  import opened DicomNaming

  type Bytes = seq<bv8>

  /** The exceptions the filesystem calls used here can raise. */
  datatype OsError =
    | FileNotFound(path: Path)
    | FileExists(path: Path)
    | NotADirectory(path: Path)
    | IsADirectory(path: Path)
    | SameFile(path: Path)

  /** The part of the filesystem the placer sees: the directories and the
      contents of the regular files, each keyed by its path. */
  datatype Fs = Fs(dirs: set<Path>, files: map<Path, Bytes>)

  /** No path is both a directory and a regular file. */
  predicate WellFormed(fs: Fs)
  {
    fs.dirs !! fs.files.Keys
  }

  /** A filesystem state together with what a call gave back. */
  datatype After<T> = After(fs: Fs, result: T)

  /** `dcmread` either raises InvalidDicomError or yields a dataset. */
  datatype Parse = InvalidDicom | Dicom(ds: DataSet)

  /** How `move_dicom_file` ends: it returns an int or an exception escapes. */
  datatype Outcome = Returned(flag: int) | Raised(error: OsError)

  // ---------------------------------------------------------------------
  // The filesystem calls, as functions of the state

  /** The error a call creating `p` gets when the parent of `p` is not an
      existing directory. The empty parent is the working directory. */
  function ParentError(fs: Fs, p: Path): Option<OsError>
  {
    var d := Dirname(p);
    if d == "" || d in fs.dirs then None
    else if d in fs.files then Some(NotADirectory(p))
    else Some(FileNotFound(p))
  }

  /** `os.mkdir(p)`. */
  function OsMkdir(fs: Fs, p: Path): After<Option<OsError>>
  {
    if p in fs.dirs || p in fs.files then After(fs, Some(FileExists(p)))
    else if p == "" then After(fs, Some(FileNotFound(p)))
    else match ParentError(fs, p)
      case Some(e) => After(fs, Some(e))
      case None => After(Fs(fs.dirs + {p}, fs.files), None)
  }

  /** `shutil.copy2(src, dst)` on contents (a directory `dst` receives the file
      under its base name; a directory `src` cannot be opened for reading). */
  function Copy2Effect(fs: Fs, src: Path, dst: Path): After<Option<OsError>>
  {
    if src !in fs.files then After(fs, Some(if src in fs.dirs then IsADirectory(src) else FileNotFound(src)))
    else
      var d := if dst in fs.dirs then Join(dst, Basename(src)) else dst;
      if d == src then After(fs, Some(SameFile(d)))
      else if d in fs.dirs then After(fs, Some(IsADirectory(d)))
      else match ParentError(fs, d)
        case Some(e) => After(fs, Some(e))
        case None => After(Fs(fs.dirs, fs.files[d := fs.files[src]]), None)
  }

  /** `os.rename(src, dst)`. Whether an existing `dst` is replaced (POSIX) or
      refused with FileExistsError (Windows) is the parameter
      `replaceExisting`. */
  function RenameEffect(fs: Fs, src: Path, dst: Path, replaceExisting: bool): After<Option<OsError>>
  {
    if src !in fs.files then After(fs, Some(FileNotFound(src)))
    else if dst in fs.dirs then After(fs, Some(if replaceExisting then IsADirectory(dst) else FileExists(dst)))
    else if dst in fs.files && !replaceExisting then After(fs, Some(FileExists(dst)))
    else match ParentError(fs, dst)
      case Some(e) => After(fs, Some(e))
      case None => After(Fs(fs.dirs, (fs.files - {src})[dst := fs.files[src]]), None)
  }

  /** `dir_make(p)`: `os.mkdir` with FileExistsError swallowed. */
  function DirMakeEffect(fs: Fs, p: Path): After<Option<OsError>>
  {
    var s := OsMkdir(fs, p);
    if s.result.Some? && s.result.value.FileExists? then After(s.fs, None) else s
  }

  // ---------------------------------------------------------------------
  // The derived path levels

  const UnknownName: string := "UnknownName"
  const DefaultPatientId: string := "NA"
  const DefaultStudyDate: string := "0000000"
  const DefaultStudyTime: string := "0000000.0"

  /** The sanitised patient name: `^^^` deleted, `^` turned into `_`, the unit
      separator (0x1F) deleted; `UnknownName` when PatientName is absent. */
  function PatientName(ds: DataSet): string
  {
    match ds.patientName
    case Some(n) => ReplaceAll(ReplaceAll(ReplaceAll(n, "^^^", ""), "^", "_"), "\U{1F}", "")
    case None => UnknownName
  }

  /** The patient id with every `:` turned into `_`; `NA` when absent. */
  function PatientId(ds: DataSet): string
  {
    match ds.patientId
    case Some(i) => ReplaceAll(i, ":", "_")
    case None => DefaultPatientId
  }

  /** StudyTime cut before its first `.`, then to at most four characters. */
  function StudyTimePart(ds: DataSet): string
  {
    var t := match ds.studyTime case Some(t) => t case None => DefaultStudyTime;
    Take(BeforeFirst(t, "."), 4)
  }

  /** The date level: StudyDate, `_`, the cut StudyTime. */
  function DateDir(ds: DataSet): string
  {
    var d := match ds.studyDate case Some(d) => d case None => DefaultStudyDate;
    d + "_" + StudyTimePart(ds)
  }

  /** The patient level: name, `_`, id. */
  function PatientDir(ds: DataSet): string
  {
    PatientName(ds) + "_" + PatientId(ds)
  }

  /** Deletes every `<` and then every `>`. */
  function StripAngles(s: string): string
  {
    ReplaceAll(ReplaceAll(s, "<", ""), ">", "")
  }

  /** The series level and file name, `rename_dicom_file` without `<` and `>`. */
  function FileName(ds: DataSet): string
  {
    StripAngles(RenameDicomFile(ds))
  }

  function PatientPath(target: Path, ds: DataSet): Path
  {
    Join(target, PatientDir(ds))
  }

  function DatePath(target: Path, ds: DataSet): Path
  {
    Join(PatientPath(target, ds), DateDir(ds))
  }

  function SeriesPath(target: Path, ds: DataSet): Path
  {
    Join(DatePath(target, ds), Dirname(FileName(ds)))
  }

  /** Where the file is put: target/name_id/date_time/series/file. */
  function Destination(target: Path, ds: DataSet): Path
  {
    Join(DatePath(target, ds), FileName(ds))
  }

  // ---------------------------------------------------------------------
  // `move_dicom_file` as a function of the state

  /** The transfer step: copy when the mode is "COPY", otherwise rename with
      FileExistsError swallowed. */
  function TransferEffect(fs: Fs, task: FileTask, dest: Path, replaceExisting: bool): After<Option<OsError>>
  {
    if task.mode == "COPY" then Copy2Effect(fs, task.file, dest)
    else
      var s := RenameEffect(fs, task.file, dest, replaceExisting);
      if s.result.Some? && s.result.value.FileExists? then After(s.fs, None) else s
  }

  /** The filesystem steps of `move_dicom_file` once the paths are known:
      create the three levels, then transfer the file; the first error ends
      the call. */
  function Steps(fs: Fs, task: FileTask, p1: Path, p2: Path, p3: Path, dest: Path, replaceExisting: bool): After<Outcome>
  {
    var s1 := DirMakeEffect(fs, p1);
    if s1.result.Some? then After(s1.fs, Raised(s1.result.value))
    else
      var s2 := DirMakeEffect(s1.fs, p2);
      if s2.result.Some? then After(s2.fs, Raised(s2.result.value))
      else
        var s3 := DirMakeEffect(s2.fs, p3);
        if s3.result.Some? then After(s3.fs, Raised(s3.result.value))
        else
          var s4 := TransferEffect(s3.fs, task, dest, replaceExisting);
          if s4.result.Some? then After(s4.fs, Raised(s4.result.value))
          else After(s4.fs, Returned(1))
  }

  /** What `move_dicom_file` does to the filesystem and what it gives back. */
  function Place(fs: Fs, task: FileTask, parsed: Parse, replaceExisting: bool): After<Outcome>
  {
    match parsed
    case InvalidDicom => After(fs, Returned(0))
    case Dicom(ds) =>
      if PatientName(ds) == UnknownName then After(fs, Returned(0))
      else
        var t := task.targetDir;
        Steps(fs, task, PatientPath(t, ds), DatePath(t, ds), SeriesPath(t, ds), Destination(t, ds), replaceExisting)
  }

  // ---------------------------------------------------------------------
  // The filesystem, updated in place

  class FileSystem {
    var dirs: set<Path>
    var files: map<Path, Bytes>

    function State(): Fs
      reads this
    {
      Fs(dirs, files)
    }

    constructor (initial: Fs)
      ensures State() == initial
    {
      dirs := initial.dirs;
      files := initial.files;
    }

    method Mkdir(p: Path) returns (err: Option<OsError>)
      modifies this
      ensures After(State(), err) == OsMkdir(old(State()), p)
    {
      if p in dirs || p in files {
        return Some(FileExists(p));
      }
      if p == "" {
        return Some(FileNotFound(p));
      }
      err := ParentError(State(), p);
      if err.None? {
        dirs := dirs + {p};
      }
    }

    method Copy2(src: Path, dst: Path) returns (err: Option<OsError>)
      modifies this
      ensures After(State(), err) == Copy2Effect(old(State()), src, dst)
    {
      if src !in files {
        if src in dirs {
          return Some(IsADirectory(src));
        }
        return Some(FileNotFound(src));
      }
      var d := dst;
      if dst in dirs {
        d := Join(dst, Basename(src));
      }
      if d == src {
        return Some(SameFile(d));
      }
      if d in dirs {
        return Some(IsADirectory(d));
      }
      err := ParentError(State(), d);
      if err.None? {
        files := files[d := files[src]];
      }
    }

    method Rename(src: Path, dst: Path, replaceExisting: bool) returns (err: Option<OsError>)
      modifies this
      ensures After(State(), err) == RenameEffect(old(State()), src, dst, replaceExisting)
    {
      if src !in files {
        return Some(FileNotFound(src));
      }
      if dst in dirs {
        return Some(if replaceExisting then IsADirectory(dst) else FileExists(dst));
      }
      if dst in files && !replaceExisting {
        return Some(FileExists(dst));
      }
      err := ParentError(State(), dst);
      if err.None? {
        var data := files[src];
        files := files - {src};
        files := files[dst := data];
      }
    }
  }

  /** `dir_make`. */
  method DirMake(fs: FileSystem, p: Path) returns (err: Option<OsError>)
    modifies fs
    ensures After(fs.State(), err) == DirMakeEffect(old(fs.State()), p)
  {
    err := fs.Mkdir(p);
    if err.Some? && err.value.FileExists? {
      err := None;
    }
  }

  /** `move_dicom_file`, given what `dcmread` made of the file. */
  method MoveDicomFile(fs: FileSystem, task: FileTask, parsed: Parse, replaceExisting: bool)
    returns (outcome: Outcome)
    modifies fs
    ensures After(fs.State(), outcome) == Place(old(fs.State()), task, parsed, replaceExisting)
  {
    if parsed.InvalidDicom? {
      return Returned(0);
    }
    var ds := parsed.ds;
    var patientName := PatientName(ds);
    if patientName == UnknownName {
      return Returned(0);
    }
    var patientId := PatientId(ds);
    var newFileName := RenameDicomFile(ds);
    var date := DateDir(ds);
    var newPath := Join(task.targetDir, patientName + "_" + patientId);
    var err := DirMake(fs, newPath);
    if err.Some? {
      return Raised(err.value);
    }
    newPath := Join(newPath, date);
    err := DirMake(fs, newPath);
    if err.Some? {
      return Raised(err.value);
    }
    newFileName := StripAngles(newFileName);
    err := DirMake(fs, Join(newPath, Dirname(newFileName)));
    if err.Some? {
      return Raised(err.value);
    }
    if task.mode == "COPY" {
      err := fs.Copy2(task.file, Join(newPath, newFileName));
    } else {
      err := fs.Rename(task.file, Join(newPath, newFileName), replaceExisting);
      if err.Some? && err.value.FileExists? {
        err := None;
      }
    }
    if err.Some? {
      return Raised(err.value);
    }
    return Returned(1);
  }
}
