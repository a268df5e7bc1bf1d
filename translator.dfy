/** `run_translation`: where the output goes, the archive entry `write_to_zip`
    builds for each file, the sequential runs of both branches over the
    listed files, and the tally of 0/1 results into DICOM and non-DICOM
    counts. */
module Translator {
  import opened Common
  import opened PosixPath
  import opened DicomNaming
  import opened Saving
  import opened SavingFacts
  import opened Loading

  // ---------------------------------------------------------------------
  // Output location

  /** What the call writes: an archive (`directZip`) or a folder tree, and
      whether NIfTI files are generated afterwards. */
  datatype Plan = Plan(directZip: bool, output: Path, createNii: bool)

  /** The output chosen from the arguments: in direct-ZIP mode NIfTI creation
      is switched off and the archive is `zipFilePath`, by default
      `path + "_translated.zip"`; otherwise the tree goes to
      `path + "_translated"`. */
  function PlanFor(path: Path, directZip: bool, createNii: bool, zipFilePath: Option<Path>): (p: Plan)
    ensures p.directZip == directZip
    ensures directZip ==> !p.createNii
    ensures !directZip ==> p.createNii == createNii
    ensures directZip ==> p.output == (match zipFilePath case Some(z) => z case None => path + "_translated.zip")
    ensures !directZip ==> p.output == path + "_translated"
  {
    if directZip then
      Plan(true, match zipFilePath case Some(z) => z case None => path + "_translated.zip", false)
    else Plan(false, path + "_translated", createNii)
  }

  /** The default outputs sit beside the input directory: they extend its
      path, differ from it, and differ from each other. */
  lemma DefaultOutputs(path: Path, c: bool, d: bool)
    ensures var z := PlanFor(path, true, c, None).output;
            var f := PlanFor(path, false, d, None).output;
            && z[..|path|] == path && f[..|path|] == path
            && z != path && f != path && z != f
  {
    var z := PlanFor(path, true, c, None).output;
    var f := PlanFor(path, false, d, None).output;
    assert |z| == |path| + 15 && |f| == |path| + 11;
  }

  // ---------------------------------------------------------------------
  // The archive

  /** One archive member: its name inside the archive and the file it holds. */
  datatype ZipEntry = ZipEntry(arcname: Path, source: Path)

  /** The archive opened for writing: its location and the members written
      so far, in order. */
  class ZipArchive {
    var location: Path
    var entries: seq<ZipEntry>

    /** `zipfile.ZipFile(location, "w")`: a new, empty archive. */
    constructor(location: Path)
      ensures this.location == location && entries == []
    {
      this.location := location;
      entries := [];
    }

    /** `zipf.write(file, arcname=arcname)`. */
    method Write(file: Path, arcname: Path)
      modifies this
      ensures location == old(location)
      ensures entries == old(entries) + [ZipEntry(arcname, file)]
    {
      entries := entries + [ZipEntry(arcname, file)];
    }
  }

  /** The name `write_to_zip` gives a DICOM file inside the archive:
      name_id, then date_time, then the series level and file name. */
  function ArcName(ds: DataSet): Path
  {
    Join(Join(PatientDir(ds), DateDir(ds)), FileName(ds))
  }

  /** The member `write_to_zip` adds for a file, if any: none for a non-DICOM
      file or a name that sanitises to `UnknownName`. */
  function ZipEntryFor(file: Path, parsed: Parse): Option<ZipEntry>
  {
    match parsed
    case InvalidDicom => None
    case Dicom(ds) =>
      if PatientName(ds) == UnknownName then None else Some(ZipEntry(ArcName(ds), file))
  }

  function EntryList(e: Option<ZipEntry>): seq<ZipEntry>
  {
    match e
    case None => []
    case Some(z) => [z]
  }

  /** `write_to_zip` once the file path is unpacked, given what `dcmread` made
      of the file: it writes at most one member and returns 1 exactly when it
      did. */
  method WriteToZip(zip: ZipArchive, file: Path, parsed: Parse) returns (flag: int)
    modifies zip
    ensures zip.location == old(zip.location)
    ensures zip.entries == old(zip.entries) + EntryList(ZipEntryFor(file, parsed))
    ensures flag == (if ZipEntryFor(file, parsed).Some? then 1 else 0)
  {
    if parsed.InvalidDicom? {
      return 0;
    }
    var ds := parsed.ds;
    var patientName := PatientName(ds);
    if patientName == UnknownName {
      return 0;
    }
    var patientId := PatientId(ds);
    var newFileName := RenameDicomFile(ds);
    var date := DateDir(ds);
    var arcname := Join(Join(patientName + "_" + patientId, date), StripAngles(newFileName));
    zip.Write(file, arcname);
    return 1;
  }

  /** The archive name is the path below the target directory at which
      `move_dicom_file` puts the same file. */
  lemma ArchiveNameMatchesPlacement(target: Path, ds: DataSet)
    ensures Join(target, ArcName(ds)) == Destination(target, ds)
  {
    JoinAssoc(target, Join(PatientDir(ds), DateDir(ds)), FileName(ds));
    JoinAssoc(target, PatientDir(ds), DateDir(ds));
  }

  /** With plain patient and date levels and a UID free of `/`, the archive
      name has exactly four components: name_id, date_time, the series level
      and the file name, the last two with `<` and `>` removed. */
  lemma ArcNameShape(ds: DataSet)
    requires PatientDir(ds) != [] && '/' !in PatientDir(ds)
    requires DateDir(ds) != [] && '/' !in DateDir(ds)
    requires ds.seriesInstanceUid.None? || '/' !in ds.seriesInstanceUid.value
    ensures ArcName(ds) == PatientDir(ds) + "/" + DateDir(ds) + "/" +
                           StripAngles(SeriesDirName(ds)) + "/" + StripAngles(InstanceFileName(ds))
  {
    FileNameSplit(ds);
    var dir := StripAngles(SeriesDirName(ds));
    JoinPlain(PatientDir(ds), DateDir(ds), dir, StripAngles(InstanceFileName(ds)));
  }

  /** Joining two plain names and a relative rest inserts one `/` each time. */
  lemma JoinPlain(a: string, b: string, c: string, d: string)
    requires a != [] && '/' !in a && b != [] && '/' !in b && c != [] && '/' !in c
    ensures Join(Join(a, b), c + "/" + d) == a + "/" + b + "/" + c + "/" + d
  {
    assert a[|a| - 1] in a;
    assert b[0] in b && b[|b| - 1] in b;
    assert c[0] in c;
    JoinAs(a, b, "/");
    var ab := a + "/" + b;
    assert ab[|ab| - 1] == b[|b| - 1];
    var cd := c + "/" + d;
    assert cd[0] == c[0];
    JoinAs(ab, cd, "/");
  }

  /** The two branches agree file by file: `write_to_zip` skips a file exactly
      when `move_dicom_file` returns 0 for it, and otherwise the member it
      writes holds that file under the path at which the folder branch puts
      it. */
  lemma ZipMatchesPlacement(fs: Fs, task: FileTask, parsed: Parse, replaceExisting: bool)
    ensures ZipEntryFor(task.file, parsed).None? <==>
            Place(fs, task, parsed, replaceExisting).result == Returned(0)
    ensures ZipEntryFor(task.file, parsed).Some? ==>
      var e := ZipEntryFor(task.file, parsed).value;
      e.source == task.file && Join(task.targetDir, e.arcname) == Destination(task.targetDir, parsed.ds)
  {
    PlaceOutcomes(fs, task, parsed, replaceExisting);
    if parsed.Dicom? {
      ArchiveNameMatchesPlacement(task.targetDir, parsed.ds);
    }
  }

  // ---------------------------------------------------------------------
  // The tally

  /** `results.count(v)`. */
  function Count(s: seq<int>, v: int): nat
  {
    if s == [] then 0 else Count(s[..|s| - 1], v) + (if s[|s| - 1] == v then 1 else 0)
  }

  /** `results.count(v)` is the multiplicity of `v`. */
  lemma {:induction false} CountIsMultiplicity(s: seq<int>, v: int)
    ensures Count(s, v) == multiset(s)[v]
  {
    if s != [] {
      CountIsMultiplicity(s[..|s| - 1], v);
      assert s == s[..|s| - 1] + [s[|s| - 1]];
    }
  }

  /** The order in which results arrive does not change the counts. */
  lemma CountOrderFree(a: seq<int>, b: seq<int>, v: int)
    requires multiset(a) == multiset(b)
    ensures Count(a, v) == Count(b, v)
  {
    CountIsMultiplicity(a, v);
    CountIsMultiplicity(b, v);
  }

  /** When every result is 0 or 1 the two counts add up to the number of
      results. */
  lemma {:induction false} CountsAddUp(s: seq<int>)
    requires forall k :: 0 <= k < |s| ==> s[k] == 0 || s[k] == 1
    ensures Count(s, 1) + Count(s, 0) == |s|
  {
    if s != [] {
      CountsAddUp(s[..|s| - 1]);
    }
  }

  /** The reported numbers. */
  datatype Summary = Summary(detected: nat, dicom: nat, nonDicom: nat)

  function Tally(detected: nat, results: seq<int>): Summary
  {
    Summary(detected, Count(results, 1), Count(results, 0))
  }

  /** How a run ends: with the summary, or with the exception that escaped. */
  datatype Report = Completed(summary: Summary) | Aborted(error: OsError)

  // ---------------------------------------------------------------------
  // The direct-ZIP branch

  /** What the direct-ZIP branch unpacks from a listed element, as written:
      `file, _, _ = input_tuple`. A task tuple yields its path; a bare path
      string unpacks character by character, so only a three-character path
      unpacks at all, and then to its first character. */
  function UnpackAsWritten(l: Listed): Option<Path>
  {
    match l
    case Task(t) => Some(t.file)
    case PathOnly(p) => if |p| == 3 then Some([p[0]]) else None
  }

  /** Listing without a target directory, as the direct-ZIP branch does,
      hands `write_to_zip` bare paths, and no listed path survives the
      unpacking as written. */
  lemma ZipUnpackLosesPaths(walk: seq<WalkEntry>, mode: string)
    ensures forall l :: l in Listing(walk, None, mode) ==> UnpackAsWritten(l) != Some(PathOf(l))
  {
    ListingShape(walk, None, mode);
  }

  /** A one-file walk: the branch's listing is the bare path `scan/a.dcm`,
      which the unpacking as written rejects. */
  lemma ZipUnpackExample()
    ensures Listing([WalkEntry("scan", [], ["a.dcm"])], None, "COPY") == [PathOnly("scan/a.dcm")]
    ensures UnpackAsWritten(PathOnly("scan/a.dcm")).None?
  {
    var w := [WalkEntry("scan", [], ["a.dcm"])];
    assert w[..0] == [];
    assert Join("scan", "a.dcm") == "scan/a.dcm";
    assert EntryListing(w[0], None, "COPY") == [PathOnly("scan/a.dcm")];
  }

  /** Task tuples, as the folder branch lists them, unpack to their path. */
  lemma TaskUnpacks(walk: seq<WalkEntry>, t: Path, mode: string)
    ensures forall l :: l in Listing(walk, Some(t), mode) ==> UnpackAsWritten(l) == Some(PathOf(l))
  {
    ListingShape(walk, Some(t), mode);
  }

  /** The 0/1 result of `write_to_zip` for a file. */
  function ZipFlag(file: Path, read: Path -> Parse): int
  {
    if ZipEntryFor(file, read(file)).Some? then 1 else 0
  }

  /** The results of the direct-ZIP branch over the listed files, in order. */
  function ZipResults(files: seq<Listed>, read: Path -> Parse): (r: seq<int>)
    ensures |r| == |files|
  {
    seq(|files|, k requires 0 <= k < |files| => ZipFlag(PathOf(files[k]), read))
  }

  /** The members written for the listed files, in order. */
  function ArchiveOf(files: seq<Listed>, read: Path -> Parse): seq<ZipEntry>
  {
    if files == [] then []
    else
      var file := PathOf(files[|files| - 1]);
      ArchiveOf(files[..|files| - 1], read) + EntryList(ZipEntryFor(file, read(file)))
  }

  /** Handling one more file appends its member, if any, to the archive. */
  lemma ArchiveStep(files: seq<Listed>, i: nat, read: Path -> Parse)
    requires i < |files|
    ensures ArchiveOf(files[..i + 1], read) ==
            ArchiveOf(files[..i], read) + EntryList(ZipEntryFor(PathOf(files[i]), read(PathOf(files[i]))))
  {
    assert files[..i + 1][..i] == files[..i];
  }

  /** Handling one more file appends its result. */
  lemma ResultsStep(files: seq<Listed>, i: nat, read: Path -> Parse)
    requires i < |files|
    ensures ZipResults(files[..i + 1], read) == ZipResults(files[..i], read) + [ZipFlag(PathOf(files[i]), read)]
  {
    var a := ZipResults(files[..i + 1], read);
    var b := ZipResults(files[..i], read) + [ZipFlag(PathOf(files[i]), read)];
    forall k | 0 <= k < |a|
      ensures a[k] == b[k]
    {
      assert files[..i + 1][k] == files[k];
    }
  }

  /** The direct-ZIP branch, run sequentially, with each listed element's path
      handed to `write_to_zip`: it lists the walk without a target directory,
      writes one member per DICOM file into a new archive at the planned
      location, and tallies the results. `read` stands for `dcmread`. */
  method TranslateToZip(path: Path, zipFilePath: Option<Path>, walk: seq<WalkEntry>, mode: string,
                        read: Path -> Parse)
    returns (zip: ZipArchive, summary: Summary)
    ensures fresh(zip)
    ensures zip.location == PlanFor(path, true, false, zipFilePath).output
    ensures zip.entries == ArchiveOf(Listing(walk, None, mode), read)
    ensures summary == Tally(|Listing(walk, None, mode)|, ZipResults(Listing(walk, None, mode), read))
  {
    var location := match zipFilePath case Some(z) => z case None => path + "_translated.zip";
    var files := ListAllFiles(walk, None, mode);
    zip := new ZipArchive(location);
    var results: seq<int> := [];
    var i := 0;
    while i < |files|
      invariant 0 <= i <= |files|
      invariant zip.location == location
      invariant zip.entries == ArchiveOf(files[..i], read)
      invariant results == ZipResults(files[..i], read)
    {
      var file := PathOf(files[i]);
      var flag := WriteToZip(zip, file, read(file));
      ArchiveStep(files, i, read);
      ResultsStep(files, i, read);
      results := results + [flag];
      i := i + 1;
    }
    assert files[..i] == files;
    summary := Tally(|files|, results);
  }

  /** Every walked file is handed to `write_to_zip` under its joined path: the
      result at the position `list_all_files` gives file `j` of walk entry `i`
      is the result for that path. */
  lemma ZipVisitsEveryFile(walk: seq<WalkEntry>, i: nat, j: nat, mode: string, read: Path -> Parse)
    requires i < |walk| && j < |walk[i].files|
    ensures var files := Listing(walk, None, mode);
      var k := FileCount(walk[..i]) + j;
      k < |files| && ZipResults(files, read)[k] == ZipFlag(Join(walk[i].root, walk[i].files[j]), read)
  {
    var files := Listing(walk, None, mode);
    var k := FileCount(walk[..i]) + j;
    ListingAt(walk, i, j, None, mode);
    assert PathOf(files[k]) == Join(walk[i].root, walk[i].files[j]);
    assert ZipResults(files, read)[k] == ZipFlag(PathOf(files[k]), read);
  }

  /** The member count of the archive is the DICOM count. */
  lemma {:induction false} ArchiveCount(files: seq<Listed>, read: Path -> Parse)
    ensures |ArchiveOf(files, read)| == Count(ZipResults(files, read), 1)
  {
    if files != [] {
      var init := files[..|files| - 1];
      ArchiveCount(init, read);
      assert ZipResults(files, read)[..|files| - 1] == ZipResults(init, read);
    }
  }

  /** The ZIP summary: the DICOM and non-DICOM counts add up to the number of
      detected files, which is the number of files the walk reported, and the
      DICOM count is the number of archive members. */
  lemma ZipSummaryFacts(walk: seq<WalkEntry>, mode: string, read: Path -> Parse)
    ensures var files := Listing(walk, None, mode);
      var s := Tally(|files|, ZipResults(files, read));
      && s.detected == FileCount(walk)
      && s.dicom + s.nonDicom == s.detected
      && s.dicom == |ArchiveOf(files, read)|
  {
    var files := Listing(walk, None, mode);
    ListingLength(walk, None, mode);
    CountsAddUp(ZipResults(files, read));
    ArchiveCount(files, read);
  }

  // ---------------------------------------------------------------------
  // The folder branch

  /** The tasks the folder branch lists: one per walked file, all carrying the
      target directory and the mode. */
  function FolderTasks(walk: seq<WalkEntry>, target: Path, mode: string): (r: seq<FileTask>)
    ensures |r| == |Listing(walk, Some(target), mode)|
    ensures forall k :: 0 <= k < |r| ==> Listing(walk, Some(target), mode)[k] == Task(r[k])
  {
    var files := Listing(walk, Some(target), mode);
    ListingShape(walk, Some(target), mode);
    seq(|files|, k requires 0 <= k < |files| => files[k].task)
  }

  /** The state reached by placing tasks one after another, the results so far
      and the exception that stopped the run, if one did. */
  datatype Run = Run(fs: Fs, results: seq<int>, error: Option<OsError>)

  /** A run preceded by results already obtained. */
  function Prefixed(done: seq<int>, r: Run): Run
  {
    Run(r.fs, done + r.results, r.error)
  }

  lemma PrefixedTwice(a: seq<int>, b: seq<int>, r: Run)
    ensures Prefixed(a, Prefixed(b, r)) == Prefixed(a + b, r)
  {
    assert a + (b + r.results) == (a + b) + r.results;
  }

  /** `move_dicom_file` over the tasks in order; the first exception ends the
      run. */
  function PlaceAll(fs: Fs, tasks: seq<FileTask>, read: Path -> Parse, replaceExisting: bool): Run
    decreases |tasks|, 1
  {
    if tasks == [] then Run(fs, [], None)
    else PlaceThenRest(fs, tasks[0], tasks[1..], read, replaceExisting)
  }

  /** One task placed, then, unless it raised, the run over the rest. */
  function PlaceThenRest(fs: Fs, task: FileTask, rest: seq<FileTask>, read: Path -> Parse,
                         replaceExisting: bool): Run
    decreases |rest| + 1, 0
  {
    var o := Place(fs, task, read(task.file), replaceExisting);
    match o.result
    case Raised(e) => Run(o.fs, [], Some(e))
    case Returned(f) =>
      Prefixed([f], PlaceAll(o.fs, rest, read, replaceExisting))
  }

  /** The folder branch as a function of the state: create the target, list
      the walk with it, place every task, tally. */
  function FolderRun(fs: Fs, path: Path, walk: seq<WalkEntry>, mode: string,
                     read: Path -> Parse, replaceExisting: bool): After<Report>
  {
    var target := PlanFor(path, false, false, None).output;
    var s0 := DirMakeEffect(fs, target);
    if s0.result.Some? then After(s0.fs, Aborted(s0.result.value))
    else
      var tasks := FolderTasks(walk, target, mode);
      var r := PlaceAll(s0.fs, tasks, read, replaceExisting);
      match r.error
      case Some(e) => After(r.fs, Aborted(e))
      case None => After(r.fs, Completed(Tally(|tasks|, r.results)))
  }

  /** One step of a run: the first task placed, then the rest. */
  lemma PlaceAllStep(fs: Fs, tasks: seq<FileTask>, i: nat, read: Path -> Parse, replaceExisting: bool,
                     o: After<Outcome>)
    requires i < |tasks|
    requires o == Place(fs, tasks[i], read(tasks[i].file), replaceExisting)
    ensures o.result.Raised? ==> PlaceAll(fs, tasks[i..], read, replaceExisting) == Run(o.fs, [], Some(o.result.error))
    ensures o.result.Returned? ==>
      PlaceAll(fs, tasks[i..], read, replaceExisting)
      == Prefixed([o.result.flag], PlaceAll(o.fs, tasks[i + 1..], read, replaceExisting))
  {
    assert tasks[i..][1..] == tasks[i + 1..];
    assert PlaceAll(fs, tasks[i..], read, replaceExisting)
        == PlaceThenRest(fs, tasks[i], tasks[i + 1..], read, replaceExisting);
  }

  /** `move_dicom_file` on the next task, stated as one step of a run. */
  method PlaceNext(fs: FileSystem, tasks: seq<FileTask>, i: nat, read: Path -> Parse, replaceExisting: bool)
    returns (outcome: Outcome)
    requires i < |tasks|
    modifies fs
    ensures outcome.Raised? ==>
      PlaceAll(old(fs.State()), tasks[i..], read, replaceExisting) == Run(fs.State(), [], Some(outcome.error))
    ensures outcome.Returned? ==>
      PlaceAll(old(fs.State()), tasks[i..], read, replaceExisting)
      == Prefixed([outcome.flag], PlaceAll(fs.State(), tasks[i + 1..], read, replaceExisting))
  {
    ghost var before := fs.State();
    outcome := MoveDicomFile(fs, tasks[i], read(tasks[i].file), replaceExisting);
    PlaceAllStep(before, tasks, i, read, replaceExisting, After(fs.State(), outcome));
  }

  /** The pool's work, run sequentially: `move_dicom_file` on each task in
      order until one raises. */
  method PlaceTasks(fs: FileSystem, tasks: seq<FileTask>, read: Path -> Parse, replaceExisting: bool)
    returns (results: seq<int>, error: Option<OsError>)
    modifies fs
    ensures Run(fs.State(), results, error) == PlaceAll(old(fs.State()), tasks, read, replaceExisting)
  {
    ghost var s0 := fs.State();
    results := [];
    var i := 0;
    assert tasks[i..] == tasks;
    assert [] + PlaceAll(s0, tasks, read, replaceExisting).results == PlaceAll(s0, tasks, read, replaceExisting).results;
    while i < |tasks|
      invariant 0 <= i <= |tasks|
      invariant PlaceAll(s0, tasks, read, replaceExisting)
             == Prefixed(results, PlaceAll(fs.State(), tasks[i..], read, replaceExisting))
    {
      var outcome := PlaceNext(fs, tasks, i, read, replaceExisting);
      if outcome.Raised? {
        assert results + [] == results;
        return results, Some(outcome.error);
      }
      PrefixedTwice(results, [outcome.flag], PlaceAll(fs.State(), tasks[i + 1..], read, replaceExisting));
      results := results + [outcome.flag];
      i := i + 1;
    }
    assert tasks[i..] == [];
    assert results + [] == results;
    error := None;
  }

  /** The folder branch, run sequentially: `dir_make` on the target, the
      listing with the target and mode, `move_dicom_file` on each task, the
      tally. `read` stands for `dcmread`. */
  method TranslateToFolder(fs: FileSystem, path: Path, walk: seq<WalkEntry>, mode: string,
                           read: Path -> Parse, replaceExisting: bool)
    returns (report: Report)
    modifies fs
    ensures After(fs.State(), report) == FolderRun(old(fs.State()), path, walk, mode, read, replaceExisting)
  {
    var targetPath := path + "_translated";
    assert targetPath == PlanFor(path, false, false, None).output;
    var err := DirMake(fs, targetPath);
    if err.Some? {
      return Aborted(err.value);
    }
    var files := ListAllFiles(walk, Some(targetPath), mode);
    ListingShape(walk, Some(targetPath), mode);
    var tasks := seq(|files|, k requires 0 <= k < |files| => files[k].task);
    assert tasks == FolderTasks(walk, targetPath, mode);
    var results, error := PlaceTasks(fs, tasks, read, replaceExisting);
    if error.Some? {
      return Aborted(error.value);
    }
    report := Completed(Tally(|files|, results));
  }

  /** Every run yields only 0/1 results, one per task placed; a run that
      completes placed every task. */
  lemma {:induction false} PlaceAllResults(fs: Fs, tasks: seq<FileTask>, read: Path -> Parse, replaceExisting: bool)
    ensures var r := PlaceAll(fs, tasks, read, replaceExisting);
      && |r.results| <= |tasks|
      && (r.error.None? ==> |r.results| == |tasks|)
      && (forall k :: 0 <= k < |r.results| ==> r.results[k] == ZipFlag(tasks[k].file, read))
    decreases |tasks|
  {
    if tasks != [] {
      var o := Place(fs, tasks[0], read(tasks[0].file), replaceExisting);
      assert PlaceAll(fs, tasks, read, replaceExisting)
          == PlaceThenRest(fs, tasks[0], tasks[1..], read, replaceExisting);
      PlaceFlag(fs, tasks[0], read, replaceExisting);
      if o.result.Returned? {
        var rest := PlaceAll(o.fs, tasks[1..], read, replaceExisting);
        var all := PlaceAll(fs, tasks, read, replaceExisting);
        PlaceAllResults(o.fs, tasks[1..], read, replaceExisting);
        assert all == Prefixed([o.result.flag], rest);
        ResultsPrefixed(all, rest, tasks, read);
      }
    }
  }

  /** One flag for the first task in front of a run over the other tasks
      keeps each result the flag of its own task. */
  lemma ResultsPrefixed(all: Run, rest: Run, tasks: seq<FileTask>, read: Path -> Parse)
    requires tasks != []
    requires all == Prefixed([ZipFlag(tasks[0].file, read)], rest)
    requires |rest.results| <= |tasks| - 1 && (rest.error.None? ==> |rest.results| == |tasks| - 1)
    requires forall k :: 0 <= k < |rest.results| ==> rest.results[k] == ZipFlag(tasks[1..][k].file, read)
    ensures |all.results| <= |tasks| && (all.error.None? ==> |all.results| == |tasks|)
    ensures forall k :: 0 <= k < |all.results| ==> all.results[k] == ZipFlag(tasks[k].file, read)
  {
    forall k | 0 <= k < |all.results|
      ensures all.results[k] == ZipFlag(tasks[k].file, read)
    {
      if k > 0 {
        assert all.results[k] == rest.results[k - 1];
        assert tasks[1..][k - 1] == tasks[k];
      }
    }
  }

  /** The result `move_dicom_file` returns for a file is the one
      `write_to_zip` returns for it. */
  lemma PlaceFlag(fs: Fs, task: FileTask, read: Path -> Parse, replaceExisting: bool)
    ensures var o := Place(fs, task, read(task.file), replaceExisting);
      o.result.Returned? ==> o.result.flag == ZipFlag(task.file, read)
  {
    PlaceOutcomes(fs, task, read(task.file), replaceExisting);
    ZipMatchesPlacement(fs, task, read(task.file), replaceExisting);
  }

  /** A completed folder run reports the number of files the walk reported,
      its two counts add up to it, and its results are exactly the results
      the direct-ZIP branch computes for the same files. */
  lemma FolderSummaryFacts(fs: Fs, path: Path, walk: seq<WalkEntry>, mode: string,
                           read: Path -> Parse, replaceExisting: bool)
    ensures var run := FolderRun(fs, path, walk, mode, read, replaceExisting);
      run.result.Completed? ==>
        var s := run.result.summary;
        && s.detected == FileCount(walk)
        && s.dicom + s.nonDicom == s.detected
        && s == Tally(|Listing(walk, None, mode)|, ZipResults(Listing(walk, None, mode), read))
  {
    var target := PlanFor(path, false, false, None).output;
    var s0 := DirMakeEffect(fs, target);
    if s0.result.None? {
      var tasks := FolderTasks(walk, target, mode);
      var r := PlaceAll(s0.fs, tasks, read, replaceExisting);
      PlaceAllResults(s0.fs, tasks, read, replaceExisting);
      ListingLength(walk, Some(target), mode);
      ListingSamePaths(walk, target, mode, mode);
      if r.error.None? {
        CountsAddUp(r.results);
        assert r.results == ZipResults(Listing(walk, None, mode), read);
      }
    }
  }
}
