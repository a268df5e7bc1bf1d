/** What the placement promises: the shape of each derived level, and what
    `dir_make` and `move_dicom_file` do to the filesystem. */
module SavingFacts {
  import opened Common
  import opened PyText
  import opened PosixPath
  import opened DicomNaming
  import opened Saving

  // ---------------------------------------------------------------------
  // The derived levels

  /** The sanitised patient name holds no `^` and no unit separator, and an
      absent PatientName becomes `UnknownName`. */
  lemma PatientNameClean(ds: DataSet)
    ensures '^' !in PatientName(ds) && '\U{1F}' !in PatientName(ds)
    ensures ds.patientName.None? ==> PatientName(ds) == UnknownName
  {
    match ds.patientName
    case None =>
    case Some(n) =>
      var n1 := ReplaceAll(n, "^^^", "");
      var n2 := ReplaceAll(n1, "^", "_");
      var n3 := ReplaceAll(n2, "\U{1F}", "");
      ReplaceAllRemoves(n1, '^', "_");
      ReplaceAllRemoves(n2, '\U{1F}', "");
      if '^' in n3 {
        ReplaceAllChars(n2, "\U{1F}", "", '^');
      }
  }

  /** Every character of PatientName other than `^` and the unit separator
      survives. */
  lemma PatientNameKeeps(ds: DataSet, x: char)
    requires ds.patientName.Some? && x in ds.patientName.value
    requires x != '^' && x != '\U{1F}'
    ensures x in PatientName(ds)
  {
    var n := ds.patientName.value;
    var n1 := ReplaceAll(n, "^^^", "");
    var n2 := ReplaceAll(n1, "^", "_");
    ReplaceAllKeeps(n, "^^^", "", x);
    ReplaceAllKeeps(n1, "^", "_", x);
    ReplaceAllKeeps(n2, "\U{1F}", "", x);
  }

  /** A PatientName without `^` and unit separator is kept as it is. */
  lemma PatientNamePlain(ds: DataSet)
    requires ds.patientName.Some?
    requires '^' !in ds.patientName.value && '\U{1F}' !in ds.patientName.value
    ensures PatientName(ds) == ds.patientName.value
  {
    var n := ds.patientName.value;
    ReplaceAllUnchanged(n, "^^^", "", 0);
    ReplaceAllUnchanged(n, "^", "_", 0);
    ReplaceAllUnchanged(n, "\U{1F}", "", 0);
  }

  /** Without a `^^^` run and a unit separator, each `^` of PatientName becomes
      `_` and every other character stays in place. */
  lemma PatientNameCarets(ds: DataSet)
    requires ds.patientName.Some?
    requires forall i: nat :: !OccursAt(ds.patientName.value, "^^^", i)
    requires '\U{1F}' !in ds.patientName.value
    ensures var n := ds.patientName.value;
      && |PatientName(ds)| == |n|
      && forall k :: 0 <= k < |n| ==> PatientName(ds)[k] == (if n[k] == '^' then '_' else n[k])
  {
    var n := ds.patientName.value;
    ReplaceAllAbsent(n, "^^^", "");
    var n2 := ReplaceAll(n, "^", "_");
    ReplaceCharPointwise(n, '^', '_');
    if '\U{1F}' in n2 {
      ReplaceAllChars(n, "^", "_", '\U{1F}');
    }
    ReplaceAllUnchanged(n2, "\U{1F}", "", 0);
  }

  /** Family and given name separated by one `^` are joined by `_`. */
  lemma PatientNameCaret(ds: DataSet, a: string, b: string)
    requires ds.patientName == Some(a + "^" + b)
    requires '^' !in a && '^' !in b && '\U{1F}' !in a && '\U{1F}' !in b
    ensures PatientName(ds) == a + "_" + b
  {
    var n := a + "^" + b;
    forall i: nat
      ensures !OccursAt(n, "^^^", i)
    {
      if i + 3 <= |n| {
        assert n[i..i + 3][0] == n[i] && n[i..i + 3][1] == n[i + 1];
      }
    }
    PatientNameCarets(ds);
    var r := a + "_" + b;
    forall k | 0 <= k < |n|
      ensures PatientName(ds)[k] == r[k]
    {
      if k < |a| {
        assert n[k] == a[k] && r[k] == a[k];
      } else if k > |a| {
        assert n[k] == b[k - |a| - 1] && r[k] == b[k - |a| - 1];
      }
    }
  }

  /** `DOE^JOHN` becomes `DOE_JOHN`. */
  lemma PatientNameExample(ds: DataSet)
    requires ds.patientName == Some("DOE^JOHN")
    ensures PatientName(ds) == "DOE_JOHN"
  {
    var a, b := "DOE", "JOHN";
    assert "DOE^JOHN" == a + "^" + b;
    assert "DOE_JOHN" == a + "_" + b;
    PatientNameCaret(ds, a, b);
  }

  /** A `^^^` run between two caret-free parts is deleted whole. */
  lemma PatientNameRunDropped(ds: DataSet, a: string, b: string)
    requires ds.patientName == Some(a + "^^^" + b)
    requires '^' !in a && '^' !in b && '\U{1F}' !in a && '\U{1F}' !in b
    ensures PatientName(ds) == a + b
  {
    RunDeleted(a, b);
    ReplaceAllUnchanged(a + b, "^", "_", 0);
    ReplaceAllUnchanged(a + b, "\U{1F}", "", 0);
  }

  lemma RunDeleted(a: string, b: string)
    requires '^' !in a && '^' !in b
    ensures ReplaceAll(a + "^^^" + b, "^^^", "") == a + b
  {
    ReplaceAllAfter(a, "^^^", b, "");
    ReplaceAllUnchanged(b, "^^^", "", 0);
  }

  /** In a caret-free PatientName only the unit separators are deleted. */
  lemma PatientNameUnitSep(ds: DataSet)
    requires ds.patientName.Some? && '^' !in ds.patientName.value
    ensures PatientName(ds) == Delete(ds.patientName.value, '\U{1F}')
  {
    var n := ds.patientName.value;
    ReplaceAllUnchanged(n, "^^^", "", 0);
    ReplaceAllUnchanged(n, "^", "_", 0);
    ReplaceAllDeletes(n, '\U{1F}');
  }

  /** The patient id: same length as PatientID, each `:` turned into `_` and
      every other character kept; `NA` when absent; never a `:`. */
  lemma PatientIdShape(ds: DataSet)
    ensures ':' !in PatientId(ds)
    ensures ds.patientId.None? ==> PatientId(ds) == DefaultPatientId
    ensures ds.patientId.Some? ==>
      var i := ds.patientId.value;
      |PatientId(ds)| == |i| &&
      forall k :: 0 <= k < |i| ==> PatientId(ds)[k] == (if i[k] == ':' then '_' else i[k])
  {
    match ds.patientId
    case None =>
    case Some(i) =>
      ReplaceCharPointwise(i, ':', '_');
      ReplaceAllRemoves(i, ':', "_");
  }

  /** The text before the first `.` holds no `.`. */
  lemma BeforeDotPlain(t: string)
    ensures '.' !in BeforeFirst(t, ".")
  {
    var b := BeforeFirst(t, ".");
    forall j | 0 <= j < |b|
      ensures b[j] != '.'
    {
      assert !OccursAt(t, ".", j);
      assert t[j..j + 1] == [t[j]];
    }
  }

  /** The default StudyTime cuts to seven zeros. */
  lemma DefaultTimeCut()
    ensures BeforeFirst(DefaultStudyTime, ".") == "0000000"
  {
    var t := DefaultStudyTime;
    forall j | 0 <= j < 7
      ensures !OccursAt(t, ".", j)
    {
      assert t[j..j + 1] == [t[j]];
    }
    assert t[7..8] == ".";
    BeforeFirstAt(t, ".", 7);
  }

  /** Without a StudyTime the time part is four zeros. */
  lemma DefaultTimePart(ds: DataSet)
    requires ds.studyTime.None?
    ensures StudyTimePart(ds) == "0000"
  {
    DefaultTimeCut();
    assert Take("0000000", 4) == "0000";
  }

  /** Without StudyDate and StudyTime the date level is `0000000_0000`. */
  lemma DefaultDateDir(ds: DataSet)
    requires ds.studyDate.None? && ds.studyTime.None?
    ensures DateDir(ds) == "0000000_0000"
  {
    DefaultTimePart(ds);
    DefaultDateText(StudyTimePart(ds));
  }

  /** The default StudyDate followed by the default time part. */
  lemma DefaultDateText(part: string)
    requires part == "0000"
    ensures DefaultStudyDate + "_" + part == "0000000_0000"
  {
  }

  /** The date level is StudyDate, `_`, and the first min(4, k) characters
      of StudyTime, where k is the position of its first `.` (its length when
      it has none); with both fields absent it is `0000000_0000`. */
  lemma DateDirShape(ds: DataSet)
    ensures |StudyTimePart(ds)| <= 4 && '.' !in StudyTimePart(ds)
    ensures ds.studyTime.Some? ==>
      var t := ds.studyTime.value;
      var k := |BeforeFirst(t, ".")|;
      && k <= |t| && '.' !in t[..k] && (k == |t| || t[k] == '.')
      && StudyTimePart(ds) == t[..if k < 4 then k else 4]
    ensures ds.studyDate.Some? ==> DateDir(ds) == ds.studyDate.value + "_" + StudyTimePart(ds)
    ensures ds.studyDate.None? && ds.studyTime.None? ==> DateDir(ds) == "0000000_0000"
  {
    var t := match ds.studyTime case Some(t) => t case None => DefaultStudyTime;
    TimePartShape(t);
    if ds.studyDate.None? && ds.studyTime.None? {
      DefaultDateDir(ds);
    }
  }

  /** The time text before the first `.`, cut to four characters: exactly
      the first min(4, k) characters of the time, where k is the position of
      its first `.` or its length when it has none. */
  lemma TimePartShape(t: string)
    ensures var b := BeforeFirst(t, ".");
      var r := Take(b, 4);
      && |b| <= |t| && '.' !in b && (|b| == |t| || t[|b|] == '.')
      && |r| == (if |b| < 4 then |b| else 4)
      && '.' !in r && r == t[..|r|]
  {
    BeforeDotPlain(t);
    var b := BeforeFirst(t, ".");
    var r := Take(b, 4);
    if |b| < |t| {
      assert OccursAt(t, ".", |b|);
      assert t[|b|..|b| + 1] == [t[|b|]];
    }
    assert forall j :: 0 <= j < |r| ==> r[j] == b[j];
  }

  /** A StudyTime with fractional seconds, `093000.5`, gives the time part
      `0930`. */
  lemma StudyTimeExample(ds: DataSet)
    requires ds.studyTime == Some("093000.5")
    ensures StudyTimePart(ds) == "0930"
  {
    var t := ds.studyTime.value;
    assert t[..6] == "093000" && t[6] == '.';
    TimeCutAt(t, 6);
    CutText(t[..6]);
  }

  /** The time part of a StudyTime whose first `.` is at `n`. */
  lemma TimeCutAt(t: string, n: nat)
    requires n < |t| && t[n] == '.' && '.' !in t[..n]
    ensures Take(BeforeFirst(t, "."), 4) == Take(t[..n], 4)
  {
    forall j | 0 <= j < n
      ensures !OccursAt(t, ".", j)
    {
      assert t[..n][j] == t[j];
      OccursChar(t, '.', j);
    }
    OccursChar(t, '.', n);
    BeforeFirstAt(t, ".", n);
  }

  /** The first four characters of `093000`. */
  lemma CutText(s: string)
    requires s == "093000"
    ensures Take(s, 4) == "0930"
  {
  }

  /** Neither `<` nor `>` survives in the series level or the file name. */
  lemma FileNameClean(ds: DataSet)
    ensures '<' !in FileName(ds) && '>' !in FileName(ds)
  {
    var r1 := ReplaceAll(RenameDicomFile(ds), "<", "");
    ReplaceAllRemoves(RenameDicomFile(ds), '<', "");
    ReplaceAllRemoves(r1, '>', "");
    if '<' in FileName(ds) {
      ReplaceAllChars(r1, ">", "", '<');
    }
  }

  lemma StripAnglesConcat(a: string, b: string)
    ensures StripAngles(a + b) == StripAngles(a) + StripAngles(b)
  {
    ReplaceAllConcat(a, b, '<', "");
    ReplaceAllConcat(ReplaceAll(a, "<", ""), ReplaceAll(b, "<", ""), '>', "");
  }

  lemma StripAnglesKeeps(s: string)
    requires '<' !in s && '>' !in s
    ensures StripAngles(s) == s
  {
    ReplaceAllUnchanged(s, "<", "", 0);
    ReplaceAllUnchanged(s, ">", "", 0);
  }

  /** Stripping adds no `/` and keeps any other character present. */
  lemma StripAnglesChars(s: string, x: char)
    ensures '/' !in s ==> '/' !in StripAngles(s)
    ensures x in s && x != '<' && x != '>' ==> x in StripAngles(s)
  {
    var s1 := ReplaceAll(s, "<", "");
    if '/' in StripAngles(s) {
      ReplaceAllChars(s1, ">", "", '/');
      ReplaceAllChars(s, "<", "", '/');
    }
    if x in s && x != '<' && x != '>' {
      ReplaceAllKeeps(s, "<", "", x);
      ReplaceAllKeeps(s1, ">", "", x);
    }
  }

  /** Both components of `rename_dicom_file` stay plain and non-empty. */
  lemma ComponentsSurvive(ds: DataSet)
    requires ds.seriesInstanceUid.None? || '/' !in ds.seriesInstanceUid.value
    ensures StripAngles(SeriesDirName(ds)) != [] && '/' !in StripAngles(SeriesDirName(ds))
    ensures StripAngles(InstanceFileName(ds)) != [] && '/' !in StripAngles(InstanceFileName(ds))
  {
    RenameComponents(ds);
    var a := SeriesDirName(ds);
    var b := InstanceFileName(ds);
    assert a[|SeriesLabel(ds.seriesNumber)|] == '_';
    assert b[|b| - 4] == '.';
    StripAnglesChars(a, '_');
    StripAnglesChars(b, '.');
  }

  /** With a UID free of `/`, the series level and the file name of
      `rename_dicom_file` survive the `<`/`>` stripping as two plain, non-empty
      path components. */
  lemma FileNameSplit(ds: DataSet)
    requires ds.seriesInstanceUid.None? || '/' !in ds.seriesInstanceUid.value
    ensures var dir := StripAngles(SeriesDirName(ds));
            var base := StripAngles(InstanceFileName(ds));
            && dir != [] && '/' !in dir
            && base != [] && '/' !in base
            && FileName(ds) == dir + "/" + base
            && FileName(ds) == Join(dir, base)
            && Dirname(FileName(ds)) == dir
  {
    RenameComponents(ds);
    ComponentsSurvive(ds);
    var a := SeriesDirName(ds);
    var b := InstanceFileName(ds);
    StripAroundSlash(a, b);
    PlainPair(StripAngles(a), StripAngles(b));
  }

  /** Stripping a path of two components strips each component. */
  lemma StripAroundSlash(a: string, b: string)
    ensures StripAngles(a + "/" + b) == StripAngles(a) + "/" + StripAngles(b)
  {
    StripAnglesConcat(a, "/");
    StripAnglesConcat(a + "/", b);
    StripAnglesKeeps("/");
  }

  // ---------------------------------------------------------------------
  // `dir_make` and `move_dicom_file`

  /** `dir_make` is idempotent: a second call changes nothing and gives back
      what the first gave. On an existing directory (or file) it changes
      nothing and raises nothing; otherwise, below an existing directory, it
      adds exactly that directory; any error it lets through leaves the state
      as it was. */
  lemma DirMakeIdempotent(fs: Fs, p: Path)
    ensures DirMakeEffect(DirMakeEffect(fs, p).fs, p) == DirMakeEffect(fs, p)
    ensures p in fs.dirs || p in fs.files ==> DirMakeEffect(fs, p) == After(fs, None)
    ensures p !in fs.dirs && p !in fs.files && p != "" && ParentError(fs, p).None? ==>
      DirMakeEffect(fs, p) == After(Fs(fs.dirs + {p}, fs.files), None)
    ensures DirMakeEffect(fs, p).result.Some? ==>
      DirMakeEffect(fs, p).fs == fs && !DirMakeEffect(fs, p).result.value.FileExists?
    ensures DirMakeEffect(fs, p).fs.files == fs.files
    ensures fs.dirs <= DirMakeEffect(fs, p).fs.dirs <= fs.dirs + {p}
    ensures WellFormed(fs) ==> WellFormed(DirMakeEffect(fs, p).fs)
  {
  }

  /** Files and directories untouched except at `a`, `b` and `c`. */
  ghost predicate SameFilesExcept(before: map<Path, Bytes>, after: map<Path, Bytes>, a: Path, b: Path, c: Path)
  {
    forall q :: q != a && q != b && q != c ==>
      (q in after <==> q in before) && (q in before ==> after[q] == before[q])
  }

  /** The transfer step never touches directories, changes nothing when it
      raises, and writes only the source, the destination, and (for a copy
      into an existing directory) the file of that name inside it. */
  lemma TransferFrame(fs: Fs, task: FileTask, dest: Path, replaceExisting: bool)
    ensures var s := TransferEffect(fs, task, dest, replaceExisting);
      && s.fs.dirs == fs.dirs
      && (s.result.Some? ==> s.fs == fs)
      && (WellFormed(fs) ==> WellFormed(s.fs))
      && SameFilesExcept(fs.files, s.fs.files, task.file, dest, Join(dest, Basename(task.file)))
  {
  }

  /** The steps, whatever the paths: they return 1 or raise, raise with every
      file as it was, add no directory but the three levels, and write no
      file but the source and the destination. */
  lemma StepsFrame(fs: Fs, task: FileTask, p1: Path, p2: Path, p3: Path, dest: Path, replaceExisting: bool)
    ensures var r := Steps(fs, task, p1, p2, p3, dest, replaceExisting);
      && (r.result == Returned(1) || r.result.Raised?)
      && (r.result.Raised? ==> r.fs.files == fs.files)
      && (WellFormed(fs) ==> WellFormed(r.fs))
      && fs.dirs <= r.fs.dirs <= fs.dirs + {p1, p2, p3}
      && SameFilesExcept(fs.files, r.fs.files, task.file, dest, Join(dest, Basename(task.file)))
  {
    var s1 := DirMakeEffect(fs, p1);
    DirMakeIdempotent(fs, p1);
    if s1.result.None? {
      var s2 := DirMakeEffect(s1.fs, p2);
      DirMakeIdempotent(s1.fs, p2);
      if s2.result.None? {
        var s3 := DirMakeEffect(s2.fs, p3);
        DirMakeIdempotent(s2.fs, p3);
        if s3.result.None? {
          assert s3.fs.files == fs.files;
          assert fs.dirs <= s3.fs.dirs <= fs.dirs + {p1, p2, p3};
          TransferFrame(s3.fs, task, dest, replaceExisting);
        }
      }
    }
  }

  /** Placement of a dataset with a usable name: every state it may stop in. */
  lemma PlaceDicomFrame(fs: Fs, task: FileTask, ds: DataSet, replaceExisting: bool)
    requires PatientName(ds) != UnknownName
    ensures var r := Place(fs, task, Dicom(ds), replaceExisting);
      var t := task.targetDir;
      var dest := Destination(t, ds);
      && (r.result == Returned(1) || r.result.Raised?)
      && (r.result.Raised? ==> r.fs.files == fs.files)
      && (WellFormed(fs) ==> WellFormed(r.fs))
      && fs.dirs <= r.fs.dirs <= fs.dirs + {PatientPath(t, ds), DatePath(t, ds), SeriesPath(t, ds)}
      && SameFilesExcept(fs.files, r.fs.files, task.file, dest, Join(dest, Basename(task.file)))
  {
    var t := task.targetDir;
    StepsFrame(fs, task, PatientPath(t, ds), DatePath(t, ds), SeriesPath(t, ds), Destination(t, ds), replaceExisting);
  }


  /** The outcomes of `move_dicom_file`: it returns 0 or 1, or raises; it
      returns 0 exactly for a non-DICOM file or a name that sanitises to
      `UnknownName`, and then the filesystem is untouched; an exception leaves
      every file as it was; the only directories it may add are the three
      levels; no file other than the source and the destination changes. */
  lemma PlaceOutcomes(fs: Fs, task: FileTask, parsed: Parse, replaceExisting: bool)
    ensures var r := Place(fs, task, parsed, replaceExisting);
      && (r.result.Returned? ==> r.result.flag == 0 || r.result.flag == 1)
      && (r.result == Returned(0) <==> parsed.InvalidDicom? || PatientName(parsed.ds) == UnknownName)
      && (r.result == Returned(0) ==> r.fs == fs)
      && (r.result.Raised? ==> r.fs.files == fs.files)
      && (WellFormed(fs) ==> WellFormed(r.fs))
    ensures parsed.Dicom? ==>
      var r := Place(fs, task, parsed, replaceExisting);
      var t := task.targetDir;
      var ds := parsed.ds;
      var dest := Destination(t, ds);
      && fs.dirs <= r.fs.dirs <= fs.dirs + {PatientPath(t, ds), DatePath(t, ds), SeriesPath(t, ds)}
      && SameFilesExcept(fs.files, r.fs.files, task.file, dest, Join(dest, Basename(task.file)))
  {
    if parsed.Dicom? && PatientName(parsed.ds) != UnknownName {
      PlaceDicomFrame(fs, task, parsed.ds, replaceExisting);
    }
  }

  /** `dir_make` of a path whose parent is an existing directory (or the
      working directory) and that is no regular file adds exactly that path. */
  lemma DirMakeBelow(fs: Fs, p: Path)
    requires p != [] && p !in fs.files
    requires Dirname(p) == [] || Dirname(p) in fs.dirs
    ensures DirMakeEffect(fs, p) == After(Fs(fs.dirs + {p}, fs.files), None)
  {
    if p in fs.dirs {
      assert fs.dirs + {p} == fs.dirs;
    }
  }

  /** A directory level joined from a plain name is created below `parent`. */
  lemma LevelBelow(fs: Fs, parent: Path, name: string)
    requires name != [] && '/' !in name
    requires parent == [] || parent[|parent| - 1] != '/'
    requires parent == [] || parent in fs.dirs
    requires Join(parent, name) !in fs.files
    ensures DirMakeEffect(fs, Join(parent, name)) == After(Fs(fs.dirs + {Join(parent, name)}, fs.files), None)
    ensures Join(parent, name)[|Join(parent, name)| - 1] != '/'
    ensures |Join(parent, name)| > |parent|
  {
    SplitJoin(parent, name);
    JoinPlainName(parent, name);
    assert name[|name| - 1] in name;
    DirMakeBelow(fs, Join(parent, name));
  }

  /** Three nested levels, each a plain name joined below the one before:
      below an existing directory and with no regular file in their way, the
      three `dir_make` calls add exactly those three and raise nothing. */
  lemma ThreeLevels(fs: Fs, t: Path, n1: string, n2: string, n3: string)
    requires t == [] || (t in fs.dirs && t[|t| - 1] != '/')
    requires n1 != [] && '/' !in n1 && n2 != [] && '/' !in n2 && n3 != [] && '/' !in n3
    requires Join(t, n1) !in fs.files && Join(Join(t, n1), n2) !in fs.files
    requires Join(Join(Join(t, n1), n2), n3) !in fs.files
    ensures var p1 := Join(t, n1);
      var p2 := Join(p1, n2);
      var p3 := Join(p2, n3);
      var s1 := DirMakeEffect(fs, p1);
      var s2 := DirMakeEffect(s1.fs, p2);
      var s3 := DirMakeEffect(s2.fs, p3);
      && s1.result.None? && s2.result.None? && s3.result.None?
      && s3.fs == Fs(fs.dirs + {p1, p2, p3}, fs.files)
      && p3[|p3| - 1] != '/'
      && |p1| < |p2| < |p3|
  {
    var p1 := Join(t, n1);
    var p2 := Join(p1, n2);
    LevelBelow(fs, t, n1);
    var fs1 := Fs(fs.dirs + {p1}, fs.files);
    LevelBelow(fs1, p1, n2);
    var fs2 := Fs(fs1.dirs + {p2}, fs.files);
    LevelBelow(fs2, p2, n3);
  }

  /** The file name joined below the date level is the base name joined below
      the series level. */
  lemma DestinationInSeries(t: Path, ds: DataSet)
    requires ds.seriesInstanceUid.None? || '/' !in ds.seriesInstanceUid.value
    ensures Destination(t, ds) == Join(SeriesPath(t, ds), StripAngles(InstanceFileName(ds)))
  {
    FileNameSplit(ds);
    var dir := StripAngles(SeriesDirName(ds));
    var base := StripAngles(InstanceFileName(ds));
    JoinAssoc(DatePath(t, ds), dir, base);
  }

  /** The transfer into an existing series directory: a copy lands beside the
      kept source; a rename moves it, unless the destination exists and the
      platform refuses to replace it, when nothing changes. */
  lemma TransferLands(fs: Fs, task: FileTask, dest: Path, replaceExisting: bool)
    requires Dirname(dest) == "" || Dirname(dest) in fs.dirs
    requires task.file in fs.files
    requires task.file != dest && dest !in fs.dirs
    ensures var s := TransferEffect(fs, task, dest, replaceExisting);
      && s.result.None?
      && s.fs.dirs == fs.dirs
      && s.fs.files == (if task.mode == "COPY" then fs.files[dest := fs.files[task.file]]
                        else if replaceExisting || dest !in fs.files
                        then (fs.files - {task.file})[dest := fs.files[task.file]]
                        else fs.files)
  {
  }

  /** The steps succeed below an existing target when the three levels and
      the file name are plain names. */
  lemma StepsLand(fs: Fs, task: FileTask, t: Path, n1: string, n2: string, n3: string, base: string, replaceExisting: bool)
    requires t == [] || (t in fs.dirs && t[|t| - 1] != '/')
    requires n1 != [] && '/' !in n1 && n2 != [] && '/' !in n2 && n3 != [] && '/' !in n3
    requires base != [] && '/' !in base
    requires Join(t, n1) !in fs.files && Join(Join(t, n1), n2) !in fs.files
    requires Join(Join(Join(t, n1), n2), n3) !in fs.files
    requires task.file in fs.files
    requires task.file != Join(Join(Join(Join(t, n1), n2), n3), base)
    requires Join(Join(Join(Join(t, n1), n2), n3), base) !in fs.dirs
    ensures var p1 := Join(t, n1);
      var p2 := Join(p1, n2);
      var p3 := Join(p2, n3);
      var dest := Join(p3, base);
      var r := Steps(fs, task, p1, p2, p3, dest, replaceExisting);
      && r.result == Returned(1)
      && r.fs.dirs == fs.dirs + {p1, p2, p3}
      && r.fs.files == (if task.mode == "COPY" then fs.files[dest := fs.files[task.file]]
                        else if replaceExisting || dest !in fs.files
                        then (fs.files - {task.file})[dest := fs.files[task.file]]
                        else fs.files)
  {
    var p1 := Join(t, n1);
    var p2 := Join(p1, n2);
    var p3 := Join(p2, n3);
    var dest := Join(p3, base);
    ThreeLevels(fs, t, n1, n2, n3);
    SplitJoin(p3, base);
    JoinPlainName(p3, base);
    StepsAt(fs, task, p1, p2, p3, dest, replaceExisting);
  }

  /** Once the three levels are made, the transfer to a name directly below
      the last one completes the steps. */
  lemma StepsAt(fs: Fs, task: FileTask, p1: Path, p2: Path, p3: Path, dest: Path, replaceExisting: bool)
    requires var s1 := DirMakeEffect(fs, p1);
      var s2 := DirMakeEffect(s1.fs, p2);
      var s3 := DirMakeEffect(s2.fs, p3);
      && s1.result.None? && s2.result.None? && s3.result.None?
      && s3.fs == Fs(fs.dirs + {p1, p2, p3}, fs.files)
    requires |p1| < |p2| < |p3| < |dest| && Dirname(dest) == p3
    requires task.file in fs.files && task.file != dest && dest !in fs.dirs
    ensures var r := Steps(fs, task, p1, p2, p3, dest, replaceExisting);
      && r.result == Returned(1)
      && r.fs.dirs == fs.dirs + {p1, p2, p3}
      && r.fs.files == (if task.mode == "COPY" then fs.files[dest := fs.files[task.file]]
                        else if replaceExisting || dest !in fs.files
                        then (fs.files - {task.file})[dest := fs.files[task.file]]
                        else fs.files)
  {
    var fs3 := Fs(fs.dirs + {p1, p2, p3}, fs.files);
    TransferLands(fs3, task, dest, replaceExisting);
    StepsThrough(fs, task, p1, p2, p3, dest, replaceExisting, fs3);
  }

  /** When the three `dir_make` calls raise nothing, the steps end with the
      transfer. */
  lemma StepsThrough(fs: Fs, task: FileTask, p1: Path, p2: Path, p3: Path, dest: Path, replaceExisting: bool,
                     fs3: Fs)
    requires var s1 := DirMakeEffect(fs, p1);
      var s2 := DirMakeEffect(s1.fs, p2);
      var s3 := DirMakeEffect(s2.fs, p3);
      s1.result.None? && s2.result.None? && s3.result.None? && s3.fs == fs3
    requires TransferEffect(fs3, task, dest, replaceExisting).result.None?
    ensures Steps(fs, task, p1, p2, p3, dest, replaceExisting) ==
      After(TransferEffect(fs3, task, dest, replaceExisting).fs, Returned(1))
  {
  }

  /** The success case: below an existing target directory, with plain patient
      and date levels, a UID free of `/`, no regular file in the way of the
      three levels, and the source present, `move_dicom_file` returns 1, has
      created exactly the patient, date and series directories, and the file
      is at target/name_id/date_time/series/file: a copy beside the kept
      source in COPY mode, moved there otherwise (or left where it was when
      the destination exists and the platform refuses to replace it). */
  lemma PlaceLandsAtDestination(fs: Fs, task: FileTask, ds: DataSet, replaceExisting: bool)
    requires PatientName(ds) != UnknownName
    requires task.targetDir == [] || (task.targetDir in fs.dirs && task.targetDir[|task.targetDir| - 1] != '/')
    requires '/' !in PatientDir(ds) && '/' !in DateDir(ds)
    requires ds.seriesInstanceUid.None? || '/' !in ds.seriesInstanceUid.value
    requires PatientPath(task.targetDir, ds) !in fs.files
    requires DatePath(task.targetDir, ds) !in fs.files
    requires SeriesPath(task.targetDir, ds) !in fs.files
    requires task.file in fs.files
    requires task.file != Destination(task.targetDir, ds)
    requires Destination(task.targetDir, ds) !in fs.dirs
    ensures var t := task.targetDir;
      var dest := Destination(t, ds);
      var r := Place(fs, task, Dicom(ds), replaceExisting);
      && r.result == Returned(1)
      && r.fs.dirs == fs.dirs + {PatientPath(t, ds), DatePath(t, ds), SeriesPath(t, ds)}
      && r.fs.files == (if task.mode == "COPY" then fs.files[dest := fs.files[task.file]]
                        else if replaceExisting || dest !in fs.files
                        then (fs.files - {task.file})[dest := fs.files[task.file]]
                        else fs.files)
  {
    var t := task.targetDir;
    assert PatientDir(ds) != [] by {
      assert PatientDir(ds)[|PatientName(ds)|] == '_';
    }
    assert DateDir(ds) != [];
    FileNameSplit(ds);
    DestinationInSeries(t, ds);
    StepsLand(fs, task, t, PatientDir(ds), DateDir(ds), Dirname(FileName(ds)),
              StripAngles(InstanceFileName(ds)), replaceExisting);
  }
}
