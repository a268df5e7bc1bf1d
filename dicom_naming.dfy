/** The series tag and the two-level file name derived from a parsed DICOM
    dataset (`extract_series` and `rename_dicom_file`). */
module DicomNaming {
  import opened Common
  import opened PyText
  import opened PosixPath

  /** An integer-string (IS) attribute as the code sees it: not in the dataset,
      in the dataset with no value (`None`), or an integer. */
  datatype IntField = Absent | NoValue | Value(n: int)

  /** The attributes of a parsed dataset that the naming rule reads. A string
      field holds the `str()` rendering of the attribute when it is present. */
  datatype DataSet = DataSet(
    patientName: Option<string>,
    patientId: Option<string>,
    studyDate: Option<string>,
    studyTime: Option<string>,
    seriesNumber: IntField,
    seriesDescription: Option<string>,
    seriesInstanceUid: Option<string>,
    instanceNumber: IntField)

  const NoSeriesDescription: string := "NoSeriesDescription"
  const DefaultUidPart: string := "0042"
  const UidCut: string := ".0.0"

  /** None of the characters the description cleaning removes. */
  predicate Cleaned(s: string)
  {
    ':' !in s && ' ' !in s && '.' !in s && '/' !in s
  }

  /** The replace chain every description goes through: spaces, then `d.v.`,
      then dots, then slashes are deleted. */
  function Scrub(s: string): string
  {
    ReplaceAll(ReplaceAll(ReplaceAll(ReplaceAll(s, " ", ""), "d.v.", ""), ".", ""), "/", "")
  }

  /** The description half of the series tag: colons are deleted from a present
      SeriesDescription, the default is `NoSeriesDescription`, and both go
      through `Scrub`. */
  function DescriptionPart(ds: DataSet): string
  {
    var d := match ds.seriesDescription
      case Some(s) => ReplaceAll(s, ":", "")
      case None => NoSeriesDescription;
    Scrub(d)
  }

  /** The UID half of the series tag: the last five characters of the text
      before the first `.0.0` of SeriesInstanceUID, or `0042`. */
  function UidPart(ds: DataSet): string
  {
    match ds.seriesInstanceUid
    case Some(u) => TakeLast(BeforeFirst(u, UidCut), 5)
    case None => DefaultUidPart
  }

  /** `extract_series`: description and UID part joined by one `_`. */
  function ExtractSeries(ds: DataSet): string
  {
    DescriptionPart(ds) + "_" + UidPart(ds)
  }

  /** `str(Series)`: a missing SeriesNumber counts as 0, an empty one prints
      as `None`. */
  function SeriesLabel(f: IntField): string
  {
    match f
    case Absent => IntToString(0)
    case NoValue => "None"
    case Value(n) => IntToString(n)
  }

  /** The zero padding of InstanceNumber to five characters. */
  function PaddedNumber(n: int): string
  {
    if n < 10 then "0000" + IntToString(n)
    else if n < 100 then "000" + IntToString(n)
    else if n < 1000 then "00" + IntToString(n)
    else if n < 10000 then "0" + IntToString(n)
    else IntToString(n)
  }

  /** `SL`: a missing InstanceNumber counts as 0, an empty one gives `0`. */
  function InstanceLabel(f: IntField): string
  {
    match f
    case Absent => PaddedNumber(0)
    case NoValue => "0"
    case Value(n) => PaddedNumber(n)
  }

  /** First component of the name: `<SeriesNumber>_<tag>`. */
  function SeriesDirName(ds: DataSet): string
  {
    SeriesLabel(ds.seriesNumber) + "_" + ExtractSeries(ds)
  }

  /** Second component of the name: `<tag>_dyn_<SL>.dcm`. */
  function InstanceFileName(ds: DataSet): string
  {
    ExtractSeries(ds) + "_dyn_" + InstanceLabel(ds.instanceNumber) + ".dcm"
  }

  /** `rename_dicom_file`: `os.path.join` of the two components. */
  function RenameDicomFile(ds: DataSet): string
  {
    Join(SeriesDirName(ds), InstanceFileName(ds))
  }

  // ---------------------------------------------------------------------
  // Properties of the series tag

  /** `Scrub` deletes every space, dot and slash, and keeps everything it does
      not delete: it never introduces a character. */
  lemma ScrubCleans(s: string)
    ensures ' ' !in Scrub(s) && '.' !in Scrub(s) && '/' !in Scrub(s)
    ensures forall c :: c in Scrub(s) ==> c in s
  {
    var s1 := ReplaceAll(s, " ", "");
    var s2 := ReplaceAll(s1, "d.v.", "");
    var s3 := ReplaceAll(s2, ".", "");
    var s4 := ReplaceAll(s3, "/", "");
    ReplaceAllRemoves(s, ' ', "");
    ReplaceAllRemoves(s2, '.', "");
    ReplaceAllRemoves(s3, '/', "");
    forall c | c in s4
      ensures c in s && c != ' ' && c != '.'
    {
      ReplaceAllChars(s3, "/", "", c);
      ReplaceAllChars(s2, ".", "", c);
      ReplaceAllChars(s1, "d.v.", "", c);
      ReplaceAllChars(s, " ", "", c);
    }
  }

  /** `Scrub` keeps every character that none of its patterns contains. */
  lemma ScrubKeeps(s: string, x: char)
    requires x in s && x != ' ' && x != '.' && x != '/' && x != 'd' && x != 'v'
    ensures x in Scrub(s)
  {
    var s1 := ReplaceAll(s, " ", "");
    var s2 := ReplaceAll(s1, "d.v.", "");
    var s3 := ReplaceAll(s2, ".", "");
    ReplaceAllKeeps(s, " ", "", x);
    ReplaceAllKeeps(s1, "d.v.", "", x);
    ReplaceAllKeeps(s2, ".", "", x);
    ReplaceAllKeeps(s3, "/", "", x);
  }

  /** Where `d.v.` does not occur once the spaces are gone, `Scrub` deletes
      exactly the spaces, dots and slashes and keeps the rest in order. */
  lemma ScrubDeletes(s: string)
    requires forall i: nat :: !OccursAt(Delete(s, ' '), "d.v.", i)
    ensures Scrub(s) == Delete(Delete(Delete(s, ' '), '.'), '/')
  {
    ReplaceAllDeletes(s, ' ');
    ReplaceAllAbsent(Delete(s, ' '), "d.v.", "");
    ReplaceAllDeletes(Delete(s, ' '), '.');
    ReplaceAllDeletes(Delete(Delete(s, ' '), '.'), '/');
  }

  /** A leading `d.v.` is dropped as a whole, `d` and `v` included. */
  lemma ScrubDropsDv(s: string)
    ensures Scrub("d.v." + s) == Scrub(s)
  {
    var s1 := ReplaceAll(s, " ", "");
    ReplaceAllConcat("d.v.", s, ' ', "");
    ReplaceAllUnchanged("d.v.", " ", "", 0);
    var t := "d.v." + s1;
    assert ReplaceAll("d.v." + s, " ", "") == t;
    assert t[..4] == "d.v." && t[4..] == s1;
    assert ReplaceAll(t, "d.v.", "") == ReplaceAll(s1, "d.v.", "");
  }

  /** A `d.v.` between two clean words is deleted whole, wherever it stands. */
  lemma ScrubInnerDv(a: string, b: string)
    requires Cleaned(a) && Cleaned(b)
    ensures Scrub(a + "d.v." + b) == a + b
  {
    var dv := "d.v.";
    var s := a + dv + b;
    assert s == a + (dv + b);
    assert ' ' !in s;
    ReplaceAllUnchanged(s, " ", "", 0);
    forall i: nat | i < |a|
      ensures !OccursAt(a + (dv + b), dv, i)
    {
      if i + 4 <= |s| {
        assert s[i..i + 4][1] == s[i + 1];
        if i + 1 == |a| {
          assert s[i + 1] == 'd';
        } else {
          assert s[i + 1] == a[i + 1];
        }
      }
    }
    ReplaceAllPrefixFree(a, dv + b, dv, "");
    ReplaceAllLeading(dv, b, "");
    ReplaceAllUnchanged(b, dv, "", 1);
    assert ReplaceAll(s, dv, "") == a + b;
    assert Cleaned(a + b);
    ReplaceAllUnchanged(a + b, ".", "", 0);
    ReplaceAllUnchanged(a + b, "/", "", 0);
  }

  /** A space between two clean words is deleted and nothing else changes. */
  lemma ScrubSpace(a: string, b: string)
    requires Cleaned(a) && Cleaned(b)
    ensures Scrub(a + " " + b) == a + b
  {
    var sb := " " + b;
    var ab := a + b;
    assert a + " " + b == a + sb;
    ReplaceAllConcat(a, sb, ' ', "");
    ReplaceAllUnchanged(a, " ", "", 0);
    assert sb[..1] == " " && sb[1..] == b;
    ReplaceAllUnchanged(b, " ", "", 0);
    assert ReplaceAll(sb, " ", "") == b;
    assert Cleaned(ab);
    ReplaceAllUnchanged(ab, " ", "", 0);
    assert ReplaceAll(a + " " + b, " ", "") == ReplaceAll(ab, " ", "");
    ScrubKeepsClean(ab);
  }

  /** `Scan A` becomes `ScanA`. */
  lemma ScrubExample(s: string)
    requires s == "Scan A"
    ensures Scrub(s) == "ScanA"
  {
    var a, b := "Scan", "A";
    assert s == a + " " + b;
    ScrubSpace(a, b);
  }

  /** A description already free of the removed characters passes unchanged. */
  lemma ScrubKeepsClean(s: string)
    requires Cleaned(s)
    ensures Scrub(s) == s
  {
    ReplaceAllUnchanged(s, " ", "", 0);
    assert "d.v."[1] == '.';
    ReplaceAllUnchanged(s, "d.v.", "", 1);
    ReplaceAllUnchanged(s, ".", "", 0);
    ReplaceAllUnchanged(s, "/", "", 0);
  }

  /** The description part contains no `:`, space, `.` or `/`; an absent
      SeriesDescription gives `NoSeriesDescription`; a description that has
      none of those characters is kept as it is. */
  lemma DescriptionPartClean(ds: DataSet)
    ensures Cleaned(DescriptionPart(ds))
    ensures ds.seriesDescription.None? ==> DescriptionPart(ds) == NoSeriesDescription
    ensures ds.seriesDescription.Some? && Cleaned(ds.seriesDescription.value) ==>
      DescriptionPart(ds) == ds.seriesDescription.value
  {
    match ds.seriesDescription
    case None =>
      ScrubKeepsClean(NoSeriesDescription);
    case Some(s) =>
      PresentDescriptionClean(s);
  }

  /** A present description: colons deleted, then scrubbed. */
  lemma PresentDescriptionClean(s: string)
    ensures Cleaned(Scrub(ReplaceAll(s, ":", "")))
    ensures Cleaned(s) ==> Scrub(ReplaceAll(s, ":", "")) == s
  {
    var d := ReplaceAll(s, ":", "");
    ReplaceAllRemoves(s, ':', "");
    ScrubCleans(d);
    if Cleaned(s) {
      ReplaceAllUnchanged(s, ":", "", 0);
      ScrubKeepsClean(s);
    }
  }


  /** The description cleaning is idempotent. */
  lemma DescriptionPartIdempotent(ds: DataSet)
    ensures DescriptionPart(ds.(seriesDescription := Some(DescriptionPart(ds)))) == DescriptionPart(ds)
  {
    DescriptionPartClean(ds);
    DescriptionPartClean(ds.(seriesDescription := Some(DescriptionPart(ds))));
  }

  /** The UID part: at most five characters, `0042` for an absent UID, and
      otherwise the tail of the text before the first `.0.0` (the whole UID when
      it has no `.0.0`), five characters long whenever that text is. */
  lemma UidPartShape(ds: DataSet)
    ensures |UidPart(ds)| <= 5
    ensures ds.seriesInstanceUid.None? ==> UidPart(ds) == DefaultUidPart
    ensures ds.seriesInstanceUid.Some? ==>
      var u := ds.seriesInstanceUid.value;
      var k := |BeforeFirst(u, UidCut)|;
      && k <= |u|
      && (forall j :: 0 <= j < k ==> !OccursAt(u, UidCut, j))
      && (k < |u| ==> OccursAt(u, UidCut, k))
      && |UidPart(ds)| == (if k < 5 then k else 5)
      && UidPart(ds) == u[k - |UidPart(ds)|..k]
  {
    if ds.seriesInstanceUid.Some? {
      var u := ds.seriesInstanceUid.value;
      var stem := BeforeFirst(u, UidCut);
      var r := TakeLast(stem, 5);
      assert r == stem[|stem| - |r|..];
      assert stem == u[..|stem|];
      assert r == u[|stem| - |r|..|stem|];
    }
  }

  /** The tag is the description part, one `_`, and the UID part; it contains
      no `/` when the UID does not. */
  lemma ExtractSeriesShape(ds: DataSet)
    ensures ExtractSeries(ds)[..|DescriptionPart(ds)|] == DescriptionPart(ds)
    ensures ExtractSeries(ds)[|DescriptionPart(ds)|] == '_'
    ensures ExtractSeries(ds)[|DescriptionPart(ds)| + 1..] == UidPart(ds)
    ensures ds.seriesInstanceUid.None? && ds.seriesDescription.None? ==>
      ExtractSeries(ds) == NoSeriesDescription + "_" + DefaultUidPart
    ensures (ds.seriesInstanceUid.None? || '/' !in ds.seriesInstanceUid.value) ==> '/' !in ExtractSeries(ds)
  {
    var d := DescriptionPart(ds);
    var u := UidPart(ds);
    DescriptionPartClean(ds);
    assert ExtractSeries(ds) == d + "_" + u;
    assert (d + "_" + u)[..|d|] == d;
    assert (d + "_" + u)[|d| + 1..] == u;
    if ds.seriesInstanceUid.None? || '/' !in ds.seriesInstanceUid.value {
      UidPartPlain(ds);
      PlainConcat(d, "_", u);
    }
  }

  /** The UID part is a slice of the UID, so it has no `/` when the UID has none. */
  lemma UidPartPlain(ds: DataSet)
    requires ds.seriesInstanceUid.None? || '/' !in ds.seriesInstanceUid.value
    ensures '/' !in UidPart(ds)
  {
    match ds.seriesInstanceUid
    case None =>
    case Some(u) =>
      var stem := BeforeFirst(u, UidCut);
      assert forall i :: 0 <= i < |stem| ==> stem[i] == u[i];
      var r := TakeLast(stem, 5);
      assert forall i :: 0 <= i < |r| ==> r[i] == stem[|stem| - |r| + i];
  }


  lemma PlainConcat(a: string, b: string, c: string)
    requires '/' !in a && '/' !in b && '/' !in c
    ensures '/' !in a + b + c
  {
    assert forall i :: 0 <= i < |a + b + c| ==> (a + b + c)[i] in a || (a + b + c)[i] in b || (a + b + c)[i] in c;
  }

  // ---------------------------------------------------------------------
  // Properties of the instance label

  /** For a non-negative InstanceNumber the label is a decimal numeral of that
      very number: exactly five digits below 10000, the plain numeral from
      10000 on. */
  lemma PaddedNumberValue(n: nat)
    ensures AllDigits(PaddedNumber(n))
    ensures DecimalValue(PaddedNumber(n)) == n
    ensures n < 10000 ==> |PaddedNumber(n)| == 5
    ensures n >= 10000 ==> PaddedNumber(n) == NatToString(n) && |PaddedNumber(n)| >= 5
  {
    ZeroLiterals();
    if n < 10 {
      ZeroPadded(n, 1);
    } else if n < 100 {
      ZeroPadded(n, 2);
    } else if n < 1000 {
      ZeroPadded(n, 3);
    } else if n < 10000 {
      ZeroPadded(n, 4);
    } else {
      var s := NatToString(n);
      if |s| < 5 {
        Pow10Monotone(|s|, 4);
      }
    }
  }

  /** A numeral of `w` digits, `w` at most 4, padded with zeros to five
      characters keeps its value. */
  lemma ZeroPadded(n: nat, w: nat)
    requires 1 <= w <= 4
    requires (w == 1 || Pow10(w - 1) <= n) && n < Pow10(w)
    ensures AllDigits(Zeros(5 - w) + NatToString(n))
    ensures DecimalValue(Zeros(5 - w) + NatToString(n)) == n
    ensures |Zeros(5 - w) + NatToString(n)| == 5
  {
    NatToStringWidth(n, w);
    LeadingZeros(5 - w, NatToString(n));
  }

  /** The zero prefixes written out in the padding are strings of zeros. */
  lemma ZeroLiterals()
    ensures "0000" == Zeros(4) && "000" == Zeros(3) && "00" == Zeros(2) && "0" == Zeros(1)
  {
    assert Zeros(1) == [] + ['0'];
  }

  /** Distinct non-negative instance numbers get distinct labels, and an empty
      InstanceNumber (`0`) collides with none of them. */
  lemma InstanceLabelInjective(m: nat, n: nat)
    requires m != n
    ensures InstanceLabel(Value(m)) != InstanceLabel(Value(n))
    ensures InstanceLabel(NoValue) != InstanceLabel(Value(n))
  {
    PaddedNumberValue(m);
    PaddedNumberValue(n);
  }

  /** The defaults: a missing InstanceNumber gives `00000`, an empty one `0`,
      and a missing SeriesNumber the directory prefix `0_`. */
  lemma NamingDefaults(ds: DataSet)
    ensures InstanceLabel(Absent) == "00000"
    ensures InstanceLabel(NoValue) == "0"
    ensures ds.seriesNumber.Absent? ==> SeriesDirName(ds)[..2] == "0_"
  {
    assert NatToString(0) == "0";
  }

  /** Characters a rendered integer can hold. */
  predicate NumeralChars(s: string)
  {
    forall i :: 0 <= i < |s| ==> IsDigit(s[i]) || s[i] == '-'
  }

  lemma NumeralCharsPlain(s: string)
    requires NumeralChars(s)
    ensures '/' !in s
  {
    assert forall i :: 0 <= i < |s| ==> s[i] != '/';
  }

  lemma PaddedNumberChars(n: int)
    ensures NumeralChars(PaddedNumber(n))
  {
    var t := IntToString(n);
    if n < 10 {
      NumeralConcat("0000", t);
    } else if n < 100 {
      NumeralConcat("000", t);
    } else if n < 1000 {
      NumeralConcat("00", t);
    } else if n < 10000 {
      NumeralConcat("0", t);
    }
  }

  /** Digits and `-` concatenated are digits and `-`. */
  lemma NumeralConcat(a: string, b: string)
    requires NumeralChars(a) && NumeralChars(b)
    ensures NumeralChars(a + b)
  {
    assert forall i :: 0 <= i < |a + b| ==> (a + b)[i] == (if i < |a| then a[i] else b[i - |a|]);
  }


  /** `str()` of a series number never contains `/`. */
  lemma SeriesLabelPlain(f: IntField)
    ensures SeriesLabel(f) != [] && '/' !in SeriesLabel(f)
  {
    match f
    case NoValue =>
    case Absent => NumeralCharsPlain(IntToString(0));
    case Value(n) => NumeralCharsPlain(IntToString(n));
  }

  /** `rename_dicom_file` yields exactly two path components when the UID has
      no `/`: `<SeriesNumber>_<tag>` and `<tag>_dyn_<SL>.dcm`, with the same
      tag in both. */
  lemma RenameComponents(ds: DataSet)
    requires ds.seriesInstanceUid.None? || '/' !in ds.seriesInstanceUid.value
    ensures Dirname(RenameDicomFile(ds)) == SeriesLabel(ds.seriesNumber) + "_" + ExtractSeries(ds)
    ensures Basename(RenameDicomFile(ds)) ==
      ExtractSeries(ds) + "_dyn_" + InstanceLabel(ds.instanceNumber) + ".dcm"
    ensures '/' !in Dirname(RenameDicomFile(ds)) && '/' !in Basename(RenameDicomFile(ds))
    ensures RenameDicomFile(ds) ==
      Dirname(RenameDicomFile(ds)) + "/" + Basename(RenameDicomFile(ds))
  {
    ExtractSeriesShape(ds);
    SeriesLabelPlain(ds.seriesNumber);
    InstanceLabelPlain(ds.instanceNumber);
    var a := SeriesDirName(ds);
    var b := InstanceFileName(ds);
    PlainConcat(SeriesLabel(ds.seriesNumber), "_", ExtractSeries(ds));
    PlainConcat(ExtractSeries(ds), "_dyn_", InstanceLabel(ds.instanceNumber));
    PlainConcat(ExtractSeries(ds) + "_dyn_" + InstanceLabel(ds.instanceNumber), ".dcm", "");
    assert ExtractSeries(ds) + "_dyn_" + InstanceLabel(ds.instanceNumber) + ".dcm" + "" == b;
    PlainPair(a, b);
  }

  /** The instance label never contains `/`. */
  lemma InstanceLabelPlain(f: IntField)
    ensures InstanceLabel(f) != [] && '/' !in InstanceLabel(f)
  {
    match f
    case NoValue =>
    case Absent =>
      PaddedNumberChars(0);
      NumeralCharsPlain(PaddedNumber(0));
    case Value(n) =>
      PaddedNumberChars(n);
      NumeralCharsPlain(PaddedNumber(n));
  }
}
