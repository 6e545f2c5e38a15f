/** check_engine.py: the decimal compatibility label of a model's version
    against the engine's, the fallback engine version, the per-model status
    and the truncation of long file names in the report. */
module CheckEngine {
  import opened Wrappers
  import opened PyText
  import opened IdfVersionText
  import ManageModels

  /** The labels `check_compatibility` and `main` print. */
  datatype Compatibility = TooNew | Match | Older | Unknown | NoVersion {
    function Label(): string {
      match this
      case TooNew => "\U{274c} Too new"
      case Match => "\U{2713} Match"
      case Older => "\U{26a0}\U{fe0f} Older (may work)"
      case Unknown => "? Unknown"
      case NoVersion => "? No version"
    }
  }

  /** `engine_version.split('-')[0]`: the release without a build suffix. */
  function Release(engineVersion: string): string {
    Split(engineVersion, '-')[0]
  }

  /** `check_compatibility`: major.minor of each side read as one decimal
      number; any `float()` failure is "Unknown". */
  function CheckCompatibility(modelVersion: string, engineVersion: string): (c: Compatibility)
    ensures c != NoVersion
    ensures c == Unknown <==> MajorNumber(modelVersion).None? || MajorNumber(Release(engineVersion)).None?
  {
    match (MajorNumber(modelVersion), MajorNumber(Release(engineVersion)))
    case (Some(m), Some(e)) => if m > e then TooNew else if m == e then Match else Older
    case _ => Unknown
  }

  /** A release without a dash is its own release part. */
  lemma ReleaseOfPlain(v: string)
    requires forall i :: 0 <= i < |v| ==> v[i] != '-'
    ensures Release(v) == v
  {
    SplitField(v, '-');
  }

  /** A build suffix after the first dash never changes the label. */
  lemma BuildSuffixIgnored(modelVersion: string, release: string, build: string)
    requires forall i :: 0 <= i < |release| ==> release[i] != '-'
    ensures CheckCompatibility(modelVersion, release + "-" + build) == CheckCompatibility(modelVersion, release)
  {
    SplitAfterField(release, build, '-');
    assert release + "-" + build == release + ['-'] + build;
    ReleaseOfPlain(release);
  }

  /** For dash-free versions the label is antisymmetric: "Too new" one way is
      "Older" the other way, and "Match" is symmetric. */
  lemma CompatibilityAntisymmetric(a: string, b: string)
    requires forall i :: 0 <= i < |a| ==> a[i] != '-'
    requires forall i :: 0 <= i < |b| ==> b[i] != '-'
    ensures CheckCompatibility(a, b) == TooNew <==> CheckCompatibility(b, a) == Older
    ensures CheckCompatibility(a, b) == Match <==> CheckCompatibility(b, a) == Match
  {
    ReleaseOfPlain(a);
    ReleaseOfPlain(b);
  }

  /** `a.b` with digit runs `a` and `b` has itself as its major.minor. */
  lemma MajorOfTwoFields(a: string, b: string)
    requires AllDigits(a) && AllDigits(b)
    ensures Major(a + "." + b) == a + "." + b
  {
    ManageModels.SplitTwoComponents(a, b);
    assert [a, b][..2] == [a, b] && [a, b][1..] == [b];
    assert Join([a, b], '.') == a + ['.'] + b;
  }

  /** `float("a.b")` is the exact decimal value. */
  lemma MajorNumberOfTwoFields(a: string, b: string)
    requires |a| >= 1 && AllDigits(a) && |b| >= 1 && AllDigits(b)
    ensures MajorNumber(a + "." + b) == Some(DecimalValue(a, b))
  {
    MajorOfTwoFields(a, b);
    var t := a + "." + b;
    assert t[0] == a[0];
    assert t[|t| - 1] == b[|b| - 1];
    StripUnpadded(t);
    ManageModels.SplitTwoComponents(a, b);
  }

  lemma DecimalOfOneDigit(a: string, d: char)
    requires AllDigits(a) && IsDigit(d)
    ensures DecimalValue(a, [d]) == DigitsValue(a) as real + (d as int - '0' as int) as real / 10.0
  {
    assert [d][..0] == [];
  }

  /** With one-digit minors the decimal label and the integer comparison of
      manage_models.py agree: "Too new", "Match" and "Older" are the signs
      1, 0 and −1. */
  lemma AgreesWithCompareForOneDigitMinors(a1: string, d1: char, a2: string, d2: char)
    requires |a1| >= 1 && AllDigits(a1) && IsDigit(d1)
    requires |a2| >= 1 && AllDigits(a2) && IsDigit(d2)
    requires forall i :: 0 <= i < |a2| ==> a2[i] != '-'
    ensures var m, e := a1 + "." + [d1], a2 + "." + [d2];
      var c := ManageModels.CompareVersions(m, e);
      && (CheckCompatibility(m, e) == TooNew <==> c == 1)
      && (CheckCompatibility(m, e) == Match <==> c == 0)
      && (CheckCompatibility(m, e) == Older <==> c == -1)
  {
    var m, e := a1 + "." + [d1], a2 + "." + [d2];
    assert forall i :: 0 <= i < |e| ==> e[i] != '-';
    ReleaseOfPlain(e);
    MajorNumberOfTwoFields(a1, [d1]);
    MajorNumberOfTwoFields(a2, [d2]);
    DecimalOfOneDigit(a1, d1);
    DecimalOfOneDigit(a2, d2);
    ManageModels.IntsOfTwoComponents(a1, [d1]);
    ManageModels.IntsOfTwoComponents(a2, [d2]);
    assert [d1][..0] == [] && [d2][..0] == [];
    ManageModels.CompareLexicographic(m, e, DigitsValue(a1) as int, DigitsValue([d1]) as int,
                                      DigitsValue(a2) as int, DigitsValue([d2]) as int);
  }

  /** For one major and two digit-run minors the label compares the minors
      as decimal fractions. */
  lemma MinorsComparedAsDecimals(major: string, b1: string, b2: string)
    requires |major| >= 1 && AllDigits(major) && |b1| >= 1 && AllDigits(b1) && |b2| >= 1 && AllDigits(b2)
    requires forall i :: 0 <= i < |major| ==> major[i] != '-'
    ensures CheckCompatibility(major + "." + b1, major + "." + b2) == (
      var x, y := DecimalValue(major, b1), DecimalValue(major, b2);
      if x > y then TooNew else if x == y then Match else Older)
  {
    var e := major + "." + b2;
    assert forall i :: 0 <= i < |e| ==> e[i] != '-';
    ReleaseOfPlain(e);
    MajorNumberOfTwoFields(major, b1);
    MajorNumberOfTwoFields(major, b2);
  }

  /** For one major and two digit-run minors the integer comparison of
      manage_models.py compares the minors as integers. */
  lemma MinorsComparedAsIntegers(major: string, b1: string, b2: string)
    requires |major| >= 1 && AllDigits(major) && |b1| >= 1 && AllDigits(b1) && |b2| >= 1 && AllDigits(b2)
    ensures ManageModels.CompareVersions(major + "." + b1, major + "." + b2) == (
      var x, y := DigitsValue(b1), DigitsValue(b2);
      if x < y then -1 else if x > y then 1 else 0)
  {
    ManageModels.IntsOfTwoComponents(major, b1);
    ManageModels.IntsOfTwoComponents(major, b2);
    ManageModels.CompareLexicographic(major + "." + b1, major + "." + b2, DigitsValue(major) as int, DigitsValue(b1) as int,
                                      DigitsValue(major) as int, DigitsValue(b2) as int);
  }

  /** Two-digit minors part ways: "M.10" is "Older" than "M.2" as decimals
      (0.10 < 0.2), while the integer comparison ranks it higher (10 > 2). */
  lemma DecimalAndIntegerOrdersDiffer(major: string, ten: string, two: string)
    requires |major| >= 1 && AllDigits(major)
    requires forall i :: 0 <= i < |major| ==> major[i] != '-'
    requires ten == "10" && two == "2"
    ensures CheckCompatibility(major + "." + ten, major + "." + two) == Older
    ensures ManageModels.CompareVersions(major + "." + ten, major + "." + two) == 1
  {
    DigitsValue2('1', '0');
    assert ten == ['1', '0'] && two[..0] == [];
    TenBelowTwoAsDecimals(major, ten, two);
    TenAboveTwoAsIntegers(major, ten, two);
  }

  lemma TenBelowTwoAsDecimals(major: string, ten: string, two: string)
    requires |major| >= 1 && AllDigits(major)
    requires |ten| == 2 && AllDigits(ten) && DigitsValue(ten) == 10
    requires |two| == 1 && AllDigits(two) && DigitsValue(two) == 2
    ensures CheckCompatibility(major + "." + ten, major + "." + two) == Older
  {
    DecimalOfHundredths(major, ten);
    DecimalOfTenths(major, two);
    MinorsComparedAsDecimals(major, ten, two);
  }

  lemma TenAboveTwoAsIntegers(major: string, ten: string, two: string)
    requires |major| >= 1 && AllDigits(major)
    requires |ten| >= 1 && AllDigits(ten) && DigitsValue(ten) == 10
    requires |two| >= 1 && AllDigits(two) && DigitsValue(two) == 2
    ensures ManageModels.CompareVersions(major + "." + ten, major + "." + two) == 1
  {
    MinorsComparedAsIntegers(major, ten, two);
  }

  /** Two versions with the same major.minor part, one of them its own, read
      as the same number. */
  lemma MajorNumberViaMajor(v: string, w: string)
    requires Major(v) == w && Major(w) == w
    ensures MajorNumber(v) == MajorNumber(w)
  {
  }

  /** The value of `a.b` with a one-digit `b`: tenths. */
  lemma DecimalOfTenths(a: string, b: string)
    requires AllDigits(a) && |b| == 1 && AllDigits(b)
    ensures DecimalValue(a, b) == DigitsValue(a) as real + DigitsValue(b) as real / 10.0
  {
    assert Pow10(|b|) == 10;
  }

  /** The value of `a.b` with a two-digit `b`: hundredths. */
  lemma DecimalOfHundredths(a: string, b: string)
    requires AllDigits(a) && |b| == 2 && AllDigits(b)
    ensures DecimalValue(a, b) == DigitsValue(a) as real + DigitsValue(b) as real / 100.0
  {
    assert Pow10(|b|) == 100;
  }

  /** The version compared against: the detected engine version up to its
      first dash, or "23.2.0" when detection gave nothing. */
  function EngineVer(engineVersion: Option<string>): string {
    if engineVersion.Some? && engineVersion.value != "" then Release(engineVersion.value) else "23.2.0"
  }

  /** The major.minor of `a.b.c` is `a.b`. */
  lemma MajorOfThreeFields(a: string, b: string, c: string)
    requires AllDigits(a) && AllDigits(b) && AllDigits(c)
    ensures Major(a + "." + b + "." + c) == a + "." + b
  {
    ManageModels.SplitTwoComponents(b, c);
    SplitAfterField(a, b + "." + c, '.');
    assert a + "." + b + "." + c == a + ['.'] + (b + "." + c);
    var parts := [a, b, c];
    assert Split(a + "." + b + "." + c, '.') == parts;
    assert parts[..2] == [a, b] && [a, b][1..] == [b];
    assert Join([a, b], '.') == a + ['.'] + b;
  }

  /** A patch component never changes the number read. */
  lemma MajorNumberOfThreeFields(a: string, b: string, c: string)
    requires AllDigits(a) && AllDigits(b) && AllDigits(c)
    ensures MajorNumber(a + "." + b + "." + c) == MajorNumber(a + "." + b)
  {
    MajorOfThreeFields(a, b, c);
    MajorOfTwoFields(a, b);
    MajorNumberViaMajor(a + "." + b + "." + c, a + "." + b);
  }

  /** The status column: "? No version" when the model declares none. */
  function Status(modelVersion: Option<string>, engineVer: string): (c: Compatibility)
    ensures c == NoVersion <==> modelVersion.None? || modelVersion.value == ""
  {
    if modelVersion.None? || modelVersion.value == "" then NoVersion
    else CheckCompatibility(modelVersion.value, engineVer)
  }

  /** The name column: names longer than 48 characters become their first 45
      characters and "...". */
  function DisplayName(filename: string): (r: string)
    ensures |r| <= 48
    ensures |filename| <= 48 ==> r == filename
    ensures |filename| > 48 ==> |r| == 48 && r[..45] == filename[..45] && r[45..] == "..."
  {
    if |filename| > 48 then filename[..45] + "..." else filename
  }

  /** One report line: name, version (or "N/A") and status. */
  datatype Row = Row(name: string, version: string, status: Compatibility)

  /** The report line of one model file. */
  function ReportRow(filename: string, lines: seq<string>, engineVersion: Option<string>): (row: Row)
    ensures |row.name| <= 48
    ensures row.status == NoVersion <==> IdfVersion(lines).None? || IdfVersion(lines).value == ""
    ensures row.status != NoVersion ==> row.version == IdfVersion(lines).value
    ensures row.status == NoVersion ==> row.version == "N/A"
  {
    var v := IdfVersion(lines);
    Row(DisplayName(filename),
        if v.Some? && v.value != "" then v.value else "N/A",
        Status(v, EngineVer(engineVersion)))
  }
}
