/** manage_models.py: integer comparison of versions, the sorting of models
    into higher / lower / matching / unknown against the engine's version,
    and the decision flow of its own `upgrade_idf`, which follows the same
    transition table as upgrade_idf.py. */
module ManageModels {
  import opened Wrappers
  import opened PyText
  import opened IdfVersionText
  import opened UpgradeIdf

  /** `[parse(x) for x in fields]`, `None` as soon as one `parse` fails. */
  function ParseEach(fields: seq<string>, parse: string -> Option<int>): Option<seq<int>>
    decreases |fields|
  {
    if fields == [] then Some([])
    else match parse(fields[0])
      case None => None
      case Some(x) =>
        match ParseEach(fields[1..], parse)
        case None => None
        case Some(xs) => Some([x] + xs)
  }

  /** The list exists exactly when every field parses, and then holds their
      values in order. */
  lemma {:induction false} ParseEachAll(fields: seq<string>, parse: string -> Option<int>)
    ensures ParseEach(fields, parse).Some? <==> forall i :: 0 <= i < |fields| ==> parse(fields[i]).Some?
    ensures ParseEach(fields, parse).Some? ==> (|ParseEach(fields, parse).value| == |fields|
      && forall i :: 0 <= i < |fields| ==> ParseEach(fields, parse).value[i] == parse(fields[i]).value)
    decreases |fields|
  {
    if fields != [] {
      ParseEachAll(fields[1..], parse);
      assert forall i :: 1 <= i < |fields| ==> fields[i] == fields[1..][i - 1];
    }
  }

  /** `[int(x) for x in fields]`, `None` as soon as one `int()` raises. */
  function ParseInts(fields: seq<string>): Option<seq<int>> {
    ParseEach(fields, ParseInt)
  }

  /** The integer list exists exactly when every field is an integer, and
      then holds their values in order. */
  lemma ParseIntsAll(fields: seq<string>)
    ensures ParseInts(fields).Some? <==> forall i :: 0 <= i < |fields| ==> ParseInt(fields[i]).Some?
    ensures ParseInts(fields).Some? ==> (|ParseInts(fields).value| == |fields|
      && forall i :: 0 <= i < |fields| ==> ParseInts(fields).value[i] == ParseInt(fields[i]).value)
  {
    ParseEachAll(fields, ParseInt);
  }

  /** The integers of the first two dot components of a version. */
  function VersionInts(v: string): Option<seq<int>> {
    var parts := Split(v, '.');
    ParseInts(parts[..if |parts| < 2 then |parts| else 2])
  }

  /** The `zip` loop: the first differing pair decides; running out of either
      list means equal. */
  function CompareInts(a: seq<int>, b: seq<int>): int
    decreases |a|
  {
    if a == [] || b == [] then 0
    else if a[0] < b[0] then -1
    else if a[0] > b[0] then 1
    else CompareInts(a[1..], b[1..])
  }

  /** `compare_versions(v1, v2)`: −1, 0 or 1; 0 when a component is not an
      integer (the bare `except`). */
  function CompareVersions(v1: string, v2: string): (r: int)
    ensures r == -1 || r == 0 || r == 1
  {
    CompareParsed(VersionInts(v1), VersionInts(v2))
  }

  /** The comparison once both lists are parsed; 0 if either raised. */
  function CompareParsed(a: Option<seq<int>>, b: Option<seq<int>>): (r: int)
    ensures r == -1 || r == 0 || r == 1
  {
    if a.Some? && b.Some? then CompareIntsRange(a.value, b.value); CompareInts(a.value, b.value) else 0
  }

  lemma {:induction false} CompareIntsRange(a: seq<int>, b: seq<int>)
    ensures -1 <= CompareInts(a, b) <= 1
    decreases |a|
  {
    if a != [] && b != [] && a[0] == b[0] {
      CompareIntsRange(a[1..], b[1..]);
    }
  }

  lemma {:induction false} CompareIntsAntisymmetric(a: seq<int>, b: seq<int>)
    ensures CompareInts(a, b) == -CompareInts(b, a)
    decreases |a|
  {
    if a != [] && b != [] && a[0] == b[0] {
      CompareIntsAntisymmetric(a[1..], b[1..]);
    }
  }

  lemma {:induction false} CompareIntsReflexive(a: seq<int>)
    ensures CompareInts(a, a) == 0
    decreases |a|
  {
    if a != [] {
      CompareIntsReflexive(a[1..]);
    }
  }

  /** Swapping the arguments negates the result. */
  lemma CompareAntisymmetric(v1: string, v2: string)
    ensures CompareVersions(v1, v2) == -CompareVersions(v2, v1)
  {
    if VersionInts(v1).Some? && VersionInts(v2).Some? {
      CompareIntsAntisymmetric(VersionInts(v1).value, VersionInts(v2).value);
    }
  }

  /** A version compares equal to itself (trivially so when unparseable). */
  lemma CompareReflexive(v: string)
    ensures CompareVersions(v, v) == 0
  {
    if VersionInts(v).Some? {
      CompareIntsReflexive(VersionInts(v).value);
    }
  }

  /** With two integer components each, the comparison is lexicographic on
      (major, minor). */
  lemma CompareLexicographic(v1: string, v2: string, major1: int, minor1: int, major2: int, minor2: int)
    requires VersionInts(v1) == Some([major1, minor1]) && VersionInts(v2) == Some([major2, minor2])
    ensures CompareVersions(v1, v2) ==
      if major1 < major2 || (major1 == major2 && minor1 < minor2) then -1
      else if major1 > major2 || (major1 == major2 && minor1 > minor2) then 1
      else 0
  {
    assert CompareVersions(v1, v2) == CompareParsed(Some([major1, minor1]), Some([major2, minor2]));
    ComparePairs(major1, minor1, major2, minor2);
  }

  /** The `zip` loop over two pairs. */
  lemma ComparePairs(major1: int, minor1: int, major2: int, minor2: int)
    ensures CompareInts([major1, minor1], [major2, minor2]) ==
      if major1 < major2 || (major1 == major2 && minor1 < minor2) then -1
      else if major1 > major2 || (major1 == major2 && minor1 > minor2) then 1
      else 0
  {
    assert [major1, minor1][1..] == [minor1] && [minor1][1..] == [];
    assert [major2, minor2][1..] == [minor2] && [minor2][1..] == [];
    assert CompareInts([minor1], [minor2]) == if minor1 < minor2 then -1 else if minor1 > minor2 then 1 else 0;
  }

  /** `zip` stops at the shorter list: a version with one component equals any
      version with the same major, whatever its minor. */
  lemma CompareTruncates(v1: string, v2: string, major: int, minor: int)
    requires VersionInts(v1) == Some([major]) && VersionInts(v2) == Some([major, minor])
    ensures CompareVersions(v1, v2) == 0 && CompareVersions(v2, v1) == 0
  {
    assert CompareVersions(v1, v2) == CompareParsed(Some([major]), Some([major, minor]));
    assert [major][1..] == [] && [major, minor][1..] == [minor];
    assert CompareInts([major], [major, minor]) == 0;
    CompareAntisymmetric(v1, v2);
  }

  /** A component that is not an integer makes every comparison with it 0. */
  lemma CompareUnparseable(v1: string, v2: string)
    requires VersionInts(v1).None?
    ensures CompareVersions(v1, v2) == 0 && CompareVersions(v2, v1) == 0
  {
  }

  lemma ParseIntsOfDigits(a: string)
    requires |a| >= 1 && AllDigits(a)
    ensures ParseInts([a]) == Some([DigitsValue(a) as int])
  {
    ParseIntOfDigits(a);
    assert [a][1..] == [];
    assert ParseInts([a][1..]) == Some([]);
    var x := DigitsValue(a) as int;
    assert [x] + [] == [x];
  }

  /** A version made of one run of digits has that one integer component. */
  lemma IntsOfOneComponent(a: string)
    requires |a| >= 1 && AllDigits(a)
    ensures VersionInts(a) == Some([DigitsValue(a) as int])
  {
    SplitField(a, '.');
    assert [a][..1] == [a];
    ParseIntsOfDigits(a);
  }

  lemma SplitTwoComponents(a: string, b: string)
    requires AllDigits(a) && AllDigits(b)
    ensures Split(a + "." + b, '.') == [a, b]
  {
    SplitAfterField(a, b, '.');
    SplitField(b, '.');
    assert a + "." + b == a + ['.'] + b;
  }

  lemma ParseTwoComponents(a: string, b: string)
    requires |a| >= 1 && AllDigits(a) && |b| >= 1 && AllDigits(b)
    ensures ParseInts([a, b]) == Some([DigitsValue(a) as int, DigitsValue(b) as int])
  {
    ParseIntOfDigits(a);
    ParseIntsOfDigits(b);
    assert [a, b][1..] == [b];
    var x, y := DigitsValue(a) as int, DigitsValue(b) as int;
    assert [x] + [y] == [x, y];
  }

  /** `a.b` with two runs of digits has the two integer components. */
  lemma IntsOfTwoComponents(a: string, b: string)
    requires |a| >= 1 && AllDigits(a) && |b| >= 1 && AllDigits(b)
    ensures VersionInts(a + "." + b) == Some([DigitsValue(a) as int, DigitsValue(b) as int])
  {
    SplitTwoComponents(a, b);
    assert [a, b][..2] == [a, b];
    ParseTwoComponents(a, b);
  }

  /** A bare major such as "23" equals every "23.x": only the components
      both versions have are compared. */
  lemma CompareBareMajor(major: string, minor: string)
    requires |major| >= 1 && AllDigits(major) && |minor| >= 1 && AllDigits(minor)
    ensures CompareVersions(major, major + "." + minor) == 0
  {
    IntsOfOneComponent(major);
    IntsOfTwoComponents(major, minor);
    CompareTruncates(major, major + "." + minor, DigitsValue(major) as int, DigitsValue(minor) as int);
  }

  /** A model file as the tools see it: its path and its lines. */
  datatype ModelFile = ModelFile(path: string, lines: seq<string>)

  /** An entry of a classification list: `(idf_path, version)`. */
  datatype Entry = Entry(path: string, version: Option<string>)

  datatype Kind = Higher | Lower | Matching | Unknown

  /** Where `main` files a model: no (or an empty) version is unknown,
      otherwise the sign of the comparison with the engine's version. */
  function KindOf(f: ModelFile, engineVersion: string): Kind {
    KindOfVersion(IdfVersion(f.lines), engineVersion)
  }

  function KindOfVersion(v: Option<string>, engineVersion: string): Kind {
    if v.None? || v.value == "" then Unknown
    else
      var c := CompareVersions(v.value, engineVersion);
      if c > 0 then Higher else if c < 0 then Lower else Matching
  }

  function EntryOf(f: ModelFile): Entry {
    Entry(f.path, IdfVersion(f.lines))
  }

  /** The entries of the files of one kind, in file order. */
  function Select(files: seq<ModelFile>, engineVersion: string, k: Kind): (r: seq<Entry>)
    ensures |r| <= |files|
    decreases |files|
  {
    if files == [] then []
    else
      var last := files[|files| - 1];
      Select(files[..|files| - 1], engineVersion, k) + (if KindOf(last, engineVersion) == k then [EntryOf(last)] else [])
  }

  datatype Classes = Classes(higher: seq<Entry>, lower: seq<Entry>, matching: seq<Entry>, unknown: seq<Entry>)

  /** The classification loop of `main`. */
  method Classify(files: seq<ModelFile>, engineVersion: string) returns (c: Classes)
    ensures c.higher == Select(files, engineVersion, Higher)
    ensures c.lower == Select(files, engineVersion, Lower)
    ensures c.matching == Select(files, engineVersion, Matching)
    ensures c.unknown == Select(files, engineVersion, Unknown)
  {
    var higher, lower, matching, unknown := [], [], [], [];
    for i := 0 to |files|
      invariant higher == Select(files[..i], engineVersion, Higher)
      invariant lower == Select(files[..i], engineVersion, Lower)
      invariant matching == Select(files[..i], engineVersion, Matching)
      invariant unknown == Select(files[..i], engineVersion, Unknown)
    {
      assert files[..i + 1][..i] == files[..i];
      var version := GetIdfVersion(files[i].lines);
      var entry := Entry(files[i].path, version);
      if version.None? || version.value == "" {
        unknown := unknown + [entry];
        continue;
      }
      var cmp := CompareVersions(version.value, engineVersion);
      if cmp > 0 {
        higher := higher + [entry];
      } else if cmp < 0 {
        lower := lower + [entry];
      } else {
        matching := matching + [entry];
      }
    }
    assert files[..|files|] == files;
    c := Classes(higher, lower, matching, unknown);
  }

  /** Every file lands in exactly one of the four lists: the lists' sizes add
      up to the number of files, and a file's entry is in the list of its kind. */
  lemma {:induction false} ClassesPartition(files: seq<ModelFile>, engineVersion: string)
    ensures |Select(files, engineVersion, Higher)| + |Select(files, engineVersion, Lower)|
          + |Select(files, engineVersion, Matching)| + |Select(files, engineVersion, Unknown)| == |files|
    ensures forall i :: 0 <= i < |files| ==> EntryOf(files[i]) in Select(files, engineVersion, KindOf(files[i], engineVersion))
    decreases |files|
  {
    if files != [] {
      var init := files[..|files| - 1];
      ClassesPartition(init, engineVersion);
      forall i | 0 <= i < |files|
        ensures EntryOf(files[i]) in Select(files, engineVersion, KindOf(files[i], engineVersion))
      {
        if i < |files| - 1 {
          assert files[i] == init[i];
        }
      }
    }
  }

  /** Every entry of a list is a file of that list's kind. */
  lemma {:induction false} SelectSound(files: seq<ModelFile>, engineVersion: string, k: Kind)
    ensures forall e :: e in Select(files, engineVersion, k) ==>
      exists i :: 0 <= i < |files| && KindOf(files[i], engineVersion) == k && e == EntryOf(files[i])
    decreases |files|
  {
    if files != [] {
      var init := files[..|files| - 1];
      SelectSound(init, engineVersion, k);
      forall e | e in Select(files, engineVersion, k)
        ensures exists i :: 0 <= i < |files| && KindOf(files[i], engineVersion) == k && e == EntryOf(files[i])
      {
        if e in Select(init, engineVersion, k) {
          var i :| 0 <= i < |init| && KindOf(init[i], engineVersion) == k && e == EntryOf(init[i]);
          assert files[i] == init[i];
        } else {
          assert KindOf(files[|files| - 1], engineVersion) == k;
        }
      }
    }
  }

  /** Outcomes of manage_models.py's `upgrade_idf`. */
  datatype Managed =
    | Unreadable                                           // "Could not read version"
    | Unreachable                                          // no transition path
    | AlreadyAtTarget                                      // empty path: nothing to do
    | Completed(backup: string, steps: seq<Transition>)    // backup made, every step succeeded
    | Stopped(backup: string, steps: seq<Transition>)      // backup made, the last of `steps` failed
  {
    predicate Succeeded() {
      AlreadyAtTarget? || Completed?
    }
  }

  /** The decision flow of `upgrade_idf` for the model at `idfPath` whose file
      declares `current`; the backup is named after the full current version. */
  function ManagedUpgrade(idfPath: string, current: Option<string>, target: string, report: Transition -> StepReport): Managed {
    if current.None? || current.value == "" then Unreadable
    else match TransitionPath(current.value, target)
      case None => Unreachable
      case Some(path) =>
        if path == [] then AlreadyAtTarget
        else
          var backup := BackupName(idfPath, current.value);
          var run := RunSteps(path, report);
          if run.0 then Completed(backup, run.1) else Stopped(backup, run.1)
  }

  /** The backup is made exactly when there is at least one step to run, and
      before any step runs; an empty path (same major.minor) succeeds with no
      backup; the run follows the path and stops at the first failure. */
  lemma ManagedUpgradeSound(idfPath: string, current: Option<string>, target: string, report: Transition -> StepReport)
    ensures var u := ManagedUpgrade(idfPath, current, target, report);
      && (u == AlreadyAtTarget <==> current.Some? && current.value != "" && Major(current.value) == Major(target))
      && ((u.Completed? || u.Stopped?) ==> (
          && current.Some? && u.backup == BackupName(idfPath, current.value)
          && TransitionPath(current.value, target).Some?
          && var path := TransitionPath(current.value, target).value;
          && path != [] && 1 <= |u.steps| <= |path| && u.steps == path[..|u.steps|]
          && (u.Completed? <==> forall i :: 0 <= i < |path| ==> StepSucceeded(path[i], report(path[i])))))
  {
    if current.Some? && current.value != "" {
      PathIsChain(current.value, target);
    }
  }
}
