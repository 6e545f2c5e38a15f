/** How the upgrade and checking tools read an IDF file's version: the
    major.minor part of a version string, the comment test, and the
    `get_idf_version` scan that upgrade_idf.py, manage_models.py and
    check_engine.py each carry as an identical copy.  The file is given as
    its sequence of lines, each with its line terminator. */
module IdfVersionText {
  import opened Wrappers
  import opened PyText

  /** `'.'.join(v.split('.')[:2])`: the major.minor part of a version. */
  function Major(v: string): string {
    FirstTwo(v, '.')
  }

  /** `float(major)` of a version, `None` where Python raises `ValueError`. */
  function MajorNumber(v: string): Option<real> {
    ParseDecimal(Major(v))
  }

  /** Taking the major.minor part twice changes nothing more. */
  lemma MajorIdempotent(v: string)
    ensures Major(Major(v)) == Major(v)
  {
    var parts := Split(v, '.');
    var kept := parts[..if |parts| < 2 then |parts| else 2];
    SplitJoin(kept, '.');
    assert kept[..if |kept| < 2 then |kept| else 2] == kept;
  }

  /** The major.minor part holds at most one dot. */
  lemma MajorHasAtMostTwoFields(v: string)
    ensures 1 <= |Split(Major(v), '.')| <= 2
  {
    var parts := Split(v, '.');
    var kept := parts[..if |parts| < 2 then |parts| else 2];
    SplitJoin(kept, '.');
  }

  /** `line.strip().startswith('!')`: an IDF comment line. */
  predicate IsComment(line: string) {
    StartsWith(Strip(line), "!")
  }

  /** The line test of the shared scan: holds `Version,` and is not a comment. */
  predicate DeclaresVersion(line: string) {
    Contains(line, "Version,") && !IsComment(line)
  }

  /** `parts[1].strip().rstrip(';')` for `parts = line.split(',')`. */
  function SecondField(line: string): string
    requires |Split(line, ',')| >= 2
  {
    RStripChar(Strip(Split(line, ',')[1]), ';')
  }

  /** What the shared `get_idf_version` returns for a file with these lines. */
  function IdfVersion(lines: seq<string>): Option<string>
    decreases |lines|
  {
    if lines == [] then None
    else if DeclaresVersion(lines[0]) && |Split(lines[0], ',')| >= 2 then Some(SecondField(lines[0]))
    else IdfVersion(lines[1..])
  }

  /** A line holding `Version,` always has a second comma field, so the
      length test of the scan never skips a declaring line. */
  lemma DeclarationHasTwoFields(line: string)
    requires Contains(line, "Version,")
    ensures |Split(line, ',')| >= 2
  {
    ContainsChar(line, "Version,", 7);
    var i :| 0 <= i < |line| && line[i] == ',';
    SplitAtSeparator(line, ',', i);
  }

  /** There is a version exactly when some line declares one. */
  lemma {:induction false} IdfVersionFound(lines: seq<string>)
    ensures IdfVersion(lines).Some? <==> exists i :: 0 <= i < |lines| && DeclaresVersion(lines[i])
    decreases |lines|
  {
    if lines != [] {
      IdfVersionFound(lines[1..]);
      if DeclaresVersion(lines[0]) {
        DeclarationHasTwoFields(lines[0]);
      } else if exists i :: 0 <= i < |lines| && DeclaresVersion(lines[i]) {
        var i :| 0 <= i < |lines| && DeclaresVersion(lines[i]);
        assert lines[1..][i - 1] == lines[i];
      }
    }
  }

  /** The version is the second field of the first declaring line. */
  lemma {:induction false} IdfVersionIsFirstDeclaration(lines: seq<string>, i: nat)
    requires i < |lines| && DeclaresVersion(lines[i])
    requires forall j :: 0 <= j < i ==> !DeclaresVersion(lines[j])
    ensures |Split(lines[i], ',')| >= 2 && IdfVersion(lines) == Some(SecondField(lines[i]))
    decreases i
  {
    DeclarationHasTwoFields(lines[i]);
    if i > 0 {
      assert lines[1..][i - 1] == lines[i];
      forall j | 0 <= j < i - 1 ensures !DeclaresVersion(lines[1..][j]) {
        assert lines[1..][j] == lines[j + 1];
      }
      IdfVersionIsFirstDeclaration(lines[1..], i - 1);
      assert !DeclaresVersion(lines[0]);
    }
  }

  /** The shared `get_idf_version` scan: the first non-comment line holding
      `Version,` gives its second comma field. */
  method GetIdfVersion(lines: seq<string>) returns (version: Option<string>)
    ensures version == IdfVersion(lines)
  {
    for i := 0 to |lines|
      invariant IdfVersion(lines[i..]) == IdfVersion(lines)
    {
      assert lines[i..][1..] == lines[i + 1..];
      var line := lines[i];
      if Contains(line, "Version,") && !StartsWith(Strip(line), "!") {
        var parts := Split(line, ',');
        if |parts| >= 2 {
          return Some(RStripChar(Strip(parts[1]), ';'));
        }
      }
    }
    assert lines[|lines|..] == [];
    return None;
  }

  /** `"Version,..."` upper-cased starts with `VERSION`. */
  lemma UpperKeyword(rest: string)
    ensures StartsWith(Upper("Version" + rest), "VERSION")
  {
    var u := Upper("Version" + rest);
    assert u[0] == 'V' && u[1] == 'E' && u[2] == 'R' && u[3] == 'S';
    assert u[4] == 'I' && u[5] == 'O' && u[6] == 'N';
    assert u[..7] == "VERSION";
  }
}
