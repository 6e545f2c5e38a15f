/** upgrade_models.py: a third `get_idf_version`, which reads the first field
    of the version line (the keyword itself, never the number), and
    `upgrade_idf`, which rewrites the first version line of the text split
    on newlines and joins it back. */
module UpgradeModels {
  import opened Wrappers
  import opened PyText
  import opened LineScan
  import opened ModelFiles
  import IdfVersionText

  /** The line test of both functions: `line.strip().upper().startswith('VERSION')`. */
  predicate StartsVersion(line: string) {
    StartsWith(Upper(Strip(line)), "VERSION")
  }

  /** `any(char.isdigit() for char in part)`. */
  predicate HasDigit(part: string) {
    exists i :: 0 <= i < |part| && IsDigit(part[i])
  }

  /** `part.strip().rstrip(';')`. */
  function Cleaned(part: string): string {
    RStripChar(Strip(part), ';')
  }

  /** The indented keyword cleans to the keyword. */
  lemma IndentedKeywordCleans()
    ensures Cleaned("  Version") == "Version"
  {
    var ind, w := "  ", "Version";
    assert ind + w == "  Version";
    assert w[0] == 'V' && w[|w| - 1] == 'n';
    StripIndented(ind, w);
    assert RStripChar(w, ';') == w;
  }

  /** The digit search: the first field holding a digit, cleaned. */
  function FirstDigitField(parts: seq<string>): (r: Option<string>)
    ensures r.None? <==> forall k :: 0 <= k < |parts| ==> !HasDigit(parts[k])
    ensures r.Some? ==> exists k :: (0 <= k < |parts| && HasDigit(parts[k]) &&
      (forall j :: 0 <= j < k ==> !HasDigit(parts[j])) && r.value == Cleaned(parts[k]))
  {
    match FirstIndex(parts, HasDigit)
    case None => None
    case Some(k) => Some(Cleaned(parts[k]))
  }

  /** `line.split(',')[0].split(',')[-1].strip().rstrip(';')`. */
  function KeywordField(line: string): string {
    var versionLine := Split(line, ',')[0];
    var pieces := Split(versionLine, ',');
    Cleaned(pieces[|pieces| - 1])
  }

  /** The reading of one version line as written: the last comma field of
      the first comma field, cleaned, and the digit search only when that
      does not start with the keyword. */
  function ReadVersion(line: string): string {
    var version := KeywordField(line);
    if !StartsWith(Upper(version), "VERSION") then FirstDigitField(Split(line, ',')).GetOr(version)
    else version
  }

  /** `get_idf_version` as written: the reading of the first version line. */
  function AsWrittenVersion(lines: seq<string>): (r: Option<string>)
    ensures r.None? <==> forall j :: 0 <= j < |lines| ==> !StartsVersion(lines[j])
    ensures r.Some? ==> exists i :: (0 <= i < |lines| && StartsVersion(lines[i]) &&
      (forall j :: 0 <= j < i ==> !StartsVersion(lines[j])) && r.value == ReadVersion(lines[i]))
  {
    match FirstIndex(lines, StartsVersion)
    case None => None
    case Some(i) => Some(ReadVersion(lines[i]))
  }

  /** The inner loop of `get_idf_version`: the first field holding a digit,
      cleaned, or `version` unchanged when none does. */
  method SearchDigitField(parts: seq<string>, version: string) returns (v: string)
    ensures v == FirstDigitField(parts).GetOr(version)
  {
    v := version;
    for k := 0 to |parts|
      invariant forall j :: 0 <= j < k ==> !HasDigit(parts[j])
      invariant v == version
    {
      if HasDigit(parts[k]) {
        v := Cleaned(parts[k]);
        FirstIndexAt(parts, HasDigit, k);
        return;
      }
    }
  }

  /** `get_idf_version` as written: the scan for the first version line,
      then its reading. */
  method GetIdfVersion(lines: seq<string>) returns (version: Option<string>)
    ensures version == AsWrittenVersion(lines)
  {
    var found := FindFirst(lines, StartsVersion);
    match found
    case None =>
      version := None;
    case Some(i) =>
      var v := ReadLine(lines[i]);
      version := Some(v);
  }

  /** The body of the outer loop for a version line: the keyword field, or
      the digit search when that field does not start with the keyword. */
  method ReadLine(line: string) returns (v: string)
    ensures v == ReadVersion(line)
  {
    v := KeywordField(line);
    if !StartsWith(Upper(v), "VERSION") {
      v := SearchDigitField(Split(line, ','), v);
    }
  }

  /** A text that starts with the keyword, whatever its case, has seven
      keyword letters first: no comma, semicolon or whitespace among them. */
  lemma KeywordChars(w: string)
    requires StartsWith(Upper(w), "VERSION")
    ensures |w| >= 7
    ensures forall k :: 0 <= k < 7 ==> w[k] != ',' && w[k] != ';' && !IsSpace(w[k])
  {
    assert forall k :: 0 <= k < 7 ==> UpperChar(w[k]) == "VERSION"[k];
  }

  /** Starting with the keyword depends on the first seven characters only. */
  lemma KeywordPrefix(w: string, x: string)
    requires StartsWith(Upper(w), "VERSION")
    requires |x| >= 7 && forall k :: 0 <= k < 7 ==> x[k] == w[k]
    ensures StartsWith(Upper(x), "VERSION")
  {
    assert forall k :: 0 <= k < 7 ==> Upper(x)[k] == UpperChar(w[k]) == Upper(w)[k];
  }

  /** Trimming trailing whitespace and semicolons keeps a leading keyword. */
  lemma TrimKeepsKeyword(x: string)
    requires StartsWith(Upper(x), "VERSION")
    ensures StartsWith(Upper(RStripChar(RStrip(x), ';')), "VERSION")
  {
    KeywordChars(x);
    RStripKeepsPrefix(x, 7);
    var y := RStrip(x);
    assert forall k :: 0 <= k < 7 ==> y[k] == y[..7][k] == x[k];
    KeywordPrefix(x, y);
    RStripCharKeepsPrefix(y, ';', 7);
    var c := RStripChar(y, ';');
    assert forall k :: 0 <= k < 7 ==> c[k] == c[..7][k] == y[k];
    KeywordPrefix(y, c);
  }

  /** A line of whitespace and then the keyword has a first comma field
      that, cleaned, still starts with the keyword. */
  lemma FirstFieldKeyword(line: string, n: nat)
    requires n + 7 <= |line|
    requires forall i :: 0 <= i < n ==> IsSpace(line[i])
    requires StartsWith(Upper(line[n..]), "VERSION")
    ensures StartsWith(Upper(Cleaned(Split(line, ',')[0])), "VERSION")
  {
    var t := line[n..];
    KeywordChars(t);
    forall i | n <= i < n + 7 ensures line[i] != ',' && line[i] == t[i - n] {
      assert line[i] == t[i - n];
    }
    IndentedFirstField(line, n, 7);
    var x := LStrip(Split(line, ',')[0]);
    assert forall k :: 0 <= k < 7 ==> x[k] == t[k];
    KeywordPrefix(t, x);
    TrimKeepsKeyword(x);
  }

  /** When a line is indented by `n` whitespace characters and the next `m`
      hold neither whitespace nor a comma, its first comma field, stripped
      on the left, starts with those `m` characters. */
  lemma IndentedFirstField(line: string, n: nat, m: nat)
    requires 0 < m && n + m <= |line|
    requires forall i :: 0 <= i < n ==> IsSpace(line[i])
    requires forall i :: n <= i < n + m ==> line[i] != ','
    requires !IsSpace(line[n])
    ensures m <= |LStrip(Split(line, ',')[0])|
    ensures forall k :: 0 <= k < m ==> LStrip(Split(line, ',')[0])[k] == line[n + k]
  {
    FirstFieldPrefix(line, n + m);
    var f0 := Split(line, ',')[0];
    LStripAt(f0, n);
  }

  /** The first comma field of a line starts with every character before
      the first comma. */
  lemma FirstFieldPrefix(line: string, m: nat)
    requires m <= |line| && forall i :: 0 <= i < m ==> line[i] != ','
    ensures m <= |Split(line, ',')[0]| && forall i :: 0 <= i < m ==> Split(line, ',')[0][i] == line[i]
  {
    SplitFirstFieldPrefix(line, ',', m);
    var f0 := Split(line, ',')[0];
    forall i | 0 <= i < m ensures f0[i] == line[i] {
      assert f0[i] == f0[..m][i];
      assert line[i] == line[..m][i];
    }
  }

  /** When the cleaned first field starts with the keyword, it is the
      reading. */
  lemma ReadIsFirstField(line: string)
    requires StartsWith(Upper(Cleaned(Split(line, ',')[0])), "VERSION")
    ensures KeywordField(line) == Cleaned(Split(line, ',')[0])
    ensures ReadVersion(line) == Cleaned(Split(line, ',')[0])
  {
    KeywordFieldIsFirst(line);
  }

  /** The first comma field holds no comma, so splitting it again gives it
      back: the keyword field is the cleaned first field. */
  lemma KeywordFieldIsFirst(line: string)
    ensures KeywordField(line) == Cleaned(Split(line, ',')[0])
  {
    SplitField(Split(line, ',')[0], ',');
  }

  /** For every version line the first field, cleaned, starts with the
      keyword, so the digit search never runs and the reading is that field. */
  lemma DigitSearchUnreachable(line: string)
    requires StartsVersion(line)
    ensures StartsWith(Upper(Cleaned(Split(line, ',')[0])), "VERSION")
    ensures ReadVersion(line) == Cleaned(Split(line, ',')[0])
  {
    var t := LStrip(line);
    var n := |line| - |t|;
    var w := Strip(line);
    KeywordChars(w);
    assert forall k :: 0 <= k < 7 ==> t[k] == w[k];
    KeywordPrefix(w, t);
    FirstFieldKeyword(line, n);
    ReadIsFirstField(line);
  }

  /** The line `upgrade_idf` writes: `"  Version,{target};"`. */
  function NewLine(target: string): string {
    "  Version," + target + ";"
  }

  /** The written line is one line for a target without a newline. */
  lemma NewLineHasNoNewline(target: string)
    requires forall k :: 0 <= k < |target| ==> target[k] != '\n'
    ensures forall k :: 0 <= k < |NewLine(target)| ==> NewLine(target)[k] != '\n'
  {
    assert NewLine(target) == "  Version," + target + [';'];
  }

  /** The written line splits into the indented keyword and the rest. */
  lemma NewLineFields(target: string)
    requires forall k :: 0 <= k < |target| ==> target[k] != ','
    ensures Split(NewLine(target), ',') == ["  Version", target + ";"]
  {
    var tail := target + ";";
    assert NewLine(target) == "  Version" + [','] + tail;
    assert forall k :: 0 <= k < |tail| ==> tail[k] != ',';
    SplitAfterField("  Version", tail, ',');
    SplitField(tail, ',');
  }

  /** The written line is a version line. */
  lemma NewLineStartsVersion(target: string)
    ensures StartsVersion(NewLine(target))
  {
    var body := "Version" + ("," + target + ";");
    var ind := "  ";
    assert NewLine(target) == ind + body;
    assert body[0] == 'V' && body[|body| - 1] == ';';
    StripIndented(ind, body);
    IdfVersionText.UpperKeyword("," + target + ";");
  }

  /** As written, the reading of the written line is the keyword, not the
      version just written. */
  lemma NewLineReadsAsKeyword(target: string)
    requires forall k :: 0 <= k < |target| ==> target[k] != ','
    ensures ReadVersion(NewLine(target)) == "Version"
  {
    NewLineStartsVersion(target);
    DigitSearchUnreachable(NewLine(target));
    NewLineFields(target);
    IndentedKeywordCleans();
  }

  /** The evidently intended reading of a version line: the first field that
      holds a digit, cleaned; the first field when none does. */
  function IntendedRead(line: string): string {
    FirstDigitField(Split(line, ',')).GetOr(Cleaned(Split(line, ',')[0]))
  }

  /** The evidently intended `get_idf_version`. */
  function IntendedVersion(lines: seq<string>): (r: Option<string>)
    ensures r.None? <==> forall j :: 0 <= j < |lines| ==> !StartsVersion(lines[j])
    ensures r.Some? ==> exists i :: (0 <= i < |lines| && StartsVersion(lines[i]) &&
      (forall j :: 0 <= j < i ==> !StartsVersion(lines[j])) && r.value == IntendedRead(lines[i]))
  {
    match FirstIndex(lines, StartsVersion)
    case None => None
    case Some(i) => Some(IntendedRead(lines[i]))
  }

  /** The intended reading of the written line is the target, for a target
      with a digit, no comma, no leading whitespace and no trailing `;`. */
  lemma NewLineReadsBack(target: string)
    requires HasDigit(target)
    requires forall k :: 0 <= k < |target| ==> target[k] != ','
    requires !IsSpace(target[0]) && target[|target| - 1] != ';'
    ensures IntendedRead(NewLine(target)) == target
  {
    NewLineFields(target);
    var parts := ["  Version", target + ";"];
    IndentedKeywordHasNoDigit();
    assert HasDigit(parts[1]) by {
      var i :| 0 <= i < |target| && IsDigit(target[i]);
      assert parts[1][i] == target[i];
    }
    FirstIndexAt(parts, HasDigit, 1);
    TargetFieldCleans(target);
  }

  /** The indented keyword holds no digit. */
  lemma IndentedKeywordHasNoDigit()
    ensures !HasDigit("  Version")
  {
    var w := "  Version";
    assert forall i :: 0 <= i < |w| ==> !IsDigit(w[i]);
  }

  /** The field after the comma cleans to the target. */
  lemma TargetFieldCleans(target: string)
    requires |target| >= 1 && !IsSpace(target[0]) && target[|target| - 1] != ';'
    ensures Cleaned(target + ";") == target
  {
    var tail := target + ";";
    assert LStrip(tail) == tail;
    assert RStrip(tail) == tail;
    RStripCharOnce(target, ';');
  }

  /** The rewrite of the split lines: the first version line becomes the
      written line. */
  function RewriteLines(lines: seq<string>, target: string): (bool, seq<string>) {
    ReplaceFirst(lines, StartsVersion, Retarget(target))
  }

  /** The line replacement for `target`, whatever the old line was. */
  function Retarget(target: string): string -> string {
    _ => NewLine(target)
  }

  /** The `for … break` loop of `upgrade_idf` over the split lines. */
  method UpdateLines(lines: seq<string>, target: string) returns (updated: bool, out: seq<string>)
    ensures (updated, out) == RewriteLines(lines, target)
  {
    updated, out := ReplaceFirstLine(lines, StartsVersion, Retarget(target));
  }

  /** The rewrite of the text: split on `\n`, rewrite, join with `\n`. */
  function RewriteText(content: string, target: string): (bool, string) {
    var r := RewriteLines(Split(content, '\n'), target);
    (r.0, Join(r.1, '\n'))
  }

  /** Splitting the rewritten text gives back the rewritten lines, so every
      line but the rewritten one is as it was. */
  lemma RewriteKeepsOtherLines(content: string, target: string)
    requires forall k :: 0 <= k < |target| ==> target[k] != '\n'
    ensures Split(RewriteText(content, target).1, '\n') == RewriteLines(Split(content, '\n'), target).1
  {
    var lines := Split(content, '\n');
    match FirstIndex(lines, StartsVersion)
    case None =>
      SplitJoin(lines, '\n');
    case Some(i) =>
      NewLineHasNoNewline(target);
      SplitJoinUpdate(lines, i, NewLine(target), '\n');
  }

  /** Text with no version line comes back unchanged, with `False`. */
  lemma RewriteWithoutMatch(content: string, target: string)
    requires forall j :: 0 <= j < |Split(content, '\n')| ==> !StartsVersion(Split(content, '\n')[j])
    ensures RewriteText(content, target) == (false, content)
  {
    var lines := Split(content, '\n');
    assert FirstIndex(lines, StartsVersion) == None;
    assert RewriteLines(lines, target) == (false, lines);
    JoinSplit(content, '\n');
  }

  /** After a rewrite the intended reading gives the target back, while the
      reading as written gives the keyword. */
  lemma RewriteThenRead(content: string, target: string)
    requires HasDigit(target)
    requires forall k :: 0 <= k < |target| ==> target[k] != ',' && target[k] != '\n'
    requires !IsSpace(target[0]) && target[|target| - 1] != ';'
    requires RewriteText(content, target).0
    ensures IntendedVersion(Split(RewriteText(content, target).1, '\n')) == Some(target)
    ensures AsWrittenVersion(Split(RewriteText(content, target).1, '\n')) == Some("Version")
  {
    var lines := Split(content, '\n');
    var out := RewriteLines(lines, target).1;
    RewriteKeepsOtherLines(content, target);
    var i := FirstIndex(lines, StartsVersion).value;
    assert out[i] == NewLine(target);
    NewLineStartsVersion(target);
    forall j | 0 <= j < i ensures !StartsVersion(out[j]) {
      assert out[j] == lines[j];
    }
    FirstIndexAt(out, StartsVersion, i);
    NewLineReadsBack(target);
    NewLineReadsAsKeyword(target);
  }

  /** `upgrade_idf(idf_path, target_version)` over the file system: the
      result and the files afterwards.  The version read first is only
      printed, so it changes nothing. */
  function UpgradeIdf(files: map<string, string>, idfPath: string, target: string): (bool, map<string, string>) {
    if idfPath !in files then (false, files)
    else
      BackupPathDiffers(idfPath);
      var withBackup := WithBackup(files, idfPath, BackupPath(idfPath), true);
      Store(withBackup, idfPath, RewriteText(files[idfPath], target))
  }

  /** A missing file fails with nothing changed. */
  lemma UpgradeIdfMissing(files: map<string, string>, idfPath: string, target: string)
    requires idfPath !in files
    ensures UpgradeIdf(files, idfPath, target) == (false, files)
  {
  }

  /** For an existing model the result is whether a version line was
      found, and the model becomes the rewritten text: the same text when
      none was found, and rewritten even when it is already at the target. */
  lemma UpgradeIdfModel(files: map<string, string>, idfPath: string, target: string)
    requires idfPath in files
    ensures var after := UpgradeIdf(files, idfPath, target);
      var rewrite := RewriteText(files[idfPath], target);
      && after.0 == rewrite.0
      && idfPath in after.1 && after.1[idfPath] == rewrite.1
      && (!after.0 ==> after.1[idfPath] == files[idfPath])
  {
    var lines := Split(files[idfPath], '\n');
    JoinSplit(files[idfPath], '\n');
    assert !RewriteLines(lines, target).0 ==> RewriteLines(lines, target).1 == lines;
  }

  /** For an existing model a backup exists afterwards: an old one untouched,
      a new one the model's old text. */
  lemma UpgradeIdfBackup(files: map<string, string>, idfPath: string, target: string)
    requires idfPath in files
    ensures var after := UpgradeIdf(files, idfPath, target).1;
      BackupPath(idfPath) in after &&
      after[BackupPath(idfPath)] == if BackupPath(idfPath) in files then files[BackupPath(idfPath)] else files[idfPath]
  {
    BackupPathDiffers(idfPath);
    StoreAfterBackup(files, idfPath, BackupPath(idfPath), true, RewriteText(files[idfPath], target));
  }

  /** No file but the model and its backup changes, and none appears. */
  lemma UpgradeIdfTouchesOnlyModel(files: map<string, string>, idfPath: string, target: string)
    requires idfPath in files
    ensures var after := UpgradeIdf(files, idfPath, target).1;
      && after.Keys == files.Keys + {BackupPath(idfPath)}
      && forall f :: f in files && f != idfPath && f != BackupPath(idfPath) ==> after[f] == files[f]
  {
    BackupPathDiffers(idfPath);
    StoreAfterBackup(files, idfPath, BackupPath(idfPath), true, RewriteText(files[idfPath], target));
  }
}
