/** example_model_management.py: its own `get_idf_version` (a looser line
    test than the upgrade tools' copy) and `upgrade_idf_version`, which
    rewrites the first line naming the version in place.  A file is its
    list of lines as `readlines()` gives them, each with its terminator;
    the file system is a map from path to lines. */
module ExampleModelManagement {
  import opened Wrappers
  import opened PyText
  import opened LineScan
  import IdfVersionText
  import opened ModelFiles

  /** The scan's and the rewrite's line test: `'VERSION' in line.upper()`
      and not a `!` comment. */
  predicate MentionsVersion(line: string) {
    Contains(Upper(line), "VERSION") && !IdfVersionText.IsComment(line)
  }

  /** A mention the scan can read: it has a second comma field. */
  predicate UsableMention(line: string) {
    MentionsVersion(line) && |Split(line, ',')| >= 2
  }

  /** What `get_idf_version` returns: the second field of the first usable
      mention; mentions with a single field are passed over. */
  function ScannedVersion(lines: seq<string>): (r: Option<string>)
    ensures r.None? <==> forall j :: 0 <= j < |lines| ==> !UsableMention(lines[j])
    ensures r.Some? ==> exists i :: (0 <= i < |lines| && UsableMention(lines[i]) &&
      (forall j :: 0 <= j < i ==> !UsableMention(lines[j])) &&
      r.value == IdfVersionText.SecondField(lines[i]))
  {
    match FirstIndex(lines, UsableMention)
    case None => None
    case Some(i) => Some(IdfVersionText.SecondField(lines[i]))
  }

  /** `get_idf_version`: the scan for the first usable mention, then its
      second field. */
  method GetIdfVersion(lines: seq<string>) returns (version: Option<string>)
    ensures version == ScannedVersion(lines)
  {
    var found := FindFirst(lines, UsableMention);
    match found
    case None =>
      version := None;
    case Some(i) =>
      version := Some(IdfVersionText.SecondField(lines[i]));
  }

  /** The replacement line: the old line's leading whitespace, as that many
      spaces, then `Version,{target};` and a newline. */
  function VersionLine(line: string, target: string): string {
    Spaces(|line| - |LStrip(line)|) + "Version," + target + ";\n"
  }

  /** The rewrite of `upgrade_idf_version`: the first mention (with or
      without a second field) becomes the version line for `target`. */
  function RewriteVersion(lines: seq<string>, target: string): (bool, seq<string>) {
    ReplaceFirst(lines, MentionsVersion, Retarget(target))
  }

  /** The line replacement for `target`, as a function of the old line. */
  function Retarget(target: string): string -> string {
    line => VersionLine(line, target)
  }

  /** The `for … break` loop of `upgrade_idf_version` over the lines read. */
  method UpdateLines(lines: seq<string>, target: string) returns (updated: bool, out: seq<string>)
    ensures (updated, out) == RewriteVersion(lines, target)
  {
    updated, out := ReplaceFirstLine(lines, MentionsVersion, Retarget(target));
  }

  /** The new line keeps the old line's indentation width. */
  lemma VersionLineIndent(line: string, target: string)
    ensures var r := VersionLine(line, target); var n := |line| - |LStrip(line)|;
      && r[..n] == Spaces(n)
      && r[n..] == "Version," + target + ";\n"
      && |LStrip(r)| == |r| - n
  {
    var n := |line| - |LStrip(line)|;
    var rest := "Version," + target + ";\n";
    assert VersionLine(line, target) == Spaces(n) + rest;
    LStripSpaces(n, rest);
  }

  /** The new line upper-cased holds `VERSION`. */
  lemma VersionLineContains(line: string, target: string)
    ensures Contains(Upper(VersionLine(line, target)), "VERSION")
  {
    var n := |line| - |LStrip(line)|;
    var body := "Version" + ("," + target + ";\n");
    assert VersionLine(line, target) == Spaces(n) + body;
    UpperAppend(Spaces(n), body);
    IdfVersionText.UpperKeyword("," + target + ";\n");
    ContainsAfter(Upper(Spaces(n)), Upper(body), "VERSION");
  }

  /** The new line stripped starts with `V`, so it is not a comment. */
  lemma VersionLineNotComment(line: string, target: string)
    ensures !IdfVersionText.IsComment(VersionLine(line, target))
  {
    var n := |line| - |LStrip(line)|;
    var body := "Version" + ("," + target + ";\n");
    assert VersionLine(line, target) == Spaces(n) + body;
    assert body[0] == 'V';
    LStripSpaces(n, body);
    RStripKeepsPrefix(body, 1);
    assert RStrip(body)[0] == RStrip(body)[..1][0] == body[0];
  }

  /** The new line mentions the version and is not a comment. */
  lemma VersionLineMentions(line: string, target: string)
    ensures MentionsVersion(VersionLine(line, target))
  {
    VersionLineContains(line, target);
    VersionLineNotComment(line, target);
  }

  /** The new line splits at its one comma into the keyword and the rest. */
  lemma VersionLineFields(line: string, target: string)
    requires forall k :: 0 <= k < |target| ==> target[k] != ','
    ensures Split(VersionLine(line, target), ',') == [Spaces(|line| - |LStrip(line)|) + "Version", target + ";\n"]
  {
    var n := |line| - |LStrip(line)|;
    var head := Spaces(n) + "Version";
    var tail := target + ";\n";
    assert "Version," + target + ";\n" == "Version" + [','] + tail;
    assert VersionLine(line, target) == head + [','] + tail;
    HeadHasNoComma(n);
    TailHasNoComma(target);
    SplitAfterField(head, tail, ',');
    SplitField(tail, ',');
  }

  /** The indentation and the keyword hold no comma. */
  lemma HeadHasNoComma(n: nat)
    ensures forall k :: 0 <= k < |Spaces(n) + "Version"| ==> (Spaces(n) + "Version")[k] != ','
  {
    var head := Spaces(n) + "Version";
    forall k | 0 <= k < |head| ensures head[k] != ',' {
      if k < n {
        assert head[k] == Spaces(n)[k];
      } else {
        assert head[k] == "Version"[k - n];
      }
    }
  }

  /** A target without a comma keeps none after `;` and the newline. */
  lemma TailHasNoComma(target: string)
    requires forall k :: 0 <= k < |target| ==> target[k] != ','
    ensures forall k :: 0 <= k < |target + ";\n"| ==> (target + ";\n")[k] != ','
  {
    var tail := target + ";\n";
    forall k | 0 <= k < |tail| ensures tail[k] != ',' {
      if k < |target| {
        assert tail[k] == target[k];
      }
    }
  }

  /** The field after the comma reads back as the target. */
  lemma TailReadsBack(target: string)
    requires target == [] || (!IsSpace(target[0]) && target[|target| - 1] != ';')
    ensures RStripChar(Strip(target + ";\n"), ';') == target
  {
    var tail := target + ";\n";
    assert LStrip(tail) == tail;
    assert tail[..|tail| - 1] == target + ";";
    assert RStrip(tail) == target + ";";
    RStripCharOnce(target, ';');
  }

  /** The new line is a usable mention whose second field is `target`, for a
      target with no comma, no leading whitespace and no trailing `;`. */
  lemma VersionLineReadsBack(line: string, target: string)
    requires forall k :: 0 <= k < |target| ==> target[k] != ','
    requires target == [] || (!IsSpace(target[0]) && target[|target| - 1] != ';')
    ensures UsableMention(VersionLine(line, target))
    ensures IdfVersionText.SecondField(VersionLine(line, target)) == target
  {
    VersionLineMentions(line, target);
    VersionLineFields(line, target);
    TailReadsBack(target);
  }

  /** No mention: nothing is rewritten. */
  lemma RewriteWithoutMention(lines: seq<string>, target: string)
    requires forall j :: 0 <= j < |lines| ==> !MentionsVersion(lines[j])
    ensures RewriteVersion(lines, target) == (false, lines)
  {
  }

  /** After a rewrite the scan reads the target back. */
  lemma RewriteThenScan(lines: seq<string>, target: string)
    requires forall k :: 0 <= k < |target| ==> target[k] != ','
    requires target == [] || (!IsSpace(target[0]) && target[|target| - 1] != ';')
    requires RewriteVersion(lines, target).0
    ensures ScannedVersion(RewriteVersion(lines, target).1) == Some(target)
  {
    var out := RewriteVersion(lines, target).1;
    var i := FirstIndex(lines, MentionsVersion).value;
    VersionLineReadsBack(lines[i], target);
    assert out[i] == VersionLine(lines[i], target);
    forall j | 0 <= j < i ensures !UsableMention(out[j]) {
      assert out[j] == lines[j];
    }
    FirstIndexAt(out, UsableMention, i);
  }

  /** The scan and the rewrite can pick different lines: a first mention with
      a single field is passed over by the scan but is the line rewritten,
      so the line the version was read from keeps its old text. */
  lemma ScanAndRewriteDisagree(lines: seq<string>, target: string, i: nat, k: nat)
    requires i < k < |lines|
    requires MentionsVersion(lines[i]) && |Split(lines[i], ',')| == 1
    requires forall j :: 0 <= j < i ==> !MentionsVersion(lines[j])
    requires UsableMention(lines[k]) && forall j :: i < j < k ==> !UsableMention(lines[j])
    ensures ScannedVersion(lines) == Some(IdfVersionText.SecondField(lines[k]))
    ensures RewriteVersion(lines, target).1[k] == lines[k]
    ensures RewriteVersion(lines, target).1[i] == VersionLine(lines[i], target)
  {
    FirstIndexAt(lines, MentionsVersion, i);
    FirstIndexAt(lines, UsableMention, k);
  }

  /** `upgrade_idf_version(idf_path, target_version, create_backup)` over the
      file system: the result and the files afterwards. */
  function UpgradeIdfVersion(files: map<string, seq<string>>, idfPath: string, target: string, createBackup: bool)
    : (bool, map<string, seq<string>>)
  {
    if idfPath !in files then (false, files)
    else if ScannedVersion(files[idfPath]) == Some(target) then (true, files)
    else
      BackupPathDiffers(idfPath);
      var withBackup := WithBackup(files, idfPath, BackupPath(idfPath), createBackup);
      Store(withBackup, idfPath, RewriteVersion(files[idfPath], target))
  }

  /** A missing file fails with nothing changed; a model already at the
      target succeeds with nothing changed. */
  lemma UpgradeEarlyExits(files: map<string, seq<string>>, idfPath: string, target: string, createBackup: bool)
    ensures idfPath !in files ==> UpgradeIdfVersion(files, idfPath, target, createBackup) == (false, files)
    ensures idfPath in files && ScannedVersion(files[idfPath]) == Some(target) ==>
      UpgradeIdfVersion(files, idfPath, target, createBackup) == (true, files)
  {
  }

  /** Past the early exits the result is whether a line mentions the
      version, and the model becomes the rewritten lines (unchanged when no
      line mentions it). */
  lemma UpgradeRewritesModel(files: map<string, seq<string>>, idfPath: string, target: string, createBackup: bool)
    requires idfPath in files && ScannedVersion(files[idfPath]) != Some(target)
    ensures var rewrite := RewriteVersion(files[idfPath], target);
      var after := UpgradeIdfVersion(files, idfPath, target, createBackup);
      && after.0 == rewrite.0
      && idfPath in after.1 && after.1[idfPath] == rewrite.1
  {
  }

  /** Past the early exits the backup exists afterwards exactly when it
      existed or was requested; an existing backup is never overwritten and a
      new one holds the old model. */
  lemma UpgradeBackup(files: map<string, seq<string>>, idfPath: string, target: string, createBackup: bool)
    requires idfPath in files && ScannedVersion(files[idfPath]) != Some(target)
    ensures var after := UpgradeIdfVersion(files, idfPath, target, createBackup).1;
      var b := BackupPath(idfPath);
      && (b in after <==> b in files || createBackup)
      && (b in files ==> after[b] == files[b])
      && (b !in files && createBackup ==> after[b] == files[idfPath])
  {
    BackupPathDiffers(idfPath);
    StoreAfterBackup(files, idfPath, BackupPath(idfPath), createBackup, RewriteVersion(files[idfPath], target));
  }

  /** No file but the model and its backup changes, and none appears. */
  lemma UpgradeTouchesOnlyModel(files: map<string, seq<string>>, idfPath: string, target: string, createBackup: bool)
    ensures var after := UpgradeIdfVersion(files, idfPath, target, createBackup).1;
      && after.Keys <= files.Keys + {idfPath, BackupPath(idfPath)}
      && forall f :: f in files && f != idfPath && f != BackupPath(idfPath) ==> f in after && after[f] == files[f]
  {
    if idfPath in files && ScannedVersion(files[idfPath]) != Some(target) {
      BackupPathDiffers(idfPath);
      StoreAfterBackup(files, idfPath, BackupPath(idfPath), createBackup, RewriteVersion(files[idfPath], target));
    }
  }
}
