/** upgrade_idf.py: the table of one-step transition tools, the chain of
    transitions from one IDF version to another, the tool and backup names,
    and the decision flow that walks a model through the chain.  The
    transition runs themselves (downloads, subprocesses, file copies) are
    inputs: each step's outcome is given by a function of the step. */
module UpgradeIdf {
  import opened Wrappers
  import opened PyText
  import opened IdfVersionText

  /** One tool: upgrades a model from `src` to `dst` (both major.minor). */
  datatype Transition = Transition(src: string, dst: string)

  /** The versions the table links, oldest first. */
  const Versions: seq<string> := ["22.1", "22.2", "23.1", "23.2", "24.1", "24.2", "25.1", "25.2"]

  /** `TRANSITIONS`, in table order. */
  const Transitions: seq<Transition> := [
    Transition("22.1", "22.2"),
    Transition("22.2", "23.1"),
    Transition("23.1", "23.2"),
    Transition("23.2", "24.1"),
    Transition("24.1", "24.2"),
    Transition("24.2", "25.1"),
    Transition("25.1", "25.2")
  ]

  /** The table links each version to the next one, and no version twice. */
  lemma TableShape()
    ensures |Versions| == 8 && |Transitions| == 7
    ensures LinksInOrder(Transitions, Versions)
  {
  }

  /** The scan of `for src, dst in table` from `current` towards `target`:
      the version reached and the steps taken. */
  function Walk(table: seq<Transition>, current: string, target: string): (string, seq<Transition>)
    decreases |table|
  {
    if table == [] then (current, [])
    else if current == table[0].src then
      if table[0].dst == target then (target, [table[0]])
      else
        var rest := Walk(table[1..], table[0].dst, target);
        (rest.0, [table[0]] + rest.1)
    else Walk(table[1..], current, target)
  }

  /** What `get_transition_path` returns: `[]` for the same major.minor,
      otherwise the steps taken, or `None` when the target is never reached. */
  function TransitionPath(fromVersion: string, toVersion: string): Option<seq<Transition>> {
    var fromMajor, toMajor := Major(fromVersion), Major(toVersion);
    if fromMajor == toMajor then Some([])
    else
      var w := Walk(Transitions, fromMajor, toMajor);
      if w.0 != toMajor then None else Some(w.1)
  }

  /** `get_transition_path`: walks the table once, following the chain. */
  method GetTransitionPath(fromVersion: string, toVersion: string) returns (path: Option<seq<Transition>>)
    ensures path == TransitionPath(fromVersion, toVersion)
  {
    var fromMajor := Major(fromVersion);
    var toMajor := Major(toVersion);
    if fromMajor == toMajor {
      return Some([]);
    }
    var current, steps := FollowChain(Transitions, fromMajor, toMajor);
    if current != toMajor {
      return None;
    }
    return Some(steps);
  }

  /** The loop of `get_transition_path` over a table: appends each entry whose
      source is the current version and moves on to its destination, stopping
      once the target is reached. */
  method FollowChain(table: seq<Transition>, start: string, target: string) returns (current: string, steps: seq<Transition>)
    ensures (current, steps) == Walk(table, start, target)
  {
    steps := [];
    current := start;
    var i := 0;
    assert table[0..] == table;
    while i < |table|
      invariant 0 <= i <= |table|
      invariant Walk(table, start, target).0 == Walk(table[i..], current, target).0
      invariant Walk(table, start, target).1 == steps + Walk(table[i..], current, target).1
    {
      assert table[i..][1..] == table[i + 1..];
      var t := table[i];
      if current == t.src {
        steps := steps + [t];
        current := t.dst;
        if current == target {
          assert Walk(table, start, target) == (current, steps);
          break;
        }
      }
      i := i + 1;
    }
    if i == |table| {
      assert table[i..] == [];
      assert steps + [] == steps;
      assert Walk(table, start, target) == (current, steps);
    } else {
      assert Walk(table, start, target) == (current, steps);
    }
  }

  /** `p` is drawn from `table` in table order. */
  predicate IsSubsequence(p: seq<Transition>, table: seq<Transition>)
    decreases |table|
  {
    p == [] || (table != [] && ((p[0] == table[0] && IsSubsequence(p[1..], table[1..])) || IsSubsequence(p, table[1..])))
  }

  /** Consecutive steps meet: each destination is the next step's source. */
  predicate IsChain(p: seq<Transition>) {
    forall i :: 0 <= i < |p| - 1 ==> p[i].dst == p[i + 1].src
  }

  lemma {:induction false} WalkIsChain(table: seq<Transition>, current: string, target: string)
    ensures IsSubsequence(Walk(table, current, target).1, table)
    ensures IsChain(Walk(table, current, target).1)
    ensures Walk(table, current, target).1 == [] ==> Walk(table, current, target).0 == current
    ensures var (c, p) := Walk(table, current, target);
      p != [] ==> p[0].src == current && p[|p| - 1].dst == c
    decreases |table|
  {
    if table != [] {
      if current == table[0].src {
        if table[0].dst != target {
          WalkIsChain(table[1..], table[0].dst, target);
          var rest := Walk(table[1..], table[0].dst, target).1;
          var p := [table[0]] + rest;
          assert p[1..] == rest;
          if rest != [] {
            forall i | 0 <= i < |p| - 1 ensures p[i].dst == p[i + 1].src {
              if i > 0 {
                assert p[i] == rest[i - 1] && p[i + 1] == rest[i];
              }
            }
          }
        } else {
          assert [table[0]][1..] == [];
        }
      } else {
        WalkIsChain(table[1..], current, target);
      }
    }
  }

  /** A path starts at the source's major.minor, is a chain, ends at the
      target's major.minor, takes its steps from the table in table order,
      and is empty exactly when the two majors agree. */
  lemma PathIsChain(fromVersion: string, toVersion: string)
    ensures match TransitionPath(fromVersion, toVersion)
      case None => Major(fromVersion) != Major(toVersion)
      case Some(p) =>
        && (p == [] <==> Major(fromVersion) == Major(toVersion))
        && IsChain(p)
        && IsSubsequence(p, Transitions)
        && (p != [] ==> p[0].src == Major(fromVersion) && p[|p| - 1].dst == Major(toVersion))
  {
    WalkIsChain(Transitions, Major(fromVersion), Major(toVersion));
  }

  /** Every step of a subsequence is an entry of the table. */
  lemma {:induction false} SubsequenceSteps(p: seq<Transition>, table: seq<Transition>)
    requires IsSubsequence(p, table)
    ensures forall i :: 0 <= i < |p| ==> p[i] in table
    decreases |table|
  {
    if p != [] {
      if p[0] == table[0] && IsSubsequence(p[1..], table[1..]) {
        SubsequenceSteps(p[1..], table[1..]);
        forall i | 0 <= i < |p| ensures p[i] in table {
          if i > 0 {
            assert p[i] == p[1..][i - 1];
            assert p[i] in table[1..];
          }
        }
      } else {
        SubsequenceSteps(p, table[1..]);
        forall i | 0 <= i < |p| ensures p[i] in table {
          assert p[i] in table[1..];
        }
      }
    }
  }

  /** A table that links each of the distinct versions `vs` to the next. */
  predicate LinksInOrder(table: seq<Transition>, vs: seq<string>) {
    && |vs| == |table| + 1
    && (forall i :: 0 <= i < |table| ==> table[i] == Transition(vs[i], vs[i + 1]))
    && (forall a, b :: 0 <= a < b < |vs| ==> vs[a] != vs[b])
  }

  /** The walk over such a table, from the `k`-th entry on, from the `m`-th
      version towards the `j`-th: to a later version it takes exactly the
      entries between the two; to an earlier one it runs on to the last
      version and never arrives. */
  lemma {:induction false} WalkAlongChain(table: seq<Transition>, vs: seq<string>, k: nat, m: nat, j: nat)
    requires LinksInOrder(table, vs)
    requires k <= m < |vs| && j < |vs| && m != j
    ensures var w := Walk(table[k..], vs[m], vs[j]);
      if m < j then w == (vs[j], table[m..j])
      else w == (vs[|table|], table[m..])
    decreases |table| - k
  {
    if k == |table| {
      assert table[k..] == [];
    } else {
      var t := table[k..];
      assert t[0] == Transition(vs[k], vs[k + 1]);
      assert t[1..] == table[k + 1..];
      if m == k {
        if j == k + 1 {
          assert table[m..j] == [t[0]];
        } else {
          WalkAlongChain(table, vs, k + 1, k + 1, j);
          assert vs[k + 1] != vs[j];
          if m < j {
            assert table[m..j] == [t[0]] + table[k + 1..j];
          } else {
            assert table[m..] == [t[0]] + table[k + 1..];
          }
        }
      } else {
        assert vs[m] != vs[k];
        WalkAlongChain(table, vs, k + 1, m, j);
      }
    }
  }

  /** Between two versions of the table: the path is exactly the table entries
      from the source to the target, and `None` for a target older than the
      source (no downgrade chain exists). */
  lemma PathBetweenTableVersions(fromVersion: string, toVersion: string, m: nat, j: nat)
    requires m < |Versions| && j < |Versions|
    requires Major(fromVersion) == Versions[m] && Major(toVersion) == Versions[j]
    ensures TransitionPath(fromVersion, toVersion) == if j < m then None else Some(Transitions[m..j])
  {
    TableShape();
    if m != j {
      WalkAlongChain(Transitions, Versions, 0, m, j);
      assert Transitions[0..] == Transitions;
      var w := Walk(Transitions, Versions[m], Versions[j]);
      if j < m {
        assert w.0 == Versions[7] != Versions[j];
      } else {
        assert w == (Versions[j], Transitions[m..j]);
      }
    } else {
      assert Transitions[m..j] == [];
    }
  }

  /** A source or target outside the table has no path unless the two majors
      already agree. */
  lemma PathNeedsTableVersions(fromVersion: string, toVersion: string)
    requires Major(fromVersion) != Major(toVersion)
    requires Major(fromVersion) !in Versions || Major(toVersion) !in Versions
    ensures TransitionPath(fromVersion, toVersion) == None
  {
    PathIsChain(fromVersion, toVersion);
    if TransitionPath(fromVersion, toVersion).Some? {
      var p := TransitionPath(fromVersion, toVersion).value;
      TableShape();
      StepsJoinListedVersions(Transitions, Versions, p);
    }
  }

  /** Every step drawn from a table linking `vs` starts and ends at one of `vs`. */
  lemma StepsJoinListedVersions(table: seq<Transition>, vs: seq<string>, p: seq<Transition>)
    requires LinksInOrder(table, vs) && IsSubsequence(p, table)
    ensures forall i :: 0 <= i < |p| ==> p[i].src in vs && p[i].dst in vs
  {
    SubsequenceSteps(p, table);
    forall i | 0 <= i < |p| ensures p[i].src in vs && p[i].dst in vs {
      var k :| 0 <= k < |table| && table[k] == p[i];
      assert table[k] == Transition(vs[k], vs[k + 1]);
    }
  }

  /** The name `find_transition_tool` looks for. */
  function TransitionExeName(fromVer: string, toVer: string, win32: bool): string {
    "Transition-V" + ReplaceChar(fromVer, '.', '-') + "-0-to-V" + ReplaceChar(toVer, '.', '-') + "-0"
      + (if win32 then ".exe" else "")
  }

  /** The tool name holds no dot apart from the `.exe` suffix on Windows, and
      begins with the fixed prefix. */
  lemma ExeNameShape(fromVer: string, toVer: string, win32: bool)
    ensures var name := TransitionExeName(fromVer, toVer, win32);
      var stem := if win32 then |name| - 4 else |name|;
      && 0 <= stem <= |name|
      && StartsWith(name, "Transition-V")
      && (forall i :: 0 <= i < stem ==> name[i] != '.')
      && name[stem..] == (if win32 then ".exe" else "")
  {
  }

  /** `idf_path + ".v{from_ver}.backup"`. */
  function BackupName(idfPath: string, fromVer: string): string {
    idfPath + ".v" + fromVer + ".backup"
  }

  /** The backup step of `run_transition` over the set of existing files:
      copies the model under the backup name unless that file exists. */
  function MakeBackup(files: map<string, string>, idfPath: string, fromVer: string): (after: map<string, string>)
    requires idfPath in files
  {
    var b := BackupName(idfPath, fromVer);
    if b in files then files else files[b := files[idfPath]]
  }

  /** An existing backup is never overwritten, a missing one becomes a copy of
      the model, and no other file changes. */
  lemma MakeBackupKeeps(files: map<string, string>, idfPath: string, fromVer: string)
    requires idfPath in files
    ensures var after := MakeBackup(files, idfPath, fromVer); var b := BackupName(idfPath, fromVer);
      && after.Keys == files.Keys + {b}
      && (b in files ==> after[b] == files[b])
      && (b !in files ==> after[b] == files[idfPath])
      && (forall f :: f in files && f != b ==> after[f] == files[f])
  {
  }

  /** The backup name extends the model's path and ends in `.backup`, so it is
      never the model itself. */
  lemma BackupNameDiffers(idfPath: string, fromVer: string)
    ensures var b := BackupName(idfPath, fromVer);
      StartsWith(b, idfPath) && |b| > |idfPath| && b[|b| - 7..] == ".backup"
  {
  }

  /** What happened when a transition tool was looked for and run. */
  datatype StepReport =
    | ToolMissing                            // no executable found or downloaded
    | Ran(versionAfter: Option<string>)      // the version read back afterwards
    | Raised                                 // the run raised (timeout or other error)

  /** `run_transition`'s verdict: the version read back starts with the target. */
  predicate StepSucceeded(t: Transition, r: StepReport) {
    r.Ran? && r.versionAfter.Some? && r.versionAfter.value != "" && StartsWith(r.versionAfter.value, t.dst)
  }

  /** Runs the steps in order, stopping at the first that fails: whether all
      succeeded, and the steps attempted. */
  function RunSteps(path: seq<Transition>, report: Transition -> StepReport): (r: (bool, seq<Transition>))
    ensures r.0 <==> forall i :: 0 <= i < |path| ==> StepSucceeded(path[i], report(path[i]))
    ensures r.0 ==> r.1 == path
    ensures !r.0 ==> (
      && 1 <= |r.1| <= |path| && r.1 == path[..|r.1|]
      && !StepSucceeded(path[|r.1| - 1], report(path[|r.1| - 1]))
      && forall i :: 0 <= i < |r.1| - 1 ==> StepSucceeded(path[i], report(path[i])))
    decreases |path|
  {
    if path == [] then (true, [])
    else if !StepSucceeded(path[0], report(path[0])) then (false, [path[0]])
    else
      var rest := RunSteps(path[1..], report);
      assert forall i :: 1 <= i < |path| ==> path[i] == path[1..][i - 1];
      (rest.0, [path[0]] + rest.1)
  }

  /** Outcomes of `upgrade_idf`. */
  datatype Upgrade =
    | NoVersion                              // the file declares no (or an empty) version
    | AlreadyCurrent                         // same major.minor: nothing to do
    | NotANumber                             // `float(...)` of a major raised `ValueError`
    | Downgrade                              // the model is newer than the target
    | NoPath                                 // the target is not reachable by the table
    | Upgraded(steps: seq<Transition>)       // every step succeeded
    | FailedAt(steps: seq<Transition>)       // the last of `steps` failed
  {
    /** The boolean `upgrade_idf` returns (a raised error returns nothing). */
    predicate Succeeded() {
      AlreadyCurrent? || Upgraded?
    }
  }

  /** The decision flow of `upgrade_idf` for a model whose file declares
      `current`, given how each step's tool run turns out. */
  function UpgradeDecision(current: Option<string>, target: string, report: Transition -> StepReport): Upgrade {
    if current.None? || current.value == "" then NoVersion
    else
      var v := current.value;
      if Major(v) == Major(target) then AlreadyCurrent
      else if MajorNumber(v).None? || MajorNumber(target).None? then NotANumber
      else if MajorNumber(v).value > MajorNumber(target).value then Downgrade
      else RunPath(TransitionPath(v, target), report)
  }

  /** The last part of the flow: no path, or the run of its steps. */
  function RunPath(path: Option<seq<Transition>>, report: Transition -> StepReport): (u: Upgrade)
    ensures u.NoPath? <==> path.None?
    ensures u.Upgraded? <==> path.Some? && forall i :: 0 <= i < |path.value| ==> StepSucceeded(path.value[i], report(path.value[i]))
    ensures u.Upgraded? ==> u.steps == path.value
    ensures u.FailedAt? ==> (
      && 1 <= |u.steps| <= |path.value| && u.steps == path.value[..|u.steps|]
      && !StepSucceeded(u.steps[|u.steps| - 1], report(u.steps[|u.steps| - 1]))
      && forall i :: 0 <= i < |u.steps| - 1 ==> StepSucceeded(u.steps[i], report(u.steps[i])))
    ensures u.NoPath? || u.Upgraded? || u.FailedAt?
  {
    match path
    case None => NoPath
    case Some(p) =>
      var run := RunSteps(p, report);
      if run.0 then Upgraded(run.1) else FailedAt(run.1)
  }

  /** A run of steps only happens past the version checks, and is then the
      run of the transition path. */
  lemma DecisionRunsPath(current: Option<string>, target: string, report: Transition -> StepReport)
    requires UpgradeDecision(current, target, report).Upgraded? || UpgradeDecision(current, target, report).FailedAt?
    ensures current.Some? && UpgradeDecision(current, target, report) == RunPath(TransitionPath(current.value, target), report)
  {
  }

  /** The same major.minor succeeds with no step run. */
  lemma UpgradeSameMajor(current: string, target: string, report: Transition -> StepReport)
    requires current != "" && Major(current) == Major(target)
    ensures UpgradeDecision(Some(current), target, report) == AlreadyCurrent
  {
  }

  /** A model newer than the target is refused before any step is run. */
  lemma UpgradeRefusesNewer(current: string, target: string, report: Transition -> StepReport)
    requires current != "" && Major(current) != Major(target)
    requires MajorNumber(current).Some? && MajorNumber(target).Some?
    requires MajorNumber(current).value > MajorNumber(target).value
    ensures UpgradeDecision(Some(current), target, report) == Downgrade
  {
  }

  /** Success means every step of the transition path ran and succeeded; the
      path then leads from the model's major.minor to the target's. */
  lemma UpgradedFollowsPath(current: Option<string>, target: string, report: Transition -> StepReport)
    requires UpgradeDecision(current, target, report).Upgraded?
    ensures var steps := UpgradeDecision(current, target, report).steps;
      && current.Some? && TransitionPath(current.value, target) == Some(steps)
      && steps != [] && steps[0].src == Major(current.value) && steps[|steps| - 1].dst == Major(target)
      && forall i :: 0 <= i < |steps| ==> StepSucceeded(steps[i], report(steps[i]))
  {
    DecisionRunsPath(current, target, report);
    PathIsChain(current.value, target);
  }

  /** A failure during the run stops at the first failing step of the path. */
  lemma FailedStopsAtFirstFailure(current: Option<string>, target: string, report: Transition -> StepReport)
    requires UpgradeDecision(current, target, report).FailedAt?
    ensures var steps := UpgradeDecision(current, target, report).steps;
      && current.Some? && TransitionPath(current.value, target).Some?
      && var path := TransitionPath(current.value, target).value;
      && 1 <= |steps| <= |path| && steps == path[..|steps|]
      && !StepSucceeded(steps[|steps| - 1], report(steps[|steps| - 1]))
      && forall i :: 0 <= i < |steps| - 1 ==> StepSucceeded(steps[i], report(steps[i]))
  {
    DecisionRunsPath(current, target, report);
    var path := TransitionPath(current.value, target);
    assert UpgradeDecision(current, target, report) == RunPath(path, report);
  }
}
