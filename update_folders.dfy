/** `update_folders` and `get_status_tag` of catkin_tools_fetch/update/update.py:
    for every workspace folder, `git status`; a checkout with changes or
    without a tracked branch is left alone, any other is pulled on its branch
    and tagged from the pull's output, at warning level when the tag is not
    one of the good ones. Git is the oracle `git` (folder and command line to
    outcome); the packages are a dict from workspace folder to package name. */
module UpdateFolders {
  import opened Wrappers
  import opened Strs
  import opened Dicts
  import LibTools

  const UP_TO_DATE_MSG := "Already up-to-date"
  const MERGE_FAILED_MSG := "Automatic merge failed"

  /** The tags of this module; `Conflict` is the one the newer `Updater` lacks. */
  datatype Tag = Changes | NoTrack | UpToDate | Pulled | GitError | Conflict {
    function Label(): string
    {
      match this
      case Changes => "[UNCOMMITTED CHANGES]"
      case NoTrack => "[NO BRANCH]"
      case UpToDate => "[UP TO DATE]"
      case Pulled => "[PULLED]"
      case GitError => "[GIT ERROR]"
      case Conflict => "[MERGE CONFLICT]"
    }
  }

  /** `OK_TAGS`. */
  const OK_TAGS: seq<Tag> := [Pulled, UpToDate]

  /** The logging level of a report. */
  datatype Level = Info | Warning | Error

  /** One log line: the package, its tag, and the level it is logged at. */
  datatype Report = Report(pkgName: string, tag: Tag, level: Level)

  /** `get_status_tag(output)`: up to date when git says so, even when the
      output also reports a failed merge; a conflict when only the merge
      failed; pulled otherwise. */
  function GetStatusTag(output: string): (tag: Tag)
    ensures tag == UpToDate <==> Contains(output, UP_TO_DATE_MSG)
    ensures tag == Conflict <==> !Contains(output, UP_TO_DATE_MSG) && Contains(output, MERGE_FAILED_MSG)
    ensures tag == Pulled <==> !Contains(output, UP_TO_DATE_MSG) && !Contains(output, MERGE_FAILED_MSG)
  {
    if Contains(output, UP_TO_DATE_MSG) then UpToDate
    else if Contains(output, MERGE_FAILED_MSG) then Conflict
    else Pulled
  }

  /** The level a pull's tag is logged at: `info` for the good tags,
      `warning` for any other; so a successful pull warns exactly on a
      conflict. */
  function PullLevel(tag: Tag): (level: Level)
    ensures level == Info <==> tag in OK_TAGS
    ensures level == Warning <==> tag !in OK_TAGS
  {
    if tag in OK_TAGS then Info else Warning
  }

  /** The good tags are exactly the two that report a finished pull. */
  lemma OkTagsAreFinishedPulls(output: string)
    ensures PullLevel(GetStatusTag(output)) == Warning <==> GetStatusTag(output) == Conflict
  {
    assert OK_TAGS[0] == Pulled && OK_TAGS[1] == UpToDate;
  }

  /** The outcome of `git status` for a workspace folder. */
  function StatusRun(wsPath: string, wsFolder: string, git: (string, string) -> LibTools.GitRun): LibTools.GitRun
  {
    git(PathJoin(wsPath, wsFolder), LibTools.STATUS_CMD)
  }

  /** The pull of a workspace folder on `branch`. */
  function PullRun(wsPath: string, wsFolder: string, branch: string,
                   git: (string, string) -> LibTools.GitRun): LibTools.GitRun
  {
    git(PathJoin(wsPath, wsFolder), LibTools.PullCommand(branch))
  }

  /** One folder's report, or `None` when `git status` fails there (the
      `CalledProcessError` leaves the loop). */
  function FolderReport(wsPath: string, wsFolder: string, pkgName: string,
                        git: (string, string) -> LibTools.GitRun): (r: Option<Report>)
    ensures r.None? <==> StatusRun(wsPath, wsFolder, git).Failed?
    ensures r.Some? ==> r.value.pkgName == pkgName
  {
    var s := StatusRun(wsPath, wsFolder, git);
    if s.Failed? then None
    else
      var st := LibTools.Status(s.output);
      if st.hasChanges then Some(Report(pkgName, Changes, Info))
      else if st.branch.None? then Some(Report(pkgName, NoTrack, Info))
      else
        var pull := PullRun(wsPath, wsFolder, st.branch.value, git);
        if pull.Failed? then Some(Report(pkgName, GitError, Error))
        else
          var tag := GetStatusTag(pull.output);
          Some(Report(pkgName, tag, PullLevel(tag)))
  }

  /** Whether the folder is pulled: its checkout is clean and names a branch. */
  predicate IsPulled(wsPath: string, wsFolder: string, git: (string, string) -> LibTools.GitRun)
  {
    && StatusRun(wsPath, wsFolder, git).Succeeded?
    && !LibTools.Status(StatusRun(wsPath, wsFolder, git).output).hasChanges
    && LibTools.Status(StatusRun(wsPath, wsFolder, git).output).branch.Some?
  }

  /** The tag rules of one folder: changes first, then a missing branch, and
      only then the pull, whose failure is an error and whose output gives the
      tag otherwise. */
  lemma FolderReportRules(wsPath: string, wsFolder: string, pkgName: string,
                          git: (string, string) -> LibTools.GitRun)
    requires StatusRun(wsPath, wsFolder, git).Succeeded?
    ensures var st := LibTools.Status(StatusRun(wsPath, wsFolder, git).output);
            var r := FolderReport(wsPath, wsFolder, pkgName, git).value;
            && (r.tag == Changes <==> st.hasChanges)
            && (r.tag == NoTrack <==> !st.hasChanges && st.branch.None?)
            && (IsPulled(wsPath, wsFolder, git) ==>
                  var pull := PullRun(wsPath, wsFolder, st.branch.value, git);
                  && (r.tag == GitError <==> pull.Failed?)
                  && (pull.Failed? ==> r.level == Error)
                  && (pull.Succeeded? ==> r.tag == GetStatusTag(pull.output) && r.level == PullLevel(r.tag)))
  {
  }

  /** The whole run: the exception that ended it, if any, the reports, and
      the folders pulled. */
  datatype FoldersRun = FoldersRun(failure: Option<Exc>, reports: seq<Report>, pulled: seq<string>)

  function StatusError(wsPath: string, wsFolder: string, git: (string, string) -> LibTools.GitRun): Exc
    requires StatusRun(wsPath, wsFolder, git).Failed?
  {
    CalledProcessError(StatusRun(wsPath, wsFolder, git).returncode)
  }

  /** `update_folders` over the folders `ks` of `packages`. */
  function Run(wsPath: string, packages: Dict<string>, ks: seq<string>,
               git: (string, string) -> LibTools.GitRun): FoldersRun
    requires forall k :: k in ks ==> k in packages.vals
    decreases |ks|
  {
    if ks == [] then FoldersRun(None, [], [])
    else
      var report := FolderReport(wsPath, ks[0], packages.vals[ks[0]], git);
      if report.None? then FoldersRun(Some(StatusError(wsPath, ks[0], git)), [], [])
      else
        var rest := Run(wsPath, packages, ks[1..], git);
        var pulledHere := if IsPulled(wsPath, ks[0], git) then [PathJoin(wsPath, ks[0])] else [];
        FoldersRun(rest.failure, [report.value] + rest.reports, pulledHere + rest.pulled)
  }

  /** The run reports the folders in order, one report each, up to the first
      folder whose `git status` fails, and stops there with its error. */
  lemma {:induction false} RunReports(wsPath: string, packages: Dict<string>, ks: seq<string>,
                                      git: (string, string) -> LibTools.GitRun)
    requires forall k :: k in ks ==> k in packages.vals
    ensures var r := Run(wsPath, packages, ks, git);
            && |r.reports| <= |ks|
            && (forall j :: 0 <= j < |r.reports| ==>
                  Some(r.reports[j]) == FolderReport(wsPath, ks[j], packages.vals[ks[j]], git))
            && (r.failure.None? <==> |r.reports| == |ks|)
            && (r.failure.Some? ==> StatusRun(wsPath, ks[|r.reports|], git).Failed?
                                    && r.failure.value == StatusError(wsPath, ks[|r.reports|], git))
    decreases |ks|
  {
    if ks != [] && StatusRun(wsPath, ks[0], git).Succeeded? {
      RunReports(wsPath, packages, ks[1..], git);
      var rest := Run(wsPath, packages, ks[1..], git);
      var r := Run(wsPath, packages, ks, git);
      forall j | 0 <= j < |r.reports|
        ensures Some(r.reports[j]) == FolderReport(wsPath, ks[j], packages.vals[ks[j]], git)
      {
        if j > 0 {
          assert r.reports[j] == rest.reports[j - 1] && ks[j] == ks[1..][j - 1];
        }
      }
      if r.failure.Some? {
        assert ks[|r.reports|] == ks[1..][|rest.reports|];
      }
    }
  }

  /** Only clean checkouts on a branch are pulled. */
  lemma {:induction false} RunPullsOnlyTracked(wsPath: string, packages: Dict<string>, ks: seq<string>,
                                               git: (string, string) -> LibTools.GitRun)
    requires forall k :: k in ks ==> k in packages.vals
    ensures forall x :: x in Run(wsPath, packages, ks, git).pulled ==>
              exists j :: 0 <= j < |ks| && x == PathJoin(wsPath, ks[j]) && IsPulled(wsPath, ks[j], git)
    decreases |ks|
  {
    if ks != [] && StatusRun(wsPath, ks[0], git).Succeeded? {
      RunPullsOnlyTracked(wsPath, packages, ks[1..], git);
      var rest := Run(wsPath, packages, ks[1..], git);
      forall x | x in Run(wsPath, packages, ks, git).pulled
        ensures exists j :: 0 <= j < |ks| && x == PathJoin(wsPath, ks[j]) && IsPulled(wsPath, ks[j], git)
      {
        if x in rest.pulled {
          var j :| 0 <= j < |ks[1..]| && x == PathJoin(wsPath, ks[1..][j]) && IsPulled(wsPath, ks[1..][j], git);
          assert ks[j + 1] == ks[1..][j];
        } else {
          assert IsPulled(wsPath, ks[0], git);
        }
      }
    }
  }

  /** One turn of the loop, unfolded. */
  lemma CarryRun(wsPath: string, packages: Dict<string>, ks: seq<string>, i: nat,
                 git: (string, string) -> LibTools.GitRun)
    requires i < |ks| && forall k :: k in ks ==> k in packages.vals
    ensures var report := FolderReport(wsPath, ks[i], packages.vals[ks[i]], git);
            var rest := Run(wsPath, packages, ks[i + 1..], git);
            Run(wsPath, packages, ks[i..], git) ==
              if report.None? then FoldersRun(Some(StatusError(wsPath, ks[i], git)), [], [])
              else FoldersRun(rest.failure, [report.value] + rest.reports,
                              (if IsPulled(wsPath, ks[i], git) then [PathJoin(wsPath, ks[i])] else []) + rest.pulled)
  {
    assert ks[i..][0] == ks[i] && ks[i..][1..] == ks[i + 1..];
  }

  /** The loop invariant of `UpdateFoldersLoop` carried over a turn that
      reports. */
  lemma CarryReport(wsPath: string, packages: Dict<string>, ks: seq<string>, i: nat,
                    git: (string, string) -> LibTools.GitRun, target: FoldersRun,
                    reports: seq<Report>, pulled: seq<string>, report: Report, pulledHere: seq<string>)
    requires i < |ks| && forall k :: k in ks ==> k in packages.vals
    requires var rest := Run(wsPath, packages, ks[i..], git);
             target == FoldersRun(rest.failure, reports + rest.reports, pulled + rest.pulled)
    requires Some(report) == FolderReport(wsPath, ks[i], packages.vals[ks[i]], git)
    requires pulledHere == if IsPulled(wsPath, ks[i], git) then [PathJoin(wsPath, ks[i])] else []
    ensures var rest := Run(wsPath, packages, ks[i + 1..], git);
            target == FoldersRun(rest.failure, (reports + [report]) + rest.reports, (pulled + pulledHere) + rest.pulled)
  {
    CarryRun(wsPath, packages, ks, i, git);
    var rest := Run(wsPath, packages, ks[i + 1..], git);
    assert reports + ([report] + rest.reports) == (reports + [report]) + rest.reports;
    assert pulled + (pulledHere + rest.pulled) == (pulled + pulledHere) + rest.pulled;
  }

  /** The loop stops at a folder whose status fails. */
  lemma CarryStops(wsPath: string, packages: Dict<string>, ks: seq<string>, i: nat,
                   git: (string, string) -> LibTools.GitRun, target: FoldersRun,
                   reports: seq<Report>, pulled: seq<string>)
    requires i < |ks| && forall k :: k in ks ==> k in packages.vals
    requires var rest := Run(wsPath, packages, ks[i..], git);
             target == FoldersRun(rest.failure, reports + rest.reports, pulled + rest.pulled)
    requires StatusRun(wsPath, ks[i], git).Failed?
    ensures target == FoldersRun(Some(StatusError(wsPath, ks[i], git)), reports, pulled)
  {
    CarryRun(wsPath, packages, ks, i, git);
    assert reports + [] == reports && pulled + [] == pulled;
  }

  /** The body of the loop for one folder. */
  method UpdateFolder(wsPath: string, wsFolder: string, pkgName: string, git: (string, string) -> LibTools.GitRun)
    returns (report: Option<Report>, pulled: seq<string>)
    ensures report == FolderReport(wsPath, wsFolder, pkgName, git)
    ensures pulled == if IsPulled(wsPath, wsFolder, git) then [PathJoin(wsPath, wsFolder)] else []
  {
    var folder := PathJoin(wsPath, wsFolder);
    var status := git(folder, LibTools.STATUS_CMD);
    pulled := [];
    if status.Failed? {
      return None, pulled;
    }
    var output := status.output;
    if CountChar(output, '\n') > 1 {
      return Some(Report(pkgName, Changes, Info)), pulled;
    }
    var branch := LibTools.GetBranchName(output);
    if branch.None? {
      return Some(Report(pkgName, NoTrack, Info)), pulled;
    }
    var pull := git(folder, LibTools.PullCommand(branch.value));
    pulled := [folder];
    if pull.Failed? {
      return Some(Report(pkgName, GitError, Error)), pulled;
    }
    var statusTag := GetStatusTag(pull.output);
    var level := Info;
    if statusTag !in OK_TAGS {
      level := Warning;
    }
    report := Some(Report(pkgName, statusTag, level));
  }

  /** What `update_folders(ws_path, packages, _)` does. */
  function UpdateAll(wsPath: string, packages: Dict<string>, git: (string, string) -> LibTools.GitRun): FoldersRun
    requires packages.Valid()
  {
    Run(wsPath, packages, packages.keys, git)
  }

  /** `update_folders`: the folders in the dict's order; the conflict
      strategy is not read. */
  method UpdateFoldersLoop(wsPath: string, packages: Dict<string>, conflictStrategy: string,
                           git: (string, string) -> LibTools.GitRun)
    returns (failure: Option<Exc>, reports: seq<Report>, pulled: seq<string>)
    requires packages.Valid()
    ensures FoldersRun(failure, reports, pulled) == UpdateAll(wsPath, packages, git)
  {
    var ks := packages.keys;
    ghost var target := Run(wsPath, packages, ks, git);
    reports := [];
    pulled := [];
    var i := 0;
    assert ks[0..] == ks;
    while i < |ks|
      invariant 0 <= i <= |ks|
      invariant var rest := Run(wsPath, packages, ks[i..], git);
                target == FoldersRun(rest.failure, reports + rest.reports, pulled + rest.pulled)
    {
      var wsFolder := ks[i];
      var report, pulledHere := UpdateFolder(wsPath, wsFolder, packages.vals[wsFolder], git);
      if report.None? {
        CarryStops(wsPath, packages, ks, i, git, target, reports, pulled);
        return Some(StatusError(wsPath, wsFolder, git)), reports, pulled;
      }
      CarryReport(wsPath, packages, ks, i, git, target, reports, pulled, report.value, pulledHere);
      reports := reports + [report.value];
      pulled := pulled + pulledHere;
      i := i + 1;
    }
    assert ks[i..] == [];
    assert reports + [] == reports && pulled + [] == pulled;
    return None, reports, pulled;
  }

  /** The up-to-date message decides, wherever it stands and whatever else
      the output says (the passing pull output of tests/test_updater.py is
      one such output). */
  lemma UpToDateWins(before: string, after: string)
    ensures GetStatusTag(before + UP_TO_DATE_MSG + after) == UpToDate
  {
    ContainsInfix(before, UP_TO_DATE_MSG, after);
  }

  /** A pull output that reports the failed merge and has no `y` (so cannot
      hold the up-to-date message) is a conflict; the conflict output of
      tests/test_updater.py is one such output. */
  lemma MergeFailureIsConflict(before: string, after: string)
    requires 'y' !in before && 'y' !in after
    ensures GetStatusTag(before + MERGE_FAILED_MSG + after) == Conflict
  {
    var output := before + MERGE_FAILED_MSG + after;
    ContainsInfix(before, MERGE_FAILED_MSG, after);
    assert UP_TO_DATE_MSG[6] == 'y';
    assert 'y' !in MERGE_FAILED_MSG;
    assert 'y' !in output;
    ContainsNeedsChar(output, UP_TO_DATE_MSG, 'y');
  }
}
