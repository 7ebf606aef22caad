/** The `Updater` of catkin_tools_fetch/lib/update.py: it picks the workspace
    packages the user selected and pulls each one whose checkout is clean,
    logging one tag per package. Git is the oracle `git`, which maps a folder
    and a command line to the outcome of running that command there. The
    packages are a dict from workspace folder to package name. Line 65 unpacks
    the three results of `GitBridge.status` into two names; the update is
    modelled as written and next to the version that takes the status apart
    as intended. */
module LibUpdate {
  import opened Wrappers
  import opened Strs
  import opened Dicts
  import LibTools

  /** The tags a package can get. `NoTrack` is declared by the class but
      never given by `update_packages`. */
  datatype Tag = Changes | NoTrack | UpToDate | Pulled | GitError {
    /** The text of the tag in the log. */
    function Label(): string
    {
      match this
      case Changes => "[UNCOMMITTED CHANGES]"
      case NoTrack => "[NO BRANCH]"
      case UpToDate => "[UP TO DATE]"
      case Pulled => "[PULLED]"
      case GitError => "[GIT ERROR]"
    }
  }

  /** The message of `git pull` for a checkout that is up to date. */
  const UP_TO_DATE_MSG := "Already up-to-date"

  /** `ws_path`, `packages` (folder to package name) and `conflict_strategy`,
      fixed at construction. */
  datatype Updater = Updater(wsPath: string, packages: Dict<string>, conflictStrategy: string)

  /** One log line of the update: a package and the tag it got. */
  datatype Report = Report(pkgName: string, tag: Tag)

  // ---------------------------------------------------------------------
  // filter_packages
  // ---------------------------------------------------------------------

  /** `not selected_packages`: no list, or an empty one. */
  predicate NoSelection(selected: Option<seq<string>>)
  {
    selected.None? || selected.value == []
  }

  /** The folders of `ks`, in order, whose package is selected. */
  function SelectedFolders(ks: seq<string>, names: map<string, string>, selected: seq<string>): (r: seq<string>)
    requires forall k :: k in ks ==> k in names
    ensures forall x :: x in r ==> x in ks
  {
    if ks == [] then []
    else
      var last := ks[|ks| - 1];
      assert forall x :: x in ks[..|ks| - 1] ==> x in ks;
      SelectedFolders(ks[..|ks| - 1], names, selected) + (if names[last] in selected then [last] else [])
  }

  /** A folder is kept exactly when it is listed and its package is selected. */
  lemma {:induction false} SelectedFoldersSpec(ks: seq<string>, names: map<string, string>, selected: seq<string>)
    requires forall k :: k in ks ==> k in names
    ensures forall x :: x in SelectedFolders(ks, names, selected) <==> x in ks && names[x] in selected
  {
    if ks != [] {
      var init := ks[..|ks| - 1];
      SelectedFoldersSpec(init, names, selected);
      assert forall x :: x in ks <==> x in init || x == ks[|ks| - 1];
    }
  }

  /** The loop of `filter_packages` over the folders `ks`: each folder whose
      package is selected is written into the new dict. */
  function FilterFrom(ks: seq<string>, names: map<string, string>, selected: seq<string>): (r: Dict<string>)
    requires forall k :: k in ks ==> k in names
    ensures r.Valid() && forall k :: k in r.vals ==> k in ks && r.vals[k] == names[k]
  {
    if ks == [] then Empty()
    else
      var last := ks[|ks| - 1];
      assert forall x :: x in ks[..|ks| - 1] ==> x in ks;
      var d := FilterFrom(ks[..|ks| - 1], names, selected);
      if names[last] in selected then d.Put(last, names[last]) else d
  }

  /** The filtered dict holds exactly the folders whose package is selected,
      each with its package, in the order of `ks`. */
  lemma {:induction false} FilterFromSpec(ks: seq<string>, names: map<string, string>, selected: seq<string>)
    requires forall k :: k in ks ==> k in names
    requires forall i, j :: 0 <= i < j < |ks| ==> ks[i] != ks[j]
    ensures var r := FilterFrom(ks, names, selected);
            && r.keys == SelectedFolders(ks, names, selected)
            && (forall f :: f in r.vals <==> f in ks && names[f] in selected)
  {
    if ks != [] {
      var init := ks[..|ks| - 1];
      var last := ks[|ks| - 1];
      assert forall i, j :: 0 <= i < j < |init| ==> init[i] != init[j];
      FilterFromSpec(init, names, selected);
      assert forall x :: x in ks <==> x in init || x == last;
      assert last !in init;
    }
  }

  /** What `filter_packages(selected)` returns. */
  function Filtered(u: Updater, selected: Option<seq<string>>): (r: Dict<string>)
    requires u.packages.Valid()
    ensures r.Valid() && forall k :: k in r.vals ==> k in u.packages.vals && r.vals[k] == u.packages.vals[k]
  {
    if NoSelection(selected) then u.packages
    else FilterFrom(u.packages.keys, u.packages.vals, selected.value)
  }

  /** `filter_packages`: every package when nothing is selected; otherwise the
      folders whose package is selected, in the dict's order, with their
      packages. */
  lemma FilteredContents(u: Updater, selected: Option<seq<string>>)
    requires u.packages.Valid()
    ensures NoSelection(selected) ==> Filtered(u, selected) == u.packages
    ensures !NoSelection(selected) ==>
              && Filtered(u, selected).keys == SelectedFolders(u.packages.keys, u.packages.vals, selected.value)
              && forall f :: f in Filtered(u, selected).vals <==> f in u.packages.vals && u.packages.vals[f] in selected.value
  {
    if !NoSelection(selected) {
      FilterFromSpec(u.packages.keys, u.packages.vals, selected.value);
    }
  }

  /** The loop of `filter_packages`. */
  method FilterPackages(u: Updater, selected: Option<seq<string>>) returns (filtered: Dict<string>)
    requires u.packages.Valid()
    ensures filtered == Filtered(u, selected)
  {
    if NoSelection(selected) {
      return u.packages;
    }
    var sel := selected.value;
    var ks := u.packages.keys;
    var names := u.packages.vals;
    filtered := Empty();
    var i := 0;
    while i < |ks|
      invariant 0 <= i <= |ks|
      invariant filtered == FilterFrom(ks[..i], names, sel)
    {
      var wsFolder := ks[i];
      var package := names[wsFolder];
      assert ks[..i + 1][..i] == ks[..i];
      if package in sel {
        filtered := filtered.Put(wsFolder, package);
      }
      i := i + 1;
    }
    assert ks[..i] == ks;
  }

  // ---------------------------------------------------------------------
  // update_packages, corrected
  // ---------------------------------------------------------------------

  /** The tag of a successful or failed `git pull`. */
  function PullTag(run: LibTools.GitRun): (tag: Tag)
    ensures tag == GitError <==> run.Failed?
    ensures tag == UpToDate <==> run.Succeeded? && Contains(run.output, UP_TO_DATE_MSG)
    ensures tag == Pulled <==> run.Succeeded? && !Contains(run.output, UP_TO_DATE_MSG)
  {
    if run.Failed? then GitError
    else if Contains(run.output, UP_TO_DATE_MSG) then UpToDate
    else Pulled
  }

  /** The outcome of `git status` for one workspace folder. */
  function StatusRun(u: Updater, wsFolder: string, git: (string, string) -> LibTools.GitRun): LibTools.GitRun
  {
    git(PathJoin(u.wsPath, wsFolder), LibTools.STATUS_CMD)
  }

  /** The pull of one workspace folder, on the branch its status names
      (`None` when it names none, as `str.format` writes it). */
  function PullRun(u: Updater, wsFolder: string, branch: Option<string>,
                   git: (string, string) -> LibTools.GitRun): LibTools.GitRun
  {
    git(PathJoin(u.wsPath, wsFolder), LibTools.PullCommand(Text(branch)))
  }

  /** The tag one package gets, or `None` when `git status` itself fails (the
      `CalledProcessError` is not caught): a checkout with changes is not
      pulled; any other is pulled on its branch. */
  function PackageTag(u: Updater, wsFolder: string, git: (string, string) -> LibTools.GitRun): (r: Option<Tag>)
    ensures r.None? <==> StatusRun(u, wsFolder, git).Failed?
  {
    var s := StatusRun(u, wsFolder, git);
    if s.Failed? then None
    else
      var st := LibTools.Status(s.output);
      if st.hasChanges then Some(Changes)
      else Some(PullTag(PullRun(u, wsFolder, st.branch, git)))
  }

  /** The tag rules of one package: `Changes` exactly for a checkout with
      changes, which is not pulled; otherwise the tag of the pull on the
      branch of the status line. */
  lemma PackageTagRules(u: Updater, wsFolder: string, git: (string, string) -> LibTools.GitRun)
    requires StatusRun(u, wsFolder, git).Succeeded?
    ensures var st := LibTools.Status(StatusRun(u, wsFolder, git).output);
            var r := PackageTag(u, wsFolder, git);
            && r.Some?
            && (r.value == Changes <==> st.hasChanges)
            && (!st.hasChanges ==> r.value == PullTag(PullRun(u, wsFolder, st.branch, git)))
  {
  }

  /** The whole update over the folders `ks`: the exception that ended it, if
      any, the reports logged, and the folders pulled. */
  datatype UpdateRun = UpdateRun(failure: Option<Exc>, reports: seq<Report>, pulled: seq<string>)

  /** The status error of one folder, raised out of the loop. */
  function StatusError(u: Updater, wsFolder: string, git: (string, string) -> LibTools.GitRun): Exc
    requires StatusRun(u, wsFolder, git).Failed?
  {
    CalledProcessError(StatusRun(u, wsFolder, git).returncode)
  }

  /** `packages.items()`: the folders in order, each with its package. */
  function Items(d: Dict<string>): (r: seq<(string, string)>)
    requires d.Valid()
    ensures |r| == |d.keys| && forall j :: 0 <= j < |r| ==> r[j] == (d.keys[j], d.vals[d.keys[j]])
  {
    seq(|d.keys|, j requires 0 <= j < |d.keys| => (d.keys[j], d.vals[d.keys[j]]))
  }

  /** The loop of `update_packages` over the pairs `items`: the exception
      that ends it, the reports logged and the folders pulled. */
  function Run(u: Updater, items: seq<(string, string)>, git: (string, string) -> LibTools.GitRun): UpdateRun
  {
    if items == [] then UpdateRun(None, [], [])
    else
      var (wsFolder, package) := items[0];
      var tag := PackageTag(u, wsFolder, git);
      if tag.None? then UpdateRun(Some(StatusError(u, wsFolder, git)), [], [])
      else
        var rest := Run(u, items[1..], git);
        var pulledHere := if tag.value == Changes then [] else [PathJoin(u.wsPath, wsFolder)];
        UpdateRun(rest.failure, [Report(package, tag.value)] + rest.reports, pulledHere + rest.pulled)
  }

  /** The update reports the folders in order, one report each, up to the
      first folder whose `git status` fails, and stops there with that
      folder's error. */
  lemma {:induction false} RunReports(u: Updater, items: seq<(string, string)>, git: (string, string) -> LibTools.GitRun)
    ensures var r := Run(u, items, git);
            && |r.reports| <= |items|
            && (forall j :: 0 <= j < |r.reports| ==>
                  PackageTag(u, items[j].0, git).Some? && r.reports[j] == Report(items[j].1, PackageTag(u, items[j].0, git).value))
            && (r.failure.None? <==> |r.reports| == |items|)
            && (r.failure.Some? ==> PackageTag(u, items[|r.reports|].0, git).None?
                                    && r.failure.value == StatusError(u, items[|r.reports|].0, git))
  {
    if items != [] && PackageTag(u, items[0].0, git).Some? {
      RunReports(u, items[1..], git);
      var rest := Run(u, items[1..], git);
      var r := Run(u, items, git);
      forall j | 0 <= j < |r.reports|
        ensures PackageTag(u, items[j].0, git).Some? && r.reports[j] == Report(items[j].1, PackageTag(u, items[j].0, git).value)
      {
        if j > 0 {
          assert r.reports[j] == rest.reports[j - 1] && items[j] == items[1..][j - 1];
        }
      }
      if r.failure.Some? {
        assert items[|r.reports|] == items[1..][|rest.reports|];
      }
    }
  }

  /** The update completes exactly when `git status` succeeds in every folder. */
  lemma {:induction false} RunCompletesIff(u: Updater, items: seq<(string, string)>, git: (string, string) -> LibTools.GitRun)
    ensures Run(u, items, git).failure.None? <==> forall j :: 0 <= j < |items| ==> StatusRun(u, items[j].0, git).Succeeded?
  {
    RunReports(u, items, git);
  }

  /** Only folders whose checkout is clean are pulled, each in the place of
      its report. */
  lemma {:induction false} RunPullsClean(u: Updater, items: seq<(string, string)>, git: (string, string) -> LibTools.GitRun)
    ensures forall x :: x in Run(u, items, git).pulled ==>
              exists j :: 0 <= j < |items| && x == PathJoin(u.wsPath, items[j].0)
                          && StatusRun(u, items[j].0, git).Succeeded?
                          && !LibTools.Status(StatusRun(u, items[j].0, git).output).hasChanges
  {
    if items != [] && PackageTag(u, items[0].0, git).Some? {
      RunPullsClean(u, items[1..], git);
      var rest := Run(u, items[1..], git);
      forall x | x in Run(u, items, git).pulled
        ensures exists j :: 0 <= j < |items| && x == PathJoin(u.wsPath, items[j].0)
                            && StatusRun(u, items[j].0, git).Succeeded?
                            && !LibTools.Status(StatusRun(u, items[j].0, git).output).hasChanges
      {
        if x in rest.pulled {
          var j :| 0 <= j < |items[1..]| && x == PathJoin(u.wsPath, items[1..][j].0)
                   && StatusRun(u, items[1..][j].0, git).Succeeded?
                   && !LibTools.Status(StatusRun(u, items[1..][j].0, git).output).hasChanges;
          assert items[j + 1] == items[1..][j];
        } else {
          assert x == PathJoin(u.wsPath, items[0].0);
        }
      }
    }
  }

  /** What the corrected `update_packages(selected)` does. */
  function Update(u: Updater, selected: Option<seq<string>>, git: (string, string) -> LibTools.GitRun): UpdateRun
    requires u.packages.Valid()
  {
    Run(u, Items(Filtered(u, selected)), git)
  }

  /** One turn of the update loop, unfolded. */
  lemma CarryRun(u: Updater, items: seq<(string, string)>, i: nat, git: (string, string) -> LibTools.GitRun)
    requires i < |items|
    ensures var tag := PackageTag(u, items[i].0, git);
            var rest := Run(u, items[i + 1..], git);
            Run(u, items[i..], git) ==
              if tag.None? then UpdateRun(Some(StatusError(u, items[i].0, git)), [], [])
              else UpdateRun(rest.failure, [Report(items[i].1, tag.value)] + rest.reports,
                             (if tag.value == Changes then [] else [PathJoin(u.wsPath, items[i].0)]) + rest.pulled)
  {
    assert items[i..][0] == items[i] && items[i..][1..] == items[i + 1..];
  }

  /** The tag of one package, read off `git status` and, for a clean
      checkout, `git pull`; `pulled` is the folder when it was pulled. */
  method UpdateOne(u: Updater, wsFolder: string, git: (string, string) -> LibTools.GitRun)
    returns (tag: Option<Tag>, pulled: seq<string>)
    ensures tag == PackageTag(u, wsFolder, git)
    ensures pulled == if tag.Some? && tag.value != Changes then [PathJoin(u.wsPath, wsFolder)] else []
  {
    var folder := PathJoin(u.wsPath, wsFolder);
    var status := git(folder, LibTools.STATUS_CMD);
    pulled := [];
    if status.Failed? {
      return None, pulled;
    }
    var st := LibTools.Status(status.output);
    if st.hasChanges {
      return Some(Changes), pulled;
    }
    var output := git(folder, LibTools.PullCommand(Text(st.branch)));
    pulled := [folder];
    if output.Failed? {
      tag := Some(GitError);
    } else if Contains(output.output, UP_TO_DATE_MSG) {
      tag := Some(UpToDate);
    } else {
      tag := Some(Pulled);
    }
  }

  /** The loop of `UpdatePackages` stops at a folder whose status fails. */
  lemma CarryUpdateStops(u: Updater, items: seq<(string, string)>, i: nat, git: (string, string) -> LibTools.GitRun,
                         target: UpdateRun, reports: seq<Report>, pulled: seq<string>)
    requires i < |items|
    requires var rest := Run(u, items[i..], git);
             target == UpdateRun(rest.failure, reports + rest.reports, pulled + rest.pulled)
    requires StatusRun(u, items[i].0, git).Failed?
    ensures target == UpdateRun(Some(StatusError(u, items[i].0, git)), reports, pulled)
  {
    assert PackageTag(u, items[i].0, git).None?;
    CarryRun(u, items, i, git);
    assert Run(u, items[i..], git) == UpdateRun(Some(StatusError(u, items[i].0, git)), [], []);
    assert reports + [] == reports && pulled + [] == pulled;
  }

  /** Moving one report and its pulled folders from the part still to run to
      the part already done leaves the whole run as it was. */
  lemma ShiftRun(reports: seq<Report>, pulled: seq<string>, report: Report, pulledHere: seq<string>,
                 rest: UpdateRun)
    ensures UpdateRun(rest.failure, reports + ([report] + rest.reports), pulled + (pulledHere + rest.pulled))
         == UpdateRun(rest.failure, (reports + [report]) + rest.reports, (pulled + pulledHere) + rest.pulled)
  {
    assert reports + ([report] + rest.reports) == (reports + [report]) + rest.reports;
    assert pulled + (pulledHere + rest.pulled) == (pulled + pulledHere) + rest.pulled;
  }

  /** `update_packages` with line 65 reading all three results of
      `GitBridge.status`: for each selected folder in order, `git status`, then
      the tag rules of `PackageTag`. */
  method UpdatePackages(u: Updater, selected: Option<seq<string>>, git: (string, string) -> LibTools.GitRun)
    returns (failure: Option<Exc>, reports: seq<Report>, pulled: seq<string>)
    requires u.packages.Valid()
    ensures UpdateRun(failure, reports, pulled) == Update(u, selected, git)
  {
    var packages := FilterPackages(u, selected);
    var items := Items(packages);
    ghost var target := Run(u, items, git);
    reports := [];
    pulled := [];
    var i := 0;
    assert items[0..] == items;
    while i < |items|
      invariant 0 <= i <= |items|
      invariant var rest := Run(u, items[i..], git);
                target == UpdateRun(rest.failure, reports + rest.reports, pulled + rest.pulled)
    {
      var (wsFolder, package) := items[i];
      var tag, pulledHere := UpdateOne(u, wsFolder, git);
      if tag.None? {
        CarryUpdateStops(u, items, i, git, target, reports, pulled);
        return Some(StatusError(u, wsFolder, git)), reports, pulled;
      }
      CarryRun(u, items, i, git);
      ShiftRun(reports, pulled, Report(package, tag.value), pulledHere, Run(u, items[i + 1..], git));
      reports := reports + [Report(package, tag.value)];
      pulled := pulled + pulledHere;
      i := i + 1;
    }
    assert items[i..] == [];
    assert reports + [] == reports && pulled + [] == pulled;
    return None, reports, pulled;
  }

  // ---------------------------------------------------------------------
  // update_packages, as written
  // ---------------------------------------------------------------------

  /** Unpacking a triple into two names. */
  const UnpackError := ValueError("too many values to unpack (expected 2)")

  /** What `update_packages` does as written: with no selected folder,
      nothing; otherwise the first folder's `git status` runs, and then its
      triple fails to unpack (or `git status` itself fails first). */
  function UpdateAsWritten(u: Updater, selected: Option<seq<string>>, git: (string, string) -> LibTools.GitRun): UpdateRun
    requires u.packages.Valid()
  {
    var ks := Filtered(u, selected).keys;
    if ks == [] then UpdateRun(None, [], [])
    else if StatusRun(u, ks[0], git).Failed? then UpdateRun(Some(StatusError(u, ks[0], git)), [], [])
    else UpdateRun(Some(UnpackError), [], [])
  }

  /** `update_packages` as written. */
  method UpdatePackagesAsWritten(u: Updater, selected: Option<seq<string>>, git: (string, string) -> LibTools.GitRun)
    returns (failure: Option<Exc>, reports: seq<Report>, pulled: seq<string>)
    requires u.packages.Valid()
    ensures UpdateRun(failure, reports, pulled) == UpdateAsWritten(u, selected, git)
  {
    var packages := FilterPackages(u, selected);
    reports := [];
    pulled := [];
    if |packages.keys| > 0 {
      var wsFolder := packages.keys[0];
      var folder := PathJoin(u.wsPath, wsFolder);
      var status := git(folder, LibTools.STATUS_CMD);
      if status.Failed? {
        return Some(CalledProcessError(status.returncode)), reports, pulled;
      }
      return Some(UnpackError), reports, pulled;
    }
    return None, reports, pulled;
  }

  // ---------------------------------------------------------------------
  // The end-to-end case of tests/test_updater.py, in both readings
  // ---------------------------------------------------------------------

  /** A clean checkout of `master` that `git pull` finds up to date. */
  function UpToDateGit(folder: string, cmd: string): LibTools.GitRun
  {
    if cmd == LibTools.STATUS_CMD then LibTools.Succeeded("## master...origin/master\n")
    else LibTools.Succeeded("Already up-to-date.\n")
  }

  /** A status output of one line (ended by its newline) has no changes. */
  lemma OneLineStatusIsClean(line: string)
    requires '\n' !in line
    ensures !LibTools.Status(line + "\n").hasChanges
  {
    assert line + "\n" == line + ['\n'];
    CountOnlyLast(line, '\n');
  }

  /** A workspace of the one folder `.`, whose package is selected, is kept
      whole by `filter_packages`. */
  lemma SingleFolderIsSelected(u: Updater, selected: seq<string>)
    requires u.packages.Valid() && u.packages.keys == ["."] && u.packages.vals["."] in selected
    ensures Filtered(u, Some(selected)).keys == ["."]
    ensures Items(Filtered(u, Some(selected))) == [(".", u.packages.vals["."])]
  {
    var ks := u.packages.keys;
    assert ks[..0] == [] && ks[..1] == ks;
    assert FilterFrom(ks[..0], u.packages.vals, selected) == Empty();
  }

  /** One selected folder on a clean checkout: as written the update raises
      at the unpacking. */
  lemma UnpackRaisesOnCleanCheckout(u: Updater, selected: seq<string>, git: (string, string) -> LibTools.GitRun,
                                    line: string)
    requires u.packages.Valid() && u.packages.keys == ["."] && u.packages.vals["."] in selected
    requires StatusRun(u, ".", git) == LibTools.Succeeded(line + "\n")
    ensures UpdateAsWritten(u, Some(selected), git) == UpdateRun(Some(UnpackError), [], [])
  {
    SingleFolderIsSelected(u, selected);
  }

  /** A clean checkout is pulled, and tagged by the outcome of its pull. */
  lemma CleanCheckoutTag(u: Updater, git: (string, string) -> LibTools.GitRun, line: string, pullOutput: string)
    requires '\n' !in line
    requires StatusRun(u, ".", git) == LibTools.Succeeded(line + "\n")
    requires PullRun(u, ".", LibTools.GetBranchName(line + "\n"), git) == LibTools.Succeeded(pullOutput)
    ensures PackageTag(u, ".", git) == Some(PullTag(LibTools.Succeeded(pullOutput)))
  {
    OneLineStatusIsClean(line);
  }

  /** The same folder, once line 65 is corrected: its pull succeeds, so the
      update logs one report and pulls the folder. */
  lemma CleanCheckoutIsPulled(u: Updater, selected: seq<string>, git: (string, string) -> LibTools.GitRun,
                              line: string, pullOutput: string)
    requires u.packages.Valid() && u.packages.keys == ["."] && u.packages.vals["."] in selected
    requires '\n' !in line
    requires StatusRun(u, ".", git) == LibTools.Succeeded(line + "\n")
    requires PullRun(u, ".", LibTools.GetBranchName(line + "\n"), git) == LibTools.Succeeded(pullOutput)
    ensures Update(u, Some(selected), git) ==
              UpdateRun(None, [Report(u.packages.vals["."], PullTag(LibTools.Succeeded(pullOutput)))],
                        [PathJoin(u.wsPath, ".")])
  {
    var items := Items(Filtered(u, Some(selected)));
    assert items == [(".", u.packages.vals["."])] by {
      SingleFolderIsSelected(u, selected);
    }
    CleanCheckoutTag(u, git, line, pullOutput);
    assert Run(u, items[1..], git) == UpdateRun(None, [], []) by {
      assert items[1..] == [];
    }
    assert Run(u, items, git)
        == UpdateRun(None, [Report(u.packages.vals["."], PullTag(LibTools.Succeeded(pullOutput)))] + [],
                     [PathJoin(u.wsPath, ".")] + []) by {
      CarryRun(u, items, 0, git);
      assert items[0..] == items;
    }
    assert Update(u, Some(selected), git) == Run(u, items, git);
  }
}
